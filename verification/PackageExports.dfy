// Resolution of a package's "exports" field: nested targets, and subpath patterns with one star.
module PackageExports {
  import opened Strings
  import opened Wrappers

  datatype Json = Null | Text(text: string) | List(items: seq<Json>) | Object(entries: seq<Entry>) | Other

  datatype Entry = Entry(key: string, value: Json)

  datatype Resolution = Resolved(targets: seq<string>, terminal: bool) | Excluded | Unresolved

  const ACTIVE_CONDITIONS: seq<string> := ["require", "types", "node", "default"]
  const INVALID_TARGET_SEGMENTS: seq<string> := [".", "..", "node_modules"]

  // ---- Strings ----

  function Split(text: string, separator: char): (parts: seq<string>)
    ensures |parts| >= 1
  {
    if text == "" then [""]
    else
      var rest := Split(text[1..], separator);
      if text[0] == separator then [""] + rest else [[text[0]] + rest[0]] + rest[1..]
  }

  function IndexOf(text: string, c: char): int {
    if text == "" then -1
    else if text[0] == c then 0
    else if IndexOf(text[1..], c) == -1 then -1 else 1 + IndexOf(text[1..], c)
  }

  // GetSubstitution of ECMA-262, section 22.1.3.19.1, for a match of one star at `at`.
  function Substitution(target: string, at: nat, replacement: string): string
    requires at < |target|
  {
    if replacement == "" then ""
    else if |replacement| > 1 && replacement[0] == '$' && replacement[1] == '$' then
      "$" + Substitution(target, at, replacement[2..])
    else if |replacement| > 1 && replacement[0] == '$' && replacement[1] == '&' then
      "*" + Substitution(target, at, replacement[2..])
    else if |replacement| > 1 && replacement[0] == '$' && replacement[1] == '`' then
      target[..at] + Substitution(target, at, replacement[2..])
    else if |replacement| > 1 && replacement[0] == '$' && replacement[1] == '\'' then
      target[at + 1..] + Substitution(target, at, replacement[2..])
    else
      [replacement[0]] + Substitution(target, at, replacement[1..])
  }

  function ReplaceStars(target: string, from: nat, capture: string): string
    requires from <= |target|
    decreases |target| - from
  {
    if from == |target| then ""
    else
      var piece := if target[from] == '*' then Substitution(target, from, capture) else [target[from]];
      piece + ReplaceStars(target, from + 1, capture)
  }

  function SubstituteStar(target: string, star: Option<string>): string {
    match star
    case None => target
    case Some(capture) => ReplaceStars(target, 0, capture)
  }

  // ---- Targets ----

  predicate IsResolvableTarget(target: string) {
    StartsWith(target, "./") && forall segment <- Split(target, '/')[1..] :: segment !in INVALID_TARGET_SEGMENTS
  }

  // Each value is a proper part of the parent: what makes the walk end.
  ghost predicate Within(values: seq<Json>, parent: Json) {
    forall i :: 0 <= i < |values| ==> values[i] < parent
  }

  function ActiveTargets(entries: seq<Entry>): (active: seq<Json>)
    ensures forall i :: 0 <= i < |active| ==> exists j :: 0 <= j < |entries| && entries[j].value == active[i]
  {
    if entries == [] then []
    else
      var rest := ActiveTargets(entries[1..]);
      if entries[0].key in ACTIVE_CONDITIONS then [entries[0].value] + rest else rest
  }

  function ResolveTarget(value: Json, star: Option<string>): Resolution
    decreases value, 1
  {
    match value
    case Null => Excluded
    case Text(text) =>
      var target := SubstituteStar(text, star);
      if IsResolvableTarget(target) then Resolved([target], false) else Unresolved
    case List(items) => AppendTargets(items, star, [], value)
    case Object(entries) => AppendTargets(ActiveTargets(entries), star, [], value)
    case Other => Unresolved
  }

  function AppendTargets(
      entries: seq<Json>, star: Option<string>, accumulated: seq<string>, ghost parent: Json): Resolution
    requires Within(entries, parent)
    decreases parent, 0, |entries|
  {
    if entries == [] then
      if accumulated == [] then Unresolved else Resolved(accumulated, false)
    else
      match ResolveTarget(entries[0], star)
      case Resolved(targets, true) => Resolved(accumulated + targets, true)
      case Resolved(targets, false) => AppendTargets(entries[1..], star, accumulated + targets, parent)
      case Excluded => if accumulated == [] then Excluded else Resolved(accumulated, true)
      case Unresolved => AppendTargets(entries[1..], star, accumulated, parent)
  }

  // The flat scan: the resolvable strings and the nulls of a target from left to right, inactive conditions aside.
  datatype Leaf = Stop | Target(target: string)

  function Leaves(value: Json, star: Option<string>): seq<Leaf>
    decreases value, 1
  {
    match value
    case Null => [Stop]
    case Text(text) =>
      var target := SubstituteStar(text, star);
      if IsResolvableTarget(target) then [Target(target)] else []
    case List(items) => LeavesOf(items, star, value)
    case Object(entries) => LeavesOf(ActiveTargets(entries), star, value)
    case Other => []
  }

  function LeavesOf(values: seq<Json>, star: Option<string>, ghost parent: Json): seq<Leaf>
    requires Within(values, parent)
    decreases parent, 0, |values|
  {
    if values == [] then [] else Leaves(values[0], star) + LeavesOf(values[1..], star, parent)
  }

  function BeforeStop(leaves: seq<Leaf>): seq<string> {
    if leaves == [] || leaves[0].Stop? then [] else [leaves[0].target] + BeforeStop(leaves[1..])
  }

  function Scan(accumulated: seq<string>, leaves: seq<Leaf>): Resolution {
    var targets := accumulated + BeforeStop(leaves);
    if targets == [] then if Stop in leaves then Excluded else Unresolved
    else Resolved(targets, Stop in leaves)
  }

  lemma {:induction false} ScanPasses(first: seq<Leaf>, rest: seq<Leaf>)
    ensures BeforeStop(first + rest)
      == if Stop in first then BeforeStop(first) else BeforeStop(first) + BeforeStop(rest)
    ensures Stop in first + rest <==> Stop in first || Stop in rest
  {
    if first == [] {
      assert first + rest == rest;
    } else {
      assert (first + rest)[1..] == first[1..] + rest;
      ScanPasses(first[1..], rest);
    }
  }

  // Scanning on after a first part, by how that part scans alone.
  lemma ScanInParts(accumulated: seq<string>, first: seq<Leaf>, rest: seq<Leaf>)
    ensures Scan(accumulated, first + rest) ==
      match Scan([], first)
      case Resolved(targets, true) => Resolved(accumulated + targets, true)
      case Resolved(targets, false) => Scan(accumulated + targets, rest)
      case Excluded => if accumulated == [] then Excluded else Resolved(accumulated, true)
      case Unresolved => Scan(accumulated, rest)
  {
    ScanPasses(first, rest);
    var targets := BeforeStop(first);
    assert [] + targets == targets;
    assert accumulated + (targets + BeforeStop(rest)) == (accumulated + targets) + BeforeStop(rest);
  }

  /** A target resolves to the valid strings of its flat scan up to the first null: terminal when there is one,
      excluded when nothing stands before it, unresolved when there is neither string nor null. */
  lemma {:induction false} ResolutionIsFlatScan(value: Json, star: Option<string>)
    ensures ResolveTarget(value, star) == Scan([], Leaves(value, star))
    decreases value, 1
  {
    match value
    case List(items) => AppendIsFlatScan(items, star, [], value);
    case Object(entries) => AppendIsFlatScan(ActiveTargets(entries), star, [], value);
    case Null =>
    case Text(text) =>
      var target := SubstituteStar(text, star);
      assert BeforeStop([Target(target)]) == [target];
    case Other =>
  }

  lemma {:induction false} AppendIsFlatScan(
      entries: seq<Json>, star: Option<string>, accumulated: seq<string>, parent: Json)
    requires Within(entries, parent)
    ensures AppendTargets(entries, star, accumulated, parent) == Scan(accumulated, LeavesOf(entries, star, parent))
    decreases parent, 0, |entries|
  {
    if entries != [] {
      ResolutionIsFlatScan(entries[0], star);
      ScanInParts(accumulated, Leaves(entries[0], star), LeavesOf(entries[1..], star, parent));
      match ResolveTarget(entries[0], star) {
        case Resolved(targets, false) => AppendIsFlatScan(entries[1..], star, accumulated + targets, parent);
        case Unresolved => AppendIsFlatScan(entries[1..], star, accumulated, parent);
        case _ =>
      }
    }
  }

  // ---- Subpath patterns ----

  function StarPartsOf(key: string): Option<(string, string)> {
    var parts := Split(key, '*');
    if |parts| == 2 then Some((parts[0], parts[1])) else None
  }

  function PatternCaptureOf(key: string, subpath: string): Option<string> {
    match StarPartsOf(key)
    case None => None
    case Some((prefix, suffix)) =>
      if StartsWith(subpath, prefix) && EndsWith(subpath, suffix) && |subpath| >= |prefix| + |suffix|
      then Some(subpath[|prefix|..|subpath| - |suffix|])
      else None
  }

  function PatternKeyBaseLengthOf(key: string): int {
    if IndexOf(key, '*') == -1 then |key| else IndexOf(key, '*') + 1
  }

  function ComparePatternKeysOf(left: string, right: string): int {
    if PatternKeyBaseLengthOf(left) == PatternKeyBaseLengthOf(right) then |right| - |left|
    else PatternKeyBaseLengthOf(right) - PatternKeyBaseLengthOf(left)
  }

  datatype Match = Match(entry: Entry, star: string)

  function BetterMatch(best: Option<Match>, entry: Entry, subpath: string): Option<Match> {
    match PatternCaptureOf(entry.key, subpath)
    case None => best
    case Some(star) =>
      if best.None? || ComparePatternKeysOf(entry.key, best.value.entry.key) < 0 then Some(Match(entry, star)) else best
  }

  function BestPatternMatchOf(entries: seq<Entry>, subpath: string): Option<Match> {
    if entries == [] then None
    else BetterMatch(BestPatternMatchOf(entries[..|entries| - 1], subpath), entries[|entries| - 1], subpath)
  }

  function Lookup(entries: seq<Entry>, key: string): Option<Json> {
    if entries == [] then None
    else if entries[0].key == key then Some(entries[0].value)
    else Lookup(entries[1..], key)
  }

  function SubpathTargetOf(entries: seq<Entry>, subpath: string): Option<(Json, Option<string>)> {
    match Lookup(entries, subpath)
    case Some(value) => Some((value, None))
    case None =>
      match BestPatternMatchOf(entries, subpath)
      case None => None
      case Some(best) => Some((best.entry.value, Some(best.star)))
  }

  predicate HasSubpathKeys(entries: seq<Entry>) {
    exists entry <- entries :: StartsWith(entry.key, ".")
  }

  function ResolvePackageExports(exports: Json, subpath: string): Resolution {
    if exports.Object? && HasSubpathKeys(exports.entries) then
      match SubpathTargetOf(exports.entries, subpath)
      case None => Unresolved
      case Some((value, star)) => ResolveTarget(value, star)
    else if subpath == "." then ResolveTarget(exports, None)
    else Unresolved
  }

  lemma {:induction false} IndexIsFirst(text: string, c: char)
    ensures IndexOf(text, c) == -1 <==> c !in text
    ensures c in text ==>
      var i := IndexOf(text, c);
      0 <= i < |text| && text[i] == c && c !in text[..i]
  {
    if text != "" {
      assert text == [text[0]] + text[1..];
      if text[0] != c {
        IndexIsFirst(text[1..], c);
        assert IndexOf(text, c) != -1 ==> text[..IndexOf(text, c)] == [text[0]] + text[1..][..IndexOf(text, c) - 1];
      }
    }
  }

  // ---- Which targets and conditions count ----

  predicate EndsSegment(after: string) {
    after == "" || after[0] == '/'
  }

  lemma {:induction false} FirstSegment(text: string, segment: string)
    ensures Split(text, '/')[0] == segment
      <==> '/' !in segment && exists after :: EndsSegment(after) && text == segment + after
  {
    if text == "" {
      assert segment == "" ==> EndsSegment("") && text == segment + "";
    } else if text[0] == '/' {
      assert segment == "" ==> EndsSegment(text) && text == segment + text;
    } else {
      var rest := Split(text[1..], '/');
      FirstSegment(text[1..], rest[0]);
      var after :| EndsSegment(after) && text[1..] == rest[0] + after;
      assert text == ([text[0]] + rest[0]) + after;
      if '/' !in segment && exists other :: EndsSegment(other) && text == segment + other {
        var other :| EndsSegment(other) && text == segment + other;
        SameSegment(segment, other, [text[0]] + rest[0], after);
      }
    }
  }

  // A text starts with one segment only.
  lemma {:induction false} SameSegment(segment: string, after: string, segment': string, after': string)
    requires '/' !in segment && '/' !in segment' && EndsSegment(after) && EndsSegment(after')
    requires segment + after == segment' + after'
    ensures segment == segment'
  {
    var text, text' := segment + after, segment' + after';
    assert text != "" ==> text[0] == text'[0];
    if segment != "" && segment' != "" {
      assert text[1..] == segment[1..] + after && text'[1..] == segment'[1..] + after';
      SameSegment(segment[1..], after, segment'[1..], after');
    }
  }

  ghost predicate HasSegment(text: string, segment: string) {
    exists before, after :: EndsSegment(after) && text == before + "/" + segment + after
  }

  ghost predicate StartsSegment(text: string, segment: string) {
    exists after :: EndsSegment(after) && text == segment + after
  }

  lemma SegmentAhead(text: string, segment: string)
    requires text != "" && (HasSegment(text[1..], segment) || (text[0] == '/' && StartsSegment(text[1..], segment)))
    ensures HasSegment(text, segment)
  {
    if HasSegment(text[1..], segment) {
      var before, after :| EndsSegment(after) && text[1..] == before + "/" + segment + after;
      assert text == ([text[0]] + before) + "/" + segment + after;
    } else {
      var after :| EndsSegment(after) && text[1..] == segment + after;
      assert text == "" + "/" + segment + after;
    }
  }

  lemma SegmentBehind(text: string, segment: string)
    requires text != "" && HasSegment(text, segment)
    ensures HasSegment(text[1..], segment) || (text[0] == '/' && StartsSegment(text[1..], segment))
  {
    var before, after :| EndsSegment(after) && text == before + "/" + segment + after;
    if before == "" {
      assert text[1..] == segment + after;
    } else {
      assert text[1..] == before[1..] + "/" + segment + after;
    }
  }

  lemma {:induction false} LaterSegments(text: string, segment: string)
    requires '/' !in segment
    ensures segment in Split(text, '/')[1..] <==> HasSegment(text, segment)
  {
    if text != "" {
      LaterSegments(text[1..], segment);
      FirstSegment(text[1..], segment);
      if HasSegment(text, segment) {
        SegmentBehind(text, segment);
      } else if HasSegment(text[1..], segment) || (text[0] == '/' && StartsSegment(text[1..], segment)) {
        SegmentAhead(text, segment);
      }
      NextSegments(text);
    }
  }

  lemma {:induction false} NextSegments(text: string)
    requires text != ""
    ensures Split(text, '/')[1..] == Split(text[1..], '/')[if text[0] == '/' then 0 else 1..]
    ensures Split(text[1..], '/') == [Split(text[1..], '/')[0]] + Split(text[1..], '/')[1..]
  {
  }

  /** A target counts exactly when it starts with "./" and none of ".", ".." and "node_modules" stands between a slash
      and the next one or the end. */
  lemma TargetsAreExact(target: string)
    ensures IsResolvableTarget(target)
      <==> |target| >= 2 && target[0] == '.' && target[1] == '/'
           && !HasSegment(target, ".") && !HasSegment(target, "..") && !HasSegment(target, "node_modules")
  {
    LaterSegments(target, ".");
    LaterSegments(target, "..");
    LaterSegments(target, "node_modules");
    assert INVALID_TARGET_SEGMENTS[0] == "." && INVALID_TARGET_SEGMENTS[1] == "..";
    assert INVALID_TARGET_SEGMENTS[2] == "node_modules";
    assert StartsWith(target, "./") <==> |target| >= 2 && target[0] == '.' && target[1] == '/';
  }

  lemma {:induction false} ActiveInParts(a: seq<Entry>, b: seq<Entry>)
    ensures ActiveTargets(a + b) == ActiveTargets(a) + ActiveTargets(b)
  {
    if a == [] {
      assert a + b == b;
    } else {
      assert (a + b)[0] == a[0] && (a + b)[1..] == a[1..] + b;
      ActiveInParts(a[1..], b);
    }
  }

  /** Of the conditions of a target, "require", "types", "node" and "default" count, in the order they are listed. */
  lemma {:induction false} ConditionsAreExact(before: seq<Entry>, entry: Entry, after: seq<Entry>)
    ensures ActiveTargets([]) == []
    ensures ActiveTargets(before + ([entry] + after))
      == ActiveTargets(before)
         + ((if entry.key == "require" || entry.key == "types" || entry.key == "node" || entry.key == "default" then
               [entry.value]
             else [])
            + ActiveTargets(after))
  {
    ActiveInParts(before, [entry] + after);
    ActiveFirst(entry, after);
    ActiveConditions(entry.key);
  }

  lemma {:induction false} ActiveFirst(entry: Entry, after: seq<Entry>)
    ensures ActiveTargets([entry] + after)
      == (if entry.key in ACTIVE_CONDITIONS then [entry.value] else []) + ActiveTargets(after)
  {
    assert ([entry] + after)[0] == entry && ([entry] + after)[1..] == after;
  }

  lemma ActiveConditions(key: string)
    ensures key in ACTIVE_CONDITIONS <==> key == "require" || key == "types" || key == "node" || key == "default"
  {
    assert ACTIVE_CONDITIONS[0] == "require" && ACTIVE_CONDITIONS[1] == "types";
    assert ACTIVE_CONDITIONS[2] == "node" && ACTIVE_CONDITIONS[3] == "default";
  }

  // ---- Patterns: what a capture is, and which key wins ----

  lemma {:induction false} NoStar(key: string)
    ensures |Split(key, '*')| == 1 <==> '*' !in key
    ensures '*' !in key ==> Split(key, '*') == [key]
  {
    if key != "" {
      NoStar(key[1..]);
      assert key == [key[0]] + key[1..];
    }
  }

  lemma {:induction false} OneStar(key: string)
    ensures StarPartsOf(key).Some? ==>
      var (prefix, suffix) := StarPartsOf(key).value;
      && key == prefix + "*" + suffix && IndexOf(key, '*') == |prefix|
      && '*' !in prefix && '*' !in suffix
  {
    if key != "" {
      assert key == [key[0]] + key[1..];
      if key[0] == '*' {
        NoStar(key[1..]);
      } else {
        OneStar(key[1..]);
      }
    }
  }

  lemma {:induction false} PartsOfStar(prefix: string, suffix: string)
    requires '*' !in prefix && '*' !in suffix
    ensures StarPartsOf(prefix + "*" + suffix) == Some((prefix, suffix))
  {
    var key := prefix + "*" + suffix;
    if prefix == "" {
      assert key[1..] == suffix;
      NoStar(suffix);
    } else {
      assert key[1..] == prefix[1..] + "*" + suffix;
      PartsOfStar(prefix[1..], suffix);
      assert prefix == [prefix[0]] + prefix[1..];
    }
  }

  /** A key matches a subpath, with a capture, exactly when the subpath is the key with that capture for its one
      star; an empty capture is accepted. */
  lemma CaptureIsExact(key: string, subpath: string, capture: string)
    ensures PatternCaptureOf(key, subpath) == Some(capture)
      <==> exists prefix, suffix :: '*' !in prefix && '*' !in suffix
             && key == prefix + "*" + suffix && subpath == prefix + capture + suffix
  {
    OneStar(key);
    if PatternCaptureOf(key, subpath) == Some(capture) {
      var (prefix, suffix) := StarPartsOf(key).value;
      assert subpath == prefix + capture + suffix;
    }
    forall prefix, suffix | '*' !in prefix && '*' !in suffix
      && key == prefix + "*" + suffix && subpath == prefix + capture + suffix
      ensures PatternCaptureOf(key, subpath) == Some(capture)
    {
      PartsOfStar(prefix, suffix);
      assert subpath[|subpath| - |suffix|..] == suffix;
    }
  }

  // A pair of characters a replacement gives a meaning of its own.
  predicate IsPattern(first: char, second: char) {
    first == '$' && second in "$&`'"
  }

  predicate HoldsPattern(capture: string) {
    exists i :: 0 <= i < |capture| - 1 && IsPattern(capture[i], capture[i + 1])
  }

  lemma PatternsInRest(capture: string)
    requires |capture| > 1 && !IsPattern(capture[0], capture[1])
    ensures HoldsPattern(capture) <==> HoldsPattern(capture[1..])
  {
    if i :| 0 <= i < |capture| - 1 && IsPattern(capture[i], capture[i + 1]) {
      assert IsPattern(capture[1..][i - 1], capture[1..][i]);
    }
    if i :| 0 <= i < |capture[1..]| - 1 && IsPattern(capture[1..][i], capture[1..][i + 1]) {
      assert IsPattern(capture[i + 1], capture[i + 2]);
    }
  }

  lemma {:induction false} PlainSubstitution(target: string, at: nat, capture: string)
    requires at < |target| && !HoldsPattern(capture)
    ensures Substitution(target, at, capture) == capture
  {
    if |capture| > 1 {
      assert !IsPattern(capture[0], capture[1]);
      PatternsInRest(capture);
    }
    if capture != "" {
      PlainSubstitution(target, at, capture[1..]);
    }
  }

  // In a target that is a star alone, each pattern stands for at most one character.
  lemma {:induction false} PatternsShorten(capture: string)
    ensures |Substitution("*", 0, capture)| <= |capture|
    ensures HoldsPattern(capture) ==> |Substitution("*", 0, capture)| < |capture|
  {
    if |capture| > 1 && IsPattern(capture[0], capture[1]) {
      PatternsShorten(capture[2..]);
    } else if capture != "" {
      if |capture| > 1 {
        PatternsInRest(capture);
      }
      PatternsShorten(capture[1..]);
    }
  }

  lemma {:induction false} NoStarsNoChange(target: string, from: nat, capture: string)
    requires from <= |target| && '*' !in target[from..]
    ensures ReplaceStars(target, from, capture) == target[from..]
    decreases |target| - from
  {
    if from < |target| {
      NoStarsNoChange(target, from + 1, capture);
    }
  }

  lemma {:induction false} NoStarPrefix(target: string, from: nat, to: nat, capture: string)
    requires from <= to <= |target| && '*' !in target[from..to]
    ensures ReplaceStars(target, from, capture) == target[from..to] + ReplaceStars(target, to, capture)
    decreases |target| - from
  {
    if from < to {
      assert target[from..to] == [target[from]] + target[from + 1..to];
      NoStarPrefix(target, from + 1, to, capture);
    }
  }

  lemma {:induction false} OneStarReplaced(prefix: string, suffix: string, capture: string)
    requires '*' !in prefix && '*' !in suffix && !HoldsPattern(capture)
    ensures ReplaceStars(prefix + "*" + suffix, 0, capture) == prefix + capture + suffix
  {
    var target, at := prefix + "*" + suffix, |prefix|;
    assert target[0..at] == prefix && target[at + 1..] == suffix;
    NoStarPrefix(target, 0, at, capture);
    PlainSubstitution(target, at, capture);
    NoStarsNoChange(target, at + 1, capture);
    assert ReplaceStars(target, at, capture) == capture + suffix;
  }

  /** A capture is put back unchanged for the star of every target with one exactly when it holds none of the pairs
      "$$", "$&", "$`" and "$'". */
  lemma CaptureIsPutBackExactly(capture: string)
    ensures (forall prefix, suffix :: '*' !in prefix && '*' !in suffix ==>
               SubstituteStar(prefix + "*" + suffix, Some(capture)) == prefix + capture + suffix)
      <==> !HoldsPattern(capture)
  {
    if HoldsPattern(capture) {
      PatternsShorten(capture);
      var none := "";
      assert none + "*" + none == "*" && none + capture + none == capture;
      assert ReplaceStars("*", 1, capture) == "";
      assert ReplaceStars("*", 0, capture) == Substitution("*", 0, capture);
      assert '*' !in none && SubstituteStar(none + "*" + none, Some(capture)) != none + capture + none;
    } else {
      forall prefix, suffix | '*' !in prefix && '*' !in suffix
        ensures SubstituteStar(prefix + "*" + suffix, Some(capture)) == prefix + capture + suffix
      {
        OneStarReplaced(prefix, suffix, capture);
      }
    }
  }

  lemma {:induction false} ReplacedFrom(a: string, b: string, from: nat, capture: string)
    requires from <= |b| && !HoldsPattern(capture)
    ensures ReplaceStars(a + b, |a| + from, capture) == ReplaceStars(b, from, capture)
    decreases |b| - from
  {
    if from < |b| {
      ReplacedFrom(a, b, from + 1, capture);
      assert (a + b)[|a| + from] == b[from];
      PlainSubstitution(a + b, |a| + from, capture);
      PlainSubstitution(b, from, capture);
    }
  }

  lemma {:induction false} ReplacedTo(a: string, b: string, from: nat, capture: string)
    requires from <= |a| && !HoldsPattern(capture)
    ensures ReplaceStars(a + b, from, capture) == ReplaceStars(a, from, capture) + ReplaceStars(b, 0, capture)
    decreases |a| - from
  {
    if from == |a| {
      ReplacedFrom(a, b, 0, capture);
    } else {
      ReplacedTo(a, b, from + 1, capture);
      assert (a + b)[from] == a[from];
      PlainSubstitution(a + b, from, capture);
      PlainSubstitution(a, from, capture);
    }
  }

  lemma StarReplaced(capture: string)
    requires !HoldsPattern(capture)
    ensures SubstituteStar("*", Some(capture)) == capture
  {
    PlainSubstitution("*", 0, capture);
    assert ReplaceStars("*", 1, capture) == "";
  }

  lemma {:induction false} ReplacedInParts(a: string, b: string, capture: string)
    requires !HoldsPattern(capture)
    ensures SubstituteStar(a + b, Some(capture)) == SubstituteStar(a, Some(capture)) + SubstituteStar(b, Some(capture))
  {
    ReplacedTo(a, b, 0, capture);
  }

  /** Such a capture is put back for every star of a target with several. */
  lemma {:induction false} EveryStarReplaced(before: string, after: string, capture: string)
    requires !HoldsPattern(capture)
    ensures SubstituteStar(before + "*" + after, Some(capture))
      == SubstituteStar(before, Some(capture)) + capture + SubstituteStar(after, Some(capture))
  {
    ReplacedInParts(before + "*", after, capture);
    ReplacedInParts(before, "*", capture);
    StarReplaced(capture);
  }

  /** A capture is put back a piece at a time: a dollar sign, the star, what is before it or after it for the four
      pairs, and a character for itself. */
  lemma SubstitutionIsExact(target: string, at: nat, piece: string, rest: string)
    requires at < |target|
    ensures Substitution(target, at, "") == ""
    ensures |piece| == 2 && IsPattern(piece[0], piece[1]) ==>
      Substitution(target, at, piece + rest) ==
        (if piece[1] == '$' then "$" else if piece[1] == '&' then "*"
         else if piece[1] == '`' then target[..at] else target[at + 1..])
        + Substitution(target, at, rest)
    ensures |piece| == 1 && (rest == "" || !IsPattern(piece[0], rest[0])) ==>
      Substitution(target, at, piece + rest) == piece + Substitution(target, at, rest)
  {
    var capture := piece + rest;
    assert capture[|piece|..] == rest;
    assert |piece| == 1 ==> piece == [capture[0]];
    assert |piece| == 2 ==> capture[0] == piece[0] && capture[1] == piece[1];
  }

  /** What the four pairs stand for, at a target's one star: a dollar sign, the star, what is before it and after it. */
  lemma {:induction false} PairsStandFor(target: string, at: nat)
    requires at < |target| && target[at] == '*' && '*' !in target[..at] && '*' !in target[at + 1..]
    ensures SubstituteStar(target, Some("$$")) == target[..at] + "$" + target[at + 1..]
    ensures SubstituteStar(target, Some("$&")) == target[..at] + "*" + target[at + 1..]
    ensures SubstituteStar(target, Some("$`")) == target[..at] + target[..at] + target[at + 1..]
    ensures SubstituteStar(target, Some("$'")) == target[..at] + target[at + 1..] + target[at + 1..]
  {
    PairReplaced(target, at, "$$");
    PairReplaced(target, at, "$&");
    PairReplaced(target, at, "$`");
    PairReplaced(target, at, "$'");
  }

  lemma {:induction false} PairReplaced(target: string, at: nat, pair: string)
    requires at < |target| && target[at] == '*' && '*' !in target[..at] && '*' !in target[at + 1..]
    requires |pair| == 2 && IsPattern(pair[0], pair[1])
    ensures SubstituteStar(target, Some(pair)) == target[..at] + Substitution(target, at, pair) + target[at + 1..]
    ensures Substitution(target, at, pair) ==
      if pair[1] == '$' then "$" else if pair[1] == '&' then "*"
      else if pair[1] == '`' then target[..at] else target[at + 1..]
  {
    assert target[0..at] == target[..at];
    NoStarPrefix(target, 0, at, pair);
    NoStarsNoChange(target, at + 1, pair);
    PairGives(target, at, pair);
  }

  lemma {:induction false} PairGives(target: string, at: nat, pair: string)
    requires at < |target| && |pair| == 2 && IsPattern(pair[0], pair[1])
    ensures Substitution(target, at, pair) ==
      if pair[1] == '$' then "$" else if pair[1] == '&' then "*"
      else if pair[1] == '`' then target[..at] else target[at + 1..]
  {
    assert pair[2..] == "" && Substitution(target, at, pair[2..]) == "";
  }

  /** So what a key captured from a subpath, substituted back into the key, gives the subpath. */
  lemma CaptureRoundTrip(key: string, subpath: string)
    requires PatternCaptureOf(key, subpath).Some? && !HoldsPattern(PatternCaptureOf(key, subpath).value)
    ensures SubstituteStar(key, PatternCaptureOf(key, subpath)) == subpath
  {
    OneStar(key);
    var (prefix, suffix) := StarPartsOf(key).value;
    OneStarReplaced(prefix, suffix, PatternCaptureOf(key, subpath).value);
  }

  /** A capture that holds such a pair can give something else: "$&" stands for the star it replaces. */
  lemma DollarCaptureExpands()
    ensures PatternCaptureOf("./*", "./$&") == Some("$&") && SubstituteStar("./*", Some("$&")) == "./*"
  {
    assert "./*" == "./" + "*" + "";
    PartsOfStar("./", "");
    assert "./$&"[..2] == "./";
    assert "./$&"[2..4] == "$&";
    assert "$&"[2..] == "";
    assert ReplaceStars("./*", 3, "$&") == "";
    assert ReplaceStars("./*", 2, "$&") == "*";
    assert ReplaceStars("./*", 1, "$&") == "/*";
  }

  /** Two different keys that match one subpath never compare equal, and the comparison is a strict order. */
  lemma MatchingKeysDiffer(left: string, right: string, subpath: string)
    requires PatternCaptureOf(left, subpath).Some? && PatternCaptureOf(right, subpath).Some?
    ensures ComparePatternKeysOf(left, right) == 0 <==> left == right
    ensures ComparePatternKeysOf(left, right) == -ComparePatternKeysOf(right, left)
  {
    OneStar(left);
    OneStar(right);
    var (prefix, suffix) := StarPartsOf(left).value;
    var (prefix', suffix') := StarPartsOf(right).value;
    if ComparePatternKeysOf(left, right) == 0 {
      assert |prefix| == |prefix'| && |suffix| == |suffix'|;
      assert prefix == subpath[..|prefix|] == prefix';
      assert suffix == subpath[|subpath| - |suffix|..] == suffix';
    }
  }

  ghost predicate DistinctKeys(entries: seq<Entry>) {
    forall i, j :: 0 <= i < j < |entries| ==> entries[i].key != entries[j].key
  }

  // The key with that text for its star is the subpath.
  ghost predicate Matches(key: string, prefix: string, suffix: string, capture: string, subpath: string) {
    '*' !in prefix && '*' !in suffix && key == prefix + "*" + suffix && subpath == prefix + capture + suffix
  }

  // The winner: of the listed keys that match, the one with the longest text before its star, and of those with that
  // text the longest.
  ghost predicate Wins(entries: seq<Entry>, subpath: string, best: Match) {
    best.entry in entries
    && exists prefix, suffix ::
         && Matches(best.entry.key, prefix, suffix, best.star, subpath)
         && forall e <- entries, p, s, c :: Matches(e.key, p, s, c, subpath) && e.key != best.entry.key ==>
              |p| < |prefix| || (p == prefix && |e.key| < |best.entry.key|)
  }

  lemma MatchIsCapture(key: string, prefix: string, suffix: string, capture: string, subpath: string)
    requires Matches(key, prefix, suffix, capture, subpath)
    ensures PatternCaptureOf(key, subpath) == Some(capture) && StarPartsOf(key) == Some((prefix, suffix))
  {
    PartsOfStar(prefix, suffix);
    CaptureIsExact(key, subpath, capture);
  }

  lemma CaptureIsMatch(key: string, subpath: string)
    requires PatternCaptureOf(key, subpath).Some?
    ensures
      var (prefix, suffix) := StarPartsOf(key).value;
      Matches(key, prefix, suffix, PatternCaptureOf(key, subpath).value, subpath)
  {
    OneStar(key);
    var (prefix, suffix) := StarPartsOf(key).value;
    assert subpath == prefix + PatternCaptureOf(key, subpath).value + suffix;
  }

  // What the comparison of two keys that match says of their parts.
  lemma ComparedByParts(
      left: string, p: string, s: string, c: string, right: string, p': string, s': string, c': string, subpath: string)
    requires Matches(left, p, s, c, subpath) && Matches(right, p', s', c', subpath)
    ensures ComparePatternKeysOf(left, right) < 0 <==> |p'| < |p| || (p' == p && |right| < |left|)
  {
    MatchIsCapture(left, p, s, c, subpath);
    MatchIsCapture(right, p', s', c', subpath);
    OneStar(left);
    OneStar(right);
    if |p| == |p'| {
      assert p == subpath[..|p|] == p';
    }
  }

  lemma FirstIsWinner(entries: seq<Entry>, subpath: string, best: Match)
    ensures ComesFirst(entries, subpath, best) <==> Wins(entries, subpath, best)
  {
    if ComesFirst(entries, subpath, best) {
      CaptureIsMatch(best.entry.key, subpath);
      var (prefix, suffix) := StarPartsOf(best.entry.key).value;
      forall e, p, s, c | e in entries && Matches(e.key, p, s, c, subpath) && e.key != best.entry.key
        ensures |p| < |prefix| || (p == prefix && |e.key| < |best.entry.key|)
      {
        MatchIsCapture(e.key, p, s, c, subpath);
        ComparedByParts(best.entry.key, prefix, suffix, best.star, e.key, p, s, c, subpath);
      }
    }
    if Wins(entries, subpath, best) {
      WinnerIsFirst(entries, subpath, best);
    }
  }

  lemma WinnerIsFirst(entries: seq<Entry>, subpath: string, best: Match)
    requires Wins(entries, subpath, best)
    ensures ComesFirst(entries, subpath, best)
  {
    var prefix, suffix :|
      && Matches(best.entry.key, prefix, suffix, best.star, subpath)
      && forall e <- entries, p, s, c :: Matches(e.key, p, s, c, subpath) && e.key != best.entry.key ==>
           |p| < |prefix| || (p == prefix && |e.key| < |best.entry.key|);
    MatchIsCapture(best.entry.key, prefix, suffix, best.star, subpath);
    forall e | e in entries && PatternCaptureOf(e.key, subpath).Some? && e.key != best.entry.key
      ensures ComparePatternKeysOf(best.entry.key, e.key) < 0
    {
      CaptureIsMatch(e.key, subpath);
      var (p, s) := StarPartsOf(e.key).value;
      ComparedByParts(best.entry.key, prefix, suffix, best.star, e.key, p, s, PatternCaptureOf(e.key, subpath).value,
        subpath);
    }
  }

  // It matches, and compares strictly before every other key that matches.
  ghost predicate ComesFirst(entries: seq<Entry>, subpath: string, best: Match) {
    && best.entry in entries && PatternCaptureOf(best.entry.key, subpath) == Some(best.star)
    && forall e <- entries :: PatternCaptureOf(e.key, subpath).Some? && e.key != best.entry.key ==>
         ComparePatternKeysOf(best.entry.key, e.key) < 0
  }

  lemma {:induction false} BestMatchWins(entries: seq<Entry>, subpath: string)
    ensures BestPatternMatchOf(entries, subpath).Some? ==>
      ComesFirst(entries, subpath, BestPatternMatchOf(entries, subpath).value)
    ensures BestPatternMatchOf(entries, subpath).None? ==> forall e <- entries :: PatternCaptureOf(e.key, subpath).None?
  {
    if entries != [] {
      var front, last := entries[..|entries| - 1], entries[|entries| - 1];
      assert entries == front + [last];
      BestMatchWins(front, subpath);
      var before := BestPatternMatchOf(front, subpath);
      if before.Some? && PatternCaptureOf(last.key, subpath).Some? {
        MatchingKeysDiffer(last.key, before.value.entry.key, subpath);
      }
    }
  }

  lemma OneWinner(entries: seq<Entry>, subpath: string, best: Match, other: Match)
    requires DistinctKeys(entries) && ComesFirst(entries, subpath, best) && ComesFirst(entries, subpath, other)
    ensures best == other
  {
    MatchingKeysDiffer(best.entry.key, other.entry.key, subpath);
  }

  lemma {:induction false} LookupFinds(entries: seq<Entry>, key: string, value: Json)
    requires DistinctKeys(entries)
    ensures Lookup(entries, key) == Some(value) <==> Entry(key, value) in entries
  {
    if entries != [] {
      LookupFinds(entries[1..], key, value);
      assert entries == [entries[0]] + entries[1..];
    }
  }

  lemma {:induction false} SameEntriesSameLookup(entries: seq<Entry>, other: seq<Entry>, key: string)
    requires DistinctKeys(entries) && DistinctKeys(other) && forall e :: e in entries <==> e in other
    ensures Lookup(entries, key) == Lookup(other, key)
  {
    if Lookup(entries, key).Some? {
      LookupFinds(entries, key, Lookup(entries, key).value);
      LookupFinds(other, key, Lookup(entries, key).value);
    }
    if Lookup(other, key).Some? {
      LookupFinds(entries, key, Lookup(other, key).value);
      LookupFinds(other, key, Lookup(other, key).value);
    }
  }

  lemma {:induction false} SameEntriesSameWinner(entries: seq<Entry>, other: seq<Entry>, subpath: string)
    requires DistinctKeys(entries) && forall e :: e in entries <==> e in other
    ensures BestPatternMatchOf(entries, subpath) == BestPatternMatchOf(other, subpath)
  {
    BestMatchWins(entries, subpath);
    BestMatchWins(other, subpath);
    var a, b := BestPatternMatchOf(entries, subpath), BestPatternMatchOf(other, subpath);
    if a.Some? && b.Some? {
      assert ComesFirst(entries, subpath, b.value);
      OneWinner(entries, subpath, a.value, b.value);
    }
  }

  ghost predicate HasSubpaths(exports: Json) {
    exports.Object? && exists e <- exports.entries :: e.key != "" && e.key[0] == '.'
  }

  ghost predicate NoneMatches(entries: seq<Entry>, subpath: string) {
    forall e <- entries, p, s, c :: !Matches(e.key, p, s, c, subpath)
  }

  /** An exact key beats every pattern, the winning pattern all others, and what is chosen resolves as its flat scan;
      without subpath keys only the package's root resolves. */
  lemma {:induction false} SubpathResolution(exports: Json, subpath: string)
    requires exports.Object? ==> DistinctKeys(exports.entries)
    ensures HasSubpaths(exports) ==>
      && (forall value :: Entry(subpath, value) in exports.entries ==>
            ResolvePackageExports(exports, subpath) == Scan([], Leaves(value, None)))
      && ((forall e <- exports.entries :: e.key != subpath) ==>
            && (forall best :: Wins(exports.entries, subpath, best) ==>
                  ResolvePackageExports(exports, subpath) == Scan([], Leaves(best.entry.value, Some(best.star))))
            && (NoneMatches(exports.entries, subpath) ==> ResolvePackageExports(exports, subpath) == Unresolved)
            && (NoneMatches(exports.entries, subpath) || exists best :: Wins(exports.entries, subpath, best)))
    ensures !HasSubpaths(exports) ==>
      ResolvePackageExports(exports, subpath) == if subpath == "." then Scan([], Leaves(exports, None)) else Unresolved
  {
    assert HasSubpaths(exports) <==> exports.Object? && HasSubpathKeys(exports.entries);
    if HasSubpaths(exports) {
      var entries := exports.entries;
      forall value | Entry(subpath, value) in entries
        ensures ResolvePackageExports(exports, subpath) == Scan([], Leaves(value, None))
      {
        LookupFinds(entries, subpath, value);
        ResolutionIsFlatScan(value, None);
      }
      if forall e <- entries :: e.key != subpath {
        NoPatternUnlessListed(entries, subpath);
      }
    } else {
      ResolutionIsFlatScan(exports, None);
    }
  }

  lemma NoneCaptures(entries: seq<Entry>, subpath: string)
    ensures NoneMatches(entries, subpath) <==> forall e <- entries :: PatternCaptureOf(e.key, subpath).None?
  {
    forall e | e in entries && PatternCaptureOf(e.key, subpath).Some? ensures !NoneMatches(entries, subpath) {
      CaptureIsMatch(e.key, subpath);
    }
    forall e, p, s, c | e in entries && Matches(e.key, p, s, c, subpath)
      ensures PatternCaptureOf(e.key, subpath).Some?
    {
      MatchIsCapture(e.key, p, s, c, subpath);
    }
  }

  lemma NoPatternUnlessListed(entries: seq<Entry>, subpath: string)
    requires DistinctKeys(entries) && HasSubpathKeys(entries) && forall e <- entries :: e.key != subpath
    ensures forall best :: Wins(entries, subpath, best) ==>
      ResolvePackageExports(Object(entries), subpath) == Scan([], Leaves(best.entry.value, Some(best.star)))
    ensures NoneMatches(entries, subpath) ==> ResolvePackageExports(Object(entries), subpath) == Unresolved
    ensures NoneMatches(entries, subpath) || exists best :: Wins(entries, subpath, best)
  {
    if Lookup(entries, subpath).Some? {
      LookupFinds(entries, subpath, Lookup(entries, subpath).value);
      assert false;
    }
    BestMatchWins(entries, subpath);
    NoneCaptures(entries, subpath);
    if BestPatternMatchOf(entries, subpath).Some? {
      FirstIsWinner(entries, subpath, BestPatternMatchOf(entries, subpath).value);
    }
    forall best | Wins(entries, subpath, best)
      ensures ResolvePackageExports(Object(entries), subpath) == Scan([], Leaves(best.entry.value, Some(best.star)))
    {
      FirstIsWinner(entries, subpath, best);
      OneWinner(entries, subpath, best, BestPatternMatchOf(entries, subpath).value);
      ResolutionIsFlatScan(best.entry.value, Some(best.star));
    }
  }

  /** How a subpath resolves does not depend on the order of the subpath keys. */
  lemma ResolutionIgnoresEntryOrder(entries: seq<Entry>, other: seq<Entry>, subpath: string)
    requires DistinctKeys(entries) && DistinctKeys(other) && forall e :: e in entries <==> e in other
    requires HasSubpathKeys(entries)
    ensures ResolvePackageExports(Object(entries), subpath) == ResolvePackageExports(Object(other), subpath)
  {
    SameEntriesSameLookup(entries, other, subpath);
    SameEntriesSameWinner(entries, other, subpath);
    var e :| e in entries && StartsWith(e.key, ".");
    assert e in other;
  }
}
