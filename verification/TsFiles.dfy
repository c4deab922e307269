// The checker's in-memory files: each file is read from disk once, and mutants are spliced into its original
// text by position. What the disk holds and what the clock shows are parameters of each operation.
module TsFiles {
  import opened Location
  import opened Strings
  import opened Wrappers

  datatype ScriptFile = ScriptFile(
    fileName: string, originalContent: string, content: string, modifiedTime: int, lineStarts: seq<Offset>)

  datatype Mutant = Mutant(start: Position, end: Position, replacement: string)

  datatype FileError = FileNotFound(fileName: string) | MutantOutsideFile(fileName: string)

  type Files = map<string, Option<ScriptFile>>

  function NormalizeFileName(fileName: string): string {
    seq(|fileName|, i requires 0 <= i < |fileName| => if fileName[i] == '\\' then '/' else fileName[i])
  }

  predicate IsSlash(c: char) {
    c == '/' || c == '\\'
  }

  /** Two spellings name one file exactly when they differ only in which way their slashes lean. */
  lemma SpellingsOfOneFile(a: string, b: string)
    ensures NormalizeFileName(a) == NormalizeFileName(b)
      <==> |a| == |b| && forall i :: 0 <= i < |a| ==> a[i] == b[i] || (IsSlash(a[i]) && IsSlash(b[i]))
    ensures '\\' !in a ==> NormalizeFileName(a) == a
  {
    if NormalizeFileName(a) == NormalizeFileName(b) {
      forall i | 0 <= i < |a| ensures a[i] == b[i] || (IsSlash(a[i]) && IsSlash(b[i])) {
        assert NormalizeFileName(a)[i] == NormalizeFileName(b)[i];
      }
    }
  }

  // String.prototype.slice of ECMA-262, section 22.1.3.22: a negative index counts from the end.
  function ClampedIndex(index: int, length: nat): (clamped: nat)
    ensures clamped <= length
  {
    if index < 0 then if length + index < 0 then 0 else length + index
    else if index < length then index else length
  }

  function Slice(text: string, start: int, end: int): string {
    var from, to := ClampedIndex(start, |text|), ClampedIndex(end, |text|);
    if from < to then text[from..to] else ""
  }

  /** A slice's ends past the text are the text's, and a negative one counts from its end. */
  lemma SliceIsExact(text: string, start: int, end: int)
    ensures start < -|text| ==> Slice(text, start, end) == Slice(text, 0, end)
    ensures end < -|text| ==> Slice(text, start, end) == ""
    ensures -|text| <= start < 0 ==> Slice(text, start, end) == Slice(text, |text| + start, end)
    ensures -|text| <= end < 0 ==> Slice(text, start, end) == Slice(text, start, |text| + end)
    ensures start > |text| ==> Slice(text, start, end) == ""
    ensures end > |text| ==> Slice(text, start, end) == Slice(text, start, |text|)
    ensures 0 <= start <= end <= |text| ==> Slice(text, start, end) == text[start..end]
    ensures 0 <= end < start <= |text| ==> Slice(text, start, end) == ""
  {
  }

  function Splice(text: string, start: int, end: int, replacement: string): string {
    Slice(text, 0, start) + replacement + Slice(text, end, |text|)
  }

  function MakeScriptFile(content: string, fileName: string, now: int): ScriptFile {
    ScriptFile(fileName, content, content, now, LineStartsOf(content))
  }

  function MutateScriptFile(file: ScriptFile, mutant: Mutant, now: int): Option<ScriptFile> {
    match (OffsetAt(file.lineStarts, mutant.start), OffsetAt(file.lineStarts, mutant.end))
    case (Some(start), Some(end)) =>
      Some(file.(content := Splice(file.originalContent, start, end, mutant.replacement), modifiedTime := now))
    case _ => None
  }

  function ResetScriptFile(file: ScriptFile, now: int): ScriptFile {
    file.(content := file.originalContent, modifiedTime := now)
  }

  class FileStore {
    var files: Files
    var overrides: map<string, string>

    constructor ()
      ensures files == map[] && overrides == map[]
    {
      files, overrides := map[], map[];
    }

    method ReadFromDisk(fileName: string, disk: Option<string>, now: int) returns (file: Option<ScriptFile>)
      modifies this`files
      ensures file == match disk case Some(content) => Some(MakeScriptFile(content, fileName, now)) case None => None
      ensures files == old(files)[fileName := file]
    {
      match disk {
        case Some(content) => file := Some(MakeScriptFile(content, fileName, now));
        case None => file := None;
      }
      files := files[fileName := file];
    }

    method GetFile(fileName: string, disk: Option<string>, now: int) returns (file: Option<ScriptFile>)
      modifies this`files
      ensures files == Step(old(files), Get(fileName, disk, now))
      ensures NormalizeFileName(fileName) in files && file == files[NormalizeFileName(fileName)]
    {
      var normalized := NormalizeFileName(fileName);
      if normalized in files {
        file := files[normalized];
      } else {
        file := ReadFromDisk(normalized, disk, now);
      }
    }

    method MutateFile(fileName: string, mutant: Mutant, disk: Option<string>, at: int, now: int)
      returns (outcome: Result<(), FileError>)
      modifies this`files
      ensures files == Step(old(files), Mutate(fileName, mutant, disk, at, now))
      ensures outcome == MutateOutcome(old(files), fileName, mutant, disk, now)
    {
      var file := GetFile(fileName, disk, now);
      match file {
        case None => return Err(FileNotFound(fileName));
        case Some(found) =>
          match MutateScriptFile(found, mutant, at) {
            case None => return Err(MutantOutsideFile(fileName));
            case Some(mutated) =>
              files := files[NormalizeFileName(fileName) := Some(mutated)];
              return Ok(());
          }
      }
    }

    method ResetFile(fileName: string, at: int)
      modifies this`files
      ensures files == Step(old(files), Reset(fileName, at))
    {
      var normalized := NormalizeFileName(fileName);
      if normalized in files {
        match files[normalized] {
          case None =>
          case Some(file) => files := files[normalized := Some(ResetScriptFile(file, at))];
        }
      }
    }

    method SetOverrides(next: map<string, string>)
      modifies this`overrides
      ensures overrides == next
    {
      overrides := next;
    }
  }

  // ---- Runs of operations ----

  datatype Op =
    | Get(fileName: string, disk: Option<string>, now: int)
    | Mutate(fileName: string, mutant: Mutant, disk: Option<string>, at: int, now: int)
    | Reset(fileName: string, at: int)

  function Read(files: Files, fileName: string, disk: Option<string>, now: int): Files {
    if fileName in files then files
    else files[fileName := if disk.Some? then Some(MakeScriptFile(disk.value, fileName, now)) else None]
  }

  function Step(files: Files, op: Op): Files {
    var name := NormalizeFileName(op.fileName);
    match op
    case Get(_, disk, now) => Read(files, name, disk, now)
    case Mutate(_, mutant, disk, at, now) =>
      var loaded := Read(files, name, disk, now);
      (match loaded[name]
       case None => loaded
       case Some(file) =>
         match MutateScriptFile(file, mutant, at)
         case None => loaded
         case Some(mutated) => loaded[name := Some(mutated)])
    case Reset(_, at) =>
      if name in files && files[name].Some? then files[name := Some(ResetScriptFile(files[name].value, at))] else files
  }

  function MutateOutcome(files: Files, fileName: string, mutant: Mutant, disk: Option<string>, now: int)
    : Result<(), FileError>
  {
    match Read(files, NormalizeFileName(fileName), disk, now)[NormalizeFileName(fileName)]
    case None => Err(FileNotFound(fileName))
    case Some(file) =>
      if Inside(file.lineStarts, mutant) then Ok(()) else Err(MutantOutsideFile(fileName))
  }

  function Run(ops: seq<Op>): Files {
    if ops == [] then map[] else Step(Run(ops[..|ops| - 1]), ops[|ops| - 1])
  }

  // ---- What a run leaves behind, told from its operations alone ----

  predicate Inside(lineStarts: seq<Offset>, mutant: Mutant) {
    OffsetAt(lineStarts, mutant.start).Some? && OffsetAt(lineStarts, mutant.end).Some?
  }

  predicate Reads(op: Op, name: string) {
    !op.Reset? && NormalizeFileName(op.fileName) == name
  }

  // What the disk held when a file was first asked for.
  function FirstRead(ops: seq<Op>, name: string): Option<Option<string>> {
    if ops == [] then None
    else if Reads(ops[0], name) then Some(ops[0].disk)
    else FirstRead(ops[1..], name)
  }

  // The mutant of the last operation on a file that succeeded: none when that was a reset, or when there is none.
  function LastEdit(ops: seq<Op>, name: string, lineStarts: seq<Offset>): Option<Mutant> {
    if ops == [] then None
    else
      var op := ops[|ops| - 1];
      if NormalizeFileName(op.fileName) == name && op.Reset? then None
      else if NormalizeFileName(op.fileName) == name && op.Mutate? && Inside(lineStarts, op.mutant) then Some(op.mutant)
      else LastEdit(ops[..|ops| - 1], name, lineStarts)
  }

  function Edited(text: string, edit: Option<Mutant>): string
    requires edit.Some? ==> Inside(LineStartsOf(text), edit.value)
  {
    match edit
    case None => text
    case Some(m) =>
      Splice(text, OffsetAt(LineStartsOf(text), m.start).value, OffsetAt(LineStartsOf(text), m.end).value,
        m.replacement)
  }

  lemma {:induction false} FirstReadGrows(ops: seq<Op>, op: Op, name: string)
    ensures FirstRead(ops + [op], name)
      == if FirstRead(ops, name).Some? then FirstRead(ops, name)
         else if Reads(op, name) then Some(op.disk) else None
  {
    if ops == [] {
      assert ops + [op] == [op];
    } else {
      FirstReadGrows(ops[1..], op, name);
      assert (ops + [op])[1..] == ops[1..] + [op];
    }
  }

  lemma {:induction false} LastEditIsInside(ops: seq<Op>, name: string, lineStarts: seq<Offset>)
    ensures LastEdit(ops, name, lineStarts).Some? ==> Inside(lineStarts, LastEdit(ops, name, lineStarts).value)
  {
    if ops != [] {
      LastEditIsInside(ops[..|ops| - 1], name, lineStarts);
    }
  }

  ghost predicate Holds(files: Files, name: string, read: Option<Option<string>>, ops: seq<Op>) {
    match read
    case None => name !in files
    case Some(None) => name in files && files[name] == None
    case Some(Some(text)) =>
      LastEditIsInside(ops, name, LineStartsOf(text));
      && name in files && files[name].Some?
      && var file := files[name].value;
      && file.fileName == name && file.originalContent == text && file.lineStarts == LineStartsOf(text)
      && file.content == Edited(text, LastEdit(ops, name, LineStartsOf(text)))
  }

  // Before its first read a file has nothing to reset and no mutant.
  lemma {:induction false} UnreadUnedited(ops: seq<Op>, name: string, lineStarts: seq<Offset>)
    requires FirstRead(ops, name).None?
    ensures LastEdit(ops, name, lineStarts).None?
  {
    if ops != [] {
      var front := ops[..|ops| - 1];
      assert front + [ops[|ops| - 1]] == ops;
      FirstReadGrows(front, ops[|ops| - 1], name);
      UnreadUnedited(front, name, lineStarts);
    }
  }

  // An operation on another file keeps what is held.
  lemma {:induction false} OtherHolds(files: Files, name: string, front: seq<Op>, op: Op)
    requires Holds(files, name, FirstRead(front, name), front) && NormalizeFileName(op.fileName) != name
    ensures Holds(Step(files, op), name, FirstRead(front, name), front + [op])
  {
    assert (front + [op])[..|front|] == front;
  }

  // So does each operation on a file that was read before.
  lemma {:induction false} SameHolds(files: Files, name: string, front: seq<Op>, op: Op)
    requires Holds(files, name, FirstRead(front, name), front)
    requires NormalizeFileName(op.fileName) == name && FirstRead(front, name).Some?
    ensures Holds(Step(files, op), name, FirstRead(front, name), front + [op])
  {
    assert (front + [op])[..|front|] == front;
    match op
    case Get(_, _, _) =>
    case Mutate(_, _, disk, _, now) => assert Read(files, name, disk, now) == files;
    case Reset(_, _) =>
  }

  lemma {:induction false} StepHolds(files: Files, name: string, front: seq<Op>, op: Op)
    requires Holds(files, name, FirstRead(front, name), front)
    ensures FirstRead(front, name).Some? || NormalizeFileName(op.fileName) != name ==>
      Holds(Step(files, op), name, FirstRead(front, name), front + [op])
    ensures FirstRead(front, name).None? && op.Reset? ==> name !in Step(files, op)
  {
    if NormalizeFileName(op.fileName) != name {
      OtherHolds(files, name, front, op);
    } else if FirstRead(front, name).Some? {
      SameHolds(files, name, front, op);
    }
  }

  lemma {:induction false} FirstUseHolds(files: Files, name: string, front: seq<Op>, op: Op)
    requires FirstRead(front, name).None? && name !in files && Reads(op, name)
    ensures Holds(Step(files, op), name, Some(op.disk), front + [op])
  {
    assert (front + [op])[..|front|] == front;
    if op.disk.Some? {
      UnreadUnedited(front, name, LineStartsOf(op.disk.value));
    }
  }

  /** After any run, a file holds what the disk first held for it, unchanged, with its content the original or
      one splice of the original: that of the last operation on it that succeeded. */
  lemma {:induction false} RunKeepsOriginals(ops: seq<Op>, name: string)
    ensures Holds(Run(ops), name, FirstRead(ops, name), ops)
  {
    if ops != [] {
      var front, op := ops[..|ops| - 1], ops[|ops| - 1];
      assert front + [op] == ops;
      RunKeepsOriginals(front, name);
      FirstReadGrows(front, op, name);
      if FirstRead(front, name).None? && Reads(op, name) {
        FirstUseHolds(Run(front), name, front, op);
      } else {
        StepHolds(Run(front), name, front, op);
      }
    }
  }

  /** A mutation fails exactly when the file could not be read at its first use, or an end of the mutant lies on
      no line of the text first read; otherwise it succeeds, whatever was mutated or reset before. */
  lemma {:induction false} MutationOutcome(
      ops: seq<Op>, fileName: string, mutant: Mutant, disk: Option<string>, now: int)
    ensures
      var read := FirstRead(ops, NormalizeFileName(fileName));
      var text := if read.Some? then read.value else disk;
      MutateOutcome(Run(ops), fileName, mutant, disk, now)
      == match text
         case None => Err(FileNotFound(fileName))
         case Some(t) => if Inside(LineStartsOf(t), mutant) then Ok(()) else Err(MutantOutsideFile(fileName))
  {
    RunKeepsOriginals(ops, NormalizeFileName(fileName));
  }

  lemma {:induction false} LineOf(lineStarts: seq<Offset>, offset: Offset)
    requires IsLineStarts(lineStarts) && offset >= 0
    ensures OffsetAt(lineStarts, PositionAt(lineStarts, offset)) == Some(offset)
  {
    OffsetsAndPositionsAreInverse(lineStarts, PositionAt(lineStarts, offset), offset);
  }

  lemma SliceAtOffsets(text: string, start: nat, end: nat)
    requires start <= end <= |text|
    ensures Slice(text, 0, start) == text[..start] && Slice(text, end, |text|) == text[end..]
  {
  }

  /** A mutant whose ends are the positions of two offsets of the text replaces exactly the characters between
      them, whatever happened to the file before. */
  lemma {:induction false} SpliceIsExact(ops: seq<Op>, op: Op, text: string, start: nat, end: nat)
    requires start <= end <= |text| && op.Mutate?
    requires FirstRead(ops + [op], NormalizeFileName(op.fileName)) == Some(Some(text))
    requires op.mutant.start == PositionAt(LineStartsOf(text), start)
    requires op.mutant.end == PositionAt(LineStartsOf(text), end)
    ensures
      var name := NormalizeFileName(op.fileName);
      && name in Run(ops + [op]) && Run(ops + [op])[name].Some?
      && Run(ops + [op])[name].value.content == text[..start] + op.mutant.replacement + text[end..]
  {
    LineStartsAreExact(text);
    LineOf(LineStartsOf(text), start);
    LineOf(LineStartsOf(text), end);
    RunKeepsOriginals(ops + [op], NormalizeFileName(op.fileName));
    SliceAtOffsets(text, start, end);
  }

  // ---- What the compiler reads ----

  datatype Source = FromDisk | Absent | Text(text: string)

  function ReadFile(files: Files, overrides: map<string, string>, fileName: string): Source {
    var name := NormalizeFileName(fileName);
    if EndsWith(name, ".tsbuildinfo") then Absent
    else if name in overrides then Text(overrides[name])
    else if name !in files then FromDisk
    else match files[name] case None => Absent case Some(file) => Text(file.content)
  }

  /** Resetting a file after any run makes the compiler read what it would have read had no mutant ever been
      applied to it. */
  lemma {:induction false} ResetForgetsMutants(ops: seq<Op>, overrides: map<string, string>, fileName: string, at: int)
    ensures
      var name := NormalizeFileName(fileName);
      ReadFile(Run(ops + [Reset(fileName, at)]), overrides, fileName)
      == if EndsWith(name, ".tsbuildinfo") then Absent
         else if name in overrides then Text(overrides[name])
         else match FirstRead(ops, name)
              case None => FromDisk
              case Some(None) => Absent
              case Some(Some(text)) => Text(text)
  {
    var name := NormalizeFileName(fileName);
    FirstReadGrows(ops, Reset(fileName, at), name);
    RunKeepsOriginals(ops + [Reset(fileName, at)], name);
  }

  // ---- When a file last changed ----

  // The time of the last operation that read, mutated or reset a readable file.
  function LastChange(ops: seq<Op>, name: string): Option<int> {
    if ops == [] then None
    else
      var front, op := ops[..|ops| - 1], ops[|ops| - 1];
      var before, after := FirstRead(front, name), FirstRead(ops, name);
      if NormalizeFileName(op.fileName) != name || after.None? || after.value.None? then LastChange(front, name)
      else
        match op
        case Get(_, _, now) => if before.None? then Some(now) else LastChange(front, name)
        case Mutate(_, mutant, _, at, now) =>
          if Inside(LineStartsOf(after.value.value), mutant) then Some(at)
          else if before.None? then Some(now) else LastChange(front, name)
        case Reset(_, at) => Some(at)
  }

  ghost predicate HoldsTime(files: Files, ops: seq<Op>, name: string) {
    name in files && files[name].Some? ==> Some(files[name].value.modifiedTime) == LastChange(ops, name)
  }

  lemma {:induction false} OtherTime(files: Files, front: seq<Op>, op: Op, name: string)
    requires HoldsTime(files, front, name) && NormalizeFileName(op.fileName) != name
    ensures HoldsTime(Step(files, op), front + [op], name)
  {
    assert (front + [op])[..|front|] == front;
  }

  // An operation on a file that was read before.
  lemma {:induction false} SameTime(files: Files, front: seq<Op>, op: Op, name: string)
    requires Holds(files, name, FirstRead(front, name), front) && HoldsTime(files, front, name)
    requires NormalizeFileName(op.fileName) == name && FirstRead(front, name).Some?
    ensures HoldsTime(Step(files, op), front + [op], name)
  {
    assert (front + [op])[..|front|] == front;
    FirstReadGrows(front, op, name);
    match op
    case Get(_, _, _) =>
    case Mutate(_, _, disk, _, now) => assert Read(files, name, disk, now) == files;
    case Reset(_, _) =>
  }

  // The last change after one more operation on a file not read before.
  lemma {:induction false} FirstChange(front: seq<Op>, op: Op, name: string)
    requires FirstRead(front, name).None? && NormalizeFileName(op.fileName) == name
    requires !op.Reset? && op.disk.Some?
    ensures LastChange(front + [op], name) ==
      Some(if op.Mutate? && Inside(LineStartsOf(op.disk.value), op.mutant) then op.at else op.now)
  {
    assert (front + [op])[..|front|] == front;
    FirstReadGrows(front, op, name);
  }

  // An operation on one that was not.
  lemma {:induction false} FirstTime(files: Files, front: seq<Op>, op: Op, name: string)
    requires name !in files && FirstRead(front, name).None? && NormalizeFileName(op.fileName) == name
    ensures HoldsTime(Step(files, op), front + [op], name)
  {
    if !op.Reset? && op.disk.Some? {
      FirstChange(front, op, name);
      var read := Read(files, name, op.disk, op.now);
      assert read[name] == Some(MakeScriptFile(op.disk.value, name, op.now));
    }
  }

  lemma {:induction false} StepTime(files: Files, front: seq<Op>, op: Op, name: string)
    requires Holds(files, name, FirstRead(front, name), front) && HoldsTime(files, front, name)
    ensures HoldsTime(Step(files, op), front + [op], name)
  {
    if NormalizeFileName(op.fileName) != name {
      OtherTime(files, front, op, name);
    } else if FirstRead(front, name).Some? {
      SameTime(files, front, op, name);
    } else {
      FirstTime(files, front, op, name);
    }
  }

  /** After any run, a file's modified time is that of the last operation that changed it: its first read, a mutation
      that succeeded or a reset. */
  lemma {:induction false} RunKeepsTimes(ops: seq<Op>, name: string)
    ensures HoldsTime(Run(ops), ops, name)
  {
    if ops != [] {
      var front, op := ops[..|ops| - 1], ops[|ops| - 1];
      assert front + [op] == ops;
      RunKeepsOriginals(front, name);
      RunKeepsTimes(front, name);
      StepTime(Run(front), front, op, name);
    }
  }
}
