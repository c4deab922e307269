// De-duplication of the mutants of one site by their printed code, up to redundant outer parentheses.
module MutantSetPolicy {
  import Options

  datatype Facts = Facts(originalCode: string, replacementCode: string)

  datatype Rule = EquivalentToOriginal | DuplicateAtSite

  datatype Outcome = Suppressed(rule: Rule) | Kept

  // ---- Canonical forms ----

  // White space and line terminators: sections 12.2 and 12.3 of ECMA-262.
  predicate IsSpace(c: char) {
    c in "\t\n\U{000B}\U{000C}\r \U{00A0}\U{1680}\U{2028}\U{2029}\U{202F}\U{205F}\U{3000}\U{FEFF}"
    || '\U{2000}' <= c <= '\U{200A}'
  }

  function TrimStart(text: string): (trimmed: string)
    ensures |trimmed| <= |text|
  {
    if text != "" && IsSpace(text[0]) then TrimStart(text[1..]) else text
  }

  function TrimEnd(text: string): (trimmed: string)
    ensures |trimmed| <= |text|
  {
    if text != "" && IsSpace(text[|text| - 1]) then TrimEnd(text[..|text| - 1]) else text
  }

  function Trim(text: string): (trimmed: string)
    ensures |trimmed| <= |text|
  {
    TrimEnd(TrimStart(text))
  }

  function ParenDepthDelta(c: char): int {
    if c == '(' then 1 else if c == ')' then -1 else 0
  }

  function DepthsAfter(text: string): (depths: seq<int>)
    ensures |depths| == |text|
  {
    if text == "" then []
    else
      var before := DepthsAfter(text[..|text| - 1]);
      var depth := if before == [] then 0 else before[|before| - 1];
      before + [depth + ParenDepthDelta(text[|text| - 1])]
  }

  predicate WrapsWhole(text: string) {
    var depths := DepthsAfter(text);
    && text != "" && text[0] == '(' && text[|text| - 1] == ')' && |depths| > 0
    && (forall i :: 0 <= i < |depths| - 1 ==> depths[i] >= 1)
    && depths[|depths| - 1] == 0
  }

  function StripOuterParentheses(text: string): (stripped: string)
    ensures |stripped| <= |text|
    decreases |text|
  {
    if WrapsWhole(text) then StripOuterParentheses(Trim(text[1..|text| - 1])) else text
  }

  function CanonicalForm(text: string): string {
    StripOuterParentheses(Trim(text))
  }

  // ---- What the form ignores ----

  lemma {:induction false} TrimStartEnds(text: string)
    ensures var t := TrimStart(text); t == "" || !IsSpace(t[0])
  {
    if text != "" && IsSpace(text[0]) {
      TrimStartEnds(text[1..]);
    }
  }

  lemma {:induction false} TrimEndEnds(text: string)
    requires text == "" || !IsSpace(text[0])
    ensures var t := TrimEnd(text); t == "" || (!IsSpace(t[0]) && !IsSpace(t[|t| - 1]))
  {
    if text != "" && IsSpace(text[|text| - 1]) {
      var front := text[..|text| - 1];
      assert front == "" || front[0] == text[0];
      TrimEndEnds(front);
    }
  }

  lemma NothingToTrim(text: string)
    requires text == "" || (!IsSpace(text[0]) && !IsSpace(text[|text| - 1]))
    ensures Trim(text) == text
  {
  }

  lemma TrimmedStays(text: string)
    ensures Trim(Trim(text)) == Trim(text)
  {
    TrimStartEnds(text);
    TrimEndEnds(TrimStart(text));
    NothingToTrim(Trim(text));
  }

  lemma {:induction false} StripIsStable(text: string)
    requires Trim(text) == text
    ensures Trim(StripOuterParentheses(text)) == StripOuterParentheses(text)
    ensures !WrapsWhole(StripOuterParentheses(text))
    decreases |text|
  {
    if WrapsWhole(text) {
      TrimmedStays(text[1..|text| - 1]);
      StripIsStable(Trim(text[1..|text| - 1]));
    }
  }

  /** Taking the form again changes nothing. */
  lemma CanonicalIsIdempotent(text: string)
    ensures CanonicalForm(CanonicalForm(text)) == CanonicalForm(text)
  {
    TrimmedStays(text);
    StripIsStable(Trim(text));
  }

  // How many more parentheses a text opens than it closes.
  function Depth(text: string): int {
    (multiset(text)['('] as int) - (multiset(text)[')'] as int)
  }

  lemma DepthOfLast(text: string)
    requires text != ""
    ensures Depth(text) == Depth(text[..|text| - 1]) + ParenDepthDelta(text[|text| - 1])
  {
    assert text == text[..|text| - 1] + [text[|text| - 1]];
  }

  // No parenthesis closes that has not been opened, and none stays open.
  ghost predicate Balanced(text: string) {
    Depth(text) == 0 && forall k :: 0 <= k <= |text| ==> Depth(text[..k]) >= 0
  }

  lemma {:induction false} DepthsAreDepths(text: string, i: nat)
    requires i < |text|
    ensures DepthsAfter(text)[i] == Depth(text[..i + 1])
  {
    var front := text[..|text| - 1];
    if i < |front| {
      DepthsAreDepths(front, i);
      assert front[..i + 1] == text[..i + 1];
    } else {
      assert text[..i + 1] == text;
      DepthOfLast(text);
      if front != "" {
        DepthsAreDepths(front, |front| - 1);
        assert front[..|front|] == front;
      }
    }
  }

  lemma DepthInParentheses(text: string)
    ensures Depth("(" + text) == Depth(text) + 1
  {
    assert multiset("(" + text) == multiset("(") + multiset(text);
  }

  lemma {:induction false} ParenthesizedDepths(text: string, k: nat)
    requires k <= |text|
    ensures DepthsAfter("(" + text + ")")[k] == Depth(text[..k]) + 1
  {
    var whole := "(" + text + ")";
    DepthsAreDepths(whole, k);
    assert whole[..k + 1] == "(" + text[..k];
    DepthInParentheses(text[..k]);
  }

  lemma {:induction false} ParenthesizedDepth(text: string)
    ensures DepthsAfter("(" + text + ")")[|text| + 1] == Depth(text)
  {
    var whole := "(" + text + ")";
    DepthsAreDepths(whole, |text| + 1);
    assert whole[..|text| + 2] == whole;
    assert whole[..|whole| - 1] == "(" + text;
    DepthOfLast(whole);
    DepthInParentheses(text);
  }

  lemma WrapsBalanced(text: string)
    ensures WrapsWhole("(" + text + ")") <==> Balanced(text)
  {
    var whole := "(" + text + ")";
    var depths := DepthsAfter(whole);
    forall k | 0 <= k <= |text| ensures depths[k] == Depth(text[..k]) + 1 {
      ParenthesizedDepths(text, k);
    }
    ParenthesizedDepth(text);
    assert depths[0] == Depth(text[..0]) + 1;
    assert forall k :: 0 <= k <= |text| && depths[k] >= 1 ==> Depth(text[..k]) >= 0;
  }

  /** Wrapping a text in parentheses leaves its form as it is exactly when the text is balanced. */
  lemma ParenthesesAreIgnored(text: string)
    ensures CanonicalForm("(" + text + ")") == CanonicalForm(text) <==> Balanced(text)
  {
    var whole := "(" + text + ")";
    assert Trim(whole) == whole;
    WrapsBalanced(text);
    assert whole[1..|whole| - 1] == text;
  }

  /** What counts as white space: tab to carriage return, the space separators, the two line separators and the byte
      order mark. */
  lemma SpacesAreExact(c: char)
    ensures IsSpace(c)
      <==> var code := c as int;
           || 0x9 <= code <= 0xD || code == 0x20 || code == 0xA0 || code == 0x1680 || 0x2000 <= code <= 0x200A
           || code == 0x2028 || code == 0x2029 || code == 0x202F || code == 0x205F || code == 0x3000 || code == 0xFEFF
  {
  }

  ghost predicate AllSpace(text: string) {
    forall c <- text :: IsSpace(c)
  }

  lemma {:induction false} TrimStartSplits(text: string) returns (a: string)
    ensures AllSpace(a) && text == a + TrimStart(text)
  {
    if text != "" && IsSpace(text[0]) {
      a := TrimStartSplits(text[1..]);
      a := [text[0]] + a;
    } else {
      a := "";
    }
  }

  lemma {:induction false} TrimEndSplits(text: string) returns (b: string)
    ensures AllSpace(b) && text == TrimEnd(text) + b
  {
    if text != "" && IsSpace(text[|text| - 1]) {
      b := TrimEndSplits(text[..|text| - 1]);
      b := b + [text[|text| - 1]];
    } else {
      b := "";
    }
  }

  ghost predicate Padded(text: string, a: string, core: string, b: string) {
    AllSpace(a) && AllSpace(b) && text == a + core + b
  }

  function Wrapped(inner: string): string {
    "(" + inner + ")"
  }

  // Taking white space, and then parentheses around a balanced text, off both ends any number of times.
  ghost predicate Peels(text: string, form: string)
    decreases |text|
  {
    || (exists a, b :: Padded(text, a, form, b))
    || (exists a, inner, b ::
          |inner| < |text| && Padded(text, a, Wrapped(inner), b) && Balanced(inner) && Peels(inner, form))
  }

  lemma PaddedMore(text: string, a: string, core: string, b: string, a': string, x: string, b': string)
    requires Padded(text, a, core, b) && Padded(core, a', x, b')
    ensures Padded(text, a + a', x, b' + b)
  {
    assert text == (a + a') + x + (b' + b);
  }

  lemma {:induction false} PeelsPadded(text: string, a: string, core: string, b: string, form: string)
    requires Padded(text, a, core, b) && Peels(core, form)
    ensures Peels(text, form)
  {
    if a', b' :| Padded(core, a', form, b') {
      PaddedMore(text, a, core, b, a', form, b');
    } else {
      var a', inner, b' :|
        |inner| < |core| && Padded(core, a', Wrapped(inner), b') && Balanced(inner) && Peels(inner, form);
      PaddedMore(text, a, core, b, a', Wrapped(inner), b');
    }
  }

  lemma {:induction false} TrimPeels(text: string, form: string)
    requires Peels(Trim(text), form)
    ensures Peels(text, form)
  {
    var a := TrimStartSplits(text);
    var b := TrimEndSplits(TrimStart(text));
    assert text == a + (Trim(text) + b) == a + Trim(text) + b;
    PeelsPadded(text, a, Trim(text), b, form);
  }

  lemma PaddedByNothing(text: string)
    ensures Padded(text, "", text, "")
  {
    assert text == "" + text + "";
  }

  lemma {:induction false} PeelsWrapped(text: string, inner: string, form: string)
    requires text == Wrapped(inner) && Balanced(inner) && Peels(inner, form)
    ensures Peels(text, form)
  {
    PaddedByNothing(text);
  }

  lemma {:induction false} StripPeels(text: string)
    ensures Peels(text, StripOuterParentheses(text))
    decreases |text|
  {
    PaddedByNothing(text);
    if WrapsWhole(text) {
      var inner := text[1..|text| - 1];
      WrapsInner(text);
      WrapsBalanced(inner);
      StripPeels(Trim(inner));
      TrimPeels(inner, StripOuterParentheses(Trim(inner)));
      PeelsWrapped(text, inner, StripOuterParentheses(text));
    }
  }

  lemma WrapsInner(text: string)
    requires WrapsWhole(text)
    ensures |text| >= 2 && text == Wrapped(text[1..|text| - 1])
  {
  }

  /** The form is what is left of a text after white space and parentheses around a balanced text are taken off both
      ends as often as there are any. */
  lemma {:induction false} FormIsExact(text: string, inner: string)
    ensures Peels(text, CanonicalForm(text))
    ensures CanonicalForm(text) != "" ==>
      !IsSpace(CanonicalForm(text)[0]) && !IsSpace(CanonicalForm(text)[|CanonicalForm(text)| - 1])
    ensures Balanced(inner) ==> CanonicalForm(text) != Wrapped(inner)
  {
    StripPeels(Trim(text));
    TrimPeels(text, CanonicalForm(text));
    TrimmedStays(text);
    StripIsStable(Trim(text));
    var form := CanonicalForm(text);
    TrimStartEnds(form);
    TrimEndEnds(TrimStart(form));
    WrapsBalanced(inner);
  }

  // ---- The policy ----

  predicate SamePrintedCode(left: string, right: string) {
    CanonicalForm(left) != "" && CanonicalForm(left) == CanonicalForm(right)
  }

  function OutcomeOf(policy: Options.MutantSetPolicy, facts: Facts, earlier: seq<string>): Outcome {
    var form := CanonicalForm(facts.replacementCode);
    if policy.Default? && SamePrintedCode(facts.replacementCode, facts.originalCode) then
      Suppressed(EquivalentToOriginal)
    else if policy.Default? && form != "" && form in earlier then Suppressed(DuplicateAtSite)
    else Kept
  }

  datatype FoldState = FoldState(outcomes: seq<Outcome>, earlier: seq<string>)

  function FoldCandidate(policy: Options.MutantSetPolicy, state: FoldState, facts: Facts): FoldState {
    FoldState(state.outcomes + [OutcomeOf(policy, facts, state.earlier)],
      state.earlier + [CanonicalForm(facts.replacementCode)])
  }

  function Fold(policy: Options.MutantSetPolicy, candidates: seq<Facts>): (state: FoldState)
    ensures |state.outcomes| == |state.earlier| == |candidates|
  {
    if candidates == [] then FoldState([], [])
    else FoldCandidate(policy, Fold(policy, candidates[..|candidates| - 1]), candidates[|candidates| - 1])
  }

  function OutcomesFor(policy: Options.MutantSetPolicy, candidates: seq<Facts>): (outcomes: seq<Outcome>)
    ensures |outcomes| == |candidates|
  {
    Fold(policy, candidates).outcomes
  }

  function Form(candidates: seq<Facts>, i: nat): string
    requires i < |candidates|
  {
    CanonicalForm(candidates[i].replacementCode)
  }

  // Some earlier candidate prints the same.
  predicate Repeats(candidates: seq<Facts>, i: nat)
    requires i < |candidates|
  {
    exists j :: 0 <= j < i && Form(candidates, j) == Form(candidates, i)
  }

  lemma {:induction false} EarlierForms(policy: Options.MutantSetPolicy, candidates: seq<Facts>, i: nat)
    requires i < |candidates|
    ensures Fold(policy, candidates).earlier[i] == Form(candidates, i)
  {
    if i < |candidates| - 1 {
      EarlierForms(policy, candidates[..|candidates| - 1], i);
    }
  }

  lemma SameRepeats(candidates: seq<Facts>, i: nat)
    requires i < |candidates| - 1
    ensures Repeats(candidates[..|candidates| - 1], i) == Repeats(candidates, i)
  {
    var front := candidates[..|candidates| - 1];
    forall j | 0 <= j <= i ensures Form(front, j) == Form(candidates, j) {
      assert front[j] == candidates[j];
    }
  }

  lemma EarlierIsRepeated(policy: Options.MutantSetPolicy, candidates: seq<Facts>)
    requires candidates != []
    ensures
      var last := |candidates| - 1;
      Form(candidates, last) in Fold(policy, candidates[..last]).earlier <==> Repeats(candidates, last)
  {
    var last := |candidates| - 1;
    var front := candidates[..last];
    forall j | 0 <= j < last ensures Fold(policy, front).earlier[j] == Form(candidates, j) {
      EarlierForms(policy, front, j);
      assert front[j] == candidates[j];
    }
  }

  // What the policy is to decide of a candidate, told from its site alone.
  function Verdict(policy: Options.MutantSetPolicy, candidates: seq<Facts>, i: nat): Outcome
    requires i < |candidates|
  {
    if policy.Full? || Form(candidates, i) == "" then Kept
    else if Form(candidates, i) == CanonicalForm(candidates[i].originalCode) then Suppressed(EquivalentToOriginal)
    else if Repeats(candidates, i) then Suppressed(DuplicateAtSite)
    else Kept
  }

  lemma LastVerdict(policy: Options.MutantSetPolicy, candidates: seq<Facts>)
    requires candidates != []
    ensures OutcomesFor(policy, candidates)[|candidates| - 1] == Verdict(policy, candidates, |candidates| - 1)
  {
    EarlierIsRepeated(policy, candidates);
  }

  lemma EarlierVerdict(policy: Options.MutantSetPolicy, candidates: seq<Facts>, i: nat)
    requires i < |candidates| - 1
    ensures OutcomesFor(policy, candidates)[i] == OutcomesFor(policy, candidates[..|candidates| - 1])[i]
    ensures Verdict(policy, candidates, i) == Verdict(policy, candidates[..|candidates| - 1], i)
  {
    SameRepeats(candidates, i);
    assert candidates[..|candidates| - 1][i] == candidates[i];
  }

  /** Under the default policy a mutant that prints something is equivalent when it prints as the original, else a
      duplicate when an earlier one prints the same, else kept; the full policy keeps everything. */
  lemma {:induction false} OutcomesAreExact(policy: Options.MutantSetPolicy, candidates: seq<Facts>, i: nat)
    requires i < |candidates|
    ensures OutcomesFor(policy, candidates)[i] == Verdict(policy, candidates, i)
  {
    if i < |candidates| - 1 {
      EarlierVerdict(policy, candidates, i);
      OutcomesAreExact(policy, candidates[..|candidates| - 1], i);
    } else {
      LastVerdict(policy, candidates);
    }
  }

  ghost predicate OneOriginal(candidates: seq<Facts>) {
    forall i, j :: 0 <= i < |candidates| && 0 <= j < |candidates| ==>
      candidates[i].originalCode == candidates[j].originalCode
  }

  lemma {:induction false} FirstOfItsForm(candidates: seq<Facts>, i: nat) returns (first: nat)
    requires i < |candidates|
    ensures first <= i && Form(candidates, first) == Form(candidates, i) && !Repeats(candidates, first)
  {
    if Repeats(candidates, i) {
      var j :| 0 <= j < i && Form(candidates, j) == Form(candidates, i);
      first := FirstOfItsForm(candidates, j);
    } else {
      first := i;
    }
  }

  /** Mutants of one site that are kept and print something print differently from each other. */
  lemma KeptAreDistinct(candidates: seq<Facts>, i: nat, j: nat)
    requires i < j < |candidates|
    requires OutcomesFor(Options.Default, candidates)[j].Kept? && Form(candidates, j) != ""
    ensures Form(candidates, i) != Form(candidates, j)
    ensures Form(candidates, j) != CanonicalForm(candidates[j].originalCode)
  {
    OutcomesAreExact(Options.Default, candidates, j);
  }

  ghost predicate HasKeptTwin(candidates: seq<Facts>, i: nat)
    requires i < |candidates|
  {
    exists j ::
      0 <= j < i && OutcomesFor(Options.Default, candidates)[j].Kept? && Form(candidates, j) == Form(candidates, i)
  }

  /** A repeated mutant has an earlier one that is kept and prints the same exactly when the first mutant of its form
      is not equivalent to that mutant's own original. */
  lemma KeptTwinExactly(candidates: seq<Facts>, first: nat, i: nat)
    requires first < i < |candidates| && !Repeats(candidates, first)
    requires Form(candidates, first) == Form(candidates, i) != ""
    ensures HasKeptTwin(candidates, i) <==> Form(candidates, first) != CanonicalForm(candidates[first].originalCode)
  {
    OutcomesAreExact(Options.Default, candidates, first);
    forall j | 0 <= j < i && Form(candidates, j) == Form(candidates, i)
      && OutcomesFor(Options.Default, candidates)[j].Kept?
      ensures j == first
    {
      OutcomesAreExact(Options.Default, candidates, j);
    }
  }

  /** At a site with one original, every duplicate has one. */
  lemma DuplicatesHaveKeptTwin(candidates: seq<Facts>, i: nat)
    requires OneOriginal(candidates) && i < |candidates|
    requires OutcomesFor(Options.Default, candidates)[i] == Suppressed(DuplicateAtSite)
    ensures HasKeptTwin(candidates, i)
  {
    OutcomesAreExact(Options.Default, candidates, i);
    var first := FirstOfItsForm(candidates, i);
    KeptTwinExactly(candidates, first, i);
  }

  /** With two originals it can fail: what is a duplicate at one may have been equivalent at the other. */
  lemma TwoOriginalsLoseBoth(a: string, b: string)
    requires CanonicalForm(a) != "" && CanonicalForm(a) != CanonicalForm(b)
    ensures OutcomesFor(Options.Default, [Facts(a, a), Facts(b, a)])
      == [Suppressed(EquivalentToOriginal), Suppressed(DuplicateAtSite)]
  {
    var candidates := [Facts(a, a), Facts(b, a)];
    OutcomesAreExact(Options.Default, candidates, 0);
    OutcomesAreExact(Options.Default, candidates, 1);
    assert Form(candidates, 0) == Form(candidates, 1);
    assert Repeats(candidates, 1);
  }
}
