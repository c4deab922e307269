// The mutants of a comparison: which the default policy emits, which it drops as subsumed, and why nothing is lost.
module RelationalMutants {
  import Options

  datatype Comparison = Less | LessEqual | Greater | GreaterEqual | Equal | NotEqual

  datatype Replacement = Operator(comparison: Comparison) | Literal(value: bool)

  datatype LogicalOperator = And | Or | Coalesce

  // Where the comparison stands in its parent.
  datatype Site = TestOfLoop | TestOfIf | TestOfConditional | OperandOf(operator: LogicalOperator) | Elsewhere

  predicate IsRelational(c: Comparison) {
    c.Less? || c.LessEqual? || c.Greater? || c.GreaterEqual?
  }

  predicate IsConditionPosition(site: Site) {
    site.TestOfLoop? || site.TestOfIf? || site.TestOfConditional?
  }

  // ---- Tables ----

  datatype SufficientSet = SufficientSet(first: Comparison, second: Comparison, literal: bool)

  function SufficientSetOf(operator: Comparison): SufficientSet
    requires IsRelational(operator)
  {
    match operator
    case Less => SufficientSet(LessEqual, NotEqual, false)
    case LessEqual => SufficientSet(Less, Equal, true)
    case Greater => SufficientSet(GreaterEqual, NotEqual, false)
    case GreaterEqual => SufficientSet(Greater, Equal, true)
  }

  datatype ComplementRow = ComplementRow(complement: Comparison, dominator: Comparison)

  function ComplementRowOf(operator: Comparison): ComplementRow
    requires IsRelational(operator)
  {
    match operator
    case Less => ComplementRow(GreaterEqual, LessEqual)
    case LessEqual => ComplementRow(Greater, Less)
    case Greater => ComplementRow(LessEqual, GreaterEqual)
    case GreaterEqual => ComplementRow(Less, Greater)
  }

  function EqualityReplacements(operator: Comparison): seq<Comparison> {
    match operator
    case Less => [LessEqual, GreaterEqual]
    case LessEqual => [Less, Greater]
    case Greater => [GreaterEqual, LessEqual]
    case GreaterEqual => [Greater, Less]
    case Equal => [NotEqual]
    case NotEqual => [Equal]
  }

  // ---- The two mutators ----

  function Operators(comparisons: seq<Comparison>): seq<Replacement> {
    seq(|comparisons|, i requires 0 <= i < |comparisons| => Operator(comparisons[i]))
  }

  function WithSufficientConditional(
      operator: Comparison, site: Site, policy: Options.MutantSetPolicy,
      replacements: seq<Replacement>): seq<Replacement>
  {
    if IsRelational(operator) && IsConditionPosition(site) && policy.Default? then
      var literal := Literal(SufficientSetOf(operator).literal);
      if literal in replacements then replacements else replacements + [literal]
    else replacements
  }

  function ConditionalMutants(operator: Comparison, site: Site, policy: Options.MutantSetPolicy): seq<Replacement> {
    match site
    case TestOfLoop => WithSufficientConditional(operator, site, policy, [Literal(false)])
    case TestOfIf => WithSufficientConditional(operator, site, policy, [Literal(true), Literal(false)])
    case OperandOf(And) => [Literal(true)]
    case OperandOf(Or) => [Literal(false)]
    case OperandOf(Coalesce) => [Literal(true), Literal(false)]
    case TestOfConditional => [Literal(true), Literal(false)]
    case Elsewhere => [Literal(true), Literal(false)]
  }

  function SufficientAdditions(operator: Comparison): seq<Comparison> {
    if !IsRelational(operator) then []
    else
      var chosen := SufficientSetOf(operator);
      (if chosen.first in EqualityReplacements(operator) then [] else [chosen.first])
      + (if chosen.second in EqualityReplacements(operator) then [] else [chosen.second])
  }

  function EqualityMutants(operator: Comparison, site: Site, policy: Options.MutantSetPolicy): seq<Replacement> {
    Operators(EqualityReplacements(operator))
    + if policy.Default? && IsRelational(operator) && IsConditionPosition(site)
      then Operators(SufficientAdditions(operator)) else []
  }

  function Emitted(operator: Comparison, site: Site, policy: Options.MutantSetPolicy): seq<Replacement> {
    ConditionalMutants(operator, site, policy) + EqualityMutants(operator, site, policy)
  }

  // ---- Subsumption ----

  datatype SiteMutant = SiteMutant(id: string, replacement: Replacement, kept: bool)

  datatype Decision = Unaffected | Subsumed(dominators: seq<string>)

  predicate IsKeptAs(mutant: SiteMutant, operator: Comparison) {
    mutant.kept && IsRelational(operator) && mutant.replacement == Operator(operator)
  }

  function DominatorsOf(mutants: seq<SiteMutant>, dominator: Comparison): seq<string> {
    if mutants == [] then []
    else (if IsKeptAs(mutants[0], dominator) then [mutants[0].id] else []) + DominatorsOf(mutants[1..], dominator)
  }

  function DecideAt(mutants: seq<SiteMutant>, operator: Comparison, mutant: SiteMutant): Decision
    requires IsRelational(operator)
  {
    var row := ComplementRowOf(operator);
    var dominators := DominatorsOf(mutants, row.dominator);
    if IsKeptAs(mutant, row.complement) && dominators != [] then Subsumed(dominators) else Unaffected
  }

  function SubsumeMutants(
      policy: Options.MutantSetPolicy, operator: Comparison, mutants: seq<SiteMutant>): (decisions: seq<Decision>)
    ensures |decisions| == |mutants|
  {
    seq(|mutants|, i requires 0 <= i < |mutants| =>
      if policy.Default? && IsRelational(operator) then DecideAt(mutants, operator, mutants[i]) else Unaffected)
  }

  // ---- What the mutants compute ----

  // Operands of any kind, compared by any order: of two operands not both come before the other.
  type Order<!T> = (T, T) -> bool

  ghost predicate IsOrder<T(!new)>(before: Order<T>) {
    forall a, b :: !(before(a, b) && before(b, a))
  }

  // Three intervals are all an ordered pair can fall into.
  datatype Interval = Below | Same | Above

  function IntervalOf<T>(before: Order<T>, a: T, b: T): Interval {
    if before(a, b) then Below else if before(b, a) then Above else Same
  }

  predicate Compare<T>(before: Order<T>, c: Comparison, a: T, b: T) {
    match c
    case Less => before(a, b)
    case LessEqual => !before(b, a)
    case Greater => before(b, a)
    case GreaterEqual => !before(a, b)
    case Equal => !before(a, b) && !before(b, a)
    case NotEqual => before(a, b) || before(b, a)
  }

  predicate Value<T>(before: Order<T>, r: Replacement, a: T, b: T) {
    match r case Operator(c) => Compare(before, c, a, b) case Literal(value) => value
  }

  // A pair of operands on which a replacement answers differently.
  predicate Distinguishes<T>(before: Order<T>, operator: Comparison, r: Replacement, a: T, b: T) {
    Value(before, r, a, b) != Compare(before, operator, a, b)
  }

  predicate HoldsOn(c: Comparison, interval: Interval) {
    match c
    case Less => interval.Below?
    case LessEqual => !interval.Above?
    case Greater => interval.Above?
    case GreaterEqual => !interval.Below?
    case Equal => interval.Same?
    case NotEqual => !interval.Same?
  }

  predicate DiffersOn(operator: Comparison, r: Replacement, interval: Interval) {
    HoldsOn(operator, interval) != match r case Operator(c) => HoldsOn(c, interval) case Literal(value) => value
  }

  lemma DifferenceIsByInterval<T(!new)>(before: Order<T>, operator: Comparison, r: Replacement, a: T, b: T)
    requires IsOrder(before)
    ensures Distinguishes(before, operator, r, a, b) <==> DiffersOn(operator, r, IntervalOf(before, a, b))
  {
  }

  function Members(operator: Comparison): (members: seq<Replacement>)
    requires IsRelational(operator)
    ensures |members| == 3
  {
    var chosen := SufficientSetOf(operator);
    [Operator(chosen.first), Operator(chosen.second), Literal(chosen.literal)]
  }

  // The interval a replacement stands for: the one it differs on.
  ghost predicate StandsFor(operator: Comparison, r: Replacement, interval: Interval) {
    forall other :: DiffersOn(operator, r, other) <==> other == interval
  }

  /** Each member of a sufficient set differs from the original on one interval only, and each interval has exactly
      one such member. */
  lemma SufficientSetCoversIntervals(operator: Comparison, interval: Interval)
    requires IsRelational(operator)
    ensures forall r <- Members(operator) :: exists own :: StandsFor(operator, r, own)
    ensures exists r <- Members(operator) :: StandsFor(operator, r, interval)
    ensures forall r <- Members(operator), s <- Members(operator) ::
      DiffersOn(operator, r, interval) && DiffersOn(operator, s, interval) ==> r == s
  {
    var members := Members(operator);
    forall i | 0 <= i < 3 ensures exists own :: StandsFor(operator, members[i], own) {
      var own := if DiffersOn(operator, members[i], Below) then Below
                 else if DiffersOn(operator, members[i], Same) then Same else Above;
      assert StandsFor(operator, members[i], own);
    }
    var k := if DiffersOn(operator, members[0], interval) then 0
             else if DiffersOn(operator, members[1], interval) then 1 else 2;
    assert StandsFor(operator, members[k], interval);
    assert forall j :: 0 <= j < 3 && DiffersOn(operator, members[j], interval) ==> j == k;
  }

  /** At every condition position the default policy emits the whole sufficient set of a relational comparison. */
  lemma DefaultEmitsSufficientSet(operator: Comparison, site: Site, i: nat)
    requires IsRelational(operator) && IsConditionPosition(site) && i < 3
    ensures Members(operator)[i] in Emitted(operator, site, Options.Default)
  {
    var chosen := SufficientSetOf(operator);
    var base, added := Operators(EqualityReplacements(operator)), Operators(SufficientAdditions(operator));
    assert base[0] == Operator(chosen.first);
    assert added[0] == Operator(chosen.second);
    assert Literal(chosen.literal) in ConditionalMutants(operator, site, Options.Default);
  }

  // ---- Exactly what is emitted ----

  predicate Differ(c: Comparison, operator: Comparison, interval: Interval) {
    HoldsOn(c, interval) != HoldsOn(operator, interval)
  }

  // An operator that answers differently from another everywhere, or only for equal operands, or on one interval only.
  predicate IsOpposite(c: Comparison, operator: Comparison) {
    Differ(c, operator, Below) && Differ(c, operator, Same) && Differ(c, operator, Above)
  }

  predicate MovesBoundary(c: Comparison, operator: Comparison) {
    !Differ(c, operator, Below) && Differ(c, operator, Same) && !Differ(c, operator, Above)
  }

  predicate DiffersOnce(c: Comparison, operator: Comparison) {
    || MovesBoundary(c, operator)
    || (Differ(c, operator, Below) && !Differ(c, operator, Same) && !Differ(c, operator, Above))
    || (!Differ(c, operator, Below) && !Differ(c, operator, Same) && Differ(c, operator, Above))
  }

  lemma ReplacementsAreExact(operator: Comparison, c: Comparison)
    ensures c in EqualityReplacements(operator)
      <==> IsOpposite(c, operator) || (IsRelational(operator) && MovesBoundary(c, operator))
  {
  }

  lemma AdditionsAreExact(operator: Comparison, c: Comparison)
    requires IsRelational(operator)
    ensures c in EqualityReplacements(operator) || c in SufficientAdditions(operator)
      <==> IsOpposite(c, operator) || DiffersOnce(c, operator)
  {
  }

  /** The operators emitted in the place of a comparison: its opposite and, for a relational one, the one that moves its
      boundary; for a test the default policy adds every other that differs on one interval only. */
  lemma OperatorsAreExact(operator: Comparison, site: Site, policy: Options.MutantSetPolicy, c: Comparison)
    ensures Operator(c) in Emitted(operator, site, policy)
      <==> || IsOpposite(c, operator)
           || (IsRelational(operator) && MovesBoundary(c, operator))
           || (IsRelational(operator) && policy.Default? && DiffersOnce(c, operator)
               && (site == TestOfLoop || site == TestOfIf || site == TestOfConditional))
  {
    ReplacementsAreExact(operator, c);
    OperatorIsListed(c, EqualityReplacements(operator));
    if IsRelational(operator) {
      AdditionsAreExact(operator, c);
      OperatorIsListed(c, SufficientAdditions(operator));
    }
    assert Operator(c) !in ConditionalMutants(operator, site, policy);
  }

  lemma OperatorIsListed(c: Comparison, comparisons: seq<Comparison>)
    ensures Operator(c) in Operators(comparisons) <==> c in comparisons
  {
    if c in comparisons {
      var i :| 0 <= i < |comparisons| && comparisons[i] == c;
      assert Operators(comparisons)[i] == Operator(c);
    }
  }

  /** The literals emitted: `true` unless it stands for a loop's test or an operand of `||`, `false` unless it stands
      for an operand of `&&`; the default policy adds `true` for a loop's test that holds of equal operands. */
  lemma LiteralsAreExact(operator: Comparison, site: Site, policy: Options.MutantSetPolicy)
    ensures Literal(true) in Emitted(operator, site, policy)
      <==> || (site != TestOfLoop && site != OperandOf(Or))
           || (site == TestOfLoop && policy.Default? && IsRelational(operator) && HoldsOn(operator, Same))
    ensures Literal(false) in Emitted(operator, site, policy) <==> site != OperandOf(And)
  {
    assert forall b :: Literal(b) !in EqualityMutants(operator, site, policy);
  }

  // Literals come first, `true` before `false` but for a loop; then the operator that moves the boundary, the opposite,
  // and what the default policy adds.
  function Rank(operator: Comparison, site: Site, r: Replacement): nat {
    match r
    case Literal(value) => if value == site.TestOfLoop? then 1 else 0
    case Operator(c) =>
      if MovesBoundary(c, operator) && IsRelational(operator) then 2 else if IsOpposite(c, operator) then 3 else 4
  }

  /** What is emitted stands in one order, each replacement once. */
  lemma EmittedInOrder(operator: Comparison, site: Site, policy: Options.MutantSetPolicy, i: nat, j: nat)
    requires i < j < |Emitted(operator, site, policy)|
    ensures Rank(operator, site, Emitted(operator, site, policy)[i])
      < Rank(operator, site, Emitted(operator, site, policy)[j])
  {
    var literals, operators := ConditionalMutants(operator, site, policy), EqualityMutants(operator, site, policy);
    LiteralsInOrder(operator, site, policy);
    OperatorsInOrder(operator, site, policy);
  }

  lemma LiteralsInOrder(operator: Comparison, site: Site, policy: Options.MutantSetPolicy)
    ensures
      var literals := ConditionalMutants(operator, site, policy);
      && (forall i :: 0 <= i < |literals| ==> literals[i].Literal?)
      && forall i, j :: 0 <= i < j < |literals| ==>
        Rank(operator, site, literals[i]) < Rank(operator, site, literals[j])
  {
  }

  lemma OperatorsInOrder(operator: Comparison, site: Site, policy: Options.MutantSetPolicy)
    ensures
      var operators := EqualityMutants(operator, site, policy);
      && (forall i :: 0 <= i < |operators| ==> operators[i].Operator?)
      && forall i, j :: 0 <= i < j < |operators| ==>
           Rank(operator, site, operators[i]) < Rank(operator, site, operators[j])
  {
    var listed, added := EqualityReplacements(operator), SufficientAdditions(operator);
    ListedInOrder(operator, site);
    assert forall i :: 0 <= i < |listed| ==> Operators(listed)[i] == Operator(listed[i]);
    assert forall i :: 0 <= i < |added| ==> Operators(added)[i] == Operator(added[i]);
  }

  lemma ListedInOrder(operator: Comparison, site: Site)
    ensures
      var listed, added := EqualityReplacements(operator), SufficientAdditions(operator);
      && (forall i, j :: 0 <= i < j < |listed| ==>
            Rank(operator, site, Operator(listed[i])) < Rank(operator, site, Operator(listed[j])))
      && |added| <= 1
      && forall i, j :: 0 <= i < |listed| && 0 <= j < |added| ==>
           Rank(operator, site, Operator(listed[i])) < Rank(operator, site, Operator(added[j]))
  {
  }

  // ---- Exactly what is subsumed ----

  // A kept mutant that replaces the operator with a relational one.
  predicate KeepsOperator(m: SiteMutant) {
    m.kept && m.replacement.Operator? && IsRelational(m.replacement.comparison)
  }

  predicate IsComplement(m: SiteMutant, operator: Comparison) {
    KeepsOperator(m) && IsOpposite(m.replacement.comparison, operator)
  }

  predicate IsDominator(m: SiteMutant, operator: Comparison) {
    KeepsOperator(m) && MovesBoundary(m.replacement.comparison, operator)
  }

  lemma RowIsExact(operator: Comparison, m: SiteMutant)
    requires IsRelational(operator)
    ensures IsKeptAs(m, ComplementRowOf(operator).complement) <==> IsComplement(m, operator)
    ensures IsKeptAs(m, ComplementRowOf(operator).dominator) <==> IsDominator(m, operator)
  {
  }

  /** A mutant is subsumed exactly when it is kept and answers the opposite of a relational operator everywhere, while a
      kept mutant answers differently from it only for equal operands; what it names are the ids of all such mutants,
      none of them subsumed. */
  lemma SubsumedExactly(policy: Options.MutantSetPolicy, operator: Comparison, mutants: seq<SiteMutant>, i: nat)
    requires i < |mutants|
    ensures SubsumeMutants(policy, operator, mutants)[i].Subsumed?
      <==> policy.Default? && IsRelational(operator) && IsComplement(mutants[i], operator)
           && exists m <- mutants :: IsDominator(m, operator)
    ensures SubsumeMutants(policy, operator, mutants)[i].Subsumed? ==>
      forall id ::
        id in SubsumeMutants(policy, operator, mutants)[i].dominators
        <==> exists j :: 0 <= j < |mutants| && mutants[j].id == id && IsDominator(mutants[j], operator)
    ensures IsRelational(operator) ==>
      forall j :: 0 <= j < |mutants| && IsDominator(mutants[j], operator) ==>
        SubsumeMutants(policy, operator, mutants)[j].Unaffected?
  {
    if IsRelational(operator) {
      DominatorsAreKept(mutants, ComplementRowOf(operator).dominator);
      forall m ensures IsKeptAs(m, ComplementRowOf(operator).complement) <==> IsComplement(m, operator)
        ensures IsKeptAs(m, ComplementRowOf(operator).dominator) <==> IsDominator(m, operator)
      {
        RowIsExact(operator, m);
      }
    }
  }

  lemma {:induction false} DominatorsAreKept(mutants: seq<SiteMutant>, dominator: Comparison)
    ensures forall id ::
      id in DominatorsOf(mutants, dominator) <==> exists j ::
        0 <= j < |mutants| && mutants[j].id == id && IsKeptAs(mutants[j], dominator)
    ensures DominatorsOf(mutants, dominator) != [] <==> exists m <- mutants :: IsKeptAs(m, dominator)
  {
    if mutants != [] {
      DominatorsAreKept(mutants[1..], dominator);
      assert mutants == [mutants[0]] + mutants[1..];
    }
  }

  /** No member of the sufficient set is ever subsumed, and whatever distinguishes the dominator distinguishes the
      complement it subsumes. */
  lemma SubsumptionKeepsSufficientSet<T(!new)>(
      before: Order<T>, policy: Options.MutantSetPolicy, operator: Comparison, mutants: seq<SiteMutant>, i: nat)
    requires IsOrder(before) && IsRelational(operator) && i < |mutants|
    ensures mutants[i].replacement in Members(operator) ==> SubsumeMutants(policy, operator, mutants)[i].Unaffected?
    ensures forall a, b :: Distinguishes(before, operator, Operator(ComplementRowOf(operator).dominator), a, b) ==>
      Distinguishes(before, operator, Operator(ComplementRowOf(operator).complement), a, b)
  {
  }

  type Tests<!T> = seq<(T, T)>

  ghost predicate Killed<T>(before: Order<T>, operator: Comparison, r: Replacement, tests: Tests<T>) {
    exists t <- tests :: Distinguishes(before, operator, r, t.0, t.1)
  }

  // Among the site's mutants are those the mutators emit there, each of them kept at least once.
  predicate KeepsEmitted(operator: Comparison, site: Site, mutants: seq<SiteMutant>) {
    forall r <- Emitted(operator, site, Options.Default) :: exists m <- mutants :: m.kept && m.replacement == r
  }

  // The tests tell every kept mutant that subsumption leaves from the original.
  ghost predicate KillsRemaining<T>(before: Order<T>, operator: Comparison, mutants: seq<SiteMutant>, tests: Tests<T>) {
    forall i ::
      0 <= i < |mutants| && mutants[i].kept && SubsumeMutants(Options.Default, operator, mutants)[i].Unaffected? ==>
      Killed(before, operator, mutants[i].replacement, tests)
  }

  lemma MemberIsKilled<T(!new)>(
      before: Order<T>, operator: Comparison, site: Site, mutants: seq<SiteMutant>, tests: Tests<T>, k: nat)
    requires IsOrder(before) && IsRelational(operator) && IsConditionPosition(site) && k < 3
    requires KeepsEmitted(operator, site, mutants) && KillsRemaining(before, operator, mutants, tests)
    ensures Killed(before, operator, Members(operator)[k], tests)
  {
    DefaultEmitsSufficientSet(operator, site, k);
    var i :| 0 <= i < |mutants| && mutants[i].kept && mutants[i].replacement == Members(operator)[k];
    SubsumptionKeepsSufficientSet(before, Options.Default, operator, mutants, i);
  }

  lemma EveryChangeShows(operator: Comparison, r: Replacement) returns (interval: Interval)
    requires r != Operator(operator)
    ensures DiffersOn(operator, r, interval)
  {
    interval := if DiffersOn(operator, r, Below) then Below else if DiffersOn(operator, r, Same) then Same else Above;
  }

  /** At a condition position, tests that tell every mutant left by subsumption from the original tell every
      relational replacement from it: any other operator and either literal. */
  lemma RemainingMutantsSuffice<T(!new)>(
      before: Order<T>, operator: Comparison, site: Site, mutants: seq<SiteMutant>, tests: Tests<T>, r: Replacement)
    requires IsOrder(before) && IsRelational(operator) && IsConditionPosition(site)
    requires KeepsEmitted(operator, site, mutants) && KillsRemaining(before, operator, mutants, tests)
    requires r != Operator(operator)
    ensures Killed(before, operator, r, tests)
  {
    var interval := EveryChangeShows(operator, r);
    SufficientSetCoversIntervals(operator, interval);
    var k :| 0 <= k < 3 && StandsFor(operator, Members(operator)[k], interval);
    MemberIsKilled(before, operator, site, mutants, tests, k);
    var t :| t in tests && Distinguishes(before, operator, Members(operator)[k], t.0, t.1);
    DifferenceIsByInterval(before, operator, Members(operator)[k], t.0, t.1);
    DifferenceIsByInterval(before, operator, r, t.0, t.1);
  }
}
