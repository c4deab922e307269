// The main results about instrumented programs.
module Instrumentation {
  import opened Wrappers
  import opened Syntax
  import opened Semantics
  import opened Congruence
  import opened Placers
  import opened Preservation

  // ---- Meaning ----

  ghost function MeaningLens<V(!new), S(!new)>(sem: Semantics<V, S>, active: Option<Id>): Lens<V, S> {
    Lens(sem, active, active, None, e => [], e => [])
  }

  /** For every plan that fits, every active mutant that makes no reference of a value, every store and amount of
      fuel: the instrumented program ends as the program with that mutant's tree in it does. */
  lemma {:induction false} InstrumentedMeansMutated<V(!new), S(!new)>(
    sem: Semantics<V, S>, program: Node, plan: Plan, active: Option<Id>, fuel: nat, st: S)
    requires Sane(sem) && Fits(program, plan) && MakesNoReference(program, plan, active)
    ensures
      var instrumented := Eval(sem, active, fuel, Rebuild(program, plan), st);
      var mutated := Eval(sem, active, fuel, Mutated(program, plan, active), st);
      instrumented.out == mutated.out && instrumented.st == mutated.st
  {
    var lens := MeaningLens(sem, active);
    InstrumentSim(lens, program, plan);
    UseSim(lens, Mutated(program, plan, active), Rebuild(program, plan), fuel, st);
  }

  /** With no placed mutant active the instrumented program ends as the original does. */
  lemma {:induction false} InstrumentedMeansOriginal<V(!new), S(!new)>(
    sem: Semantics<V, S>, program: Node, plan: Plan, active: Option<Id>, fuel: nat, st: S)
    requires Sane(sem) && Fits(program, plan) && Inactive(plan, active)
    ensures
      var instrumented := Eval(sem, active, fuel, Rebuild(program, plan), st);
      var original := Eval(sem, active, fuel, program, st);
      instrumented.out == original.out && instrumented.st == original.st
  {
    InactiveMakesNoReference(program, plan, active);
    InstrumentedMeansMutated(sem, program, plan, active, fuel, st);
    NothingChosen(program, plan, active);
  }

  lemma {:induction false} InactiveMakesNoReference(n: Node, plan: Plan, active: Option<Id>)
    requires Inactive(plan, active)
    ensures MakesNoReference(n, plan, active)
  {
    forall c | c in n.children ensures MakesNoReference(c, plan, active) {
      InactiveMakesNoReference(c, plan, active);
    }
  }

  ghost predicate UnchosenIn(n: Node, plan: Plan, active: Option<Id>) {
    forall l <- Labels(n) :: l in plan ==> Chosen(plan[l].applied, active).None?
  }

  lemma {:induction false} NothingChosen(n: Node, plan: Plan, active: Option<Id>)
    requires UnchosenIn(n, plan, active)
    ensures Mutated(n, plan, active) == n
  {
    forall i | 0 <= i < |n.children|
      ensures MutatedAll(n.children, plan, active)[i] == n.children[i]
    {
      LabelsBelow(n, i);
      NothingChosen(n.children[i], plan, active);
    }
    assert MutatedAll(n.children, plan, active) == n.children;
    assert PlacedAt(plan, n) ==> n.site.value == Labels(n)[0];
  }

  // ---- Labels and replacement ----

  lemma {:induction false} LabelsBelow(n: Node, i: int)
    requires 0 <= i < |n.children|
    ensures forall l <- Labels(n.children[i]) :: l in Labels(n)
  {
    LabelsInAll(n.children, i);
  }

  lemma {:induction false} LabelsInAll(ns: seq<Node>, i: int)
    requires 0 <= i < |ns|
    ensures forall l <- Labels(ns[i]) :: l in LabelsAll(ns)
  {
    if i > 0 {
      LabelsInAll(ns[1..], i - 1);
    }
  }

  // The tree with every node labelled `l` replaced by `r`.
  function Replace(n: Node, l: Label, r: Node): Node {
    if n.site == Some(l) then r else Node(n.site, n.kind, ReplaceAll(n.children, l, r))
  }

  function ReplaceAll(ns: seq<Node>, l: Label, r: Node): (rs: seq<Node>)
    ensures |rs| == |ns| && forall i :: 0 <= i < |ns| ==> rs[i] == Replace(ns[i], l, r)
  {
    if ns == [] then [] else [Replace(ns[0], l, r)] + ReplaceAll(ns[1..], l, r)
  }

  // The node labelled `l`, the first one in source order.
  function Find(n: Node, l: Label): (found: Option<Node>)
    ensures found.Some? ==> found.value.site == Some(l)
    decreases n, 1
  {
    if n.site == Some(l) then Some(n) else FindAll(n.children, l)
  }

  function FindAll(ns: seq<Node>, l: Label): (found: Option<Node>)
    ensures found.Some? ==> found.value.site == Some(l)
    decreases ns, 0
  {
    if ns == [] then None
    else var first := Find(ns[0], l); if first.Some? then first else FindAll(ns[1..], l)
  }

  lemma {:induction false} FoundIffLabelled(n: Node, l: Label)
    ensures Find(n, l).Some? <==> l in Labels(n)
    decreases n, 1
  {
    FoundIffLabelledAll(n.children, l);
  }

  lemma {:induction false} FoundIffLabelledAll(ns: seq<Node>, l: Label)
    ensures FindAll(ns, l).Some? <==> l in LabelsAll(ns)
    decreases ns, 0
  {
    if ns != [] {
      FoundIffLabelled(ns[0], l);
      FoundIffLabelledAll(ns[1..], l);
    }
  }

  lemma {:induction false} ReplaceAbsent(n: Node, l: Label, r: Node)
    requires l !in Labels(n)
    ensures Replace(n, l, r) == n
  {
    forall i | 0 <= i < |n.children|
      ensures ReplaceAll(n.children, l, r)[i] == n.children[i]
    {
      LabelsBelow(n, i);
      ReplaceAbsent(n.children[i], l, r);
    }
    assert ReplaceAll(n.children, l, r) == n.children;
  }

  // The only placement whose mutant is active.
  ghost predicate OnlyAt(plan: Plan, l: Label, active: Option<Id>) {
    forall other <- plan :: other != l ==> Chosen(plan[other].applied, active).None?
  }

  lemma DistinctBelow(n: Node, i: int)
    requires DistinctLabels(n) && 0 <= i < |n.children|
    ensures DistinctLabels(n.children[i])
    ensures n.site.Some? ==> n.site.value !in Labels(n.children[i])
  {
    assert Distinct(LabelsAll(n.children)) by {
      assert LabelsAll(n.children) == Labels(n)[if n.site.Some? then 1 else 0..];
    }
    DistinctInAll(n.children, i);
    if n.site.Some? {
      LabelsInAll(n.children, i);
      assert Labels(n)[0] == n.site.value;
      assert LabelsAll(n.children) == Labels(n)[1..];
    }
  }

  lemma {:induction false} DistinctInAll(ns: seq<Node>, i: int)
    requires Distinct(LabelsAll(ns)) && 0 <= i < |ns|
    ensures DistinctLabels(ns[i])
  {
    DistinctConcat(Labels(ns[0]), LabelsAll(ns[1..]));
    if i > 0 {
      DistinctInAll(ns[1..], i - 1);
    }
  }

  lemma DistinctConcat<T(!new)>(a: seq<T>, b: seq<T>)
    requires Distinct(a + b)
    ensures Distinct(a) && Distinct(b)
    ensures forall x :: x in a ==> x !in b
  {
    forall i, j | 0 <= i < j < |a| ensures a[i] != a[j] {
      assert (a + b)[i] == a[i] && (a + b)[j] == a[j];
    }
    forall i, j | 0 <= i < j < |b| ensures b[i] != b[j] {
      assert (a + b)[|a| + i] == b[i] && (a + b)[|a| + j] == b[j];
    }
    forall i, j | 0 <= i < |a| && 0 <= j < |b| ensures a[i] != b[j] {
      assert (a + b)[i] == a[i] && (a + b)[|a| + j] == b[j];
    }
  }

  /** When one placement alone is active, the program it stands for is the original with that one tree replaced. */
  lemma {:induction false} MutatedIsReplacement(n: Node, plan: Plan, l: Label, active: Option<Id>)
    requires DistinctLabels(n) && l in plan && OnlyAt(plan, l, active)
    requires Chosen(plan[l].applied, active).Some?
    ensures Mutated(n, plan, active)
         == if l in Labels(n) then
              FoundIffLabelled(n, l);
              Replace(n, l, Effective(plan[l].placer, Find(n, l).value, Chosen(plan[l].applied, active).value))
            else n
    decreases n
  {
    FoundIffLabelled(n, l);
    if l !in Labels(n) {
      assert UnchosenIn(n, plan, active);
      NothingChosen(n, plan, active);
    } else if n.site == Some(l) {
      forall i | 0 <= i < |n.children|
        ensures MutatedAll(n.children, plan, active)[i] == n.children[i]
      {
        DistinctBelow(n, i);
        NothingChosen(n.children[i], plan, active);
      }
      assert MutatedAll(n.children, plan, active) == n.children;
    } else {
      var r := Effective(plan[l].placer, Find(n, l).value, Chosen(plan[l].applied, active).value);
      forall i | 0 <= i < |n.children|
        ensures Mutated(n.children[i], plan, active) == Replace(n.children[i], l, r)
      {
        DistinctBelow(n, i);
        FoundIffLabelled(n.children[i], l);
        MutatedIsReplacement(n.children[i], plan, l, active);
        if l in Labels(n.children[i]) {
          FoundBelow(n, i, l);
        } else {
          ReplaceAbsent(n.children[i], l, r);
        }
      }
      assert MutatedAll(n.children, plan, active) == ReplaceAll(n.children, l, r);
      assert Chosen(plan[l].applied, active).Some?;
      assert PlacedAt(plan, n) ==> Chosen(plan[n.site.value].applied, active).None?;
    }
  }

  lemma {:induction false} FoundBelow(n: Node, i: int, l: Label)
    requires DistinctLabels(n) && 0 <= i < |n.children| && l in Labels(n.children[i])
    ensures Find(n, l) == Find(n.children[i], l)
  {
    DistinctBelow(n, i);
    assert Distinct(LabelsAll(n.children)) by {
      assert LabelsAll(n.children) == Labels(n)[if n.site.Some? then 1 else 0..];
    }
    FoundInAll(n.children, i, l);
  }

  lemma {:induction false} FoundInAll(ns: seq<Node>, i: int, l: Label)
    requires Distinct(LabelsAll(ns)) && 0 <= i < |ns| && l in Labels(ns[i])
    ensures FindAll(ns, l) == Find(ns[i], l)
  {
    FoundIffLabelled(ns[i], l);
    if i > 0 {
      DistinctConcat(Labels(ns[0]), LabelsAll(ns[1..]));
      LabelsInAll(ns[1..], i - 1);
      FoundIffLabelled(ns[0], l);
      FoundInAll(ns[1..], i - 1, l);
    }
  }
}
