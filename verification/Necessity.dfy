// The condition on references is needed: where a placement is at a reference, some meaning of the operators tells the
// instrumented form from the original, in a run with no mutant active.
module Necessity {
  import opened Wrappers
  import opened Syntax
  import opened Semantics
  import opened Placers
  import opened Preservation
  import opened Instrumentation
  import opened Planning
  import opened Placements
  import opened Limits
  import opened EndToEnd

  // An expression with the operands its kind takes.
  predicate Total(n: Node) {
    && TotalKind(n.kind, |n.children|)
    && forall c <- n.children :: Total(c)
  }

  predicate TotalKind(k: Kind, count: nat) {
    match k
    case Logical(_) => count == 2
    case Conditional => count == 3
    case Sequence => count > 0
    case Paren => count == 1
    case Literal(_) => true
    case Identifier(_) => true
    case Unary(_) => true
    case Delete => true
    case Update(_) => true
    case Binary(_) => true
    case Member => true
    case Call => true
    case Assign(_) => true
    case _ => false
  }

  // Whatever uses a reference is such an expression.
  predicate ReferencesAreTotal(n: Node) {
    (UsesReference(n.kind) ==> Total(n)) && forall c <- n.children :: ReferencesAreTotal(c)
  }

  // Operators always complete; what uses a reference gives 0 when it is handed a value.
  function Telling(): (sem: Semantics<int, int>)
    ensures Sane(sem)
  {
    Semantics(0, b => if b then 1 else 0, v => v != 0, v => false, (v, w) => v == w,
      (k: Kind, rec: Receiver, vals: seq<int>, st: int) => (Val(if UsesReference(k) && rec.ByValue? then 0 else 1), st))
  }

  ghost predicate Completes(n: Node) {
    forall fuel: nat, st: int :: Eval(Telling(), None, fuel, n, st).out.Val?
  }

  // ---- Such expressions complete ----

  lemma {:induction false} AllComplete(ns: seq<Node>, fuel: nat, st: int)
    requires forall n <- ns :: Completes(n)
    ensures var r := EvalAll(Telling(), None, fuel, ns, st); r.stop.None? && |r.vals| == |ns|
  {
    if ns != [] {
      assert Completes(ns[0]);
      AllComplete(ns[1..], fuel, Eval(Telling(), None, fuel, ns[0], st).st);
    }
  }

  lemma {:induction false} EagerGives(n: Node, fuel: nat, st: int)
    requires TotalKind(n.kind, |n.children|) && !IsLazy(n.kind) && forall c <- n.children :: Completes(c)
    requires forall c <- ReferenceOperands(n.kind, n.children) :: Completes(c)
    ensures
      var out := Eval(Telling(), None, fuel, n, st).out;
      out.Val? && (UsesReference(n.kind) ==> out.v == if ReceiverOf(n.kind, n.children).ByValue? then 0 else 1)
  {
    var first := EvalAll(Telling(), None, fuel, ReferenceOperands(n.kind, n.children), st);
    AllComplete(ReferenceOperands(n.kind, n.children), fuel, st);
    AllComplete(PlainOperands(n.kind, n.children), fuel, first.st);
    assert Body(Telling(), None, fuel, n, st) == EagerBody(Telling(), None, fuel, n, st);
  }

  lemma {:induction false} LazyGives(n: Node, fuel: nat, st: int)
    requires TotalKind(n.kind, |n.children|) && IsLazy(n.kind) && forall c <- n.children :: Completes(c)
    ensures Eval(Telling(), None, fuel, n, st).out.Val?
  {
    assert Completes(n.children[0]) && Completes(n.children[1]);
    var first := Eval(Telling(), None, fuel, n.children[0], st);
    assert Eval(Telling(), None, fuel, n.children[1], first.st).out.Val?;
    if n.kind.Conditional? {
      assert Completes(n.children[2]);
      assert Eval(Telling(), None, fuel, n.children[2], first.st).out.Val?;
      assert ConditionalBody(Telling(), None, fuel, n, st).out.Val?;
    } else {
      assert LogicalBody(Telling(), None, fuel, n, n.kind.logical, st).out.Val?;
    }
  }

  lemma {:induction false} NodeCompletes(n: Node)
    requires TotalKind(n.kind, |n.children|) && forall c <- n.children :: Completes(c)
    requires forall c <- ReferenceOperands(n.kind, n.children) :: Completes(c)
    ensures Completes(n)
  {
    forall fuel: nat, st: int ensures Eval(Telling(), None, fuel, n, st).out.Val? {
      if IsLazy(n.kind) {
        LazyGives(n, fuel, st);
      } else {
        EagerGives(n, fuel, st);
      }
    }
  }

  lemma {:induction false} TotalInside(n: Node)
    requires Total(n)
    ensures Total(Unwrap(n))
  {
    if n.kind.Paren? {
      TotalInside(n.children[0]);
    }
  }

  lemma {:induction false} TotalCompletes(n: Node)
    requires Total(n)
    ensures Completes(n)
    decreases n
  {
    forall c | c in n.children ensures Completes(c) {
      TotalCompletes(c);
    }
    forall c | c in ReferenceOperands(n.kind, n.children) ensures Completes(c) {
      TotalInside(n.children[0]);
      TotalCompletes(c);
    }
    NodeCompletes(n);
  }

  // ---- So do their instrumented forms ----

  lemma {:induction false} NoneChosen(applied: seq<Applied>)
    ensures Chosen(applied, None).None?
  {
    if applied != [] {
      NoneChosen(applied[..|applied| - 1]);
    }
  }

  // The children of what a rebuilt operand is, inside its parentheses.
  lemma {:induction false} RebuiltInside(n: Node, plan: Plan)
    requires AllAccepted(n, plan) && !PlacedAt(plan, Unwrap(n))
    ensures Unwrap(Rebuild(n, plan)).children == RebuildAll(Unwrap(n).children, plan)
  {
    if n.kind.Paren? && |n.children| == 1 {
      RebuiltInside(n.children[0], plan);
    }
  }

  lemma {:induction false} AcceptedInside(n: Node, plan: Plan)
    requires AllAccepted(n, plan)
    ensures Accepted(n, plan) && AllAccepted(Unwrap(n), plan)
  {
    if n.kind.Paren? && |n.children| == 1 {
      AcceptedInside(n.children[0], plan);
    }
  }

  lemma {:induction false} RebuiltCompletes(n: Node, plan: Plan)
    requires Total(n) && AllAccepted(n, plan)
    ensures Completes(Rebuild(n, plan)) && Completes(Node(n.site, n.kind, RebuildAll(n.children, plan)))
    decreases n, 1
  {
    var base := Node(n.site, n.kind, RebuildAll(n.children, plan));
    forall c | c in base.children ensures Completes(c) {
      var i :| 0 <= i < |n.children| && c == Rebuild(n.children[i], plan);
      RebuiltCompletes(n.children[i], plan);
    }
    RebuiltOperands(n, plan);
    NodeCompletes(base);
    if PlacedAt(plan, n) {
      PlacedCompletes(plan[n.site.value], base);
    }
  }

  lemma {:induction false} RebuiltOperands(n: Node, plan: Plan)
    requires Total(n) && AllAccepted(n, plan)
    ensures forall c <- ReferenceOperands(n.kind, RebuildAll(n.children, plan)) :: Completes(c)
    decreases n, 0
  {
    if ReceiverOf(n.kind, RebuildAll(n.children, plan)) != ByValue {
      var operand := n.children[0];
      AcceptedInside(operand, plan);
      UnwrapRebuilds(operand, plan);
      RebuiltInside(operand, plan);
      TotalInside(operand);
      forall c | c in Unwrap(Rebuild(operand, plan)).children ensures Completes(c) {
        var i :| 0 <= i < |Unwrap(operand).children| && c == Rebuild(Unwrap(operand).children[i], plan);
        RebuiltCompletes(Unwrap(operand).children[i], plan);
      }
    }
  }

  lemma {:induction false} PlacedCompletes(p: Placement, n: Node)
    requires PlacerAccepts(p, n) && !n.kind.SwitchCase? && Completes(n)
    ensures Completes(Place(p, n))
  {
    NoneChosen(p.applied);
    forall fuel: nat, st: int ensures Eval(Telling(), None, fuel, Place(p, n), st).out.Val? {
      PlacedRunsOriginal(Telling(), None, fuel, p, n, st);
    }
  }

  // ---- A lost reference shows ----

  /** Where a placement is at a reference, the node that uses it is handed the reference and its instrumented form is
      not, with no mutant active. */
  lemma {:induction false} LostReferenceShows(n: Node, plan: Plan, fuel: nat, st: int)
    requires Total(n) && AllAccepted(n, plan) && UsesReference(n.kind) && |n.children| > 0
    requires !KeepsReference(n.kind, n.children[0], plan)
    ensures Eval(Telling(), None, fuel, n, st).out == Val(1)
    ensures Eval(Telling(), None, fuel, Rebuild(n, plan), st).out == Val(0)
  {
    var base := Node(n.site, n.kind, RebuildAll(n.children, plan));
    OriginalGives(n, fuel, st);
    BaseGives(n, plan, fuel, st);
    if PlacedAt(plan, n) {
      NoneChosen(plan[n.site.value].applied);
      PlacedRunsOriginal(Telling(), None, fuel, plan[n.site.value], base, st);
    }
  }

  lemma {:induction false} OriginalGives(n: Node, fuel: nat, st: int)
    requires Total(n) && UsesReference(n.kind) && |n.children| > 0
    ensures Eval(Telling(), None, fuel, n, st).out == Val(if ReceiverOf(n.kind, n.children).ByValue? then 0 else 1)
  {
    forall c | c in n.children ensures Completes(c) {
      TotalCompletes(c);
    }
    forall c | c in ReferenceOperands(n.kind, n.children) ensures Completes(c) {
      TotalInside(n.children[0]);
      TotalCompletes(c);
    }
    EagerGives(n, fuel, st);
  }

  lemma {:induction false} BaseGives(n: Node, plan: Plan, fuel: nat, st: int)
    requires Total(n) && AllAccepted(n, plan) && UsesReference(n.kind) && |n.children| > 0
    requires PlacedAt(plan, Unwrap(n.children[0]))
    ensures Eval(Telling(), None, fuel, Node(n.site, n.kind, RebuildAll(n.children, plan)), st).out == Val(0)
  {
    var base := Node(n.site, n.kind, RebuildAll(n.children, plan));
    AcceptedInside(n.children[0], plan);
    UnwrapRebuilds(n.children[0], plan);
    forall c | c in base.children ensures Completes(c) {
      var i :| 0 <= i < |n.children| && c == Rebuild(n.children[i], plan);
      RebuiltCompletes(n.children[i], plan);
    }
    EagerGives(base, fuel, st);
  }

  // ---- So sparing references is needed ----

  // A part of a program and its instrumented form end alike, whatever the operators mean.
  ghost predicate RunsAlike(n: Node, plan: Plan) {
    forall sem: Semantics<int, int>, fuel: nat, st: int :: Sane(sem) ==>
      Alike(Eval(sem, None, fuel, n, st), Eval(sem, None, fuel, Rebuild(n, plan), st))
  }

  predicate Alike(r: Run<int, int>, r': Run<int, int>) {
    r.out == r'.out && r.st == r'.st
  }

  ghost predicate PartsRunAlike(n: Node, plan: Plan) {
    RunsAlike(n, plan) && forall c <- n.children :: PartsRunAlike(c, plan)
  }

  lemma {:induction false} KeptRunAlike(n: Node, plan: Plan)
    requires Fits(n, plan)
    ensures PartsRunAlike(n, plan)
  {
    forall l | l in plan ensures Chosen(plan[l].applied, None).None? {
      NoneChosen(plan[l].applied);
    }
    forall sem: Semantics<int, int>, fuel: nat, st: int | Sane(sem)
      ensures Alike(Eval(sem, None, fuel, n, st), Eval(sem, None, fuel, Rebuild(n, plan), st))
    {
      InstrumentedMeansOriginal(sem, n, plan, None, fuel, st);
    }
    forall c | c in n.children ensures PartsRunAlike(c, plan) {
      KeptRunAlike(c, plan);
    }
  }

  lemma {:induction false} LostIsNotAlike(n: Node, plan: Plan)
    requires Total(n) && AllAccepted(n, plan) && UsesReference(n.kind) && |n.children| > 0
    requires !KeepsReference(n.kind, n.children[0], plan)
    ensures !RunsAlike(n, plan)
  {
    LostReferenceShows(n, plan, 0, 0);
    assert !Alike(Eval(Telling(), None, 0, n, 0), Eval(Telling(), None, 0, Rebuild(n, plan), 0));
  }

  lemma {:induction false} AlikeAreKept(n: Node, plan: Plan)
    requires AllAccepted(n, plan) && ReferencesAreTotal(n) && PartsRunAlike(n, plan)
    ensures ReferencesKept(n, plan)
  {
    if UsesReference(n.kind) && |n.children| > 0 && !KeepsReference(n.kind, n.children[0], plan) {
      LostIsNotAlike(n, plan);
    }
    forall c | c in n.children ensures ReferencesKept(c, plan) {
      AlikeAreKept(c, plan);
    }
  }

  /** Sparing references is exactly what the dry run needs: every part of the program ends as its instrumented form
      does, with no mutant active and whatever the operators mean, if and only if no live mutant's nearest claim stands
      as a reference. */
  lemma {:induction false} SparingIsNeeded(root: Node, ctx: Context)
    requires Acceptable(root, ctx) && ReferencesAreTotal(root)
    ensures PlanInstrumentation(root, ctx).Ok?
    ensures PartsRunAlike(root, PlanOf(PlanInstrumentation(root, ctx).value)) <==> SparesReferences(root, ctx)
  {
    PlanIsAccepted(root, ctx);
    var plan := PlanOf(PlanInstrumentation(root, ctx).value);
    ReferencesKeptExactly(root, ctx);
    if SparesReferences(root, ctx) {
      FitsFromParts(root, plan);
      KeptRunAlike(root, plan);
    }
    if PartsRunAlike(root, plan) {
      AlikeAreKept(root, plan);
    }
  }
}
