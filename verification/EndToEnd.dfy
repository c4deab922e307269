// Planning, placing and running together: for each live mutant of a program, the instrumented program with that
// mutant active is the original program with that mutant's node replaced. What is assumed is said of the program and
// its live mutants alone.
module EndToEnd {
  import opened Wrappers
  import opened Syntax
  import opened Semantics
  import Congruence
  import opened Placers
  import opened Preservation
  import opened Instrumentation
  import opened Coverage
  import opened Planning
  import opened PlanningLaws
  import opened PlanningResults
  import opened Conservation
  import opened Frames
  import opened Placements
  import opened Limits

  // ---- Programs a plan can be made for and applied to ----

  predicate ParenthesizedStatement(n: Node) {
    Unwrap(n) != n && (IsStatementKind(Unwrap(n).kind) || Unwrap(n).kind.SwitchCase?)
  }

  // Planning succeeds, and no mutator gave a statement in parentheses, which no parser produces.
  ghost predicate Acceptable(root: Node, ctx: Context) {
    && DistinctLabels(root) && CasesWellFormed(root)
    && Located(root, ctx) && AllPlannable(Root(root), ctx)
    && forall m <- LiveIn(root, ctx) :: !ParenthesizedStatement(m.replacement)
  }

  lemma {:induction false} EntriesPlaced(ps: seq<Planned>, p: Planned, e: Entry)
    requires p in ps && e in p.applied
    ensures e in PlacedEntries(ps)
  {
    if ps[0] != p {
      EntriesPlaced(ps[1..], p, e);
    }
  }

  lemma {:induction false} PlacedIsLive(root: Node, ctx: Context, p: Planned, e: Entry)
    requires DistinctLabels(root) && PlanInstrumentation(root, ctx).Ok?
    requires p in PlanInstrumentation(root, ctx).value && e in p.applied
    ensures e.mutant in LiveIn(root, ctx)
  {
    var es := PlacedEntries(PlanInstrumentation(root, ctx).value);
    MutantsAreConserved(root, ctx);
    EntriesPlaced(PlanInstrumentation(root, ctx).value, p, e);
    var i :| 0 <= i < |es| && es[i] == e;
    assert Map(MutantOf, es)[i] in multiset(LiveIn(root, ctx));
  }

  lemma AcceptableIsBare(root: Node, ctx: Context, p: Planned)
    requires Acceptable(root, ctx) && PlanInstrumentation(root, ctx).Ok? && p in PlanInstrumentation(root, ctx).value
    ensures Bare(p)
  {
    PlacementIsSound(root, ctx, p);
    NoneMismatches(p.placer, p.applied);
    forall e | e in p.applied && p.placer != ExpressionPlacer ensures Unwrap(e.tree) == e.tree {
      PlacedIsLive(root, ctx, p, e);
      assert !ParenthesizedStatement(e.mutant.replacement);
      assert p.node.site == Some(e.mutant.original) ==> e.tree == e.mutant.replacement;
      assert p.node.site != Some(e.mutant.original) ==> e.tree.kind == p.node.kind;
    }
  }

  lemma {:induction false} PlanIsAcceptedAt(root: Node, ctx: Context, n: Node)
    requires Acceptable(root, ctx) && PlanInstrumentation(root, ctx).Ok? && DistinctLabels(n)
    requires forall l <- Labels(n) :: Find(root, l) == Find(n, l)
    ensures AllAccepted(n, PlanOf(PlanInstrumentation(root, ctx).value))
    decreases n
  {
    var ps := PlanInstrumentation(root, ctx).value;
    var plan := PlanOf(ps);
    if PlacedAt(plan, n) {
      PlanHolds(ps, n.site.value);
      var p :| p in ps && p.node.site == n.site && plan[n.site.value] == PlacementOf(p);
      PlacementIsSound(root, ctx, p);
      AcceptableIsBare(root, ctx, p);
      PlacersAgree(root, ctx, p);
      assert Labels(n)[0] == n.site.value;
      assert p.node == n;
    }
    forall c | c in n.children ensures AllAccepted(c, plan) {
      var i :| 0 <= i < |n.children| && n.children[i] == c;
      DistinctBelow(n, i);
      LabelsBelow(n, i);
      forall l | l in Labels(c) ensures Find(root, l) == Find(c, l) {
        FoundBelow(n, i, l);
      }
      PlanIsAcceptedAt(root, ctx, c);
    }
  }

  /** A program whose live mutants each have a claim that takes them is planned, and the placers refuse nothing. */
  lemma {:induction false} PlanIsAccepted(root: Node, ctx: Context)
    requires Acceptable(root, ctx)
    ensures PlanInstrumentation(root, ctx).Ok? && AllAccepted(root, PlanOf(PlanInstrumentation(root, ctx).value))
  {
    PlanningSucceedsExactly(root, ctx);
    PlanIsAcceptedAt(root, ctx, root);
  }

  // ---- Programs the instrumented form keeps the meaning of ----

  // Besides, the program does not call the helpers itself, and no live mutant's nearest claim stands as a reference.
  ghost predicate Placeable(root: Node, ctx: Context) {
    Acceptable(root, ctx) && HelperFree(root) && SparesReferences(root, ctx)
  }

  lemma {:induction false} PlaceableFits(root: Node, ctx: Context)
    requires Placeable(root, ctx)
    ensures PlanInstrumentation(root, ctx).Ok? && Fits(root, PlanOf(PlanInstrumentation(root, ctx).value))
  {
    PlanIsAccepted(root, ctx);
    ReferencesKeptExactly(root, ctx);
    FitsFromParts(root, PlanOf(PlanInstrumentation(root, ctx).value));
  }

  // The mutant puts a reference where a `delete`, an assignment, a call, `++` or `--` had a value for its operand.
  ghost predicate BecomesReference(root: Node, p: Planned, e: Entry)
    requires p.node.site.Some?
  {
    var claim := FrameOf(Root(root), p.node.site.value);
    claim.Some? && ContextOf(claim.value).Some? && IsReference(ContextOf(claim.value).value, Unwrap(e.tree).kind)
  }

  lemma ChosenEntry(root: Node, ctx: Context, p: Planned, e: Entry, l: Label)
    requires DistinctLabels(root) && PlanInstrumentation(root, ctx).Ok? && DistinctIds(root, ctx)
    requires p in PlanInstrumentation(root, ctx).value && e in p.applied
    requires l in PlanOf(PlanInstrumentation(root, ctx).value)
    requires Chosen(PlanOf(PlanInstrumentation(root, ctx).value)[l].applied, Some(e.mutant.id)).Some?
    ensures p.node.site == Some(l)
    ensures Chosen(PlanOf(PlanInstrumentation(root, ctx).value)[l].applied, Some(e.mutant.id)).value == e.tree
  {
    var plan := PlanOf(PlanInstrumentation(root, ctx).value);
    ChosenNeedsId(plan[l].applied, Some(e.mutant.id));
    PlacementHasItsIds(root, ctx, p, e);
    PlannedAt(root, ctx, p);
    var k :| 0 <= k < |p.applied| && p.applied[k] == e;
    ChosenIsOnly(plan[l].applied, k);
  }

  lemma {:induction false} ActiveMakesNoReference(root: Node, ctx: Context, p: Planned, e: Entry, f: Frame)
    requires DistinctLabels(root) && PlanInstrumentation(root, ctx).Ok? && DistinctIds(root, ctx)
    requires p in PlanInstrumentation(root, ctx).value && e in p.applied && p.node.site.Some?
    requires !BecomesReference(root, p, e) && FrameIn(root, f)
    ensures MakesNoReference(f.node, PlanOf(PlanInstrumentation(root, ctx).value), Some(e.mutant.id))
    decreases f.node
  {
    var plan, id := PlanOf(PlanInstrumentation(root, ctx).value), Some(e.mutant.id);
    forall c | c in f.node.children ensures MakesNoReference(c, plan, id) {
      var i :| 0 <= i < |f.node.children| && f.node.children[i] == c;
      ChildFrameIn(root, f, i);
      ActiveMakesNoReference(root, ctx, p, e, Frame(c, Some(f)));
    }
    if UsesReference(f.node.kind) && |f.node.children| > 0 {
      var core := Unwrap(f.node.children[0]);
      if PlacedAt(plan, core) && Chosen(plan[core.site.value].applied, id).Some? {
        ChosenEntry(root, ctx, p, e, core.site.value);
        ReferenceFrame(root, f);
      }
    }
  }

  // ---- The end-to-end results ----

  /** Meaning preservation. For every program and every live mutant that makes no reference of a value: running the
      instrumented program with the mutant active ends as running the original program with the claimed tree replaced
      by what the placer keeps of the mutant's, and so, unless the mutant changes the test of a case it is placed at,
      as running the original program with the mutant's node replaced. */
  lemma LiveMutantRuns<V(!new), S(!new)>(
    sem: Semantics<V, S>, root: Node, ctx: Context, m: Mutant, fuel: nat, st: S) returns (p: Planned, e: Entry)
    requires Sane(sem) && Placeable(root, ctx) && DistinctIds(root, ctx) && m in LiveIn(root, ctx)
    ensures PlanInstrumentation(root, ctx).Ok?
    ensures p in PlanInstrumentation(root, ctx).value && e in p.applied && e.mutant == m && p.node.site.Some?
    ensures
      var run := Eval(sem, Some(m.id), fuel, Rebuild(root, PlanOf(PlanInstrumentation(root, ctx).value)), st);
      var kept := Effective(p.placer, p.node, e.tree);
      var exact := Eval(sem, Some(m.id), fuel, Replace(root, p.node.site.value, kept), st);
      var mutated := Eval(sem, Some(m.id), fuel, Replace(root, m.original, m.replacement), st);
      !BecomesReference(root, p, e) ==>
        && run.out == exact.out && run.st == exact.st
        && (KeepsTest(p.node, m) ==> run.out == mutated.out && run.st == mutated.st)
  {
    PlaceableFits(root, ctx);
    var plan := PlanOf(PlanInstrumentation(root, ctx).value);
    p, e := PlacementOfMutant(root, ctx, m);
    PlacementIsSound(root, ctx, p);
    if !BecomesReference(root, p, e) {
      ActiveMakesNoReference(root, ctx, p, e, Root(root));
      MutatedBy(root, ctx, p, e);
      RealisedExactly(root, ctx, p, e);
      InstrumentedMeansMutated(sem, root, plan, Some(m.id), fuel, st);
      ReplaceInside(root, p.node.site.value, m.original, m.replacement);
    }
  }

  lemma {:induction false} OtherIdsInactive(root: Node, ctx: Context, active: Option<Id>)
    requires DistinctLabels(root) && PlanInstrumentation(root, ctx).Ok?
    requires active.Some? ==> forall m <- LiveIn(root, ctx) :: m.id != active.value
    ensures Inactive(PlanOf(PlanInstrumentation(root, ctx).value), active)
  {
    var ps := PlanInstrumentation(root, ctx).value;
    var plan := PlanOf(ps);
    forall l | l in plan ensures Chosen(plan[l].applied, active).None? {
      ChosenNeedsId(plan[l].applied, active);
      PlanHolds(ps, l);
      var p :| p in ps && p.node.site == Some(l) && plan[l] == PlacementOf(p);
      forall i | 0 <= i < |p.applied| ensures active != Some(p.applied[i].mutant.id) {
        PlacedIsLive(root, ctx, p, p.applied[i]);
      }
    }
  }

  /** With no live mutant active the instrumented program ends as the original does. */
  lemma {:induction false} DryRun<V(!new), S(!new)>(
    sem: Semantics<V, S>, root: Node, ctx: Context, active: Option<Id>, fuel: nat, st: S)
    requires Sane(sem) && Placeable(root, ctx)
    requires active.Some? ==> forall m <- LiveIn(root, ctx) :: m.id != active.value
    ensures PlanInstrumentation(root, ctx).Ok?
    ensures
      var run := Eval(sem, active, fuel, Rebuild(root, PlanOf(PlanInstrumentation(root, ctx).value)), st);
      var original := Eval(sem, active, fuel, root, st);
      run.out == original.out && run.st == original.st
  {
    PlaceableFits(root, ctx);
    OtherIdsInactive(root, ctx, active);
    InstrumentedMeansOriginal(sem, root, PlanOf(PlanInstrumentation(root, ctx).value), active, fuel, st);
  }

  /** In such a run a live mutant's counter counts the visits of the node it is placed at. */
  lemma {:induction false} DryRunCounts<V(!new), S(!new)>(
    sem: Semantics<V, S>, root: Node, ctx: Context, active: Option<Id>, p: Planned, e: Entry, fuel: nat, st: S)
    requires Sane(sem) && Placeable(root, ctx) && DistinctIds(root, ctx)
    requires active.Some? ==> forall m <- LiveIn(root, ctx) :: m.id != active.value
    requires PlanInstrumentation(root, ctx).Ok? && p in PlanInstrumentation(root, ctx).value && e in p.applied
    ensures p.node.site.Some?
    ensures
      var run := Eval(sem, active, fuel, Rebuild(root, PlanOf(PlanInstrumentation(root, ctx).value)), st);
      Hits(Congruence.View(Recorded, run.trace), e.mutant.id)
      == Visits(Eval(sem, active, fuel, root, st).trace, p.node.site.value)
  {
    PlaceableFits(root, ctx);
    OtherIdsInactive(root, ctx, active);
    PlacementHasItsIds(root, ctx, p, e);
    CounterIsVisits(sem, root, PlanOf(PlanInstrumentation(root, ctx).value), active, p.node.site.value, e.mutant.id,
      fuel, st);
  }

  /** A live mutant the dry run never records can be reported as not covered without running it. */
  lemma {:induction false} UncoveredRunsAsDryRun<V(!new), S(!new)>(
    sem: Semantics<V, S>, root: Node, ctx: Context, m: Mutant, fuel: nat, st: S)
    requires Sane(sem) && Placeable(root, ctx) && DistinctIds(root, ctx) && m in LiveIn(root, ctx)
    requires PlanInstrumentation(root, ctx).Ok?
    requires m.id !in Congruence.View(Recorded,
      Eval(sem, None, fuel, Rebuild(root, PlanOf(PlanInstrumentation(root, ctx).value)), st).trace)
    ensures
      var plan := PlanOf(PlanInstrumentation(root, ctx).value);
      var dry, run := Eval(sem, None, fuel, Rebuild(root, plan), st),
        Eval(sem, Some(m.id), fuel, Rebuild(root, plan), st);
      dry.out == run.out && dry.st == run.st
  {
    var p, e := PlacementOfMutant(root, ctx, m);
    PlaceableFits(root, ctx);
    PlacementHasItsIds(root, ctx, p, e);
    UncoveredMutantIsHarmless(sem, root, PlanOf(PlanInstrumentation(root, ctx).value), p.node.site.value, m.id, fuel,
      st);
  }
}
