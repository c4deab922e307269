// The whole transformation of a script: the plan is made from the tree as it is, then applied to the mutable tree.
module Transform {
  import opened Wrappers
  import opened Syntax
  import opened Placers
  import opened Planning
  import opened Placements
  import opened EndToEnd
  import opened Traversal
  import opened Grammar
  import opened Programs

  datatype Transformed = Instrumented | Refused(refusal: Refusal) | Unapplied

  // The tree a mutable tree holds, for the planner to read.
  method ReadTree(n: AstNode) returns (t: Node)
    requires n.Valid()
    ensures t == n.Tree
    decreases n.Tree
  {
    var children := [];
    for i := 0 to |n.children|
      invariant children == n.Tree.children[..i]
    {
      var child := ReadTree(n.children[i]);
      children := children + [child];
    }
    t := Node(n.site, n.kind, children);
  }

  // Nothing is counted as part of a tree that is not in it.
  ghost predicate Exact(n: AstNode)
    requires n.Valid()
    reads n, n.Repr
    decreases n.Tree
  {
    n.Repr == {n} + ReprOf(n.children) && forall i :: 0 <= i < |n.children| ==> Exact(n.children[i])
  }

  // The placements by node object: a planned node is found again by its label.
  function PlacesOf(n: AstNode, plan: Plan): map<AstNode, Placement>
    requires n.Valid()
    reads n, n.Repr
    decreases n.Tree, |n.children| + 1
  {
    PlacesUpTo(n, |n.children|, plan)
  }

  // Those of a node and of its children before `i`.
  function PlacesUpTo(n: AstNode, i: nat, plan: Plan): map<AstNode, Placement>
    requires n.Valid() && i <= |n.children|
    reads n, n.Repr
    decreases n.Tree, i
  {
    if i > 0 then PlacesUpTo(n, i - 1, plan) + PlacesOf(n.children[i - 1], plan)
    else if n.site.Some? && n.site.value in plan then map[n := plan[n.site.value]]
    else map[]
  }

  ghost function NodesUpTo(n: AstNode, i: nat): set<AstNode>
    requires i <= |n.children|
    reads n, n.children
  {
    {n} + ReprOf(n.children[..i])
  }

  lemma {:induction false} PlacesAreExact(n: AstNode, plan: Plan)
    requires n.Valid() && Exact(n)
    ensures PlacesFor(PlacesOf(n, plan), plan, n.Repr) && PlacesOf(n, plan).Keys <= n.Repr
    decreases n.Tree, |n.children| + 1
  {
    PlacesUpToAreExact(n, |n.children|, plan);
    assert n.children[..|n.children|] == n.children;
  }

  lemma {:induction false} PlacesUpToAreExact(n: AstNode, i: nat, plan: Plan)
    requires n.Valid() && Exact(n) && i <= |n.children|
    ensures PlacesFor(PlacesUpTo(n, i, plan), plan, NodesUpTo(n, i)) && PlacesUpTo(n, i, plan).Keys <= NodesUpTo(n, i)
    decreases n.Tree, i
  {
    if i > 0 {
      PlacesUpToAreExact(n, i - 1, plan);
      PlacesAreExact(n.children[i - 1], plan);
      MoreNodes(n, i - 1);
      PlacesOfBoth(PlacesUpTo(n, i - 1, plan), PlacesOf(n.children[i - 1], plan), plan,
        NodesUpTo(n, i - 1), n.children[i - 1].Repr);
    }
  }

  lemma {:induction false} MoreNodes(n: AstNode, i: nat)
    requires i < |n.children|
    ensures NodesUpTo(n, i + 1) == NodesUpTo(n, i) + n.children[i].Repr
  {
    assert n.children[..i + 1] == n.children[..i] + [n.children[i]];
  }

  lemma PlacesOfBoth(
      a: map<AstNode, Placement>, b: map<AstNode, Placement>, plan: Plan, nodes: set<AstNode>, others: set<AstNode>)
    requires PlacesFor(a, plan, nodes) && a.Keys <= nodes && PlacesFor(b, plan, others) && b.Keys <= others
    ensures PlacesFor(a + b, plan, nodes + others) && (a + b).Keys <= nodes + others
  {
  }

  /** Applying a plan leaves the tree its placements stand for, what a placer refuses left as it was, and fails exactly
      if one refuses. */
  method ApplyPlan(root: AstNode, placements: seq<Planned>) returns (failed: bool)
    requires root.Valid() && Exact(root) && root.kind.Program? && CasesWellFormed(root.Tree)
    modifies root.Repr
    ensures root.Valid() && root.Tree == Attempt(old(root.Tree), PlanOf(placements))
    ensures failed == !AllAccepted(old(root.Tree), PlanOf(placements))
  {
    var places := PlacesOf(root, PlanOf(placements));
    PlacesAreExact(root, PlanOf(placements));
    failed := ApplyPlacements(root, places, PlanOf(placements));
  }

  // A program whose mutants each give a program becomes a program, but for targets of assignments and updates lost.
  ghost predicate StaysProgram(before: Node, after: Node, ctx: Context)
    requires PlanInstrumentation(before, ctx).Ok?
  {
    DistinctLabels(before) && Grammatical(before) && MutantsAreGrammatical(before, ctx) ==>
      (Grammatical(after) <==> TargetsKept(before, PlanOf(PlanInstrumentation(before, ctx).value)))
  }

  /** The transformation of a script: what the planner refuses leaves it as it was; otherwise the plan made from the
      tree is applied to it, which gives a program from programs but for targets lost. Where each live mutant has a
      claim that takes it, the transformation succeeds and leaves the tree every theorem about instrumented programs is
      about. */
  method TransformScript(root: AstNode, ctx: Context) returns (r: Transformed)
    requires root.Valid() && Exact(root) && root.kind.Program? && CasesWellFormed(root.Tree)
    modifies root.Repr
    ensures root.Valid()
    ensures r.Refused? <==> PlanInstrumentation(old(root.Tree), ctx).Err?
    ensures r.Refused? ==> r.refusal == PlanInstrumentation(old(root.Tree), ctx).error && root.Tree == old(root.Tree)
    ensures !r.Refused? ==>
      var plan := PlanOf(PlanInstrumentation(old(root.Tree), ctx).value);
      && root.Tree == Attempt(old(root.Tree), plan) && (r.Instrumented? <==> AllAccepted(old(root.Tree), plan))
      && (r.Instrumented? ==> root.Tree == Rebuild(old(root.Tree), plan))
    ensures Acceptable(old(root.Tree), ctx) ==> r.Instrumented?
    ensures !r.Refused? ==> StaysProgram(old(root.Tree), root.Tree, ctx)
  {
    var tree := ReadTree(root);
    var planned := PlanInstrumentation(tree, ctx);
    if Acceptable(tree, ctx) {
      PlanIsAccepted(tree, ctx);
    }
    match planned
    case Err(refusal) => r := Refused(refusal);
    case Ok(placements) =>
      var failed := ApplyPlan(root, placements);
      r := if failed then Unapplied else Instrumented;
      if !failed {
        AttemptIsRebuild(tree, PlanOf(placements));
      }
      if Grammatical(tree) && DistinctLabels(tree) && MutantsAreGrammatical(tree, ctx) {
        PlannedIsGrammatical(tree, ctx);
        AttemptIsGrammatical(tree, PlanOf(placements));
      }
  }
}
