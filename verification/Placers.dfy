// The three placers and the program they build: every mutant behind a runtime switch.
module Placers {
  import opened Wrappers
  import opened Syntax
  import opened Semantics

  datatype Placer = ExpressionPlacer | StatementPlacer | SwitchCasePlacer

  // A mutant and the claimed node's tree with that mutant in it.
  datatype Applied = Applied(id: Id, tree: Node)

  datatype Placement = Placement(placer: Placer, applied: seq<Applied>)

  type Plan = map<Label, Placement>

  function Built(k: Kind, cs: seq<Node>): Node {
    Node(None, k, cs)
  }

  function IdsOf(applied: seq<Applied>): (ids: seq<Id>)
    ensures |ids| == |applied| && forall i :: 0 <= i < |ids| ==> ids[i] == applied[i].id
  {
    seq(|applied|, i requires 0 <= i < |applied| => applied[i].id)
  }

  function CoverSequence(ids: seq<Id>, target: seq<Node>): Node {
    Built(Sequence, [Built(CoverCall(ids), [])] + target)
  }

  function CoverStatement(ids: seq<Id>): Node {
    Built(ExpressionStatement, [CoverSequence(ids, [])])
  }

  // Wraps one conditional around the other; the last mutant's test is outermost.
  function GuardedExpression(applied: seq<Applied>, current: Node): Node {
    if applied == [] then current
    else
      var last := applied[|applied| - 1];
      Built(Conditional, [Built(ActiveTest(last.id), []), Unwrap(last.tree),
        GuardedExpression(applied[..|applied| - 1], current)])
  }

  // As above with `if` statements; `guarded` gives the statements a mutant stands for.
  function GuardedStatement(applied: seq<Applied>, guarded: Node -> seq<Node>, current: Node): Node {
    if applied == [] then current
    else
      var last := applied[|applied| - 1];
      Built(If, [Built(ActiveTest(last.id), []), Built(Block, guarded(last.tree)),
                 GuardedStatement(applied[..|applied| - 1], guarded, current)])
  }

  function TestOf(n: Node): seq<Node> {
    if n.kind.SwitchCase? && n.kind.hasTest && |n.children| > 0 then [n.children[0]] else []
  }

  function StatementsOf(n: Node): seq<Node> {
    if n.kind.Block? then n.children else [n]
  }

  function Place(p: Placement, n: Node): Node {
    var ids := IdsOf(p.applied);
    match p.placer
    case ExpressionPlacer => GuardedExpression(p.applied, CoverSequence(ids, [n]))
    case StatementPlacer =>
      var statement := GuardedStatement(p.applied, t => [t], Built(Block, [CoverStatement(ids)] + StatementsOf(n)));
      if n.kind.Block? then Built(Block, [statement]) else statement
    case SwitchCasePlacer =>
      Built(n.kind, TestOf(n) + [GuardedStatement(p.applied, Consequent,
        Built(Block, [CoverStatement(ids)] + Consequent(n)))])
  }

  predicate MatchesPlacer(placer: Placer, k: Kind) {
    match placer
    case ExpressionPlacer => IsExpressionKind(k)
    case StatementPlacer => IsStatementKind(k)
    case SwitchCasePlacer => k.SwitchCase?
  }

  // The kind checks a placer makes while it rewrites: only expressions are unwrapped.
  predicate PlacerAccepts(p: Placement, n: Node) {
    AcceptsKind(p, n.kind)
  }

  predicate AcceptsKind(p: Placement, k: Kind) {
    && MatchesPlacer(p.placer, k)
    && forall a <- p.applied ::
         MatchesPlacer(p.placer, (if p.placer == ExpressionPlacer then Unwrap(a.tree) else a.tree).kind)
  }

  predicate CasesWellFormed(n: Node) {
    (n.kind.SwitchCase? ==> WellFormedCase(n)) && forall c <- n.children :: CasesWellFormed(c)
  }

  predicate PlacedAt(plan: Plan, n: Node) {
    n.site.Some? && n.site.value in plan
  }

  // The instrumented program: children first, then the placement of the node itself.
  function Rebuild(n: Node, plan: Plan): Node {
    var base := Node(n.site, n.kind, RebuildAll(n.children, plan));
    if PlacedAt(plan, n) then Place(plan[n.site.value], base) else base
  }

  function RebuildAll(ns: seq<Node>, plan: Plan): (rs: seq<Node>)
    ensures |rs| == |ns| && forall i :: 0 <= i < |ns| ==> rs[i] == Rebuild(ns[i], plan)
  {
    if ns == [] then [] else [Rebuild(ns[0], plan)] + RebuildAll(ns[1..], plan)
  }

  function Chosen(applied: seq<Applied>, active: Option<Id>): Option<Node> {
    if applied == [] then None
    else
      var last := applied[|applied| - 1];
      if active == Some(last.id) then Some(last.tree) else Chosen(applied[..|applied| - 1], active)
  }

  // What a placed mutant stands for: the switch-case placer keeps the original test.
  function Effective(placer: Placer, n: Node, tree: Node): Node {
    if placer == SwitchCasePlacer then Node(n.site, n.kind, TestOf(n) + Consequent(tree)) else tree
  }

  // The program the active mutant stands for: the original with that one tree in it.
  function Mutated(n: Node, plan: Plan, active: Option<Id>): Node {
    var base := Node(n.site, n.kind, MutatedAll(n.children, plan, active));
    if !PlacedAt(plan, n) then base
    else
      var p := plan[n.site.value];
      match Chosen(p.applied, active)
      case Some(tree) => Effective(p.placer, base, tree)
      case None => base
  }

  function MutatedAll(ns: seq<Node>, plan: Plan, active: Option<Id>): (rs: seq<Node>)
    ensures |rs| == |ns| && forall i :: 0 <= i < |ns| ==> rs[i] == Mutated(ns[i], plan, active)
  {
    if ns == [] then [] else [Mutated(ns[0], plan, active)] + MutatedAll(ns[1..], plan, active)
  }

  // No placement is at the node that is used as a reference here.
  predicate KeepsReference(context: Kind, n: Node, plan: Plan) {
    PlacedAt(plan, Unwrap(n)) ==> !IsReference(context, Unwrap(n).kind)
  }

  predicate AllAccepted(n: Node, plan: Plan) {
    (PlacedAt(plan, n) ==> PlacerAccepts(plan[n.site.value], n)) && forall c <- n.children :: AllAccepted(c, plan)
  }

  predicate ReferencesKept(n: Node, plan: Plan) {
    && (UsesReference(n.kind) && |n.children| > 0 ==> KeepsReference(n.kind, n.children[0], plan))
    && forall c <- n.children :: ReferencesKept(c, plan)
  }

  // Every placement in the tree is accepted by its placer, and none is at a reference.
  predicate Fits(n: Node, plan: Plan) {
    && (PlacedAt(plan, n) ==> PlacerAccepts(plan[n.site.value], n) && (n.kind.SwitchCase? ==> WellFormedCase(n)))
    && (UsesReference(n.kind) && |n.children| > 0 ==> KeepsReference(n.kind, n.children[0], plan))
    && forall c <- n.children :: Fits(c, plan)
  }

  lemma {:induction false} FitsFromParts(n: Node, plan: Plan)
    requires AllAccepted(n, plan) && CasesWellFormed(n) && ReferencesKept(n, plan)
    ensures Fits(n, plan)
  {
    forall c | c in n.children ensures Fits(c, plan) {
      FitsFromParts(c, plan);
    }
  }

  // The active mutant is not a reference where there was a value.
  predicate StaysValue(context: Kind, n: Node, plan: Plan, active: Option<Id>) {
    var core := Unwrap(n);
    PlacedAt(plan, core) && Chosen(plan[core.site.value].applied, active).Some? ==>
      !IsReference(context, Unwrap(Chosen(plan[core.site.value].applied, active).value).kind)
  }

  predicate MakesNoReference(n: Node, plan: Plan, active: Option<Id>) {
    && (UsesReference(n.kind) && |n.children| > 0 ==> StaysValue(n.kind, n.children[0], plan, active))
    && forall c <- n.children :: MakesNoReference(c, plan, active)
  }
}
