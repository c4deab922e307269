// Where each live mutant is placed: a fold over the tree that claims sites on the way down, attaches
// every mutant to the nearest claim above it and emits each claim on the way up.
module Planning {
  import opened Wrappers
  import opened Syntax
  import opened Placers

  datatype Facts = Facts(isExpression: bool, isStatement: bool, isSwitchCase: bool, expressionIsValid: bool)

  datatype Mutant = Mutant(id: Id, original: Label, replacement: Node)

  // The live mutants planned at each node, and the nodes the fold does not enter.
  datatype Context = Context(live: map<Label, seq<Mutant>>, skipped: set<Label>)

  datatype Frame = Frame(node: Node, parent: Option<Frame>)

  datatype Entry = Entry(mutant: Mutant, tree: Node)

  datatype Claim = Claim(node: Node, facts: Facts, applied: seq<Entry>)

  datatype Planned = Planned(node: Node, placer: Placer, applied: seq<Entry>)

  datatype FoldState = FoldState(claims: seq<Claim>, placements: seq<Planned>)

  datatype Refusal =
    | NodeWithoutSpan
    | MutantsUnplaced
    | MutantNotApplied(notApplied: Id)
    | MutantKindMismatch(mismatch: Id)
    | NoPlacerClaimsNode

  // ---- Claiming ----

  predicate IsChainLink(k: Kind) {
    k.Member? || k.Call?
  }

  predicate IsChild(parent: Node, i: nat, n: Node) {
    i < |parent.children| && parent.children[i].site == n.site
  }

  predicate IsUnmutatableContext(n: Node, parent: Node) {
    || (IsChainLink(n.kind) && parent.kind.Member? && !IsChild(parent, 1, n))
    || (IsChainLink(n.kind) && parent.kind.Call? && IsChild(parent, 0, n))
    || parent.kind.Delete?
    || (parent.kind.Assign? && IsChild(parent, 0, n))
  }

  function FactsOf(frame: Frame): Facts {
    Facts(
      IsExpressionKind(frame.node.kind),
      IsStatementKind(frame.node.kind),
      frame.node.kind.SwitchCase?,
      frame.parent.None? || !IsUnmutatableContext(frame.node, frame.parent.value.node))
  }

  function ClaimingPlacer(facts: Facts): Option<Placer> {
    if facts.isExpression && facts.expressionIsValid then Some(ExpressionPlacer)
    else if facts.isStatement then Some(StatementPlacer)
    else if facts.isSwitchCase then Some(SwitchCasePlacer)
    else None
  }

  // ---- Applying one mutant to a clone of the claimed tree ----

  // The pre-order walk that replaces the first node with the original's identity.
  function ReplaceFirst(n: Node, l: Label, r: Node): (Node, bool)
    decreases n, 1
  {
    if n.site == Some(l) then (r, true)
    else var cs := ReplaceFirstIn(n.children, l, r); (Node(n.site, n.kind, cs.0), cs.1)
  }

  function ReplaceFirstIn(ns: seq<Node>, l: Label, r: Node): (seq<Node>, bool)
    decreases ns, 0
  {
    if ns == [] then ([], false)
    else
      var first := ReplaceFirst(ns[0], l, r);
      if first.1 then ([first.0] + ns[1..], true)
      else var rest := ReplaceFirstIn(ns[1..], l, r); ([first.0] + rest.0, rest.1)
  }

  function ApplyMutant(m: Mutant, target: Node): Result<Node, Refusal> {
    if target.site == Some(m.original) then Ok(m.replacement)
    else
      var replaced := ReplaceFirst(target, m.original, m.replacement);
      if replaced.1 then Ok(replaced.0) else Err(MutantNotApplied(m.id))
  }

  // ---- The fold ----

  predicate ClaimedAt(claim: Claim, n: Node) {
    claim.node.site == n.site
  }

  predicate HasClaim(claims: seq<Claim>, n: Node) {
    exists c <- claims :: ClaimedAt(c, n)
  }

  function FindClaim(claims: seq<Claim>, n: Node): Option<Claim> {
    if claims == [] then None
    else if ClaimedAt(claims[0], n) then Some(claims[0])
    else FindClaim(claims[1..], n)
  }

  function Target(frame: Frame, claims: seq<Claim>): Option<Frame>
    decreases frame
  {
    if HasClaim(claims, frame.node) then Some(frame)
    else if frame.parent.None? then None
    else Target(frame.parent.value, claims)
  }

  function ApplyAll(mutants: seq<Mutant>, target: Node): Result<seq<Entry>, Refusal> {
    if mutants == [] then Ok([])
    else
      var before := ApplyAll(mutants[..|mutants| - 1], target);
      if before.Err? then before
      else
        var last := mutants[|mutants| - 1];
        var tree := ApplyMutant(last, target);
        if tree.Err? then Err(tree.error) else Ok(before.value + [Entry(last, tree.value)])
  }

  function WithEntries(claims: seq<Claim>, target: Node, entries: seq<Entry>): seq<Claim> {
    seq(|claims|, i requires 0 <= i < |claims| =>
      if ClaimedAt(claims[i], target) then claims[i].(applied := claims[i].applied + entries) else claims[i])
  }

  function AttachPlaceable(mutants: seq<Mutant>, frame: Frame, state: FoldState): Result<FoldState, Refusal> {
    if mutants == [] then Ok(state)
    else
      var target := Target(frame, state.claims);
      if target.None? then Err(MutantsUnplaced)
      else
        var entries := ApplyAll(mutants, target.value.node);
        if entries.Err? then Err(entries.error)
        else Ok(state.(claims := WithEntries(state.claims, target.value.node, entries.value)))
  }

  function ClaimSelf(frame: Frame, claims: seq<Claim>): seq<Claim> {
    if ClaimingPlacer(FactsOf(frame)).Some? then claims + [Claim(frame.node, FactsOf(frame), [])] else claims
  }

  // The plan-time kind check sees every replacement unwrapped.
  function FirstMismatch(placer: Placer, applied: seq<Entry>): Option<Id> {
    if applied == [] then None
    else if !MatchesPlacer(placer, Unwrap(applied[0].tree).kind) then Some(applied[0].mutant.id)
    else FirstMismatch(placer, applied[1..])
  }

  function EmitClaim(claim: Claim, state: FoldState): Result<FoldState, Refusal> {
    if claim.applied == [] then Ok(state)
    else
      var placer := ClaimingPlacer(claim.facts);
      if placer.None? then Err(NoPlacerClaimsNode)
      else
        var mismatch := FirstMismatch(placer.value, claim.applied);
        if mismatch.Some? then Err(MutantKindMismatch(mismatch.value))
        else Ok(state.(placements := state.placements + [Planned(claim.node, placer.value, claim.applied)]))
  }

  function EmitPlacement(frame: Frame, state: FoldState): Result<FoldState, Refusal> {
    var claim := FindClaim(state.claims, frame.node);
    if claim.None? then Ok(state) else EmitClaim(claim.value, state)
  }

  function LiveAt(n: Node, ctx: Context): seq<Mutant> {
    if n.site.Some? && n.site.value in ctx.live then ctx.live[n.site.value] else []
  }

  predicate IsSkipped(n: Node, ctx: Context) {
    n.site.Some? && n.site.value in ctx.skipped
  }

  function FoldPlacements(frame: Frame, state: FoldState, ctx: Context): Result<FoldState, Refusal>
    decreases frame.node, 2
  {
    if frame.node.site.None? then Err(NodeWithoutSpan)
    else if IsSkipped(frame.node, ctx) then Ok(state)
    else VisitFrame(frame, state, ctx)
  }

  function VisitFrame(frame: Frame, state: FoldState, ctx: Context): Result<FoldState, Refusal>
    decreases frame.node, 1
  {
    var claimed := state.(claims := ClaimSelf(frame, state.claims));
    var planned := AttachPlaceable(LiveAt(frame.node, ctx), frame, claimed);
    if planned.Err? then planned
    else
      var folded := FoldChildren(frame, frame.node.children, planned.value, ctx);
      if folded.Err? then folded else EmitPlacement(frame, folded.value)
  }

  function FoldChildren(frame: Frame, children: seq<Node>, state: FoldState, ctx: Context): Result<FoldState, Refusal>
    decreases children, 0
  {
    if children == [] then Ok(state)
    else
      var first := FoldPlacements(Frame(children[0], Some(frame)), state, ctx);
      if first.Err? then first else FoldChildren(frame, children[1..], first.value, ctx)
  }

  function PlanInstrumentation(root: Node, ctx: Context): Result<seq<Planned>, Refusal> {
    var folded := FoldPlacements(Frame(root, None), FoldState([], []), ctx);
    if folded.Err? then Err(folded.error) else Ok(folded.value.placements)
  }

  // ---- What the fold computes ----

  predicate Claimable(frame: Frame) {
    ClaimingPlacer(FactsOf(frame)).Some?
  }

  // The nearest claiming ancestor-or-self.
  function Home(frame: Frame): (home: Option<Frame>)
    ensures home.Some? ==> Claimable(home.value)
    decreases frame
  {
    if Claimable(frame) then Some(frame) else if frame.parent.None? then None else Home(frame.parent.value)
  }

  datatype Attached = Attached(target: Node, mutant: Mutant)

  function AttachedAt(frame: Frame, ctx: Context): seq<Attached> {
    if Home(frame).None? then []
    else
      var live := LiveAt(frame.node, ctx);
      seq(|live|, i requires 0 <= i < |live| => Attached(Home(frame).value.node, live[i]))
  }

  function AttachedIn(frame: Frame, ctx: Context): seq<Attached>
    decreases frame.node, 1
  {
    if IsSkipped(frame.node, ctx) then [] else AttachedAt(frame, ctx) + AttachedInAll(frame, frame.node.children, ctx)
  }

  function AttachedInAll(frame: Frame, children: seq<Node>, ctx: Context): seq<Attached>
    decreases children, 0
  {
    if children == [] then []
    else AttachedIn(Frame(children[0], Some(frame)), ctx) + AttachedInAll(frame, children[1..], ctx)
  }

  function TreeOf(m: Mutant, target: Node): Node {
    var tree := ApplyMutant(m, target);
    if tree.Ok? then tree.value else target
  }

  function EntryOf(a: Attached): Entry {
    Entry(a.mutant, TreeOf(a.mutant, a.target))
  }

  function EntriesFor(n: Node, attached: seq<Attached>): seq<Entry> {
    if attached == [] then []
    else
      (if attached[0].target.site == n.site then [EntryOf(attached[0])] else [])
      + EntriesFor(n, attached[1..])
  }

  function Extended(claims: seq<Claim>, attached: seq<Attached>): seq<Claim> {
    seq(|claims|, i requires 0 <= i < |claims| =>
      claims[i].(applied := claims[i].applied + EntriesFor(claims[i].node, attached)))
  }

  function SelfClaim(frame: Frame, attached: seq<Attached>): seq<Claim> {
    if Claimable(frame) then [Claim(frame.node, FactsOf(frame), EntriesFor(frame.node, attached))] else []
  }

  function ClaimsIn(frame: Frame, ctx: Context): seq<Claim>
    decreases frame.node, 1
  {
    if IsSkipped(frame.node, ctx) then []
    else SelfClaim(frame, AttachedIn(frame, ctx)) + ClaimsInAll(frame, frame.node.children, ctx)
  }

  function ClaimsInAll(frame: Frame, children: seq<Node>, ctx: Context): seq<Claim>
    decreases children, 0
  {
    if children == [] then []
    else ClaimsIn(Frame(children[0], Some(frame)), ctx) + ClaimsInAll(frame, children[1..], ctx)
  }

  function Emitted(claim: Claim): seq<Planned> {
    if claim.applied == [] || ClaimingPlacer(claim.facts).None? then []
    else [Planned(claim.node, ClaimingPlacer(claim.facts).value, claim.applied)]
  }

  function SelfPlacement(frame: Frame, attached: seq<Attached>): seq<Planned> {
    if Claimable(frame) then Emitted(Claim(frame.node, FactsOf(frame), EntriesFor(frame.node, attached))) else []
  }

  // The placements of a subtree, children before parents.
  function PlacementsIn(frame: Frame, ctx: Context): seq<Planned>
    decreases frame.node, 1
  {
    if IsSkipped(frame.node, ctx) then []
    else PlacementsInAll(frame, frame.node.children, ctx) + SelfPlacement(frame, AttachedIn(frame, ctx))
  }

  function PlacementsInAll(frame: Frame, children: seq<Node>, ctx: Context): seq<Planned>
    decreases children, 0
  {
    if children == [] then []
    else PlacementsIn(Frame(children[0], Some(frame)), ctx) + PlacementsInAll(frame, children[1..], ctx)
  }
}
