// Programs the instrumented form does not keep the meaning of: what `Limits` says in general, on plans that are the
// planner's own for one live mutant.
module Losses {
  import opened Wrappers
  import opened Syntax
  import opened Semantics
  import opened Placers
  import opened Preservation
  import opened Instrumentation
  import opened Coverage
  import opened Planning
  import opened PlanningLaws
  import opened PlanningResults
  import opened Conservation
  import opened Frames
  import opened Placements
  import opened Limits
  import opened EndToEnd
  import opened SmallStore

  // ---- Programs with one live mutant ----

  function Only(m: Mutant): Context {
    Context(map[m.original := [m]], {})
  }

  lemma {:induction false} OneLive(n: Node, m: Mutant)
    requires DistinctLabels(n)
    ensures LiveIn(n, Only(m)) == if m.original in Labels(n) then [m] else []
    decreases n, 1
  {
    assert LabelsAll(n.children) == Labels(n)[if n.site.Some? then 1 else 0..];
    OneLiveBelow(n.children, m);
    if n.site.Some? {
      assert Labels(n)[0] == n.site.value;
    }
  }

  lemma {:induction false} OneLiveBelow(ns: seq<Node>, m: Mutant)
    requires Distinct(LabelsAll(ns))
    ensures LiveInAll(ns, Only(m)) == if m.original in LabelsAll(ns) then [m] else []
    decreases ns, 0
  {
    if ns != [] {
      DistinctConcat(Labels(ns[0]), LabelsAll(ns[1..]));
      OneLive(ns[0], m);
      OneLiveBelow(ns[1..], m);
    }
  }

  lemma {:induction false} FoundIsEntered(frame: Frame, ctx: Context, l: Label)
    requires ctx.skipped == {} && FrameOf(frame, l).Some?
    ensures Enters(frame, ctx, FrameOf(frame, l).value) && FrameOf(frame, l).value.node.site == Some(l)
    decreases frame.node, 1
  {
    if frame.node.site != Some(l) {
      var c := FoundIsEnteredBelow(frame, frame.node.children, ctx, l);
    }
  }

  lemma {:induction false} FoundIsEnteredBelow(
      frame: Frame, children: seq<Node>, ctx: Context, l: Label) returns (c: Node)
    requires ctx.skipped == {} && FrameBelow(frame, children, l).Some?
    ensures c in children && Enters(Frame(c, Some(frame)), ctx, FrameBelow(frame, children, l).value)
    ensures FrameBelow(frame, children, l).value.node.site == Some(l)
    decreases children, 0
  {
    if FrameOf(Frame(children[0], Some(frame)), l).Some? {
      c := children[0];
      FoundIsEntered(Frame(c, Some(frame)), ctx, l);
    } else {
      c := FoundIsEnteredBelow(frame, children[1..], ctx, l);
    }
  }

  // A mutant whose nearest claim takes it.
  predicate Takes(claim: Frame, m: Mutant) {
    && claim.node.site.Some? && Claimable(claim) && ApplyMutant(m, claim.node).Ok?
    && MatchesPlacer(ClaimingPlacer(FactsOf(claim)).value, Unwrap(ApplyMutant(m, claim.node).value).kind)
    && !ParenthesizedStatement(m.replacement)
  }

  function OnlyPlan(claim: Frame, m: Mutant): Plan
    requires Takes(claim, m)
  {
    map[claim.node.site.value := Placement(
      ClaimingPlacer(FactsOf(claim)).value, [Applied(m.id, Replace(claim.node, m.original, m.replacement))])]
  }

  // The one frame with a live mutant.
  lemma {:induction false} OnlyAt(root: Node, m: Mutant, g: Frame, h: Frame)
    requires DistinctLabels(root) && FrameOf(Root(root), m.original) == Some(g)
    requires Enters(Root(root), Only(m), h) && LiveAt(h.node, Only(m)) != []
    ensures h == g
  {
    FoundIsEntered(Root(root), Only(m), m.original);
    OneFrame(root, Only(m), g, h);
  }

  lemma {:induction false} OnlyAccepted(root: Node, m: Mutant, g: Frame)
    requires DistinctLabels(root) && CasesWellFormed(root) && Located(root, Only(m))
    requires FrameOf(Root(root), m.original) == Some(g) && Home(g).Some? && Takes(Home(g).value, m)
    ensures Acceptable(root, Only(m)) && DistinctIds(root, Only(m)) && LiveIn(root, Only(m)) == [m]
    ensures StandsAsReference(Home(g).value) <==> !SparesReferences(root, Only(m))
  {
    FrameIffLabelled(Root(root), m.original);
    OneLive(root, m);
    OnlyPlannable(root, m, g);
    OnlySpared(root, m, g);
  }

  lemma {:induction false} OnlyPlannable(root: Node, m: Mutant, g: Frame)
    requires DistinctLabels(root) && FrameOf(Root(root), m.original) == Some(g)
    requires Home(g).Some? && Takes(Home(g).value, m)
    ensures AllPlannable(Root(root), Only(m))
  {
    forall h | Enters(Root(root), Only(m), h) ensures Plannable(h, Only(m)) {
      if LiveAt(h.node, Only(m)) != [] {
        OnlyAt(root, m, g, h);
      }
    }
  }

  lemma {:induction false} OnlySpared(root: Node, m: Mutant, g: Frame)
    requires DistinctLabels(root) && FrameOf(Root(root), m.original) == Some(g) && Home(g).Some?
    ensures StandsAsReference(Home(g).value) <==> !SparesReferences(root, Only(m))
  {
    FoundIsEntered(Root(root), Only(m), m.original);
    if !SparesReferences(root, Only(m)) {
      var h :| Enters(Root(root), Only(m), h) && LiveAt(h.node, Only(m)) != [] && Home(h).Some?
        && StandsAsReference(Home(h).value);
      OnlyAt(root, m, g, h);
    }
  }

  lemma {:induction false} OnlyPlacement(root: Node, m: Mutant, g: Frame, p: Planned)
    requires DistinctLabels(root) && PlanInstrumentation(root, Only(m)).Ok? && LiveIn(root, Only(m)) == [m]
    requires FrameOf(Root(root), m.original) == Some(g) && Home(g).Some? && Takes(Home(g).value, m)
    requires p in PlanInstrumentation(root, Only(m)).value
    ensures p == Planned(Home(g).value.node, ClaimingPlacer(FactsOf(Home(g).value)).value,
      [Entry(m, Replace(Home(g).value.node, m.original, m.replacement))])
  {
    PlacementIsSound(root, Only(m), p);
    OnlyEntry(root, m, p);
    assert p.applied[0] in p.applied;
    PlacedIsLive(root, Only(m), p, p.applied[0]);
    OnlyTarget(root, m, g, p.node);
  }

  lemma {:induction false} OnlyEntry(root: Node, m: Mutant, p: Planned)
    requires DistinctLabels(root) && PlanInstrumentation(root, Only(m)).Ok? && LiveIn(root, Only(m)) == [m]
    requires p in PlanInstrumentation(root, Only(m)).value
    ensures |p.applied| <= 1
  {
    MutantsAreConserved(root, Only(m));
    var es := PlacedEntries(PlanInstrumentation(root, Only(m)).value);
    assert |multiset(Map(MutantOf, es))| == |multiset([m])|;
    FewerEntries(PlanInstrumentation(root, Only(m)).value, p);
  }

  lemma {:induction false} OnlyTarget(root: Node, m: Mutant, g: Frame, target: Node)
    requires DistinctLabels(root) && FrameOf(Root(root), m.original) == Some(g) && Home(g).Some?
    requires NearestClaim(Root(root), Only(m), m, target)
    ensures target == Home(g).value.node
  {
    var l :| LiveWithHome(FrameOf(Root(root), l), Only(m), m, target);
    FoundIsEntered(Root(root), Only(m), l);
    OnlyAt(root, m, g, FrameOf(Root(root), l).value);
  }

  lemma {:induction false} FewerEntries(ps: seq<Planned>, p: Planned)
    requires p in ps
    ensures |p.applied| <= |PlacedEntries(ps)|
  {
    if ps[0] != p {
      FewerEntries(ps[1..], p);
    }
  }

  /** A program with one live mutant is planned with that mutant alone, at its nearest claim. */
  lemma {:induction false} OnlyPlanned(root: Node, m: Mutant, g: Frame)
    requires DistinctLabels(root) && CasesWellFormed(root) && Located(root, Only(m))
    requires FrameOf(Root(root), m.original) == Some(g) && Home(g).Some? && Takes(Home(g).value, m)
    ensures PlanInstrumentation(root, Only(m)).Ok?
    ensures PlanOf(PlanInstrumentation(root, Only(m)).value) == OnlyPlan(Home(g).value, m)
  {
    OnlyAccepted(root, m, g);
    PlanIsAccepted(root, Only(m));
    var ps := PlanInstrumentation(root, Only(m)).value;
    var p, e := PlacementOfMutant(root, Only(m), m);
    OnlyPlacement(root, m, g, p);
    PlannedAt(root, Only(m), p);
    assert AppliedOf(p.applied) == [Applied(m.id, e.tree)];
    forall l | l in PlanOf(ps) ensures Some(l) == p.node.site {
      PlanHolds(ps, l);
      var q :| q in ps && q.node.site == Some(l);
      OnlyPlacement(root, m, g, q);
    }
  }

  // ---- References ----

  // `k` applied to one operand, as a script.
  function Applying(k: Kind, operand: Node): Node {
    Node(Some(0), Program, [Node(Some(1), ExpressionStatement, [Node(Some(2), k, [operand])])])
  }

  // What an operand hands over: a property when it is a member access, a value otherwise.
  ghost predicate HandsOver(
      active: Option<Id>, fuel: nat, operand: Node, st: Store, rec: Receiver, vals: seq<int>, st': Store) {
    var core := Unwrap(operand);
    if core.kind.Member? then
      var r := EvalAll(Small(), active, fuel, core.children, st);
      rec == ByProperty && r.stop.None? && r.vals == vals && r.st == st'
    else
      var r := Eval(Small(), active, fuel, operand, st);
      !core.kind.Identifier? && rec == ByValue && r.out.Val? && [r.out.v] == vals && r.st == st'
  }

  lemma {:induction false} PropertyUsed(
      k: Kind, active: Option<Id>, fuel: nat, operand: Node, st: Store, vals: seq<int>, st': Store)
    requires IsUse(k) && Unwrap(operand).kind.Member?
    requires HandsOver(active, fuel, operand, st, ByProperty, vals, st')
    ensures
      var r := Eval(Small(), active, fuel, Node(Some(2), k, [operand]), st);
      r.out == Val(0) && r.st == Used(k, ByProperty, vals, st')
  {
    var n := Node(Some(2), k, [operand]);
    assert PlainOperands(k, n.children) == [] && EvalAll(Small(), active, fuel, [], st') == Runs([], None, st', []);
    assert vals + [] == vals;
    assert Body(Small(), active, fuel, n, st) == EagerBody(Small(), active, fuel, n, st);
  }

  lemma {:induction false} ValueUsed(
      k: Kind, active: Option<Id>, fuel: nat, operand: Node, st: Store, vals: seq<int>, st': Store)
    requires IsUse(k) && !Unwrap(operand).kind.Member?
    requires HandsOver(active, fuel, operand, st, ByValue, vals, st')
    ensures
      var r := Eval(Small(), active, fuel, Node(Some(2), k, [operand]), st);
      r.out == Val(0) && r.st == Used(k, ByValue, vals, st')
  {
    var n := Node(Some(2), k, [operand]);
    EvalOne(Small(), active, fuel, operand, st);
    assert PlainOperands(k, n.children) == [operand];
    EagerRuns(Small(), active, fuel, n, st);
  }

  lemma {:induction false} OperandUsed(
      k: Kind, active: Option<Id>, fuel: nat, operand: Node, st: Store, rec: Receiver, vals: seq<int>, st': Store)
    requires IsUse(k) && HandsOver(active, fuel, operand, st, rec, vals, st')
    ensures
      var r := Eval(Small(), active, fuel, Node(Some(2), k, [operand]), st);
      r.out == Val(0) && r.st == Used(k, rec, vals, st')
  {
    if Unwrap(operand).kind.Member? {
      PropertyUsed(k, active, fuel, operand, st, vals, st');
    } else {
      ValueUsed(k, active, fuel, operand, st, vals, st');
    }
  }

  // A script of one expression statement, or one whose expression completes.
  lemma {:induction false} OneStatementRuns(active: Option<Id>, fuel: nat, l: Label, k: Kind, n: Node, st: Store)
    requires (k.ExpressionStatement? || k.Program?) && Eval(Small(), active, fuel, n, st).out.Val?
    ensures
      var r := Eval(Small(), active, fuel, Node(Some(l), k, [n]), st);
      r.out == Val(0) && r.st == Eval(Small(), active, fuel, n, st).st
  {
    EvalOne(Small(), active, fuel, n, st);
    EagerRuns(Small(), active, fuel, Node(Some(l), k, [n]), st);
  }

  lemma {:induction false} StatementUses(
      k: Kind, active: Option<Id>, fuel: nat, operand: Node, st: Store, rec: Receiver, vals: seq<int>, st': Store)
    requires IsUse(k) && HandsOver(active, fuel, operand, st, rec, vals, st')
    ensures
      var r := Eval(Small(), active, fuel, Applying(k, operand).children[0], st);
      r.out.Val? && r.st == Used(k, rec, vals, st')
  {
    OperandUsed(k, active, fuel, operand, st, rec, vals, st');
    OneStatementRuns(active, fuel, 1, ExpressionStatement, Node(Some(2), k, [operand]), st);
  }

  lemma {:induction false} ScriptUses(
      k: Kind, active: Option<Id>, fuel: nat, operand: Node, st: Store, rec: Receiver, vals: seq<int>, st': Store)
    requires IsUse(k) && HandsOver(active, fuel, operand, st, rec, vals, st')
    ensures Eval(Small(), active, fuel, Applying(k, operand), st).st == Used(k, rec, vals, st')
  {
    StatementUses(k, active, fuel, operand, st, rec, vals, st');
    OneStatementRuns(active, fuel, 0, Program, Applying(k, operand).children[0], st);
  }

  // i += 1
  function Step(op: string): Node {
    Node(Some(6), Assign(op), [Node(Some(7), Identifier("i"), []), Node(Some(8), Literal("1"), [])])
  }

  // a[i += 1]
  function Access(op: string): Node {
    Node(Some(4), Member, [Node(Some(5), Identifier("a"), []), Step(op)])
  }

  // i -= 1 for i += 1
  function Subtracting(): Mutant {
    Mutant("m", 6, Step("-="))
  }

  function Operand(parens: bool, n: Node): Node {
    if parens then Node(Some(3), Paren, [n]) else n
  }

  // Trees of the parser's: every node has a label of its own, here between two bounds.
  ghost predicate Parsed(ns: seq<Node>, from: Label, to: Label) {
    && Distinct(LabelsAll(ns)) && (forall l <- LabelsAll(ns) :: from <= l < to)
    && forall n <- ns :: HelperFree(n) && CasesWellFormed(n) && forall ctx :: Located(n, ctx)
  }

  lemma DistinctApart(a: seq<Label>, b: seq<Label>, middle: Label)
    requires Distinct(a) && Distinct(b) && (forall l <- a :: l < middle) && (forall l <- b :: middle <= l)
    ensures Distinct(a + b)
  {
    forall i, j | 0 <= i < j < |a + b| ensures (a + b)[i] != (a + b)[j] {
      if i < |a| <= j {
        assert (a + b)[i] in a && (a + b)[j] in b;
      }
    }
  }

  lemma ParsedNode(l: Label, k: Kind, cs: seq<Node>, from: Label, to: Label)
    requires Parsed(cs, from, to) && l < from <= to && !k.CoverCall? && !k.ActiveTest?
    requires k.SwitchCase? && k.hasTest ==> cs != []
    ensures Parsed([Node(Some(l), k, cs)], l, to)
  {
    var n := Node(Some(l), k, cs);
    DistinctApart([l], LabelsAll(cs), from);
    assert LabelsAll([n]) == Labels(n) + LabelsAll([]) == [l] + LabelsAll(cs);
  }

  lemma ParsedPair(n: Node, rest: seq<Node>, from: Label, middle: Label, to: Label)
    requires Parsed([n], from, middle) && Parsed(rest, middle, to) && from <= middle <= to
    ensures Parsed([n] + rest, from, to)
  {
    assert [n][1..] == [] && ([n] + rest)[1..] == rest;
    DistinctApart(LabelsAll([n]), LabelsAll(rest), middle);
    assert LabelsAll([n] + rest) == LabelsAll([n]) + LabelsAll(rest) by {
      assert LabelsAll([n]) == Labels(n) + LabelsAll([]) && LabelsAll([n] + rest) == Labels(n) + LabelsAll(rest);
    }
  }

  lemma {:induction false} ParsedRoot(n: Node, from: Label, to: Label)
    requires Parsed([n], from, to)
    ensures DistinctLabels(n) && HelperFree(n) && CasesWellFormed(n) && forall ctx :: Located(n, ctx)
  {
    assert [n][1..] == [] && LabelsAll([n]) == Labels(n) + LabelsAll([]) == Labels(n);
  }

  lemma AccessParsed(op: string)
    ensures Parsed([Access(op)], 4, 9)
  {
    var a, i, one := Node(Some(5), Identifier("a"), []), Node(Some(7), Identifier("i"), []),
      Node(Some(8), Literal("1"), []);
    ParsedNode(8, one.kind, [], 9, 9);
    ParsedNode(7, i.kind, [], 8, 8);
    ParsedPair(i, [one], 7, 8, 9);
    ParsedNode(6, Assign(op), [i, one], 7, 9);
    ParsedNode(5, a.kind, [], 6, 6);
    ParsedPair(a, [Step(op)], 5, 6, 9);
    ParsedNode(4, Member, [a, Step(op)], 5, 9);
  }

  lemma ApplyingParsed(k: Kind, parens: bool, core: Node)
    requires Parsed([core], 4, 9) && IsUse(k)
    ensures Parsed([Applying(k, Operand(parens, core))], 0, 9)
  {
    ParsedNode(3, Paren, [core], 4, 9);
    var n := Node(Some(2), k, [Operand(parens, core)]);
    ParsedNode(2, k, [Operand(parens, core)], if parens then 3 else 4, 9);
    ParsedNode(1, ExpressionStatement, [n], 2, 9);
    ParsedNode(0, Program, [Node(Some(1), ExpressionStatement, [n])], 1, 9);
  }

  // The frame of an operand.
  function OperandFrame(k: Kind, parens: bool, core: Node): Frame {
    var root := Root(Applying(k, Operand(parens, core)));
    var statement := Frame(root.node.children[0], Some(root));
    var n := Frame(statement.node.children[0], Some(statement));
    var operand := Frame(n.node.children[0], Some(n));
    if parens then Frame(core, Some(operand)) else operand
  }

  lemma OperandFrameIn(k: Kind, parens: bool, core: Node)
    requires Parsed([core], 4, 9) && IsUse(k) && !core.kind.Paren?
    ensures FrameIn(Applying(k, Operand(parens, core)), OperandFrame(k, parens, core))
    ensures OperandFrame(k, parens, core).node == core && ContextOf(OperandFrame(k, parens, core)) == Some(k)
  {
    var root := Root(Applying(k, Operand(parens, core)));
    ApplyingParsed(k, parens, core);
    ParsedRoot(root.node, 0, 9);
    ChildFrameIn(root.node, root, 0);
    var statement := Frame(root.node.children[0], Some(root));
    ChildFrameIn(root.node, statement, 0);
    var n := Frame(statement.node.children[0], Some(statement));
    ChildFrameIn(root.node, n, 0);
    var operand := Frame(n.node.children[0], Some(n));
    assert ContextOf(operand) == Some(k);
    if parens {
      ChildFrameIn(root.node, operand, 0);
      assert operand.node.children == [core];
    }
  }

  lemma {:induction false} NothingPlaced(n: Node, plan: Plan)
    requires forall l <- Labels(n) :: l !in plan
    ensures Rebuild(n, plan) == n
  {
    forall i | 0 <= i < |n.children| ensures Rebuild(n.children[i], plan) == n.children[i] {
      LabelsBelow(n, i);
      NothingPlaced(n.children[i], plan);
    }
    assert n.site.Some? ==> Labels(n)[0] == n.site.value;
    assert RebuildAll(n.children, plan) == n.children;
  }

  // The script with a placement at the operand's core.
  lemma ApplyingRebuilt(k: Kind, parens: bool, core: Node, p: Placement)
    requires Parsed([core], 4, 9) && core.site == Some(4)
    ensures Rebuild(Applying(k, Operand(parens, core)), map[4 := p]) == Applying(k, Operand(parens, Place(p, core)))
  {
    var plan := map[4 := p];
    ParsedRoot(core, 4, 9);
    forall i | 0 <= i < |core.children| ensures Rebuild(core.children[i], plan) == core.children[i] {
      LabelsBelow(core, i);
      RootIsNotBelow(core, i);
      NothingPlaced(core.children[i], plan);
    }
    assert RebuildAll(core.children, plan) == core.children;
    assert Rebuild(core, plan) == Place(p, core);
    assert RebuildAll([core], plan) == [Place(p, core)];
    var operand := Operand(parens, core);
    assert RebuildAll([operand], plan) == [Operand(parens, Place(p, core))];
    var n := Node(Some(2), k, [operand]);
    assert Rebuild(n, plan) == Node(Some(2), k, [Operand(parens, Place(p, core))]);
    assert RebuildAll([n], plan) == [Rebuild(n, plan)];
    var statement := Node(Some(1), ExpressionStatement, [n]);
    assert RebuildAll([statement], plan) == [Rebuild(statement, plan)];
  }

  lemma RootIsNotBelow(n: Node, i: int)
    requires DistinctLabels(n) && n.site.Some? && 0 <= i < |n.children|
    ensures n.site.value !in Labels(n.children[i])
  {
    DistinctConcat([n.site.value], LabelsAll(n.children));
    LabelsInAll(n.children, i);
  }

  lemma PlacedCore(parens: bool, core: Node, p: Placement)
    requires PlacerAccepts(p, core) && p.placer == ExpressionPlacer
    ensures var core' := Unwrap(Operand(parens, Place(p, core))); !core'.kind.Member? && !core'.kind.Identifier?
  {
    var placed := Place(p, core);
    PlaceShape(p, core);
    assert Unwrap(placed) == placed;
  }

  // A placement gives what the mutant that is active gives, else what the node does.
  ghost predicate Gives(active: Option<Id>, fuel: nat, core: Node, p: Placement, st: Store, v: int, st': Store) {
    var chosen := Chosen(p.applied, active);
    var r := Eval(Small(), active, fuel, if chosen.Some? then chosen.value else core, st);
    r.out == Val(v) && r.st == st'
  }

  lemma {:induction false} PlacedGives(
      active: Option<Id>, fuel: nat, core: Node, p: Placement, st: Store, v: int, st': Store)
    requires PlacerAccepts(p, core) && p.placer == ExpressionPlacer && Gives(active, fuel, core, p, st, v, st')
    ensures var r := Eval(Small(), active, fuel, Place(p, core), st); r.out == Val(v) && r.st == st'
  {
    if Chosen(p.applied, active).None? {
      PlacedRunsOriginal(Small(), active, fuel, p, core, st);
    } else {
      PlacedRunsMutant(Small(), active, fuel, p, core, st);
    }
  }

  // What a placement in the operand's place hands over: the value of the mutant that is active, else of the operand.
  lemma {:induction false} PlacedHandsOver(
      active: Option<Id>, fuel: nat, parens: bool, core: Node, p: Placement, st: Store, v: int, st': Store)
    requires PlacerAccepts(p, core) && p.placer == ExpressionPlacer && p.applied != []
    requires Gives(active, fuel, core, p, st, v, st')
    ensures HandsOver(active, fuel, Operand(parens, Place(p, core)), st, ByValue, [v], st')
  {
    var placed := Place(p, core);
    PlacedCore(parens, core, p);
    PlacedGives(active, fuel, core, p, st, v, st');
    if parens {
      EvalOne(Small(), active, fuel, placed, st);
      EagerRuns(Small(), active, fuel, Operand(parens, placed), st);
    }
  }

  // What a script then does with its operand, bare or in parentheses.
  lemma {:induction false} PlacedIsUsed(
      k: Kind, parens: bool, core: Node, p: Placement, active: Option<Id>, fuel: nat, st: Store, v: int, st': Store)
    requires Parsed([core], 4, 9) && core.site == Some(4) && IsUse(k)
    requires PlacerAccepts(p, core) && p.placer == ExpressionPlacer && p.applied != []
    requires Gives(active, fuel, core, p, st, v, st')
    ensures Eval(Small(), active, fuel, Rebuild(Applying(k, Operand(parens, core)), map[4 := p]), st).st
      == Used(k, ByValue, [v], st')
  {
    ApplyingRebuilt(k, parens, core, p);
    PlacedHandsOver(active, fuel, parens, core, p, st, v, st');
    ScriptUses(k, active, fuel, Operand(parens, Place(p, core)), st, ByValue, [v], st');
  }

  lemma AccessMutated()
    ensures ApplyMutant(Subtracting(), Access("+=")) == Ok(Access("-="))
      && Replace(Access("+="), 6, Step("-=")) == Access("-=")
  {
    var a := Node(Some(5), Identifier("a"), []);
    AccessParsed("+=");
    ParsedRoot(Access("+="), 4, 9);
    assert Replace(a, 6, Step("-=")) == a;
    assert Replace(Access("+="), 6, Step("-=")).children == [a, Step("-=")];
    ReplaceFirstReplaces(Access("+="), 6, Step("-="));
    LabelsBelow(Access("+="), 1);
    assert Labels(Step("+="))[0] == 6;
  }

  lemma AccessHome(k: Kind, parens: bool) returns (g: Frame)
    requires (parens && (k.Delete? || k.Call?)) || k.Update?
    ensures FrameOf(Root(Applying(k, Operand(parens, Access("+=")))), 6) == Some(g)
    ensures Home(g) == Some(OperandFrame(k, parens, Access("+="))) && StandsAsReference(Home(g).value)
    ensures Takes(Home(g).value, Subtracting())
    ensures OnlyPlan(Home(g).value, Subtracting())
      == map[4 := Placement(ExpressionPlacer, [Applied("m", Access("-="))])]
  {
    var root, home := Applying(k, Operand(parens, Access("+="))), OperandFrame(k, parens, Access("+="));
    AccessParsed("+=");
    OperandFrameIn(k, parens, Access("+="));
    ChildFrameIn(root, home, 1);
    g := Frame(Step("+="), Some(home));
    assert Labels(Step("+="))[0] == 6;
    ClaimableReference(home);
    AccessMutated();
  }

  function AccessPlan(): Plan {
    map[4 := Placement(ExpressionPlacer, [Applied("m", Access("-="))])]
  }

  lemma AccessPlanned(k: Kind, parens: bool)
    requires (parens && (k.Delete? || k.Call?)) || k.Update?
    ensures
      var root, ctx := Applying(k, Operand(parens, Access("+="))), Only(Subtracting());
      && Acceptable(root, ctx) && HelperFree(root) && DistinctIds(root, ctx) && !SparesReferences(root, ctx)
      && PlanInstrumentation(root, ctx).Ok? && PlanOf(PlanInstrumentation(root, ctx).value) == AccessPlan()
  {
    var root := Applying(k, Operand(parens, Access("+=")));
    AccessParsed("+=");
    ApplyingParsed(k, parens, Access("+="));
    ParsedRoot(root, 0, 9);
    var g := AccessHome(k, parens);
    OnlyAccepted(root, Subtracting(), g);
    OnlyPlanned(root, Subtracting(), g);
  }

  // a and o are 1, and a[1] is 5.
  function Start(): Store {
    Store(map["a" := 1, "o" := 1], map[(1, 1) := 5])
  }

  function Stepped(): Store {
    Store(map["a" := 1, "o" := 1, "i" := 1], map[(1, 1) := 5])
  }

  lemma {:induction false} AccessOperands(active: Option<Id>, fuel: nat)
    ensures
      var r := EvalAll(Small(), active, fuel, Access("+=").children, Start());
      r.stop.None? && r.vals == [1, 1] && r.st == Stepped()
  {
    LeafRuns(active, fuel, Access("+=").children[0], Start());
    OneIsOne();
    AssignRuns(active, fuel, Step("+="), Start());
    PairRuns(active, fuel, Access("+=").children[0], Step("+="), Start());
  }

  lemma OneIsOne()
    ensures IsNumber("1") && NumberOf("1") == 1
  {
    assert "1"[..0] == "";
  }

  lemma {:induction false} AccessUsed(k: Kind, parens: bool, fuel: nat)
    requires IsUse(k)
    ensures Eval(Small(), None, fuel, Applying(k, Operand(parens, Access("+="))), Start()).st
      == Used(k, ByProperty, [1, 1], Stepped())
  {
    var core := Access("+=");
    AccessOperands(None, fuel);
    assert Unwrap(Operand(parens, core)) == core by {
      assert Unwrap(core) == core;
    }
    ScriptUses(k, None, fuel, Operand(parens, core), Start(), ByProperty, [1, 1], Stepped());
  }

  lemma {:induction false} AccessPlaced(k: Kind, parens: bool, fuel: nat)
    requires IsUse(k)
    ensures Eval(Small(), None, fuel, Rebuild(Applying(k, Operand(parens, Access("+="))), AccessPlan()), Start()).st
      == Used(k, ByValue, [5], Stepped())
  {
    var core := Access("+=");
    AccessParsed("+=");
    AccessOperands(None, fuel);
    MemberRuns(None, fuel, core, Start());
    assert Chosen([Applied("m", Access("-="))], None).None?;
    PlacedIsUsed(k, parens, core, AccessPlan()[4], None, fuel, Start(), 5, Stepped());
  }

  lemma UsesDiffer(k: Kind)
    requires IsUse(k)
    ensures Used(k, ByProperty, [1, 1], Stepped()) != Used(k, ByValue, [5], Stepped())
  {
    var used := Used(k, ByProperty, [1, 1], Stepped());
    if k.Call? {
      assert used.vars["this"] == 1;
    } else if k.Delete? {
      assert (1, 1) !in used.props;
    } else {
      assert used.props[(1, 1)] == 6;
    }
  }

  /** `delete (a[i += 1])`, `(a[i += 1])()` and `a[i += 1]++`, bare or not, act on the property; instrumented for the
      mutant `i -= 1`, and with no mutant active, they are given its value and end in another store. */
  lemma {:induction false} ReferenceLost(k: Kind, parens: bool, fuel: nat)
    requires (parens && (k.Delete? || k.Call?)) || k.Update?
    ensures
      var root, ctx := Applying(k, Operand(parens, Access("+="))), Only(Subtracting());
      && Acceptable(root, ctx) && HelperFree(root) && DistinctIds(root, ctx) && !SparesReferences(root, ctx)
      && PlanInstrumentation(root, ctx).Ok?
      && Eval(Small(), None, fuel, root, Start()).st
         != Eval(Small(), None, fuel, Rebuild(root, PlanOf(PlanInstrumentation(root, ctx).value)), Start()).st
  {
    AccessPlanned(k, parens);
    AccessUsed(k, parens, fuel);
    AccessPlaced(k, parens, fuel);
    UsesDiffer(k);
  }

  // ---- A mutant that becomes a reference ----

  // o.m
  function Method(): Node {
    Node(Some(5), Member, [Node(Some(6), Identifier("o"), []), Node(Some(7), Literal("m"), [])])
  }

  // !o.m
  function Negated(): Node {
    Node(Some(4), Unary("!"), [Method()])
  }

  // o.m for !o.m
  function Affirming(): Mutant {
    Mutant("m", 4, Method())
  }

  lemma NegatedParsed()
    ensures Parsed([Negated()], 4, 9)
  {
    var o, m := Node(Some(6), Identifier("o"), []), Node(Some(7), Literal("m"), []);
    ParsedNode(7, m.kind, [], 9, 9);
    ParsedNode(6, o.kind, [], 7, 7);
    ParsedPair(o, [m], 6, 7, 9);
    ParsedNode(5, Member, [o, m], 6, 9);
    ParsedNode(4, Unary("!"), [Method()], 5, 9);
  }

  lemma NegatedHome() returns (g: Frame)
    ensures FrameOf(Root(Applying(Call, Operand(true, Negated()))), 4) == Some(g)
    ensures g == OperandFrame(Call, true, Negated()) && Home(g) == Some(g) && !StandsAsReference(g)
    ensures Takes(g, Affirming())
    ensures OnlyPlan(g, Affirming()) == map[4 := Placement(ExpressionPlacer, [Applied("m", Method())])]
  {
    NegatedParsed();
    OperandFrameIn(Call, true, Negated());
    g := OperandFrame(Call, true, Negated());
    assert Labels(Negated())[0] == 4;
    assert Unwrap(Method()) == Method() && Replace(Negated(), 4, Method()) == Method();
  }

  function NegatedPlan(): Plan {
    map[4 := Placement(ExpressionPlacer, [Applied("m", Method())])]
  }

  lemma NegatedPlanned()
    ensures
      var root, ctx := Applying(Call, Operand(true, Negated())), Only(Affirming());
      && Placeable(root, ctx) && DistinctIds(root, ctx)
      && PlanInstrumentation(root, ctx).Ok? && PlanOf(PlanInstrumentation(root, ctx).value) == NegatedPlan()
  {
    var root := Applying(Call, Operand(true, Negated()));
    NegatedParsed();
    ApplyingParsed(Call, true, Negated());
    ParsedRoot(root, 0, 9);
    var g := NegatedHome();
    OnlyAccepted(root, Affirming(), g);
    OnlyPlanned(root, Affirming(), g);
  }

  lemma {:induction false} MethodOperands(active: Option<Id>, fuel: nat)
    ensures
      var r := EvalAll(Small(), active, fuel, Method().children, Start());
      r.stop.None? && r.vals == [1, 0] && r.st == Start()
  {
    LeafRuns(active, fuel, Method().children[0], Start());
    LeafRuns(active, fuel, Method().children[1], Start());
    assert "m"[0] == 'm' && !AllDigits("m");
    PairRuns(active, fuel, Method().children[0], Method().children[1], Start());
  }

  lemma {:induction false} MethodCalled(fuel: nat)
    ensures Eval(Small(), Some("m"), fuel, Applying(Call, Operand(true, Method())), Start()).st
      == Used(Call, ByProperty, [1, 0], Start())
  {
    MethodOperands(Some("m"), fuel);
    assert Unwrap(Operand(true, Method())) == Method() by {
      assert Unwrap(Method()) == Method();
    }
    ScriptUses(Call, Some("m"), fuel, Operand(true, Method()), Start(), ByProperty, [1, 0], Start());
  }

  lemma {:induction false} MethodPlaced(fuel: nat)
    ensures Eval(Small(), Some("m"), fuel, Rebuild(Applying(Call, Operand(true, Negated())), NegatedPlan()), Start()).st
      == Used(Call, ByValue, [0], Start())
  {
    NegatedParsed();
    MethodOperands(Some("m"), fuel);
    MemberRuns(Some("m"), fuel, Method(), Start());
    assert Chosen([Applied("m", Method())], Some("m")) == Some(Method());
    assert Unwrap(Method()) == Method();
    PlacedIsUsed(Call, true, Negated(), NegatedPlan()[4], Some("m"), fuel, Start(), 0, Start());
  }

  /** `(!o.m)()` mutated to `(o.m)()` calls the method with its receiver; instrumented, and with the mutant active, it
      is called without, and ends in another store. */
  lemma {:induction false} ReceiverLost(fuel: nat)
    ensures
      var root, ctx := Applying(Call, Operand(true, Negated())), Only(Affirming());
      && Placeable(root, ctx) && DistinctIds(root, ctx) && PlanInstrumentation(root, ctx).Ok?
      && Eval(Small(), Some("m"), fuel, Replace(root, 4, Method()), Start()).st
         != Eval(Small(), Some("m"), fuel, Rebuild(root, PlanOf(PlanInstrumentation(root, ctx).value)), Start()).st
  {
    NegatedPlanned();
    NegationReplaced();
    MethodCalled(fuel);
    MethodPlaced(fuel);
    assert Used(Call, ByProperty, [1, 0], Start()).vars["this"] != Used(Call, ByValue, [0], Start()).vars["this"];
  }

  lemma NegationReplaced()
    ensures Replace(Applying(Call, Operand(true, Negated())), 4, Method()) == Applying(Call, Operand(true, Method()))
  {
    var paren, m := Operand(true, Negated()), Method();
    assert Replace(Negated(), 4, m) == m;
    assert ReplaceAll([Negated()], 4, m) == [m];
    assert Replace(paren, 4, m) == Operand(true, m);
    assert ReplaceAll([paren], 4, m) == [Operand(true, m)];
    var n := Node(Some(2), Call, [paren]);
    assert ReplaceAll([n], 4, m) == [Replace(n, 4, m)];
    var statement := Node(Some(1), ExpressionStatement, [n]);
    assert ReplaceAll([statement], 4, m) == [Replace(statement, 4, m)];
  }

  // ---- A mutant in a case test ----

  // x += 1
  function Test(op: string): Node {
    Node(Some(4), Assign(op), [Node(Some(5), Identifier("x"), []), Node(Some(6), Literal("1"), [])])
  }

  // case x += 1: throw 1
  function Case(op: string): Node {
    Node(Some(3), SwitchCase(true), [Test(op), Node(Some(7), Throw, [Node(Some(8), Literal("1"), [])])])
  }

  // switch (1) { case x += 1: throw 1 }
  function Switching(op: string): Node {
    Node(Some(0), Program, [Node(Some(1), Switch, [Node(Some(2), Literal("1"), []), Case(op)])])
  }

  // x -= 1 for x += 1
  function TestSubtracting(): Mutant {
    Mutant("m", 4, Test("-="))
  }

  lemma CaseParsed(op: string)
    ensures Parsed([Case(op)], 3, 9)
  {
    var one, x, thrown := Node(Some(6), Literal("1"), []), Node(Some(5), Identifier("x"), []),
      Node(Some(8), Literal("1"), []);
    ParsedNode(6, one.kind, [], 7, 7);
    ParsedNode(5, x.kind, [], 6, 6);
    ParsedPair(x, [one], 5, 6, 7);
    ParsedNode(4, Assign(op), [x, one], 5, 7);
    ParsedNode(8, thrown.kind, [], 9, 9);
    ParsedNode(7, Throw, [thrown], 8, 9);
    ParsedPair(Test(op), [Node(Some(7), Throw, [thrown])], 4, 7, 9);
    ParsedNode(3, SwitchCase(true), Case(op).children, 4, 9);
  }

  lemma SwitchingParsed(op: string)
    ensures Parsed([Switching(op)], 0, 9)
  {
    CaseParsed(op);
    ParsedNode(2, Literal("1"), [], 3, 3);
    ParsedPair(Node(Some(2), Literal("1"), []), [Case(op)], 2, 3, 9);
    ParsedNode(1, Switch, [Node(Some(2), Literal("1"), []), Case(op)], 2, 9);
    ParsedNode(0, Program, Switching(op).children, 1, 9);
  }

  lemma {:induction false} CaseRuns(op: string, active: Option<Id>, fuel: nat, st: Store)
    ensures Eval(Small(), active, fuel, Case(op), st).out == Threw(1)
  {
    var throwing := Node(Some(7), Throw, [Node(Some(8), Literal("1"), [])]);
    OneIsOne();
    LeafRuns(active, fuel, throwing.children[0], st);
    EvalOne(Small(), active, fuel, throwing.children[0], st);
    EagerRuns(Small(), active, fuel, throwing, st);
    EvalOne(Small(), active, fuel, throwing, st);
    EagerRuns(Small(), active, fuel, Case(op), st);
    assert PlainOperands(SwitchCase(true), Case(op).children) == [throwing];
  }

  // From 0, `x += 1` is 1 and the case is entered; `x -= 1` is not.
  lemma {:induction false} EntersCase(op: string, active: Option<Id>, fuel: nat)
    requires op == "+=" || op == "-="
    ensures
      var entry := EnterCase(Small(), active, fuel, [Case(op)], 0, 1, Start());
      entry.stop.None? && entry.at == if op == "+=" then 0 else 1
  {
    OneIsOne();
    AssignRuns(active, fuel, Test(op), Start());
    var st := Eval(Small(), active, fuel, Test(op), Start()).st;
    assert EnterCase(Small(), active, fuel, [Case(op)], 1, 1, st) == Entered(1, None, st, []);
    assert "+="[0] != "-="[0];
  }

  lemma {:induction false} CasesRun(op: string, active: Option<Id>, fuel: nat)
    requires op == "+=" || op == "-="
    ensures RunCases(Small(), active, fuel, [Case(op)], 1, Start()).out == if op == "+=" then Threw(1) else Val(0)
  {
    var cases := [Case(op)];
    EntersCase(op, active, fuel);
    var st := EnterCase(Small(), active, fuel, cases, 0, 1, Start()).st;
    CaseRuns(op, active, fuel, st);
    EvalOne(Small(), active, fuel, cases[0], st);
    assert DefaultCase(cases) == 1 + DefaultCase(cases[1..]) && cases[1..] == [] && cases[0..] == cases;
    assert EvalAll(Small(), active, fuel, [], st) == Runs([], None, st, []);
  }

  // A switch with one case.
  lemma {:induction false} OneCaseRuns(active: Option<Id>, fuel: nat, n: Node, st: Store)
    requires n.kind.Switch? && |n.children| == 2 && WellFormedCase(n.children[1])
    requires Eval(Small(), active, fuel, n.children[0], st).out.Val?
    ensures
      var value := Eval(Small(), active, fuel, n.children[0], st);
      Eval(Small(), active, fuel, n, st).out
      == RunCases(Small(), active, fuel, [n.children[1]], value.out.v, value.st).out
  {
    assert n.children[1..] == [n.children[1]];
    assert forall i :: 1 <= i < |n.children| ==> WellFormedCase(n.children[i]);
    assert Body(Small(), active, fuel, n, st) == SwitchBody(Small(), active, fuel, n, st);
  }

  lemma {:induction false} StatementRuns(op: string, active: Option<Id>, fuel: nat)
    requires op == "+=" || op == "-="
    ensures Eval(Small(), active, fuel, Switching(op).children[0], Start()).out ==
      if op == "+=" then Threw(1) else Val(0)
  {
    var n := Switching(op).children[0];
    OneIsOne();
    LeafRuns(active, fuel, n.children[0], Start());
    OneCaseRuns(active, fuel, n, Start());
    CasesRun(op, active, fuel);
  }

  lemma {:induction false} SwitchRuns(op: string, active: Option<Id>, fuel: nat)
    requires op == "+=" || op == "-="
    ensures Eval(Small(), active, fuel, Switching(op), Start()).out == if op == "+=" then Threw(1) else Val(0)
  {
    StatementRuns(op, active, fuel);
    EvalOne(Small(), active, fuel, Switching(op).children[0], Start());
    EagerRuns(Small(), active, fuel, Switching(op), Start());
  }

  function CaseFrame(): Frame {
    var root := Root(Switching("+="));
    Frame(Case("+="), Some(Frame(root.node.children[0], Some(root))))
  }

  lemma CaseFrameIn()
    ensures FrameIn(Switching("+="), CaseFrame())
  {
    var root := Root(Switching("+="));
    SwitchingParsed("+=");
    ParsedRoot(root.node, 0, 9);
    ChildFrameIn(root.node, root, 0);
    ChildFrameIn(root.node, CaseFrame().parent.value, 1);
  }

  lemma CaseHome() returns (g: Frame)
    ensures FrameOf(Root(Switching("+=")), 4) == Some(g) && FrameOf(Root(Switching("+=")), 3) == Some(CaseFrame())
    ensures Home(g) == Some(CaseFrame()) && ContextOf(CaseFrame()).None?
  {
    CaseFrameIn();
    ChildFrameIn(Switching("+="), CaseFrame(), 0);
    g := Frame(Test("+="), Some(CaseFrame()));
    assert Labels(Test("+="))[0] == 4 && Labels(Case("+="))[0] == 3;
  }

  lemma CaseTakes()
    ensures Takes(CaseFrame(), TestSubtracting())
  {
    SwitchingParsed("+=");
    ParsedRoot(Switching("+="), 0, 9);
    DistinctBelow(Switching("+="), 0);
    DistinctBelow(Switching("+=").children[0], 1);
    LabelsBelow(Case("+="), 0);
    assert Labels(Test("+="))[0] == 4;
    ReplaceFirstReplaces(Case("+="), 4, Test("-="));
  }

  lemma CasePlaceable() returns (g: Frame)
    ensures
      var root, ctx := Switching("+="), Only(TestSubtracting());
      && Placeable(root, ctx) && DistinctIds(root, ctx) && LiveIn(root, ctx) == [TestSubtracting()]
      && FrameOf(Root(root), 4) == Some(g) && Home(g) == Some(CaseFrame())
      && FrameOf(Root(root), 3) == Some(CaseFrame()) && ContextOf(CaseFrame()).None?
  {
    SwitchingParsed("+=");
    ParsedRoot(Switching("+="), 0, 9);
    g := CaseHome();
    CaseTakes();
    OnlyAccepted(Switching("+="), TestSubtracting(), g);
  }

  lemma {:induction false} CasePlacement(p: Planned, e: Entry)
    requires PlanInstrumentation(Switching("+="), Only(TestSubtracting())).Ok? && e in p.applied
    requires p in PlanInstrumentation(Switching("+="), Only(TestSubtracting())).value
    ensures p.node == Case("+=") && p.placer == SwitchCasePlacer && e.tree == Replace(Case("+="), 4, Test("-="))
    ensures !BecomesReference(Switching("+="), p, e)
  {
    var g := CasePlaceable();
    CaseTakes();
    OnlyPlacement(Switching("+="), TestSubtracting(), g, p);
  }

  // With the mutant active the instrumented program still runs the original.
  lemma {:induction false} CaseMutantRuns(fuel: nat)
    ensures
      var root, ctx := Switching("+="), Only(TestSubtracting());
      && PlanInstrumentation(root, ctx).Ok?
      && Eval(Small(), Some("m"), fuel, Rebuild(root, PlanOf(PlanInstrumentation(root, ctx).value)), Start()).out
         == Eval(Small(), Some("m"), fuel, root, Start()).out
  {
    var root, m := Switching("+="), TestSubtracting();
    var g := CasePlaceable();
    var p, e := LiveMutantRuns(Small(), root, Only(m), m, fuel, Start());
    CasePlacement(p, e);
    CaseReplaced();
  }

  /** `switch (1) { case x += 1: throw 1 }` throws and does not once the test is `x -= 1`; instrumented, and with that
      mutant active, it throws. */
  lemma {:induction false} CaseTestMutantLost(fuel: nat)
    ensures
      var root, ctx := Switching("+="), Only(TestSubtracting());
      && Placeable(root, ctx) && DistinctIds(root, ctx) && PlanInstrumentation(root, ctx).Ok?
      && Eval(Small(), Some("m"), fuel, Replace(root, 4, Test("-=")), Start()).out == Val(0)
      && Eval(Small(), Some("m"), fuel, Rebuild(root, PlanOf(PlanInstrumentation(root, ctx).value)), Start()).out
        == Threw(1)
  {
    var g := CasePlaceable();
    CaseMutantRuns(fuel);
    SwitchRuns("+=", Some("m"), fuel);
    SwitchRuns("-=", Some("m"), fuel);
    CaseReplaced();
  }

  lemma CaseReplaced()
    ensures Replace(Switching("+="), 4, Test("-=")) == Switching("-=")
    ensures Effective(SwitchCasePlacer, Case("+="), Replace(Case("+="), 4, Test("-="))) == Case("+=")
    ensures Replace(Switching("+="), 3, Case("+=")) == Switching("+=")
  {
    var throwing := Node(Some(7), Throw, [Node(Some(8), Literal("1"), [])]);
    assert Replace(throwing, 4, Test("-=")) == throwing;
    var t := Replace(Case("+="), 4, Test("-="));
    assert t.children == [Test("-="), throwing] && t == Case("-=");
    var value, s := Node(Some(2), Literal("1"), []), Switching("+=").children[0];
    assert ReplaceAll(s.children, 4, Test("-=")) == [value, Case("-=")];
    assert ReplaceAll(s.children, 3, Case("+=")) == s.children;
    assert ReplaceAll([s], 4, Test("-=")) == [Switching("-=").children[0]];
    assert ReplaceAll([s], 3, Case("+=")) == [s];
  }
}
