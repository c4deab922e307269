// The rewriting keeps programs programs: every node keeps its role, and what it puts into the tree is made as the
// language wants it. Only a target of an assignment or an update can be lost.
module Programs {
  import opened Wrappers
  import opened Syntax
  import opened Placers
  import opened Instrumentation
  import opened Planning
  import opened PlanningResults
  import opened Conservation
  import opened Frames
  import opened Placements
  import opened Limits
  import opened EndToEnd
  import opened Traversal
  import opened Grammar

  // ---- Roles ----

  // A placement is at the node and its placer takes it.
  predicate Replaced(n: Node, plan: Plan) {
    PlacedAt(plan, n) && AcceptsKind(plan[n.site.value], n.kind)
  }

  /** For any plan a node's rewritten form has its role: an expression stays an expression, a statement a statement, a
      block a block, and a case a case with or without a test as before. */
  lemma {:induction false} RolesAreKept(n: Node, plan: Plan)
    ensures RoleOf(Attempt(n, plan).kind) == RoleOf(n.kind)
    ensures n.kind.Block? ==> Attempt(n, plan).kind.Block?
    ensures RoleOf(n.kind) == Case || RoleOf(n.kind) == Whole ==> Attempt(n, plan).kind == n.kind
    ensures !Replaced(n, plan) ==> Attempt(n, plan).kind == n.kind
  {
    if Replaced(n, plan) {
      PlacedRole(plan[n.site.value], Node(n.site, n.kind, AttemptAll(n.children, plan)));
    }
  }

  lemma PlacedRole(p: Placement, n: Node)
    requires AcceptsKind(p, n.kind)
    ensures RoleOf(Place(p, n).kind) == RoleOf(n.kind)
    ensures n.kind.Block? ==> Place(p, n).kind.Block?
    ensures n.kind.SwitchCase? ==> Place(p, n).kind == n.kind
    ensures !n.kind.Program?
    ensures !Place(p, n).kind.Identifier? && !Place(p, n).kind.Member? && !Place(p, n).kind.Paren?
  {
  }

  // ---- What placers build ----

  ghost predicate AppliedAreGrammatical(p: Placement) {
    forall a <- p.applied :: Grammatical(a.tree)
  }

  lemma {:induction false} GrammaticalInside(n: Node)
    requires Grammatical(n)
    ensures Grammatical(Unwrap(n))
  {
    if n.kind.Paren? && |n.children| == 1 {
      GrammaticalInside(n.children[0]);
    }
  }

  lemma LeafIsGrammatical(k: Kind)
    requires k.CoverCall? || k.ActiveTest?
    ensures Grammatical(Built(k, []))
  {
  }

  lemma CoverIsGrammatical(ids: seq<Id>)
    ensures Grammatical(CoverStatement(ids)) && RoleOf(CoverStatement(ids).kind) == Statement
  {
    LeafIsGrammatical(CoverCall(ids));
    assert Grammatical(CoverSequence(ids, []));
  }

  lemma {:induction false} GuardedExpressionGrammar(applied: seq<Applied>, current: Node)
    requires forall a <- applied :: Grammatical(a.tree) && IsExpressionKind(Unwrap(a.tree).kind)
    requires RoleOf(current.kind) == Expression
    ensures Grammatical(GuardedExpression(applied, current)) <==> Grammatical(current)
    ensures RoleOf(GuardedExpression(applied, current).kind) == Expression
  {
    if applied != [] {
      var last := applied[|applied| - 1];
      GuardedExpressionGrammar(applied[..|applied| - 1], current);
      GrammaticalInside(last.tree);
      LeafIsGrammatical(ActiveTest(last.id));
      var rest := GuardedExpression(applied[..|applied| - 1], current);
      SwitchGrammar(Conditional, Built(ActiveTest(last.id), []), Unwrap(last.tree), rest);
    }
  }

  // A switch between a mutant and the rest is made as the language wants it when both are.
  lemma {:induction false} SwitchGrammar(k: Kind, test: Node, on: Node, off: Node)
    requires k.Conditional? || k.If?
    requires Grammatical(test) && RoleOf(test.kind) == Expression && Grammatical(on)
    requires RoleOf(on.kind) == RoleOf(off.kind) == if k.Conditional? then Expression else Statement
    ensures Grammatical(Built(k, [test, on, off])) <==> Grammatical(off)
  {
    var n := Built(k, [test, on, off]);
    assert n.children[0] == test && n.children[1] == on && n.children[2] == off;
    assert n.children[1..] == [on, off];
    assert off in n.children;
  }

  lemma {:induction false} GuardedStatementGrammar(applied: seq<Applied>, guarded: Node -> seq<Node>, current: Node)
    requires forall a <- applied :: Grammatical(Built(Block, guarded(a.tree)))
    requires RoleOf(current.kind) == Statement
    ensures Grammatical(GuardedStatement(applied, guarded, current)) <==> Grammatical(current)
    ensures RoleOf(GuardedStatement(applied, guarded, current).kind) == Statement
  {
    if applied != [] {
      var last := applied[|applied| - 1];
      GuardedStatementGrammar(applied[..|applied| - 1], guarded, current);
      LeafIsGrammatical(ActiveTest(last.id));
      var rest := GuardedStatement(applied[..|applied| - 1], guarded, current);
      SwitchGrammar(If, Built(ActiveTest(last.id), []), Built(Block, guarded(last.tree)), rest);
    }
  }

  // A block that records and then runs statements.
  lemma CoveredBlockGrammar(ids: seq<Id>, ns: seq<Node>)
    ensures Grammatical(Built(Block, [CoverStatement(ids)] + ns))
      <==> AllOf(Statement, ns) && forall n <- ns :: Grammatical(n)
  {
    CoverIsGrammatical(ids);
    var all := [CoverStatement(ids)] + ns;
    assert all[0] == CoverStatement(ids) && forall n <- ns :: n in all;
  }

  lemma {:induction false} ConsequentGrammar(n: Node)
    requires n.kind.SwitchCase? && Grammatical(n)
    ensures Grammatical(Built(Block, Consequent(n)))
  {
  }

  lemma {:induction false} CoveredExpressionGrammar(ids: seq<Id>, n: Node)
    requires RoleOf(n.kind) == Expression
    ensures Grammatical(CoverSequence(ids, [n])) <==> Grammatical(n)
  {
    LeafIsGrammatical(CoverCall(ids));
    assert CoverSequence(ids, [n]).children[0] == Built(CoverCall(ids), []) && CoverSequence(ids, [n]).children[1] == n;
  }

  lemma {:induction false} PlaceExpressionGrammar(p: Placement, n: Node)
    requires p.placer == ExpressionPlacer && AcceptsKind(p, n.kind) && AppliedAreGrammatical(p)
    ensures Grammatical(Place(p, n)) <==> Grammatical(n)
  {
    CoveredExpressionGrammar(IdsOf(p.applied), n);
    GuardedExpressionGrammar(p.applied, CoverSequence(IdsOf(p.applied), [n]));
  }

  lemma {:induction false} OneStatementGrammar(n: Node)
    requires RoleOf(n.kind) == Statement
    ensures Grammatical(Built(Block, [n])) <==> Grammatical(n)
  {
    assert [n][0] == n;
  }

  // A statement is made as the language wants it when what its block would hold is.
  lemma {:induction false} StatementsGrammar(n: Node)
    requires RoleOf(n.kind) == Statement
    ensures Grammatical(n) <==> AllOf(Statement, StatementsOf(n)) && forall s <- StatementsOf(n) :: Grammatical(s)
  {
    assert n.kind.Block? || StatementsOf(n)[0] == n;
  }

  lemma {:induction false} PlaceStatementGrammar(p: Placement, n: Node)
    requires p.placer == StatementPlacer && AcceptsKind(p, n.kind) && AppliedAreGrammatical(p)
    ensures Grammatical(Place(p, n)) <==> Grammatical(n)
  {
    var block := Built(Block, [CoverStatement(IdsOf(p.applied))] + StatementsOf(n));
    CoveredBlockGrammar(IdsOf(p.applied), StatementsOf(n));
    StatementsGrammar(n);
    forall a | a in p.applied ensures Grammatical(Built(Block, [a.tree])) {
      OneStatementGrammar(a.tree);
    }
    GuardedStatementGrammar(p.applied, t => [t], block);
    OneStatementGrammar(GuardedStatement(p.applied, t => [t], block));
  }

  // A case is made as the language wants it when its test and the statements after it are.
  lemma CaseGrammar(n: Node, statements: seq<Node>)
    requires n.kind.SwitchCase? && (n.kind.hasTest ==> |n.children| > 0)
    ensures Grammatical(Built(n.kind, TestOf(n) + statements))
      <==> && (n.kind.hasTest ==> RoleOf(n.children[0].kind) == Expression && Grammatical(n.children[0]))
           && AllOf(Statement, statements) && forall s <- statements :: Grammatical(s)
  {
    var all := TestOf(n) + statements;
    assert n.kind.hasTest ==> all[0] == n.children[0] && all[1..] == statements;
    assert forall s <- statements :: s in all;
  }

  // A case itself, the same way.
  lemma {:induction false} OwnCaseGrammar(n: Node)
    requires n.kind.SwitchCase? && (n.kind.hasTest ==> |n.children| > 0)
    ensures Grammatical(n)
      <==> && (n.kind.hasTest ==> RoleOf(n.children[0].kind) == Expression && Grammatical(n.children[0]))
           && AllOf(Statement, Consequent(n)) && forall s <- Consequent(n) :: Grammatical(s)
  {
    CaseGrammar(n, Consequent(n));
    assert n.children == TestOf(n) + Consequent(n);
  }

  lemma {:induction false} GuardedCaseGrammar(p: Placement, n: Node)
    requires p.placer == SwitchCasePlacer && AcceptsKind(p, n.kind) && AppliedAreGrammatical(p)
    ensures
      var block := Built(Block, [CoverStatement(IdsOf(p.applied))] + Consequent(n));
      && RoleOf(GuardedStatement(p.applied, Consequent, block).kind) == Statement
      && (Grammatical(GuardedStatement(p.applied, Consequent, block))
          <==> AllOf(Statement, Consequent(n)) && forall s <- Consequent(n) :: Grammatical(s))
  {
    CoveredBlockGrammar(IdsOf(p.applied), Consequent(n));
    forall a | a in p.applied ensures Grammatical(Built(Block, Consequent(a.tree))) {
      ConsequentGrammar(a.tree);
    }
    GuardedStatementGrammar(p.applied, Consequent, Built(Block, [CoverStatement(IdsOf(p.applied))] + Consequent(n)));
  }

  lemma {:induction false} PlaceCaseGrammar(p: Placement, n: Node)
    requires p.placer == SwitchCasePlacer && AcceptsKind(p, n.kind) && AppliedAreGrammatical(p)
    requires n.kind.hasTest ==> |n.children| > 0
    ensures Grammatical(Place(p, n)) <==> Grammatical(n)
  {
    var block := Built(Block, [CoverStatement(IdsOf(p.applied))] + Consequent(n));
    var statement := GuardedStatement(p.applied, Consequent, block);
    GuardedCaseGrammar(p, n);
    CaseGrammar(n, [statement]);
    OwnCaseGrammar(n);
    assert [statement][0] == statement;
  }

  /** What a placer builds over a node it takes is made as the language wants it exactly when the node is. */
  lemma {:induction false} PlaceGrammar(p: Placement, n: Node)
    requires AcceptsKind(p, n.kind) && AppliedAreGrammatical(p)
    requires n.kind.SwitchCase? && n.kind.hasTest ==> |n.children| > 0
    ensures Grammatical(Place(p, n)) <==> Grammatical(n)
  {
    match p.placer
    case ExpressionPlacer => PlaceExpressionGrammar(p, n);
    case StatementPlacer => PlaceStatementGrammar(p, n);
    case SwitchCasePlacer => PlaceCaseGrammar(p, n);
  }

  // ---- The whole tree ----

  // No placement is taken at a target of an assignment or an update.
  predicate TargetsKept(n: Node, plan: Plan) {
    && ((n.kind.Assign? || n.kind.Update?) && |n.children| > 0 ==> !Replaced(Unwrap(n.children[0]), plan))
    && forall c <- n.children :: TargetsKept(c, plan)
  }

  lemma {:induction false} TargetIsKept(n: Node, plan: Plan)
    requires IsTarget(n)
    ensures IsTarget(Attempt(n, plan)) <==> !Replaced(Unwrap(n), plan)
  {
    if n.kind.Paren? && |n.children| == 1 {
      TargetIsKept(n.children[0], plan);
    } else if Replaced(n, plan) {
      PlacedRole(plan[n.site.value], Node(n.site, n.kind, AttemptAll(n.children, plan)));
    }
  }

  lemma {:induction false} ChildRoles(cs: seq<Node>, plan: Plan)
    ensures forall i :: 0 <= i < |cs| ==>
      && RoleOf(AttemptAll(cs, plan)[i].kind) == RoleOf(cs[i].kind)
      && (cs[i].kind.Block? ==> AttemptAll(cs, plan)[i].kind.Block?)
  {
    forall i | 0 <= i < |cs|
      ensures RoleOf(AttemptAll(cs, plan)[i].kind) == RoleOf(cs[i].kind)
      ensures cs[i].kind.Block? ==> AttemptAll(cs, plan)[i].kind.Block?
    {
      RolesAreKept(cs[i], plan);
    }
  }

  // What a kind takes depends on the roles of its children, on which are blocks and on the targets.
  lemma SameRolesTaken(k: Kind, cs: seq<Node>, cs': seq<Node>)
    requires Takes(k, cs) && |cs| == |cs'|
    requires forall i :: 0 <= i < |cs| ==>
      RoleOf(cs'[i].kind) == RoleOf(cs[i].kind) && (cs[i].kind.Block? ==> cs'[i].kind.Block?)
    ensures Takes(k, cs') <==> ((k.Assign? || k.Update?) ==> IsTarget(cs'[0]))
  {
    assert forall role :: AllOf(role, cs) ==> AllOf(role, cs') by {
      forall role | AllOf(role, cs) ensures AllOf(role, cs') {
        SameRoles(role, cs, cs');
      }
    }
    if |cs| > 0 {
      forall role | AllOf(role, cs[1..]) ensures AllOf(role, cs'[1..]) {
        SameRoles(role, cs[1..], cs'[1..]);
      }
    }
  }

  lemma SameRoles(role: Role, cs: seq<Node>, cs': seq<Node>)
    requires AllOf(role, cs) && |cs| == |cs'| && forall i :: 0 <= i < |cs| ==> RoleOf(cs'[i].kind) == RoleOf(cs[i].kind)
    ensures AllOf(role, cs')
  {
    forall c | c in cs' ensures RoleOf(c.kind) == role {
      var i :| 0 <= i < |cs'| && cs'[i] == c;
      assert cs[i] in cs;
    }
  }

  ghost predicate PlanIsGrammatical(plan: Plan) {
    forall l <- plan :: AppliedAreGrammatical(plan[l])
  }

  /** For any plan of grammatical trees, the rewritten form of a grammatical tree is grammatical exactly when no
      placement is taken at a target of an assignment or an update. */
  lemma {:induction false} AttemptIsGrammatical(n: Node, plan: Plan)
    requires Grammatical(n) && PlanIsGrammatical(plan)
    ensures Grammatical(Attempt(n, plan)) <==> TargetsKept(n, plan)
    decreases n
  {
    var base := Node(n.site, n.kind, AttemptAll(n.children, plan));
    forall i | 0 <= i < |n.children|
      ensures Grammatical(base.children[i]) <==> TargetsKept(n.children[i], plan)
    {
      AttemptIsGrammatical(n.children[i], plan);
    }
    ChildRoles(n.children, plan);
    SameRolesTaken(n.kind, n.children, base.children);
    if n.kind.Assign? || n.kind.Update? {
      TargetIsKept(n.children[0], plan);
    }
    EachChild(n, base.children, plan);
    if Replaced(n, plan) {
      PlaceGrammar(plan[n.site.value], base);
    }
  }

  lemma EachChild(n: Node, cs: seq<Node>, plan: Plan)
    requires |cs| == |n.children|
    requires forall i :: 0 <= i < |cs| ==> (Grammatical(cs[i]) <==> TargetsKept(n.children[i], plan))
    ensures (forall c <- cs :: Grammatical(c)) <==> forall c <- n.children :: TargetsKept(c, plan)
  {
    if forall c <- cs :: Grammatical(c) {
      forall c | c in n.children ensures TargetsKept(c, plan) {
        var i :| 0 <= i < |cs| && n.children[i] == c;
        assert cs[i] in cs;
      }
    }
    if forall c <- n.children :: TargetsKept(c, plan) {
      forall c | c in cs ensures Grammatical(c) {
        var i :| 0 <= i < |cs| && cs[i] == c;
        assert n.children[i] in n.children;
      }
    }
  }

  // ---- Programs with live mutants ----

  // What stands in a grammatical tree is grammatical.
  lemma {:induction false} PutIsGrammatical(n: Node, l: Label, t: Node)
    requires DistinctLabels(n) && l in Labels(n) && Grammatical(Replace(n, l, t))
    ensures Grammatical(t)
  {
    if n.site != Some(l) {
      var k := ChildWith(n.children, l);
      DistinctBelow(n, k);
      assert ReplaceAll(n.children, l, t)[k] == Replace(n.children[k], l, t);
      PutIsGrammatical(n.children[k], l, t);
    }
  }

  // Each live mutant alone gives a program.
  ghost predicate MutantsAreGrammatical(root: Node, ctx: Context) {
    forall m <- LiveIn(root, ctx) :: Grammatical(Replace(root, m.original, m.replacement))
  }

  lemma {:induction false} PlannedAreGrammatical(root: Node, ctx: Context, p: Planned, e: Entry)
    requires DistinctLabels(root) && PlanInstrumentation(root, ctx).Ok? && MutantsAreGrammatical(root, ctx)
    requires p in PlanInstrumentation(root, ctx).value && e in p.applied
    ensures Grammatical(e.tree)
  {
    PlacementIsSound(root, ctx, p);
    PlacedIsLive(root, ctx, p, e);
    ReplaceInside(root, p.node.site.value, e.mutant.original, e.mutant.replacement);
    FoundIffLabelled(root, p.node.site.value);
    PutIsGrammatical(root, p.node.site.value, e.tree);
  }

  lemma {:induction false} PlannedIsGrammatical(root: Node, ctx: Context)
    requires DistinctLabels(root) && PlanInstrumentation(root, ctx).Ok? && MutantsAreGrammatical(root, ctx)
    ensures PlanIsGrammatical(PlanOf(PlanInstrumentation(root, ctx).value))
  {
    var ps := PlanInstrumentation(root, ctx).value;
    forall l | l in PlanOf(ps) ensures AppliedAreGrammatical(PlanOf(ps)[l]) {
      PlanHolds(ps, l);
      var p :| p in ps && p.node.site == Some(l) && PlanOf(ps)[l] == PlacementOf(p);
      forall a | a in AppliedOf(p.applied) ensures Grammatical(a.tree) {
        var i :| 0 <= i < |p.applied| && AppliedOf(p.applied)[i] == a;
        PlannedAreGrammatical(root, ctx, p, p.applied[i]);
      }
    }
  }

  predicate StandsAsTarget(f: Frame) {
    StandsAsReference(f) && (ContextOf(f).value.Assign? || ContextOf(f).value.Update?)
  }

  // No live mutant's nearest claim stands as a target of an assignment or an update.
  ghost predicate SparesTargets(root: Node, ctx: Context) {
    forall g :: Enters(Root(root), ctx, g) && LiveAt(g.node, ctx) != [] && Home(g).Some? ==>
      !StandsAsTarget(Home(g).value)
  }

  lemma {:induction false} SparedTargets(root: Node, ctx: Context, f: Frame)
    requires DistinctLabels(root) && PlanInstrumentation(root, ctx).Ok? && SparesTargets(root, ctx)
    requires FrameIn(root, f) && Grammatical(f.node)
    ensures TargetsKept(f.node, PlanOf(PlanInstrumentation(root, ctx).value))
    decreases f.node
  {
    var plan := PlanOf(PlanInstrumentation(root, ctx).value);
    forall c | c in f.node.children ensures TargetsKept(c, plan) {
      var i :| 0 <= i < |f.node.children| && f.node.children[i] == c;
      ChildFrameIn(root, f, i);
      SparedTargets(root, ctx, Frame(c, Some(f)));
    }
    if (f.node.kind.Assign? || f.node.kind.Update?) && PlacedAt(plan, Unwrap(f.node.children[0])) {
      var core := Unwrap(f.node.children[0]);
      ReferenceFrame(root, f);
      var g := PlacedHasLive(root, ctx, core.site.value);
      HomeVisited(root, ctx, g);
      VisitedFrame(Root(root), ctx, Home(g).value);
    }
  }

  lemma {:induction false} TargetsKeptAt(frame: Frame, ctx: Context, f: Frame, plan: Plan)
    requires TargetsKept(frame.node, plan) && Enters(frame, ctx, f)
    ensures TargetsKept(f.node, plan)
    decreases frame.node
  {
    if f != frame {
      var c :| c in frame.node.children && Enters(Frame(c, Some(frame)), ctx, f);
      TargetsKeptAt(Frame(c, Some(frame)), ctx, f, plan);
    }
  }

  lemma {:induction false} PlacedTargetIsNotKept(root: Node, ctx: Context, g: Frame)
    requires Acceptable(root, ctx) && PlanInstrumentation(root, ctx).Ok?
    requires Enters(Root(root), ctx, g) && LiveAt(g.node, ctx) != [] && Home(g).Some? && StandsAsTarget(Home(g).value)
    ensures !TargetsKept(root, PlanOf(PlanInstrumentation(root, ctx).value))
  {
    var h, plan := Home(g).value, PlanOf(PlanInstrumentation(root, ctx).value);
    HomeVisited(root, ctx, g);
    VisitedIsLocated(Root(root), ctx, h);
    LiveIsPlaced(root, ctx, g, h.node.site.value);
    PlanIsAccepted(root, ctx);
    AcceptedAtVisited(Root(root), ctx, h, plan);
    var c := ContextFrame(root, ctx, h);
    if TargetsKept(root, plan) {
      TargetsKeptAt(Root(root), ctx, c, plan);
    }
  }

  lemma {:induction false} AcceptedAtVisited(frame: Frame, ctx: Context, f: Frame, plan: Plan)
    requires AllAccepted(frame.node, plan) && Enters(frame, ctx, f)
    ensures AllAccepted(f.node, plan)
    decreases frame.node
  {
    if f != frame {
      var c :| c in frame.node.children && Enters(Frame(c, Some(frame)), ctx, f);
      AcceptedAtVisited(Frame(c, Some(frame)), ctx, f, plan);
    }
  }

  lemma {:induction false} TargetsKeptExactly(root: Node, ctx: Context)
    requires Acceptable(root, ctx) && PlanInstrumentation(root, ctx).Ok? && Grammatical(root)
    ensures TargetsKept(root, PlanOf(PlanInstrumentation(root, ctx).value)) <==> SparesTargets(root, ctx)
  {
    if SparesTargets(root, ctx) {
      SparedTargets(root, ctx, Root(root));
    } else {
      var g :| Enters(Root(root), ctx, g) && LiveAt(g.node, ctx) != [] && Home(g).Some?
        && StandsAsTarget(Home(g).value);
      PlacedTargetIsNotKept(root, ctx, g);
    }
  }

  /** The instrumented form of a program, each of whose live mutants gives a program, is a program exactly when no live
      mutant's nearest claim stands as a target of an assignment or an update. */
  lemma {:induction false} InstrumentedIsProgram(root: Node, ctx: Context)
    requires Acceptable(root, ctx) && Grammatical(root) && MutantsAreGrammatical(root, ctx)
    ensures PlanInstrumentation(root, ctx).Ok?
    ensures Grammatical(Rebuild(root, PlanOf(PlanInstrumentation(root, ctx).value))) <==> SparesTargets(root, ctx)
  {
    PlanIsAccepted(root, ctx);
    var plan := PlanOf(PlanInstrumentation(root, ctx).value);
    PlannedIsGrammatical(root, ctx);
    AttemptIsGrammatical(root, plan);
    AttemptIsRebuild(root, plan);
    TargetsKeptExactly(root, ctx);
  }

  // Sparing references spares targets.
  lemma SparedReferencesSpareTargets(root: Node, ctx: Context)
    requires SparesReferences(root, ctx)
    ensures SparesTargets(root, ctx)
  {
  }
}
