// The instrumented program does what the program the active mutant stands for does, and records
// coverage exactly where control reaches a claimed node.
module Preservation {
  import opened Wrappers
  import opened Syntax
  import opened Semantics
  import opened Congruence
  import opened Placers

  // ---- Unfolding the evaluator ----

  // How a kind without a reference ends once its operands were evaluated.
  ghost function Completed<V(!new), S(!new)>(
      sem: Semantics<V, S>, active: Option<Id>, k: Kind, all: Runs<V, S>): Run<V, S> {
    if all.stop.Some? then Run(all.stop.value, all.st, all.trace)
    else var done := Finish(sem, active, k, ByValue, all.vals, all.st); Run(done.0, done.1, all.trace + done.2)
  }

  lemma {:induction false} EagerRuns<V(!new), S(!new)>(
      sem: Semantics<V, S>, active: Option<Id>, fuel: nat, n: Node, st: S)
    requires !IsLazy(n.kind) && ReceiverOf(n.kind, n.children) == ByValue
    ensures Body(sem, active, fuel, n, st)
         == Completed(sem, active, n.kind, EvalAll(sem, active, fuel, PlainOperands(n.kind, n.children), st))
  {
    var none := EvalAll(sem, active, fuel, n.children[..0], st);
    assert none == Runs([], None, st, []);
    var all := EvalAll(sem, active, fuel, PlainOperands(n.kind, n.children), st);
    assert [] + all.trace == all.trace;
    assert [] + all.vals == all.vals;
    assert Body(sem, active, fuel, n, st) == EagerBody(sem, active, fuel, n, st);
  }

  lemma {:induction false} BuiltRuns<V(!new), S(!new)>(
      sem: Semantics<V, S>, active: Option<Id>, fuel: nat, n: Node, st: S)
    requires n.site.None?
    ensures Eval(sem, active, fuel, n, st) == Body(sem, active, fuel, n, st)
  {
    var r := Body(sem, active, fuel, n, st);
    assert [] + r.trace == r.trace;
  }

  lemma {:induction false} BuiltEagerRuns<V(!new), S(!new)>(
      sem: Semantics<V, S>, active: Option<Id>, fuel: nat, k: Kind, cs: seq<Node>, st: S)
    requires !IsLazy(k) && !UsesReference(k)
    ensures Eval(sem, active, fuel, Built(k, cs), st)
      == Completed(sem, active, k, EvalAll(sem, active, fuel, PlainOperands(k, cs), st))
  {
    BuiltRuns(sem, active, fuel, Built(k, cs), st);
    EagerRuns(sem, active, fuel, Built(k, cs), st);
  }

  // A built conditional whose test is a runtime switch takes the branch the switch says.
  lemma {:induction false} SwitchedRuns<V(!new), S(!new)>(
    sem: Semantics<V, S>, active: Option<Id>, fuel: nat, k: Kind, id: Id, on: Node, off: Node, st: S)
    requires Sane(sem) && (k.Conditional? || k.If?)
    ensures
      var taken := Eval(sem, active, fuel, if active == Some(id) then on else off, st);
      Eval(sem, active, fuel, Built(k, [Built(ActiveTest(id), []), on, off]), st)
        == if k.If? then Void(sem, taken) else taken
  {
    var n := Built(k, [Built(ActiveTest(id), []), on, off]);
    var taken := Eval(sem, active, fuel, if active == Some(id) then on else off, st);
    TestRuns(sem, active, fuel, id, st);
    assert [] + taken.trace == taken.trace;
    assert ConditionalBody(sem, active, fuel, n, st) == taken;
    BuiltRuns(sem, active, fuel, n, st);
  }

  // ---- One placement ----

  lemma {:induction false} GuardedExpressionRuns<V(!new), S(!new)>(
    sem: Semantics<V, S>, active: Option<Id>, fuel: nat, applied: seq<Applied>, current: Node, st: S)
    requires Sane(sem)
    ensures Eval(sem, active, fuel, GuardedExpression(applied, current), st)
         == Eval(sem, active, fuel, var c := Chosen(applied, active); if c.Some? then Unwrap(c.value) else current, st)
  {
    if applied != [] {
      var last := applied[|applied| - 1];
      var inner := GuardedExpression(applied[..|applied| - 1], current);
      GuardedExpressionRuns(sem, active, fuel, applied[..|applied| - 1], current, st);
      SwitchedRuns(sem, active, fuel, Conditional, last.id, Unwrap(last.tree), inner, st);
    }
  }

  lemma {:induction false} TestRuns<V(!new), S(!new)>(
      sem: Semantics<V, S>, active: Option<Id>, fuel: nat, id: Id, st: S)
    ensures Eval(sem, active, fuel, Built(ActiveTest(id), []), st) == Run(Val(sem.ofBool(active == Some(id))), st, [])
  {
    BuiltEagerRuns(sem, active, fuel, ActiveTest(id), [], st);
    assert EvalAll(sem, active, fuel, [], st) == Runs([], None, st, []);
  }

  lemma {:induction false} GuardedStatementRuns<V(!new), S(!new)>(
    sem: Semantics<V, S>, active: Option<Id>, fuel: nat, applied: seq<Applied>, guarded: Node -> seq<Node>,
    current: Node, st: S)
    requires Sane(sem) && current.kind.Block? && current.site.None?
    ensures Eval(sem, active, fuel, GuardedStatement(applied, guarded, current), st)
         == Eval(sem, active, fuel,
              var c := Chosen(applied, active); if c.Some? then Built(Block, guarded(c.value)) else current, st)
  {
    if applied != [] {
      var last := applied[|applied| - 1];
      var inner := GuardedStatement(applied[..|applied| - 1], guarded, current);
      GuardedStatementRuns(sem, active, fuel, applied[..|applied| - 1], guarded, current, st);
      SwitchedRuns(sem, active, fuel, If, last.id, Built(Block, guarded(last.tree)), inner, st);
      BlockIsVoid(sem, active, fuel, current, st);
      var c := Chosen(applied, active);
      if c.Some? {
        BlockIsVoid(sem, active, fuel, Built(Block, guarded(c.value)), st);
      }
    }
  }

  lemma {:induction false} BlockIsVoid<V(!new), S(!new)>(
      sem: Semantics<V, S>, active: Option<Id>, fuel: nat, n: Node, st: S)
    requires n.kind.Block?
    ensures Eval(sem, active, fuel, n, st) == Void(sem, Eval(sem, active, fuel, n, st))
  {
    EagerRuns(sem, active, fuel, n, st);
    NotAValue(sem, active, fuel, n.children, st);
  }

  // A list never stops with a value.
  lemma {:induction false} NotAValue<V(!new), S(!new)>(
      sem: Semantics<V, S>, active: Option<Id>, fuel: nat, ns: seq<Node>, st: S)
    ensures var all := EvalAll(sem, active, fuel, ns, st); all.stop.Some? ==> !all.stop.value.Val?
  {
    if ns != [] {
      var first := Eval(sem, active, fuel, ns[0], st);
      if first.out.Val? {
        NotAValue(sem, active, fuel, ns[1..], first.st);
      }
    }
  }

  lemma {:induction false} EagerStatementIsVoid<V(!new), S(!new)>(
    sem: Semantics<V, S>, active: Option<Id>, fuel: nat, n: Node, st: S)
    requires IsStatementKind(n.kind) && !IsLazy(n.kind)
    ensures Body(sem, active, fuel, n, st) == Void(sem, Body(sem, active, fuel, n, st))
  {
    EagerRuns(sem, active, fuel, n, st);
    NotAValue(sem, active, fuel, n.children, st);
  }

  lemma {:induction false} StatementIsVoid<V(!new), S(!new)>(
      sem: Semantics<V, S>, active: Option<Id>, fuel: nat, n: Node, st: S)
    requires IsStatementKind(n.kind)
    ensures Body(sem, active, fuel, n, st) == Void(sem, Body(sem, active, fuel, n, st))
  {
    if n.kind.While? {
      LoopIsVoid(sem, active, fuel, n, st);
    } else if n.kind.Switch? {
      SwitchIsVoid(sem, active, fuel, n, st);
    } else if !n.kind.If? {
      EagerStatementIsVoid(sem, active, fuel, n, st);
    }
  }

  ghost predicate NoValue<V(!new), S(!new)>(sem: Semantics<V, S>, r: Run<V, S>) {
    r.out.Val? ==> r.out.v == sem.undefined
  }

  lemma {:induction false} SwitchIsVoid<V(!new), S(!new)>(
      sem: Semantics<V, S>, active: Option<Id>, fuel: nat, n: Node, st: S)
    ensures NoValue(sem, SwitchBody(sem, active, fuel, n, st))
  {
    if |n.children| > 0 && (forall i :: 1 <= i < |n.children| ==> WellFormedCase(n.children[i])) {
      var value := Eval(sem, active, fuel, n.children[0], st);
      if value.out.Val? {
        CasesAreVoid(sem, active, fuel, n.children[1..], value.out.v, value.st);
      }
    }
  }

  lemma {:induction false} CasesAreVoid<V(!new), S(!new)>(
      sem: Semantics<V, S>, active: Option<Id>, fuel: nat, cases: seq<Node>, value: V, st: S)
    requires forall i :: 0 <= i < |cases| ==> WellFormedCase(cases[i])
    ensures NoValue(sem, RunCases(sem, active, fuel, cases, value, st))
  {
    var entry := EnterCase(sem, active, fuel, cases, 0, value, st);
    EntryStops(sem, active, fuel, cases, 0, value, st);
    var from := if entry.at < |cases| then entry.at else DefaultCase(cases);
    NotAValue(sem, active, fuel, cases[from..], entry.st);
  }

  lemma {:induction false} EntryStops<V(!new), S(!new)>(
    sem: Semantics<V, S>, active: Option<Id>, fuel: nat, cases: seq<Node>, at: nat, value: V, st: S)
    requires at <= |cases| && forall i :: 0 <= i < |cases| ==> WellFormedCase(cases[i])
    ensures var e := EnterCase(sem, active, fuel, cases, at, value, st); e.stop.Some? ==> !e.stop.value.Val?
    decreases |cases| - at
  {
    if at < |cases| {
      assert WellFormedCase(cases[at]);
      if cases[at].kind.hasTest {
        EntryStops(sem, active, fuel, cases, at + 1, value, Eval(sem, active, fuel, cases[at].children[0], st).st);
      } else {
        EntryStops(sem, active, fuel, cases, at + 1, value, st);
      }
    }
  }

  lemma {:induction false} LoopIsVoid<V(!new), S(!new)>(
      sem: Semantics<V, S>, active: Option<Id>, fuel: nat, n: Node, st: S)
    ensures WhileBody(sem, active, fuel, n, st) == Void(sem, WhileBody(sem, active, fuel, n, st))
  {
    if |n.children| == 2 && fuel > 0 {
      var test := Eval(sem, active, fuel, n.children[0], st);
      if test.out.Val? {
        var body := Eval(sem, active, fuel, n.children[1], test.st);
        LoopIsVoid(sem, active, fuel - 1, n, body.st);
      }
    }
  }

  // A block of statements does what the list does and has no value.
  lemma {:induction false} BlockRuns<V(!new), S(!new)>(
      sem: Semantics<V, S>, active: Option<Id>, fuel: nat, ns: seq<Node>, st: S)
    ensures
      var all := EvalAll(sem, active, fuel, ns, st);
      Eval(sem, active, fuel, Built(Block, ns), st)
      == Run(if all.stop.Some? then all.stop.value else Val(sem.undefined), all.st, all.trace)
  {
    BuiltEagerRuns(sem, active, fuel, Block, ns, st);
    var all := EvalAll(sem, active, fuel, ns, st);
    assert all.trace + [] == all.trace;
  }

  lemma {:induction false} EvalOne<V(!new), S(!new)>(
      sem: Semantics<V, S>, active: Option<Id>, fuel: nat, n: Node, st: S)
    ensures
      var r := Eval(sem, active, fuel, n, st);
      EvalAll(sem, active, fuel, [n], st)
      == Runs(if r.out.Val? then [r.out.v] else [], if r.out.Val? then None else Some(r.out), r.st, r.trace)
  {
    var r := Eval(sem, active, fuel, n, st);
    if r.out.Val? {
      assert EvalAll(sem, active, fuel, [], r.st) == Runs([], None, r.st, []);
      assert r.trace + [] == r.trace;
    }
  }

  lemma {:induction false} CoverRuns<V(!new), S(!new)>(
      sem: Semantics<V, S>, active: Option<Id>, fuel: nat, ids: seq<Id>, st: S)
    ensures Eval(sem, active, fuel, Built(CoverCall(ids), []), st) == Run(Val(sem.undefined), st, [Covered(ids)])
  {
    BuiltEagerRuns(sem, active, fuel, CoverCall(ids), [], st);
    assert EvalAll(sem, active, fuel, [], st) == Runs([], None, st, []);
    assert [] + [Covered(ids)] == [Covered(ids)];
  }

  lemma {:induction false} BareCoverRuns<V(!new), S(!new)>(
    sem: Semantics<V, S>, active: Option<Id>, fuel: nat, ids: seq<Id>, st: S)
    ensures Eval(sem, active, fuel, CoverSequence(ids, []), st) == Run(Val(sem.undefined), st, [Covered(ids)])
  {
    CoverRuns(sem, active, fuel, ids, st);
    EvalOne(sem, active, fuel, Built(CoverCall(ids), []), st);
    assert [Built(CoverCall(ids), [])] + [] == [Built(CoverCall(ids), [])];
    BuiltEagerRuns(sem, active, fuel, Sequence, [Built(CoverCall(ids), [])], st);
    assert [Covered(ids)] + [] == [Covered(ids)];
  }

  lemma {:induction false} CoverStatementRuns<V(!new), S(!new)>(
      sem: Semantics<V, S>, active: Option<Id>, fuel: nat, ids: seq<Id>, st: S)
    ensures Eval(sem, active, fuel, CoverStatement(ids), st) == Run(Val(sem.undefined), st, [Covered(ids)])
  {
    var s := CoverSequence(ids, []);
    BareCoverRuns(sem, active, fuel, ids, st);
    EvalOne(sem, active, fuel, s, st);
    BuiltEagerRuns(sem, active, fuel, ExpressionStatement, [s], st);
  }

  // Coverage is recorded first, then the claimed expression runs for its value.
  lemma {:induction false} CoveredExpressionRuns<V(!new), S(!new)>(
      sem: Semantics<V, S>, active: Option<Id>, fuel: nat, ids: seq<Id>, n: Node, st: S)
    ensures Eval(sem, active, fuel, CoverSequence(ids, [n]), st)
      == After([Covered(ids)], Eval(sem, active, fuel, n, st))
  {
    CoverRuns(sem, active, fuel, ids, st);
    EvalOne(sem, active, fuel, n, st);
    var cover := Built(CoverCall(ids), []);
    var r := Eval(sem, active, fuel, n, st);
    assert ([cover] + [n])[1..] == [n];
    var all := EvalAll(sem, active, fuel, [cover] + [n], st);
    assert all.trace == [Covered(ids)] + r.trace;
    BuiltEagerRuns(sem, active, fuel, Sequence, [cover] + [n], st);
    assert all.trace + [] == all.trace;
  }

  lemma {:induction false} CoveredStatementsRun<V(!new), S(!new)>(
      sem: Semantics<V, S>, active: Option<Id>, fuel: nat, ids: seq<Id>, ns: seq<Node>, st: S)
    ensures Eval(sem, active, fuel, Built(Block, [CoverStatement(ids)] + ns), st)
         == After([Covered(ids)], Eval(sem, active, fuel, Built(Block, ns), st))
  {
    CoverStatementRuns(sem, active, fuel, ids, st);
    assert ([CoverStatement(ids)] + ns)[1..] == ns;
    BlockRuns(sem, active, fuel, [CoverStatement(ids)] + ns, st);
    BlockRuns(sem, active, fuel, ns, st);
  }

  // Running the statements of a claimed statement in a block is running the statement.
  lemma {:induction false} StatementsRun<V(!new), S(!new)>(
      sem: Semantics<V, S>, active: Option<Id>, fuel: nat, n: Node, st: S)
    requires IsStatementKind(n.kind)
    ensures Eval(sem, active, fuel, Built(Block, StatementsOf(n)), st)
         == if n.kind.Block? then Body(sem, active, fuel, n, st) else Eval(sem, active, fuel, n, st)
  {
    if n.kind.Block? {
      EagerRuns(sem, active, fuel, n, st);
      BuiltEagerRuns(sem, active, fuel, Block, n.children, st);
    } else {
      EvalOne(sem, active, fuel, n, st);
      BlockRuns(sem, active, fuel, [n], st);
      StatementIsVoid(sem, active, fuel, n, st);
    }
  }

  lemma {:induction false} BlockOfOne<V(!new), S(!new)>(
      sem: Semantics<V, S>, active: Option<Id>, fuel: nat, n: Node, st: S)
    ensures Eval(sem, active, fuel, Built(Block, [n]), st) == Void(sem, Eval(sem, active, fuel, n, st))
  {
    EvalOne(sem, active, fuel, n, st);
    BlockRuns(sem, active, fuel, [n], st);
  }

  lemma {:induction false} CaseOfOne<V(!new), S(!new)>(
      sem: Semantics<V, S>, active: Option<Id>, fuel: nat, k: Kind, test: seq<Node>, n: Node, st: S)
    requires k.SwitchCase? && |test| == (if k.hasTest then 1 else 0)
    ensures Eval(sem, active, fuel, Built(k, test + [n]), st) == Void(sem, Eval(sem, active, fuel, n, st))
  {
    CaseRuns(sem, active, fuel, Built(k, test + [n]), st);
    assert Consequent(Built(k, test + [n])) == [n];
    BlockOfOne(sem, active, fuel, n, st);
  }

  // Entering a case is running its consequent.
  lemma {:induction false} CaseRuns<V(!new), S(!new)>(
      sem: Semantics<V, S>, active: Option<Id>, fuel: nat, n: Node, st: S)
    requires n.kind.SwitchCase?
    ensures Body(sem, active, fuel, n, st) == Eval(sem, active, fuel, Built(Block, Consequent(n)), st)
  {
    assert PlainOperands(n.kind, n.children) == Consequent(n);
    EagerRuns(sem, active, fuel, n, st);
    BuiltEagerRuns(sem, active, fuel, Block, Consequent(n), st);
  }

  /** With none of its mutants active, a placement records them and then does what the node does. */
  lemma {:induction false} PlacedRunsOriginal<V(!new), S(!new)>(
    sem: Semantics<V, S>, active: Option<Id>, fuel: nat, p: Placement, n: Node, st: S)
    requires Sane(sem) && PlacerAccepts(p, n) && Chosen(p.applied, active).None?
    requires n.kind.SwitchCase? ==> WellFormedCase(n)
    ensures
      var r := Eval(sem, active, fuel, Place(p, n), st);
      || r == After([Covered(IdsOf(p.applied))], Eval(sem, active, fuel, n, st))
      || r == After([Covered(IdsOf(p.applied))], Body(sem, active, fuel, n, st))
  {
    var ids := IdsOf(p.applied);
    match p.placer
    case ExpressionPlacer =>
      GuardedExpressionRuns(sem, active, fuel, p.applied, CoverSequence(ids, [n]), st);
      CoveredExpressionRuns(sem, active, fuel, ids, n, st);
    case StatementPlacer =>
      var block := Built(Block, [CoverStatement(ids)] + StatementsOf(n));
      GuardedStatementRuns(sem, active, fuel, p.applied, t => [t], block, st);
      CoveredStatementsRun(sem, active, fuel, ids, StatementsOf(n), st);
      StatementsRun(sem, active, fuel, n, st);
      if n.kind.Block? {
        BlockOfOne(sem, active, fuel, GuardedStatement(p.applied, t => [t], block), st);
        BlockIsVoid(sem, active, fuel, block, st);
      }
    case SwitchCasePlacer =>
      var block := Built(Block, [CoverStatement(ids)] + Consequent(n));
      GuardedStatementRuns(sem, active, fuel, p.applied, Consequent, block, st);
      CoveredStatementsRun(sem, active, fuel, ids, Consequent(n), st);
      CaseOfOne(sem, active, fuel, n.kind, TestOf(n), GuardedStatement(p.applied, Consequent, block), st);
      BlockIsVoid(sem, active, fuel, block, st);
      CaseRuns(sem, active, fuel, n, st);
  }

  lemma {:induction false} UnwrapRuns<V(!new), S(!new)>(
      sem: Semantics<V, S>, active: Option<Id>, fuel: nat, n: Node, st: S)
    ensures
      var r, r' := Eval(sem, active, fuel, n, st), Eval(sem, active, fuel, Unwrap(n), st);
      r.out == r'.out && r.st == r'.st
  {
    if n.kind.Paren? && |n.children| == 1 {
      UnwrapRuns(sem, active, fuel, n.children[0], st);
      EvalOne(sem, active, fuel, n.children[0], st);
      assert n.children == [n.children[0]];
      EagerRuns(sem, active, fuel, n, st);
    }
  }

  /** With one of its mutants active, a placement does what that mutant stands for and records nothing. */
  lemma {:induction false} PlacedRunsMutant<V(!new), S(!new)>(
    sem: Semantics<V, S>, active: Option<Id>, fuel: nat, p: Placement, n: Node, st: S)
    requires Sane(sem) && PlacerAccepts(p, n) && Chosen(p.applied, active).Some?
    requires n.kind.SwitchCase? ==> WellFormedCase(n)
    ensures
      var r := Eval(sem, active, fuel, Place(p, n), st);
      var r' := Eval(sem, active, fuel, Effective(p.placer, n, Chosen(p.applied, active).value), st);
      r.out == r'.out && r.st == r'.st
  {
    var ids := IdsOf(p.applied);
    var tree := Chosen(p.applied, active).value;
    ChosenIsApplied(p.applied, active);
    match p.placer
    case ExpressionPlacer =>
      GuardedExpressionRuns(sem, active, fuel, p.applied, CoverSequence(ids, [n]), st);
      UnwrapRuns(sem, active, fuel, tree, st);
    case StatementPlacer =>
      var block := Built(Block, [CoverStatement(ids)] + StatementsOf(n));
      GuardedStatementRuns(sem, active, fuel, p.applied, t => [t], block, st);
      BlockOfOne(sem, active, fuel, tree, st);
      StatementIsVoid(sem, active, fuel, tree, st);
      BlockOfOne(sem, active, fuel, GuardedStatement(p.applied, t => [t], block), st);
    case SwitchCasePlacer =>
      var block := Built(Block, [CoverStatement(ids)] + Consequent(n));
      GuardedStatementRuns(sem, active, fuel, p.applied, Consequent, block, st);
      CaseOfOne(sem, active, fuel, n.kind, TestOf(n), GuardedStatement(p.applied, Consequent, block), st);
      BlockIsVoid(sem, active, fuel, Built(Block, Consequent(tree)), st);
      var effective := Effective(p.placer, n, tree);
      assert Consequent(effective) == Consequent(tree);
      CaseRuns(sem, active, fuel, effective, st);
  }

  lemma {:induction false} ChosenIsApplied(applied: seq<Applied>, active: Option<Id>)
    requires Chosen(applied, active).Some?
    ensures exists i ::
      0 <= i < |applied| && active == Some(applied[i].id) && Chosen(applied, active).value == applied[i].tree
  {
    if active != Some(applied[|applied| - 1].id) {
      ChosenIsApplied(applied[..|applied| - 1], active);
      var i :| 0 <= i < |applied| - 1 && active == Some(applied[i].id)
        && Chosen(applied, active).value == applied[i].tree;
      assert active == Some(applied[i].id) && Chosen(applied, active).value == applied[i].tree;
    }
  }

  // ---- The whole program ----

  // The left view of reaching a node is the right view of recording the mutants placed there.
  ghost predicate Records<V(!new), S(!new)>(lens: Lens<V, S>, plan: Plan) {
    && (forall l :: lens.rightView(Reached(l)) == [])
    && (forall l :: lens.leftView(Reached(l))
          == if l in plan then lens.rightView(Covered(IdsOf(plan[l].applied))) else [])
  }

  // And both sides run with the same active mutant.
  ghost predicate Accounts<V(!new), S(!new)>(lens: Lens<V, S>, plan: Plan) {
    && lens.left == lens.right && lens.avoid.None? && Records(lens, plan)
    && (forall ids :: lens.leftView(Covered(ids)) == lens.rightView(Covered(ids)))
  }

  ghost predicate Silent<V(!new), S(!new)>(lens: Lens<V, S>) {
    forall e :: lens.leftView(e) == [] && lens.rightView(e) == []
  }

  ghost predicate Inactive(plan: Plan, active: Option<Id>) {
    forall l <- plan :: Chosen(plan[l].applied, active).None?
  }

  lemma {:induction false} SilentViews<V(!new), S(!new)>(lens: Lens<V, S>, t: seq<Event>, t': seq<Event>)
    requires Silent(lens)
    ensures SameTrace(lens, t, t')
  {
    SilentView(lens.leftView, t);
    SilentView(lens.rightView, t');
  }

  lemma {:induction false} SilentView(f: Event -> seq<Id>, t: seq<Event>)
    requires forall e :: f(e) == []
    ensures View(f, t) == []
  {
    if t != [] {
      SilentView(f, t[1..]);
    }
  }

  lemma ViewOne(f: Event -> seq<Id>, e: Event)
    ensures View(f, [e]) == f(e)
  {
    assert [e][1..] == [];
    assert View(f, [e]) == f(e) + View(f, []);
  }

  // Equal bodies under equal labels.
  lemma SameNode<V(!new), S(!new)>(lens: Lens<V, S>, n: Node, n': Node)
    requires BodySim(lens, n, n') && n.site == n'.site
    requires n.site.Some? ==> lens.leftView(Reached(n.site.value)) == lens.rightView(Reached(n.site.value))
    ensures Sim(lens, n, n')
  {
    forall fuel: nat, st: S
      ensures Agree(lens, Eval(lens.sem, lens.left, fuel, n, st), Eval(lens.sem, lens.right, fuel, n', st))
    {
      var r, r' := Body(lens.sem, lens.left, fuel, n, st), Body(lens.sem, lens.right, fuel, n', st);
      if n.site.Some? {
        ViewOne(lens.leftView, Reached(n.site.value));
        ViewOne(lens.rightView, Reached(n.site.value));
      }
      AgreeAfter(lens, ReachedEvents(n), ReachedEvents(n'), r, r');
    }
  }

  lemma AfterBoth<V, S>(first: seq<Event>, second: seq<Event>, r: Run<V, S>)
    ensures After(first, After(second, r)) == After(first + second, r)
  {
    assert first + (second + r.trace) == first + second + r.trace;
  }

  // A placement none of whose mutants is active, against the claimed node.
  lemma PlacedSim<V(!new), S(!new)>(lens: Lens<V, S>, plan: Plan, n: Node, n': Node)
    requires Sane(lens.sem) && Records(lens, plan) && PlacedAt(plan, n) && BodySim(lens, n, n') && n.site == n'.site
    requires PlacerAccepts(plan[n.site.value], n') && (n'.kind.SwitchCase? ==> WellFormedCase(n'))
    requires Chosen(plan[n.site.value].applied, lens.right).None?
    ensures Sim(lens, n, Place(plan[n.site.value], n'))
  {
    var p := plan[n.site.value];
    forall fuel: nat, st: S
      ensures Agree(lens, Eval(lens.sem, lens.left, fuel, n, st), Eval(lens.sem, lens.right, fuel, Place(p, n'), st))
    {
      PlacedRunsOriginal(lens.sem, lens.right, fuel, p, n', st);
      var r, r' := Body(lens.sem, lens.left, fuel, n, st), Body(lens.sem, lens.right, fuel, n', st);
      var covered := [Covered(IdsOf(p.applied))];
      ViewOne(lens.leftView, Reached(n.site.value));
      ViewOne(lens.rightView, Reached(n.site.value));
      ViewOne(lens.rightView, covered[0]);
      ViewConcat(lens.rightView, covered, ReachedEvents(n'));
      AgreeAfter(lens, ReachedEvents(n), covered, r, r');
      AgreeAfter(lens, ReachedEvents(n), covered + ReachedEvents(n'), r, r');
      AfterBoth(covered, ReachedEvents(n'), r');
    }
  }

  lemma PlacedMutantSim<V(!new), S(!new)>(lens: Lens<V, S>, p: Placement, m: Node, n': Node)
    requires Sane(lens.sem) && Silent(lens) && lens.left == lens.right
    requires PlacerAccepts(p, n') && Chosen(p.applied, lens.right).Some? && (n'.kind.SwitchCase? ==> WellFormedCase(n'))
    requires Sim(lens, m, Effective(p.placer, n', Chosen(p.applied, lens.right).value))
    ensures Sim(lens, m, Place(p, n'))
  {
    var tree := Effective(p.placer, n', Chosen(p.applied, lens.right).value);
    forall fuel: nat, st: S
      ensures Agree(lens, Eval(lens.sem, lens.left, fuel, m, st), Eval(lens.sem, lens.right, fuel, Place(p, n'), st))
    {
      var r, r' := Eval(lens.sem, lens.left, fuel, m, st), Eval(lens.sem, lens.right, fuel, Place(p, n'), st);
      UseSim(lens, m, tree, fuel, st);
      PlacedRunsMutant(lens.sem, lens.right, fuel, p, n', st);
      SilentViews(lens, r.trace, r'.trace);
    }
  }

  lemma SimRefl<V(!new), S(!new)>(lens: Lens<V, S>, n: Node)
    requires Silent(lens) && lens.left == lens.right
    ensures Sim(lens, n, n)
  {
    forall fuel: nat, st: S
      ensures Agree(lens, Eval(lens.sem, lens.left, fuel, n, st), Eval(lens.sem, lens.right, fuel, n, st))
    {
      var r := Eval(lens.sem, lens.left, fuel, n, st);
      SilentViews(lens, r.trace, r.trace);
    }
  }

  /** The instrumented tree agrees with the tree the active mutant stands for. */
  lemma {:induction false} InstrumentSim<V(!new), S(!new)>(lens: Lens<V, S>, n: Node, plan: Plan)
    requires Sane(lens.sem) && Accounts(lens, plan) && Fits(n, plan) && MakesNoReference(n, plan, lens.left)
    requires Silent(lens) || Inactive(plan, lens.left)
    ensures Sim(lens, Mutated(n, plan, lens.left), Rebuild(n, plan))
    decreases n, 1
  {
    var base := Node(n.site, n.kind, MutatedAll(n.children, plan, lens.left));
    var base' := Node(n.site, n.kind, RebuildAll(n.children, plan));
    forall i | 0 <= i < |n.children|
      ensures Sim(lens, base.children[i], base'.children[i])
    {
      InstrumentSim(lens, n.children[i], plan);
    }
    ChildrenSim(lens, n, plan);
    BodyAgree(lens, base, base');
    if !PlacedAt(plan, n) {
      SameNode(lens, base, base');
    } else {
      var p := plan[n.site.value];
      if Chosen(p.applied, lens.left).None? {
        PlacedSim(lens, plan, base, base');
      } else {
        var tree := Chosen(p.applied, lens.left).value;
        var m, m' := Effective(p.placer, base, tree), Effective(p.placer, base', tree);
        assert Sim(lens, m, m') by {
          SimRefl(lens, tree);
          if p.placer == SwitchCasePlacer {
            ConsequentSim(lens, base, base', tree);
          }
        }
        PlacedMutantSim(lens, p, m, base');
      }
    }
  }

  lemma ConsequentSim<V(!new), S(!new)>(lens: Lens<V, S>, n: Node, n': Node, tree: Node)
    requires Silent(lens) && lens.left == lens.right && n.kind == n'.kind && n.site == n'.site && n.kind.SwitchCase?
    requires SimAll(lens, n.children, n'.children)
    ensures Sim(lens, Effective(SwitchCasePlacer, n, tree), Effective(SwitchCasePlacer, n', tree))
  {
    var m, m' := Effective(SwitchCasePlacer, n, tree), Effective(SwitchCasePlacer, n', tree);
    forall c { SimRefl(lens, c); }
    assert SimAll(lens, m.children, m'.children);
    BodyAgree(lens, m, m');
    SameNode(lens, m, m');
  }

  // References stay references and cases stay cases on both sides.
  lemma {:induction false} ChildrenSim<V(!new), S(!new)>(lens: Lens<V, S>, n: Node, plan: Plan)
    requires Sane(lens.sem) && Accounts(lens, plan) && Fits(n, plan) && MakesNoReference(n, plan, lens.left)
    requires Silent(lens) || Inactive(plan, lens.left)
    requires SimAll(lens, MutatedAll(n.children, plan, lens.left), RebuildAll(n.children, plan))
    ensures ChildrenAgree(lens, n.kind, MutatedAll(n.children, plan, lens.left), RebuildAll(n.children, plan))
    decreases n, 0
  {
    var cs, cs' := MutatedAll(n.children, plan, lens.left), RebuildAll(n.children, plan);
    if UsesReference(n.kind) && |cs| > 0 {
      ReferenceSim(lens, n.kind, n.children[0], plan);
    }
    if n.kind.Switch? {
      forall i | 1 <= i < |cs|
        ensures CaseLike(lens, cs[i], cs'[i])
      {
        CaseSim(lens, n.children[i], plan);
      }
    }
  }

  lemma PlaceShape(p: Placement, n: Node)
    requires PlacerAccepts(p, n)
    ensures
      var k := Place(p, n).kind;
      k.Conditional? || k.Sequence? || k.If? || k.Block? || (k.SwitchCase? && k == n.kind)
    ensures p.placer == SwitchCasePlacer <==> Place(p, n).kind.SwitchCase?
  {
  }

  // Neither form changes what is in parentheses of their own.
  lemma {:induction false} ParenForms(n: Node, plan: Plan, active: Option<Id>)
    requires Fits(n, plan) && n.kind.Paren? && |n.children| == 1
    ensures Unwrap(Mutated(n, plan, active)) == Unwrap(Mutated(n.children[0], plan, active))
    ensures Unwrap(Rebuild(n, plan)) == Unwrap(Rebuild(n.children[0], plan))
  {
    assert !PlacedAt(plan, n);
  }

  lemma {:induction false} UnplacedForms(n: Node, plan: Plan, active: Option<Id>)
    requires !PlacedAt(plan, n) && !(n.kind.Paren? && |n.children| == 1)
    ensures Unwrap(Mutated(n, plan, active)) == Node(n.site, n.kind, MutatedAll(n.children, plan, active))
    ensures Unwrap(Rebuild(n, plan)) == Node(n.site, n.kind, RebuildAll(n.children, plan))
  {
  }

  lemma {:induction false} ReferenceSim<V(!new), S(!new)>(lens: Lens<V, S>, context: Kind, n: Node, plan: Plan)
    requires Sane(lens.sem) && Accounts(lens, plan) && Fits(n, plan) && MakesNoReference(n, plan, lens.left)
    requires Silent(lens) || Inactive(plan, lens.left)
    requires KeepsReference(context, n, plan) && StaysValue(context, n, plan, lens.left)
    ensures ReferenceLike(lens, context, Mutated(n, plan, lens.left), Rebuild(n, plan))
    decreases n, 2
  {
    if n.kind.Paren? && |n.children| == 1 {
      ParenForms(n, plan, lens.left);
      ReferenceSim(lens, context, n.children[0], plan);
    } else if !PlacedAt(plan, n) {
      UnplacedForms(n, plan, lens.left);
      forall i | 0 <= i < |n.children|
        ensures Sim(lens, Mutated(n.children[i], plan, lens.left), Rebuild(n.children[i], plan))
      {
        InstrumentSim(lens, n.children[i], plan);
      }
    } else {
      PlacedIsNoReference(context, n, plan, lens.left);
    }
  }

  lemma {:induction false} RebuiltIsNoReference(context: Kind, n: Node, plan: Plan)
    requires PlacedAt(plan, n) && Fits(n, plan) && !IsReference(context, n.kind)
    ensures !IsReference(context, Unwrap(Rebuild(n, plan)).kind)
  {
    PlaceShape(plan[n.site.value], Node(n.site, n.kind, RebuildAll(n.children, plan)));
  }

  lemma {:induction false} PlacedIsNoReference(context: Kind, n: Node, plan: Plan, active: Option<Id>)
    requires PlacedAt(plan, n) && Fits(n, plan) && Unwrap(n) == n
    requires KeepsReference(context, n, plan) && StaysValue(context, n, plan, active)
    ensures !IsReference(context, Unwrap(Mutated(n, plan, active)).kind)
    ensures !IsReference(context, Unwrap(Rebuild(n, plan)).kind)
  {
    RebuiltIsNoReference(context, n, plan);
  }

  lemma {:induction false} CaseSim<V(!new), S(!new)>(lens: Lens<V, S>, n: Node, plan: Plan)
    requires Sane(lens.sem) && Accounts(lens, plan) && Fits(n, plan) && MakesNoReference(n, plan, lens.left)
    requires Silent(lens) || Inactive(plan, lens.left)
    ensures CaseLike(lens, Mutated(n, plan, lens.left), Rebuild(n, plan))
    decreases n, 2
  {
    if n.kind.SwitchCase? {
      if n.kind.hasTest && |n.children| > 0 {
        InstrumentSim(lens, n.children[0], plan);
      }
      CaseKeepsTest(n, plan, lens.left);
    } else {
      NotACase(n, plan, lens.left);
    }
  }

  lemma {:induction false} CaseKeepsTest(n: Node, plan: Plan, active: Option<Id>)
    requires Fits(n, plan) && n.kind.SwitchCase?
    ensures Mutated(n, plan, active).kind == n.kind == Rebuild(n, plan).kind
    ensures WellFormedCase(n) ==> WellFormedCase(Mutated(n, plan, active)) && WellFormedCase(Rebuild(n, plan))
    ensures !WellFormedCase(n) ==> !WellFormedCase(Mutated(n, plan, active)) && !WellFormedCase(Rebuild(n, plan))
    ensures WellFormedCase(n) && n.kind.hasTest ==>
      Mutated(n, plan, active).children[0] == Mutated(n.children[0], plan, active)
      && Rebuild(n, plan).children[0] == Rebuild(n.children[0], plan)
  {
  }

  lemma {:induction false} NotACase(n: Node, plan: Plan, active: Option<Id>)
    requires Fits(n, plan) && !n.kind.SwitchCase?
    ensures !Mutated(n, plan, active).kind.SwitchCase? && !Rebuild(n, plan).kind.SwitchCase?
  {
    if PlacedAt(plan, n) {
      var p := plan[n.site.value];
      PlaceShape(p, Node(n.site, n.kind, RebuildAll(n.children, plan)));
      var c := Chosen(p.applied, active);
      if c.Some? {
        ChosenIsApplied(p.applied, active);
        var i :| 0 <= i < |p.applied| && c.value == p.applied[i].tree;
        assert p.applied[i] in p.applied;
      }
    }
  }
}
