// One congruence result serves every theorem about instrumented programs: nodes of the same kind
// whose children agree, agree themselves.
module Congruence {
  import opened Wrappers
  import opened Syntax
  import opened Semantics

  // How two runs are compared. `left` and `right` are the active mutants of the two sides; a left
  // run that reaches `avoid` is not compared; traces are compared through the two views.
  datatype Lens<!V, !S> = Lens(
    sem: Semantics<V, S>,
    left: Option<Id>,
    right: Option<Id>,
    avoid: Option<Label>,
    leftView: Event -> seq<Id>,
    rightView: Event -> seq<Id>)

  ghost function View(f: Event -> seq<Id>, trace: seq<Event>): seq<Id> {
    if trace == [] then [] else f(trace[0]) + View(f, trace[1..])
  }

  lemma {:induction false} ViewConcat(f: Event -> seq<Id>, a: seq<Event>, b: seq<Event>)
    ensures View(f, a + b) == View(f, a) + View(f, b)
  {
    if a == [] {
      assert a + b == b;
    } else {
      ViewConcat(f, a[1..], b);
      assert (a + b)[1..] == a[1..] + b;
    }
  }

  ghost predicate Quiet(avoid: Option<Label>, trace: seq<Event>) {
    avoid.Some? ==> Reached(avoid.value) !in trace
  }

  ghost predicate SameTrace<V(!new), S(!new)>(lens: Lens<V, S>, left: seq<Event>, right: seq<Event>) {
    View(lens.leftView, left) == View(lens.rightView, right)
  }

  lemma SameTraceConcat<V(!new), S(!new)>(
      lens: Lens<V, S>, a: seq<Event>, a': seq<Event>, b: seq<Event>, b': seq<Event>)
    requires SameTrace(lens, a, a') && SameTrace(lens, b, b')
    ensures SameTrace(lens, a + b, a' + b')
  {
    ViewConcat(lens.leftView, a, b);
    ViewConcat(lens.rightView, a', b');
  }

  ghost predicate Agree<V(!new), S(!new)>(lens: Lens<V, S>, r: Run<V, S>, r': Run<V, S>) {
    Quiet(lens.avoid, r.trace) ==> r.out == r'.out && r.st == r'.st && SameTrace(lens, r.trace, r'.trace)
  }

  lemma AgreeAfter<V(!new), S(!new)>(lens: Lens<V, S>, a: seq<Event>, a': seq<Event>, r: Run<V, S>, r': Run<V, S>)
    requires Quiet(lens.avoid, a) ==> SameTrace(lens, a, a') && Agree(lens, r, r')
    ensures Agree(lens, After(a, r), After(a', r'))
  {
    if Quiet(lens.avoid, a + r.trace) {
      assert forall e | e in a :: e in a + r.trace;
      assert forall e | e in r.trace :: e in a + r.trace;
      SameTraceConcat(lens, a, a', r.trace, r'.trace);
    }
  }

  // The two nodes agree from every store and with any fuel.
  ghost predicate Sim<V(!new), S(!new)>(lens: Lens<V, S>, n: Node, n': Node) {
    forall fuel: nat, st: S ::
      Agree(lens, Eval(lens.sem, lens.left, fuel, n, st), Eval(lens.sem, lens.right, fuel, n', st))
  }

  ghost predicate BodySim<V(!new), S(!new)>(lens: Lens<V, S>, n: Node, n': Node) {
    forall fuel: nat, st: S ::
      Agree(lens, Body(lens.sem, lens.left, fuel, n, st), Body(lens.sem, lens.right, fuel, n', st))
  }

  lemma {:induction false} UseSim<V(!new), S(!new)>(lens: Lens<V, S>, n: Node, n': Node, fuel: nat, st: S)
    requires Sim(lens, n, n')
    ensures Agree(lens, Eval(lens.sem, lens.left, fuel, n, st), Eval(lens.sem, lens.right, fuel, n', st))
  {
  }

  ghost predicate SimAll<V(!new), S(!new)>(lens: Lens<V, S>, ns: seq<Node>, ns': seq<Node>) {
    |ns| == |ns'| && forall i :: 0 <= i < |ns| ==> Sim(lens, ns[i], ns'[i])
  }

  // Children used as references must stay references of the same kind.
  ghost predicate ReferenceLike<V(!new), S(!new)>(lens: Lens<V, S>, context: Kind, n: Node, n': Node) {
    var core, core' := Unwrap(n), Unwrap(n');
    IsReference(context, core.kind) || IsReference(context, core'.kind) ==>
      core.kind == core'.kind && SimAll(lens, core.children, core'.children)
  }

  // Cases must stay cases with agreeing tests.
  ghost predicate CaseLike<V(!new), S(!new)>(lens: Lens<V, S>, n: Node, n': Node) {
    WellFormedCase(n) || WellFormedCase(n') ==>
      n.kind == n'.kind && WellFormedCase(n) && WellFormedCase(n')
      && (n.kind.hasTest ==> Sim(lens, n.children[0], n'.children[0]))
  }

  ghost predicate ChildrenAgree<V(!new), S(!new)>(lens: Lens<V, S>, k: Kind, cs: seq<Node>, cs': seq<Node>) {
    && SimAll(lens, cs, cs')
    && (UsesReference(k) && |cs| > 0 ==> ReferenceLike(lens, k, cs[0], cs'[0]))
    && (k.Switch? ==> forall i :: 1 <= i < |cs| ==> CaseLike(lens, cs[i], cs'[i]))
  }

  // No node tests for a mutant the two sides disagree about.
  ghost predicate SameTests<V(!new), S(!new)>(lens: Lens<V, S>, k: Kind) {
    k.ActiveTest? ==> (lens.left == Some(k.id)) == (lens.right == Some(k.id))
  }

  ghost predicate SameCovers<V(!new), S(!new)>(lens: Lens<V, S>, k: Kind) {
    k.CoverCall? ==> lens.leftView(Covered(k.ids)) == lens.rightView(Covered(k.ids))
  }

  ghost predicate AgreeMany<V(!new), S(!new)>(lens: Lens<V, S>, r: Runs<V, S>, r': Runs<V, S>) {
    Quiet(lens.avoid, r.trace) ==>
      r.vals == r'.vals && r.stop == r'.stop && r.st == r'.st && SameTrace(lens, r.trace, r'.trace)
  }

  lemma QuietConcat(avoid: Option<Label>, a: seq<Event>, b: seq<Event>)
    ensures Quiet(avoid, a + b) <==> Quiet(avoid, a) && Quiet(avoid, b)
  {
    assert forall e :: e in a + b <==> e in a || e in b;
  }

  lemma {:induction false} EvalAllAgree<V(!new), S(!new)>(
      lens: Lens<V, S>, ns: seq<Node>, ns': seq<Node>, fuel: nat, st: S)
    requires SimAll(lens, ns, ns')
    ensures AgreeMany(lens, EvalAll(lens.sem, lens.left, fuel, ns, st), EvalAll(lens.sem, lens.right, fuel, ns', st))
  {
    if ns != [] {
      var first := Eval(lens.sem, lens.left, fuel, ns[0], st);
      var first' := Eval(lens.sem, lens.right, fuel, ns'[0], st);
      UseSim(lens, ns[0], ns'[0], fuel, st);
      if Quiet(lens.avoid, first.trace) && first.out.Val? {
        EvalAllAgree(lens, ns[1..], ns'[1..], fuel, first.st);
        var rest := EvalAll(lens.sem, lens.left, fuel, ns[1..], first.st);
        var rest' := EvalAll(lens.sem, lens.right, fuel, ns'[1..], first.st);
        QuietConcat(lens.avoid, first.trace, rest.trace);
        if Quiet(lens.avoid, rest.trace) {
          SameTraceConcat(lens, first.trace, first'.trace, rest.trace, rest'.trace);
        }
      } else if first.out.Val? {
        var rest := EvalAll(lens.sem, lens.left, fuel, ns[1..], first.st);
        QuietConcat(lens.avoid, first.trace, rest.trace);
      }
    }
  }

  lemma OperandsAgree<V(!new), S(!new)>(lens: Lens<V, S>, k: Kind, cs: seq<Node>, cs': seq<Node>)
    requires ChildrenAgree(lens, k, cs, cs')
    ensures ReceiverOf(k, cs) == ReceiverOf(k, cs')
    ensures SimAll(lens, ReferenceOperands(k, cs), ReferenceOperands(k, cs'))
    ensures SimAll(lens, PlainOperands(k, cs), PlainOperands(k, cs'))
  {
  }

  lemma {:induction false} EagerAgree<V(!new), S(!new)>(lens: Lens<V, S>, n: Node, n': Node, fuel: nat, st: S)
    requires n.kind == n'.kind && !IsLazy(n.kind)
    requires ChildrenAgree(lens, n.kind, n.children, n'.children)
    requires SameTests(lens, n.kind) && SameCovers(lens, n.kind)
    ensures Agree(lens, EagerBody(lens.sem, lens.left, fuel, n, st), EagerBody(lens.sem, lens.right, fuel, n', st))
  {
    var k, cs, cs' := n.kind, n.children, n'.children;
    OperandsAgree(lens, k, cs, cs');
    EvalAllAgree(lens, ReferenceOperands(k, cs), ReferenceOperands(k, cs'), fuel, st);
    var first := EvalAll(lens.sem, lens.left, fuel, ReferenceOperands(k, cs), st);
    var first' := EvalAll(lens.sem, lens.right, fuel, ReferenceOperands(k, cs'), st);
    if first.stop.None? {
      var rest := EvalAll(lens.sem, lens.left, fuel, PlainOperands(k, cs), first.st);
      QuietConcat(lens.avoid, first.trace, rest.trace);
      if Quiet(lens.avoid, first.trace) {
        EvalAllAgree(lens, PlainOperands(k, cs), PlainOperands(k, cs'), fuel, first.st);
        var rest' := EvalAll(lens.sem, lens.right, fuel, PlainOperands(k, cs'), first.st);
        if Quiet(lens.avoid, rest.trace) {
          SameTraceConcat(lens, first.trace, first'.trace, rest.trace, rest'.trace);
          FinishAgree(lens, k, ReceiverOf(k, cs), first.vals + rest.vals, rest.st, first.trace + rest.trace,
            first'.trace + rest'.trace);
        }
      }
    }
  }

  lemma FinishAgree<V(!new), S(!new)>(
      lens: Lens<V, S>, k: Kind, rec: Receiver, vals: seq<V>, st: S, t: seq<Event>, t': seq<Event>)
    requires SameTests(lens, k) && SameCovers(lens, k) && SameTrace(lens, t, t')
    ensures
      var done, done' := Finish(lens.sem, lens.left, k, rec, vals, st), Finish(lens.sem, lens.right, k, rec, vals, st);
      done.0 == done'.0 && done.1 == done'.1 && SameTrace(lens, t + done.2, t' + done'.2)
  {
    var done, done' := Finish(lens.sem, lens.left, k, rec, vals, st), Finish(lens.sem, lens.right, k, rec, vals, st);
    if k.CoverCall? {
      assert done.2 == [Covered(k.ids)];
      assert View(lens.leftView, done.2) == lens.leftView(Covered(k.ids)) + View(lens.leftView, []);
      assert View(lens.rightView, done'.2) == lens.rightView(Covered(k.ids)) + View(lens.rightView, []);
    }
    SameTraceConcat(lens, t, t', done.2, done'.2);
  }

  lemma {:induction false} LogicalAgree<V(!new), S(!new)>(lens: Lens<V, S>, n: Node, n': Node, fuel: nat, st: S)
    requires n.kind == n'.kind && n.kind.Logical? && ChildrenAgree(lens, n.kind, n.children, n'.children)
    ensures Agree(lens, Body(lens.sem, lens.left, fuel, n, st), Body(lens.sem, lens.right, fuel, n', st))
  {
    if |n.children| == 2 {
      var left := Eval(lens.sem, lens.left, fuel, n.children[0], st);
      var left' := Eval(lens.sem, lens.right, fuel, n'.children[0], st);
      UseSim(lens, n.children[0], n'.children[0], fuel, st);
      if left.out.Val? && TakesRight(lens.sem, n.kind.logical, left.out.v) {
        ContinueAgree(lens, left, left', n.children[1], n'.children[1], fuel);
      }
    }
  }

  // Going on with the next node after two agreeing runs.
  lemma {:induction false} ContinueAgree<V(!new), S(!new)>(
      lens: Lens<V, S>, r: Run<V, S>, r': Run<V, S>, n: Node, n': Node, fuel: nat)
    requires Agree(lens, r, r') && Sim(lens, n, n')
    ensures Agree(lens, After(r.trace, Eval(lens.sem, lens.left, fuel, n, r.st)),
                        After(r'.trace, Eval(lens.sem, lens.right, fuel, n', r'.st)))
    ensures !Quiet(lens.avoid, r.trace) ==>
      !Quiet(lens.avoid, After(r.trace, Eval(lens.sem, lens.left, fuel, n, r.st)).trace)
  {
    UseSim(lens, n, n', fuel, r.st);
    QuietConcat(lens.avoid, r.trace, Eval(lens.sem, lens.left, fuel, n, r.st).trace);
    if Quiet(lens.avoid, r.trace) {
      AgreeAfter(lens, r.trace, r'.trace, Eval(lens.sem, lens.left, fuel, n, r.st),
        Eval(lens.sem, lens.right, fuel, n', r'.st));
    }
  }

  lemma {:induction false} ConditionalAgree<V(!new), S(!new)>(lens: Lens<V, S>, n: Node, n': Node, fuel: nat, st: S)
    requires n.kind == n'.kind && SimAll(lens, n.children, n'.children)
    ensures Agree(lens, ConditionalBody(lens.sem, lens.left, fuel, n, st),
      ConditionalBody(lens.sem, lens.right, fuel, n', st))
  {
    if 2 <= |n.children| <= 3 {
      var test := Eval(lens.sem, lens.left, fuel, n.children[0], st);
      var test' := Eval(lens.sem, lens.right, fuel, n'.children[0], st);
      UseSim(lens, n.children[0], n'.children[0], fuel, st);
      if test.out.Val? {
        if lens.sem.truthy(test.out.v) {
          ContinueAgree(lens, test, test', n.children[1], n'.children[1], fuel);
        } else if |n.children| == 3 {
          ContinueAgree(lens, test, test', n.children[2], n'.children[2], fuel);
        }
      }
    }
  }

  lemma {:induction false} TryAgree<V(!new), S(!new)>(lens: Lens<V, S>, n: Node, n': Node, fuel: nat, st: S)
    requires n.kind == n'.kind && SimAll(lens, n.children, n'.children)
    ensures Agree(lens, TryBody(lens.sem, lens.left, fuel, n, st), TryBody(lens.sem, lens.right, fuel, n', st))
  {
    if |n.children| == 2 {
      var tried := Eval(lens.sem, lens.left, fuel, n.children[0], st);
      var tried' := Eval(lens.sem, lens.right, fuel, n'.children[0], st);
      UseSim(lens, n.children[0], n'.children[0], fuel, st);
      if tried.out.Threw? {
        ContinueAgree(lens, tried, tried', n.children[1], n'.children[1], fuel);
      }
    }
  }

  lemma {:induction false} WhileAgree<V(!new), S(!new)>(lens: Lens<V, S>, n: Node, n': Node, fuel: nat, st: S)
    requires n.kind == n'.kind && SimAll(lens, n.children, n'.children)
    ensures Agree(lens, WhileBody(lens.sem, lens.left, fuel, n, st), WhileBody(lens.sem, lens.right, fuel, n', st))
  {
    if |n.children| == 2 && fuel > 0 {
      var test := Eval(lens.sem, lens.left, fuel, n.children[0], st);
      var test' := Eval(lens.sem, lens.right, fuel, n'.children[0], st);
      UseSim(lens, n.children[0], n'.children[0], fuel, st);
      if test.out.Val? && lens.sem.truthy(test.out.v) {
        var body := Eval(lens.sem, lens.left, fuel, n.children[1], test.st);
        var body' := Eval(lens.sem, lens.right, fuel, n'.children[1], test'.st);
        UseSim(lens, n.children[1], n'.children[1], fuel, test.st);
        var tail, tail' := LoopTail(lens.sem, lens.left, fuel, n, body),
          LoopTail(lens.sem, lens.right, fuel, n', body');
        assert WhileBody(lens.sem, lens.left, fuel, n, st) == After(test.trace, tail);
        if Quiet(lens.avoid, test.trace) {
          assert WhileBody(lens.sem, lens.right, fuel, n', st) == After(test'.trace, tail');
          assert Agree(lens, tail, tail') by {
            if body.out.Val? || body.out.Continued? {
              WhileAgree(lens, n, n', fuel - 1, body.st);
              var again, again' := WhileBody(lens.sem, lens.left, fuel - 1, n, body.st),
                WhileBody(lens.sem, lens.right, fuel - 1, n', body'.st);
              QuietConcat(lens.avoid, body.trace, again.trace);
              if Quiet(lens.avoid, body.trace) {
                AgreeAfter(lens, body.trace, body'.trace, again, again');
              }
            }
          }
          AgreeAfter(lens, test.trace, test'.trace, tail, tail');
        } else {
          QuietConcat(lens.avoid, test.trace, tail.trace);
        }
      }
    }
  }

  // What a loop does once its body has run.
  ghost function LoopTail<V(!new), S(!new)>(
      sem: Semantics<V, S>, active: Option<Id>, fuel: nat, n: Node, body: Run<V, S>): Run<V, S>
    requires fuel > 0
  {
    if body.out.Broke? then body.(out := Val(sem.undefined))
    else if body.out.Val? || body.out.Continued? then After(body.trace, WhileBody(sem, active, fuel - 1, n, body.st))
    else body
  }

  ghost predicate AgreeEntry<V(!new), S(!new)>(lens: Lens<V, S>, e: Entered<V, S>, e': Entered<V, S>) {
    Quiet(lens.avoid, e.trace) ==>
      e.at == e'.at && e.stop == e'.stop && e.st == e'.st && SameTrace(lens, e.trace, e'.trace)
  }

  lemma {:induction false} EnterCaseAgree<V(!new), S(!new)>(
    lens: Lens<V, S>, cases: seq<Node>, cases': seq<Node>, fuel: nat, at: nat, value: V, st: S)
    requires at <= |cases| == |cases'|
    requires forall i :: 0 <= i < |cases| ==> WellFormedCase(cases[i]) && CaseLike(lens, cases[i], cases'[i])
    requires forall i :: 0 <= i < |cases'| ==> WellFormedCase(cases'[i])
    ensures AgreeEntry(lens, EnterCase(lens.sem, lens.left, fuel, cases, at, value, st),
                             EnterCase(lens.sem, lens.right, fuel, cases', at, value, st))
    decreases |cases| - at
  {
    if at < |cases| {
      assert WellFormedCase(cases[at]) && WellFormedCase(cases'[at]) && cases[at].kind == cases'[at].kind;
      if !cases[at].kind.hasTest {
        EnterCaseAgree(lens, cases, cases', fuel, at + 1, value, st);
      } else {
        var test := Eval(lens.sem, lens.left, fuel, cases[at].children[0], st);
        var test' := Eval(lens.sem, lens.right, fuel, cases'[at].children[0], st);
        UseSim(lens, cases[at].children[0], cases'[at].children[0], fuel, st);
        if test.out.Val? && !lens.sem.matches(value, test.out.v) {
          EnterCaseAgree(lens, cases, cases', fuel, at + 1, value, test.st);
          var rest := EnterCase(lens.sem, lens.left, fuel, cases, at + 1, value, test.st);
          QuietConcat(lens.avoid, test.trace, rest.trace);
          if Quiet(lens.avoid, test.trace + rest.trace) {
            var rest' := EnterCase(lens.sem, lens.right, fuel, cases', at + 1, value, test.st);
            SameTraceConcat(lens, test.trace, test'.trace, rest.trace, rest'.trace);
          }
        }
      }
    }
  }

  lemma {:induction false} DefaultCaseSame(cases: seq<Node>, cases': seq<Node>)
    requires |cases| == |cases'| && forall i :: 0 <= i < |cases| ==> cases[i].kind == cases'[i].kind
    ensures DefaultCase(cases) == DefaultCase(cases')
  {
    if cases != [] {
      DefaultCaseSame(cases[1..], cases'[1..]);
    }
  }

  lemma {:induction false} FallThroughAgree<V(!new), S(!new)>(
      lens: Lens<V, S>, cases: seq<Node>, cases': seq<Node>, fuel: nat, at: nat, st: S)
    requires SimAll(lens, cases, cases') && at <= |cases|
    requires forall i :: 0 <= i < |cases| ==> cases[i].kind == cases'[i].kind
    ensures Agree(lens, FallThrough(lens.sem, lens.left, fuel, cases, at, st),
      FallThrough(lens.sem, lens.right, fuel, cases', at, st))
  {
    DefaultCaseSame(cases, cases');
    var from := if at < |cases| then at else DefaultCase(cases);
    EvalAllAgree(lens, cases[from..], cases'[from..], fuel, st);
  }

  lemma {:induction false} RunCasesAgree<V(!new), S(!new)>(
      lens: Lens<V, S>, cases: seq<Node>, cases': seq<Node>, fuel: nat, value: V, st: S)
    requires SimAll(lens, cases, cases')
    requires forall i :: 0 <= i < |cases| ==> WellFormedCase(cases[i]) && CaseLike(lens, cases[i], cases'[i])
    requires forall i :: 0 <= i < |cases'| ==> WellFormedCase(cases'[i])
    ensures Agree(lens, RunCases(lens.sem, lens.left, fuel, cases, value, st),
      RunCases(lens.sem, lens.right, fuel, cases', value, st))
  {
    EnterCaseAgree(lens, cases, cases', fuel, 0, value, st);
    var entry := EnterCase(lens.sem, lens.left, fuel, cases, 0, value, st);
    var entry' := EnterCase(lens.sem, lens.right, fuel, cases', 0, value, st);
    if entry.stop.None? {
      var ran := FallThrough(lens.sem, lens.left, fuel, cases, entry.at, entry.st);
      QuietConcat(lens.avoid, entry.trace, ran.trace);
      if Quiet(lens.avoid, entry.trace) {
        FallThroughAgree(lens, cases, cases', fuel, entry.at, entry.st);
        AgreeAfter(lens, entry.trace, entry'.trace, ran,
          FallThrough(lens.sem, lens.right, fuel, cases', entry.at, entry.st));
      }
    }
  }

  lemma {:induction false} SwitchAgree<V(!new), S(!new)>(lens: Lens<V, S>, n: Node, n': Node, fuel: nat, st: S)
    requires n.kind == n'.kind && n.kind.Switch? && ChildrenAgree(lens, n.kind, n.children, n'.children)
    ensures Agree(lens, SwitchBody(lens.sem, lens.left, fuel, n, st), SwitchBody(lens.sem, lens.right, fuel, n', st))
  {
    assert forall i :: 1 <= i < |n.children| ==> CaseLike(lens, n.children[i], n'.children[i]);
    if |n.children| > 0 && (forall i :: 1 <= i < |n.children| ==> WellFormedCase(n.children[i])) {
      var value := Eval(lens.sem, lens.left, fuel, n.children[0], st);
      var value' := Eval(lens.sem, lens.right, fuel, n'.children[0], st);
      UseSim(lens, n.children[0], n'.children[0], fuel, st);
      if value.out.Val? {
        var cases, cases' := n.children[1..], n'.children[1..];
        var ran := RunCases(lens.sem, lens.left, fuel, cases, value.out.v, value.st);
        QuietConcat(lens.avoid, value.trace, ran.trace);
        if Quiet(lens.avoid, value.trace) {
          RunCasesAgree(lens, cases, cases', fuel, value.out.v, value.st);
          AgreeAfter(lens, value.trace, value'.trace, ran,
            RunCases(lens.sem, lens.right, fuel, cases', value.out.v, value.st));
        }
      }
    }
  }

  lemma {:induction false} EagerBodyAgree<V(!new), S(!new)>(lens: Lens<V, S>, n: Node, n': Node, fuel: nat, st: S)
    requires n.kind == n'.kind && !IsLazy(n.kind) && ChildrenAgree(lens, n.kind, n.children, n'.children)
    requires SameTests(lens, n.kind) && SameCovers(lens, n.kind)
    ensures Agree(lens, Body(lens.sem, lens.left, fuel, n, st), Body(lens.sem, lens.right, fuel, n', st))
  {
    EagerAgree(lens, n, n', fuel, st);
    assert Body(lens.sem, lens.left, fuel, n, st) == EagerBody(lens.sem, lens.left, fuel, n, st);
    assert Body(lens.sem, lens.right, fuel, n', st) == EagerBody(lens.sem, lens.right, fuel, n', st);
  }

  lemma {:induction false} IfAgree<V(!new), S(!new)>(lens: Lens<V, S>, n: Node, n': Node, fuel: nat, st: S)
    requires n.kind == n'.kind && n.kind.If? && ChildrenAgree(lens, n.kind, n.children, n'.children)
    ensures Agree(lens, Body(lens.sem, lens.left, fuel, n, st), Body(lens.sem, lens.right, fuel, n', st))
  {
    ConditionalAgree(lens, n, n', fuel, st);
  }

  lemma {:induction false} LazyBodyAgree<V(!new), S(!new)>(lens: Lens<V, S>, n: Node, n': Node, fuel: nat, st: S)
    requires n.kind == n'.kind && IsLazy(n.kind) && ChildrenAgree(lens, n.kind, n.children, n'.children)
    ensures Agree(lens, Body(lens.sem, lens.left, fuel, n, st), Body(lens.sem, lens.right, fuel, n', st))
  {
    match n.kind
    case Logical(_) => LogicalAgree(lens, n, n', fuel, st);
    case Conditional => ConditionalAgree(lens, n, n', fuel, st);
    case If => IfAgree(lens, n, n', fuel, st);
    case While => WhileAgree(lens, n, n', fuel, st);
    case Switch => SwitchAgree(lens, n, n', fuel, st);
    case Try => TryAgree(lens, n, n', fuel, st);
  }

  /** Two nodes of one kind whose children agree do the same. */
  lemma BodyAgree<V(!new), S(!new)>(lens: Lens<V, S>, n: Node, n': Node)
    requires n.kind == n'.kind && ChildrenAgree(lens, n.kind, n.children, n'.children)
    requires SameTests(lens, n.kind) && SameCovers(lens, n.kind)
    ensures BodySim(lens, n, n')
  {
    forall fuel: nat, st: S
      ensures Agree(lens, Body(lens.sem, lens.left, fuel, n, st), Body(lens.sem, lens.right, fuel, n', st))
    {
      if IsLazy(n.kind) {
        LazyBodyAgree(lens, n, n', fuel, st);
      } else {
        EagerBodyAgree(lens, n, n', fuel, st);
      }
    }
  }
}
