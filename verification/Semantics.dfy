// A fuelled big-step evaluator for the small language. Only a loop iteration consumes fuel, so a
// program and its instrumented form run out of fuel at the same moment.
//
// What the operators compute is left to a Semantics record: every theorem holds for all of them.
// Evaluation writes a trace beside its outcome and store: the labelled nodes control reaches and
// the calls of the coverage helper, in order.
module Semantics {
  import opened Wrappers
  import opened Syntax

  datatype Outcome<V> = Val(v: V) | Broke | Continued | Returned(returned: V) | Threw(thrown: V) | Diverged | Malformed

  datatype Event = Reached(site: Label) | Covered(ids: seq<Id>)

  datatype Run<V, S> = Run(out: Outcome<V>, st: S, trace: seq<Event>)

  // What evaluating several nodes in order gives: their values, unless one of them stopped.
  datatype Runs<V, S> = Runs(vals: seq<V>, stop: Option<Outcome<V>>, st: S, trace: seq<Event>)

  // How an operator receives its first child.
  datatype Receiver = ByValue | ByName(name: string) | ByProperty

  datatype Semantics<!V, !S> = Semantics(
    undefined: V,
    ofBool: bool -> V,
    truthy: V -> bool,
    nullish: V -> bool,
    matches: (V, V) -> bool,
    apply: (Kind, Receiver, seq<V>, S) -> (Outcome<V>, S))

  ghost predicate Sane<V, S>(sem: Semantics<V, S>) {
    sem.truthy(sem.ofBool(true)) && !sem.truthy(sem.ofBool(false))
  }

  function After<V, S>(trace: seq<Event>, r: Run<V, S>): Run<V, S> {
    r.(trace := trace + r.trace)
  }

  // A statement that completes has no value of its own.
  function Void<V, S>(sem: Semantics<V, S>, r: Run<V, S>): Run<V, S> {
    if r.out.Val? then r.(out := Val(sem.undefined)) else r
  }

  function ReachedEvents(n: Node): seq<Event> {
    if n.site.Some? then [Reached(n.site.value)] else []
  }

  function ReceiverOf(k: Kind, cs: seq<Node>): Receiver {
    if UsesReference(k) && |cs| > 0 then
      var target := Unwrap(cs[0]);
      if !IsReference(k, target.kind) then ByValue
      else if target.kind.Identifier? then ByName(target.kind.name)
      else ByProperty
    else ByValue
  }

  // The operands evaluated before the rest because the first child is used as a reference.
  function ReferenceOperands(k: Kind, cs: seq<Node>): seq<Node> {
    if ReceiverOf(k, cs) == ByValue then cs[..0] else Unwrap(cs[0]).children
  }

  function PlainOperands(k: Kind, cs: seq<Node>): seq<Node> {
    if ReceiverOf(k, cs) != ByValue then cs[1..]
    else if k.SwitchCase? && k.hasTest && |cs| > 0 then cs[1..]
    else cs
  }

  // The outcome of a kind all of whose operands were evaluated.
  function Finish<V, S>(sem: Semantics<V, S>, active: Option<Id>, k: Kind, rec: Receiver, vals: seq<V>, st: S)
    : (Outcome<V>, S, seq<Event>)
  {
    match k
    case Sequence => (if vals == [] then Malformed else Val(vals[|vals| - 1]), st, [])
    case Paren => (if |vals| == 1 then Val(vals[0]) else Malformed, st, [])
    case CoverCall(ids) => (Val(sem.undefined), st, [Covered(ids)])
    case ActiveTest(id) => (Val(sem.ofBool(active == Some(id))), st, [])
    case ExpressionStatement => (Val(sem.undefined), st, [])
    case Block => (Val(sem.undefined), st, [])
    case SwitchCase(_) => (Val(sem.undefined), st, [])
    case Program => (Val(sem.undefined), st, [])
    case Break => (Broke, st, [])
    case Continue => (Continued, st, [])
    case Return => (Returned(if vals == [] then sem.undefined else vals[0]), st, [])
    case Throw => (if vals == [] then Malformed else Threw(vals[0]), st, [])
    case _ => var done := sem.apply(k, rec, vals, st); (done.0, done.1, [])
  }

  predicate IsLazy(k: Kind) {
    k.Logical? || k.Conditional? || k.If? || k.While? || k.Switch? || k.Try?
  }

  function Eval<V, S>(sem: Semantics<V, S>, active: Option<Id>, fuel: nat, n: Node, st: S): Run<V, S>
    decreases fuel, n, 3
  {
    After(ReachedEvents(n), Body(sem, active, fuel, n, st))
  }

  function Body<V, S>(sem: Semantics<V, S>, active: Option<Id>, fuel: nat, n: Node, st: S): Run<V, S>
    decreases fuel, n, 2
  {
    match n.kind
    case Logical(op) => LogicalBody(sem, active, fuel, n, op, st)
    case Conditional => ConditionalBody(sem, active, fuel, n, st)
    case If => Void(sem, ConditionalBody(sem, active, fuel, n, st))
    case While => WhileBody(sem, active, fuel, n, st)
    case Switch => SwitchBody(sem, active, fuel, n, st)
    case Try => TryBody(sem, active, fuel, n, st)
    case _ => EagerBody(sem, active, fuel, n, st)
  }

  function EagerBody<V, S>(sem: Semantics<V, S>, active: Option<Id>, fuel: nat, n: Node, st: S): Run<V, S>
    decreases fuel, n, 1
  {
    assert ReceiverOf(n.kind, n.children) != ByValue ==> n.children[0] < n;
    var first := EvalAll(sem, active, fuel, ReferenceOperands(n.kind, n.children), st);
    if first.stop.Some? then Run(first.stop.value, first.st, first.trace)
    else
      var rest := EvalAll(sem, active, fuel, PlainOperands(n.kind, n.children), first.st);
      if rest.stop.Some? then Run(rest.stop.value, rest.st, first.trace + rest.trace)
      else
        var done := Finish(sem, active, n.kind, ReceiverOf(n.kind, n.children), first.vals + rest.vals, rest.st);
        Run(done.0, done.1, first.trace + rest.trace + done.2)
  }

  function EvalAll<V, S>(sem: Semantics<V, S>, active: Option<Id>, fuel: nat, ns: seq<Node>, st: S): Runs<V, S>
    decreases fuel, ns, 0
  {
    if ns == [] then Runs([], None, st, [])
    else
      var first := Eval(sem, active, fuel, ns[0], st);
      if !first.out.Val? then Runs([], Some(first.out), first.st, first.trace)
      else
        var rest := EvalAll(sem, active, fuel, ns[1..], first.st);
        Runs([first.out.v] + rest.vals, rest.stop, rest.st, first.trace + rest.trace)
  }

  function LogicalBody<V, S>(
      sem: Semantics<V, S>, active: Option<Id>, fuel: nat, n: Node, op: LogicalOp, st: S): Run<V, S>
    decreases fuel, n, 1
  {
    if |n.children| != 2 then Run(Malformed, st, [])
    else
      var left := Eval(sem, active, fuel, n.children[0], st);
      if left.out.Val? && TakesRight(sem, op, left.out.v) then
        After(left.trace, Eval(sem, active, fuel, n.children[1], left.st))
      else left
  }

  predicate TakesRight<V, S>(sem: Semantics<V, S>, op: LogicalOp, v: V) {
    match op
    case And => sem.truthy(v)
    case Or => !sem.truthy(v)
    case Coalesce => sem.nullish(v)
  }

  // A conditional expression, and an `if` with or without its `else`.
  function ConditionalBody<V, S>(sem: Semantics<V, S>, active: Option<Id>, fuel: nat, n: Node, st: S): Run<V, S>
    decreases fuel, n, 1
  {
    if !(2 <= |n.children| <= 3) then Run(Malformed, st, [])
    else
      var test := Eval(sem, active, fuel, n.children[0], st);
      if !test.out.Val? then test
      else if sem.truthy(test.out.v) then After(test.trace, Eval(sem, active, fuel, n.children[1], test.st))
      else if |n.children| == 3 then After(test.trace, Eval(sem, active, fuel, n.children[2], test.st))
      else test
  }

  function WhileBody<V, S>(sem: Semantics<V, S>, active: Option<Id>, fuel: nat, n: Node, st: S): Run<V, S>
    decreases fuel, n, 1
  {
    if |n.children| != 2 then Run(Malformed, st, [])
    else if fuel == 0 then Run(Diverged, st, [])
    else
      var test := Eval(sem, active, fuel, n.children[0], st);
      if !test.out.Val? then test
      else if !sem.truthy(test.out.v) then test.(out := Val(sem.undefined))
      else
        var body := Eval(sem, active, fuel, n.children[1], test.st);
        if body.out.Broke? then After(test.trace, body.(out := Val(sem.undefined)))
        else if body.out.Val? || body.out.Continued? then
          After(test.trace, After(body.trace, WhileBody(sem, active, fuel - 1, n, body.st)))
        else After(test.trace, body)
  }

  function TryBody<V, S>(sem: Semantics<V, S>, active: Option<Id>, fuel: nat, n: Node, st: S): Run<V, S>
    decreases fuel, n, 1
  {
    if |n.children| != 2 then Run(Malformed, st, [])
    else
      var tried := Eval(sem, active, fuel, n.children[0], st);
      if tried.out.Threw? then After(tried.trace, Eval(sem, active, fuel, n.children[1], tried.st)) else tried
  }

  // The index of the case control enters: the first whose test matches, else the default case, else none.
  datatype Entered<V, S> = Entered(at: nat, stop: Option<Outcome<V>>, st: S, trace: seq<Event>)

  function SwitchBody<V, S>(sem: Semantics<V, S>, active: Option<Id>, fuel: nat, n: Node, st: S): Run<V, S>
    decreases fuel, n, 1
  {
    if |n.children| == 0 || exists i ::
      1 <= i < |n.children| && !WellFormedCase(n.children[i]) then Run(Malformed, st, [])
    else
      var value := Eval(sem, active, fuel, n.children[0], st);
      if !value.out.Val? then value
      else After(value.trace, RunCases(sem, active, fuel, n.children[1..], value.out.v, value.st))
  }

  function RunCases<V, S>(
      sem: Semantics<V, S>, active: Option<Id>, fuel: nat, cases: seq<Node>, value: V, st: S): Run<V, S>
    requires forall i :: 0 <= i < |cases| ==> WellFormedCase(cases[i])
    decreases fuel, cases, |cases| + 2
  {
    var entry := EnterCase(sem, active, fuel, cases, 0, value, st);
    if entry.stop.Some? then Run(entry.stop.value, entry.st, entry.trace)
    else After(entry.trace, FallThrough(sem, active, fuel, cases, entry.at, entry.st))
  }

  function FallThrough<V, S>(
      sem: Semantics<V, S>, active: Option<Id>, fuel: nat, cases: seq<Node>, at: nat, st: S): Run<V, S>
    requires at <= |cases|
    decreases fuel, cases, |cases| + 1
  {
    assert cases[0..] == cases;
    var from := if at < |cases| then at else DefaultCase(cases);
    var ran := EvalAll(sem, active, fuel, cases[from..], st);
    Run(if ran.stop.None? || ran.stop.value.Broke? then Val(sem.undefined) else ran.stop.value, ran.st, ran.trace)
  }

  predicate WellFormedCase(n: Node) {
    n.kind.SwitchCase? && (n.kind.hasTest ==> |n.children| > 0)
  }

  function EnterCase<V, S>(
      sem: Semantics<V, S>, active: Option<Id>, fuel: nat, cases: seq<Node>, at: nat, value: V, st: S): Entered<V, S>
    requires at <= |cases|
    requires forall i :: 0 <= i < |cases| ==> WellFormedCase(cases[i])
    ensures EnterCase(sem, active, fuel, cases, at, value, st).at <= |cases|
    decreases fuel, cases, |cases| - at
  {
    if at == |cases| then Entered(at, None, st, [])
    else if assert WellFormedCase(cases[at]); !cases[at].kind.hasTest
      then EnterCase(sem, active, fuel, cases, at + 1, value, st)
    else
      var test := Eval(sem, active, fuel, cases[at].children[0], st);
      if !test.out.Val? then Entered(at, Some(test.out), test.st, test.trace)
      else if sem.matches(value, test.out.v) then Entered(at, None, test.st, test.trace)
      else
        var rest := EnterCase(sem, active, fuel, cases, at + 1, value, test.st);
        rest.(trace := test.trace + rest.trace)
  }

  function DefaultCase(cases: seq<Node>): (at: nat)
    ensures at <= |cases|
  {
    if cases == [] then 0
    else if cases[0].kind.SwitchCase? && !cases[0].kind.hasTest then 0
    else 1 + DefaultCase(cases[1..])
  }
}
