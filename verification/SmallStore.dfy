// One meaning for the operators: whole numbers, variables and properties.
module SmallStore {
  import opened Wrappers
  import opened Syntax
  import opened Semantics
  import opened Preservation

  // Variables by name, and properties by object and key.
  datatype Store = Store(vars: map<string, int>, props: map<(int, int), int>)

  function Variable(st: Store, name: string): int {
    if name in st.vars then st.vars[name] else 0
  }

  function Property(st: Store, base: int, key: int): int {
    if (base, key) in st.props then st.props[(base, key)] else 0
  }

  predicate AllDigits(raw: string) {
    forall i :: 0 <= i < |raw| ==> '0' <= raw[i] <= '9'
  }

  predicate IsNumber(raw: string) {
    raw != "" && AllDigits(raw)
  }

  function NumberOf(raw: string): int
    requires AllDigits(raw)
  {
    if raw == "" then 0 else 10 * NumberOf(raw[..|raw| - 1]) + (raw[|raw| - 1] - '0') as int
  }

  function Assigned(op: string, before: int, v: int): int {
    if op == "+=" then before + v else if op == "-=" then before - v else v
  }

  // A deletion removes the property it is given and an update raises it; given a value, both do nothing. A call leaves
  // its receiver in `this`.
  function Used(k: Kind, rec: Receiver, vals: seq<int>, st: Store): Store {
    if k.Call? then st.(vars := st.vars["this" := if rec.ByProperty? && vals != [] then vals[0] else 0])
    else if !rec.ByProperty? || |vals| != 2 then st
    else if k.Delete? then st.(props := st.props - {(vals[0], vals[1])})
    else st.(props := st.props[(vals[0], vals[1]) := Property(st, vals[0], vals[1]) + 1])
  }

  predicate IsUse(k: Kind) {
    k.Delete? || k.Update? || k.Call?
  }

  function Perform(k: Kind, rec: Receiver, vals: seq<int>, st: Store): (int, Store) {
    if IsUse(k) then (0, Used(k, rec, vals, st))
    else match k
      case Literal(raw) => (if IsNumber(raw) then NumberOf(raw) else 0, st)
      case Identifier(name) => (Variable(st, name), st)
      case Unary(_) => (if vals == [0] then 1 else 0, st)
      case Member => (if |vals| == 2 then Property(st, vals[0], vals[1]) else 0, st)
      case Assign(op) =>
        if rec.ByName? && |vals| == 1 then
          var v := Assigned(op, Variable(st, rec.name), vals[0]);
          (v, st.(vars := st.vars[rec.name := v]))
        else (0, st)
      case _ => (0, st)
  }

  function Small(): (sem: Semantics<int, Store>)
    ensures Sane(sem)
  {
    Semantics(0, b => if b then 1 else 0, v => v != 0, v => false, (v, w) => v == w,
      (k: Kind, rec: Receiver, vals: seq<int>, st: Store) =>
        (Val(Perform(k, rec, vals, st).0), Perform(k, rec, vals, st).1))
  }

  // ---- Runs of small trees ----

  lemma {:induction false} LeafRuns(active: Option<Id>, fuel: nat, n: Node, st: Store)
    requires (n.kind.Literal? || n.kind.Identifier?) && n.children == []
    ensures
      var r := Eval(Small(), active, fuel, n, st);
      r.out == Val(Perform(n.kind, ByValue, [], st).0) && r.st == st
  {
    assert EvalAll(Small(), active, fuel, [], st) == Runs([], None, st, []);
    EagerRuns(Small(), active, fuel, n, st);
  }

  lemma {:induction false} PairRuns(active: Option<Id>, fuel: nat, a: Node, b: Node, st: Store)
    requires
      var first := Eval(Small(), active, fuel, a, st);
      first.out.Val? && Eval(Small(), active, fuel, b, first.st).out.Val?
    ensures
      var first := Eval(Small(), active, fuel, a, st);
      var second := Eval(Small(), active, fuel, b, first.st);
      var r := EvalAll(Small(), active, fuel, [a, b], st);
      r.stop.None? && r.vals == [first.out.v, second.out.v] && r.st == second.st
  {
    EvalOne(Small(), active, fuel, b, Eval(Small(), active, fuel, a, st).st);
    assert [a, b][1..] == [b];
  }

  // `x op literal`
  lemma {:induction false} AssignRuns(active: Option<Id>, fuel: nat, n: Node, st: Store)
    requires n.kind.Assign? && |n.children| == 2 && n.children[0].kind.Identifier? && n.children[0].children == []
    requires n.children[1].kind.Literal? && n.children[1].children == [] && IsNumber(n.children[1].kind.raw)
    ensures
      var x := n.children[0].kind.name;
      var v := Assigned(n.kind.assign, Variable(st, x), NumberOf(n.children[1].kind.raw));
      var r := Eval(Small(), active, fuel, n, st);
      r.out == Val(v) && r.st == st.(vars := st.vars[x := v])
  {
    var target, value := n.children[0], n.children[1];
    assert Unwrap(target) == target;
    assert ReceiverOf(n.kind, n.children) == ByName(target.kind.name);
    assert PlainOperands(n.kind, n.children) == [value];
    assert EvalAll(Small(), active, fuel, [], st) == Runs([], None, st, []);
    LeafRuns(active, fuel, value, st);
    EvalOne(Small(), active, fuel, value, st);
    assert Body(Small(), active, fuel, n, st) == EagerBody(Small(), active, fuel, n, st);
  }

  // An access to a property, once its operands are known.
  lemma {:induction false} MemberRuns(active: Option<Id>, fuel: nat, n: Node, st: Store)
    requires n.kind.Member? && EvalAll(Small(), active, fuel, n.children, st).stop.None?
    ensures
      var operands := EvalAll(Small(), active, fuel, n.children, st);
      var r := Eval(Small(), active, fuel, n, st);
      r.out == Val(Perform(Member, ByValue, operands.vals, operands.st).0) && r.st == operands.st
  {
    EagerRuns(Small(), active, fuel, n, st);
  }
}
