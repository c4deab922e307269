// The in-place rewriting pass: a walk over a mutable tree whose exit visitor overwrites the parent's slot.
module Traversal {
  import opened Wrappers
  import opened Syntax
  import opened Placers

  class AstNode {
    const site: Option<Label>
    var kind: Kind
    var children: seq<AstNode>

    // The tree below this node and the nodes it is made of.
    ghost var Tree: Node
    ghost var Repr: set<AstNode>

    constructor (site: Option<Label>, kind: Kind, children: seq<AstNode>)
      requires Separate(children)
      ensures this.site == site && this.kind == kind && this.children == children
      ensures Valid() && Tree == Node(site, kind, TreesOf(children)) && Repr == {this} + ReprOf(children)
    {
      this.site, this.kind, this.children := site, kind, children;
      Tree, Repr := Node(site, kind, TreesOf(children)), {this} + ReprOf(children);
      new;
      forall i | 0 <= i < |children|
        ensures children[i] in Repr && children[i].Repr <= Repr && this !in children[i].Repr && children[i].Valid()
      {
        assert children[i] in children;
      }
    }

    ghost predicate Valid()
      reads this, Repr
      decreases Tree
    {
      && this in Repr && site == Tree.site && kind == Tree.kind && |children| == |Tree.children|
      && (forall i :: 0 <= i < |children| ==>
            && children[i] in Repr && children[i].Repr <= Repr && this !in children[i].Repr
            && children[i].Tree == Tree.children[i] && children[i].Valid())
      && (forall i, j :: 0 <= i < j < |children| ==> children[i].Repr !! children[j].Repr)
    }

    // Gives the node the tree its children now hold.
    ghost method Settle()
      requires Separate(children) && forall c <- children :: this !in c.Repr
      modifies this`Tree, this`Repr
      ensures Valid() && Tree == Node(site, kind, TreesOf(children)) && Repr == {this} + ReprOf(children)
    {
      Tree, Repr := Node(site, kind, TreesOf(children)), {this} + ReprOf(children);
      forall i | 0 <= i < |children|
        ensures children[i] in Repr && children[i].Repr <= Repr && this !in children[i].Repr && children[i].Valid()
      {
        assert children[i] in children;
      }
    }
  }

  // Valid trees that share no node.
  ghost predicate Separate(ns: seq<AstNode>)
    reads ns, set n, m | n in ns && m in n.Repr :: m
  {
    (forall n <- ns :: n.Valid()) && forall i, j :: 0 <= i < j < |ns| ==> ns[i].Repr !! ns[j].Repr
  }

  ghost function ReprOf(ns: seq<AstNode>): set<AstNode>
    reads ns
  {
    set n, m | n in ns && m in n.Repr :: m
  }

  ghost function TreesOf(ns: seq<AstNode>): (ts: seq<Node>)
    reads ns
    ensures |ts| == |ns| && forall i :: 0 <= i < |ns| ==> ts[i] == ns[i].Tree
  {
    seq(|ns|, i requires 0 <= i < |ns| reads ns => ns[i].Tree)
  }

  lemma SeparateConcat(a: seq<AstNode>, b: seq<AstNode>)
    requires Separate(a) && Separate(b) && ReprOf(a) !! ReprOf(b)
    ensures Separate(a + b) && ReprOf(a + b) == ReprOf(a) + ReprOf(b) && TreesOf(a + b) == TreesOf(a) + TreesOf(b)
  {
    var ns := a + b;
    forall n | n in ns ensures n.Valid() {
      assert n in a || n in b;
    }
    forall i, j | 0 <= i < j < |ns| ensures ns[i].Repr !! ns[j].Repr {
      if i < |a| <= j {
        assert a[i] in a && b[j - |a|] in b;
        forall m | m in a[i].Repr ensures m in ReprOf(a) {}
        forall m | m in b[j - |a|].Repr ensures m in ReprOf(b) {}
      }
    }
  }

  lemma {:induction false} SeparateOne(a: AstNode)
    requires a.Valid()
    ensures Separate([a]) && ReprOf([a]) == a.Repr && TreesOf([a]) == [a.Tree]
  {
    assert a in [a];
  }

  lemma {:induction false} SeparatePair(a: AstNode, b: AstNode)
    requires a.Valid() && b.Valid() && a.Repr !! b.Repr
    ensures Separate([a, b]) && ReprOf([a, b]) == a.Repr + b.Repr && TreesOf([a, b]) == [a.Tree, b.Tree]
  {
    SeparateOne(a);
    SeparateOne(b);
    SeparateConcat([a], [b]);
    assert [a] + [b] == [a, b];
  }

  // ---- Building ----

  // A new node over existing ones.
  method BuildNode(site: Option<Label>, k: Kind, children: seq<AstNode>) returns (r: AstNode)
    requires Separate(children)
    ensures r.Valid() && r.Tree == Node(site, k, old(TreesOf(children))) && fresh(r.Repr - old(ReprOf(children)))
  {
    r := new AstNode(site, k, children);
  }

  // A fresh copy of a tree.
  method Build(t: Node) returns (n: AstNode)
    ensures n.Valid() && n.Tree == t && fresh(n.Repr)
    decreases t, 1
  {
    var children := BuildAll(t.children);
    n := BuildNode(t.site, t.kind, children);
  }

  method BuildAll(ts: seq<Node>) returns (ns: seq<AstNode>)
    ensures Separate(ns) && TreesOf(ns) == ts && fresh(ReprOf(ns)) && fresh(set n | n in ns)
    decreases ts, 0
  {
    if ts == [] {
      ns := [];
    } else {
      var first := Build(ts[0]);
      var rest := BuildAll(ts[1..]);
      SeparateOne(first);
      SeparateConcat([first], rest);
      ns := [first] + rest;
      assert fresh(ReprOf([first]) + ReprOf(rest));
    }
  }

  // ---- The placers, on the mutable tree ----

  // A new switch over an existing tree: its test, the replacement and the tree itself.
  method BuildSwitch(k: Kind, id: Id, replacement: Node, current: AstNode) returns (r: AstNode)
    requires current.Valid()
    ensures r.Valid() && r.Tree == Built(k, [Built(ActiveTest(id), []), replacement, current.Tree])
    ensures fresh(r.Repr - current.Repr)
  {
    var on := Build(replacement);
    SeparatePair(on, current);
    r := BuildOver(k, Built(ActiveTest(id), []), [on, current]);
    assert [Built(ActiveTest(id), [])] + [replacement, current.Tree]
      == [Built(ActiveTest(id), []), replacement, current.Tree];
  }

  method GuardExpression(applied: seq<Applied>, current: AstNode) returns (r: AstNode)
    requires current.Valid()
    ensures r.Valid() && r.Tree == GuardedExpression(applied, current.Tree) && fresh(r.Repr - current.Repr)
  {
    r := current;
    for i := 0 to |applied|
      invariant r.Valid() && r.Tree == GuardedExpression(applied[..i], current.Tree) && fresh(r.Repr - current.Repr)
    {
      r := BuildSwitch(Conditional, applied[i].id, Unwrap(applied[i].tree), r);
      assert applied[..i + 1][..i] == applied[..i];
    }
    assert applied[..|applied|] == applied;
  }

  method GuardStatement(applied: seq<Applied>, guarded: Node -> seq<Node>, current: AstNode) returns (r: AstNode)
    requires current.Valid()
    ensures r.Valid() && r.Tree == GuardedStatement(applied, guarded, current.Tree) && fresh(r.Repr - current.Repr)
  {
    r := current;
    for i := 0 to |applied|
      invariant r.Valid() && r.Tree == GuardedStatement(applied[..i], guarded, current.Tree)
        && fresh(r.Repr - current.Repr)
    {
      r := BuildSwitch(If, applied[i].id, Built(Block, guarded(applied[i].tree)), r);
      assert applied[..i + 1][..i] == applied[..i];
    }
    assert applied[..|applied|] == applied;
  }

  // A new node over a fresh first child and existing siblings.
  method BuildOver(k: Kind, first: Node, rest: seq<AstNode>) returns (r: AstNode)
    requires Separate(rest)
    ensures r.Valid() && r.Tree == Built(k, [first] + old(TreesOf(rest))) && fresh(r.Repr - old(ReprOf(rest)))
  {
    var head := Build(first);
    SeparateOne(head);
    SeparateConcat([head], rest);
    r := BuildNode(None, k, [head] + rest);
  }

  lemma SeparateSlice(ns: seq<AstNode>, from: int)
    requires Separate(ns) && 0 <= from <= |ns|
    ensures Separate(ns[from..]) && ReprOf(ns[from..]) <= ReprOf(ns) && TreesOf(ns[from..]) == TreesOf(ns)[from..]
  {
  }

  lemma {:induction false} ChildrenOf(n: AstNode)
    requires n.Valid()
    ensures Separate(n.children) && ReprOf(n.children) <= n.Repr - {n} && TreesOf(n.children) == n.Tree.children
  {
  }

  method PlaceOn(p: Placement, n: AstNode) returns (r: AstNode)
    requires n.Valid() && AcceptsKind(p, n.kind) && (n.kind.SwitchCase? ==> !n.kind.hasTest || n.children != [])
    ensures r.Valid() && r.Tree == Place(p, n.Tree) && fresh(r.Repr - n.Repr)
  {
    match p.placer
    case ExpressionPlacer =>
      SeparateOne(n);
      var covered := BuildOver(Sequence, Built(CoverCall(IdsOf(p.applied)), []), [n]);
      r := GuardExpression(p.applied, covered);
    case StatementPlacer => r := PlaceOnStatement(p, n);
    case SwitchCasePlacer => r := PlaceOnCase(p, n);
  }

  method PlaceOnStatement(p: Placement, n: AstNode) returns (r: AstNode)
    requires n.Valid() && p.placer == StatementPlacer
    ensures r.Valid() && r.Tree == Place(p, n.Tree) && fresh(r.Repr - n.Repr)
  {
    var block := CoverBlock(p, n);
    var statement := GuardStatement(p.applied, t => [t], block);
    if n.kind.Block? {
      SeparateOne(statement);
      r := BuildNode(None, Block, [statement]);
    } else {
      r := statement;
    }
  }

  method CoverBlock(p: Placement, n: AstNode) returns (r: AstNode)
    requires n.Valid()
    ensures r.Valid() && r.Tree == Built(Block, [CoverStatement(IdsOf(p.applied))] + StatementsOf(n.Tree))
      && fresh(r.Repr - n.Repr)
  {
    ChildrenOf(n);
    SeparateOne(n);
    r := BuildOver(Block, CoverStatement(IdsOf(p.applied)), if n.kind.Block? then n.children else [n]);
  }

  method PlaceOnCase(p: Placement, n: AstNode) returns (r: AstNode)
    requires n.Valid() && p.placer == SwitchCasePlacer && n.kind.SwitchCase? && (!n.kind.hasTest || n.children != [])
    ensures r.Valid() && r.Tree == Place(p, n.Tree) && fresh(r.Repr - n.Repr)
  {
    var consequence := CaseConsequence(p, n);
    if n.kind.hasTest {
      SeparatePair(n.children[0], consequence);
      r := BuildNode(None, n.kind, [n.children[0], consequence]);
    } else {
      SeparateOne(consequence);
      r := BuildNode(None, n.kind, [consequence]);
    }
  }

  // The new consequent of a case, apart from its test.
  method CaseConsequence(p: Placement, n: AstNode) returns (r: AstNode)
    requires n.Valid() && n.kind.SwitchCase? && (!n.kind.hasTest || n.children != [])
    ensures r.Valid() && fresh(r.Repr - n.Repr)
      && (n.kind.hasTest ==> n.children[0].Valid() && r.Repr !! n.children[0].Repr)
    ensures r.Tree == GuardedStatement(p.applied, Consequent,
      Built(Block, [CoverStatement(IdsOf(p.applied))] + Consequent(n.Tree)))
  {
    ChildrenOf(n);
    var from := if n.kind.hasTest then 1 else 0;
    SeparateSlice(n.children, from);
    TestApart(n, from);
    var block := BuildOver(Block, CoverStatement(IdsOf(p.applied)), n.children[from..]);
    r := GuardStatement(p.applied, Consequent, block);
  }

  lemma {:induction false} TestApart(n: AstNode, from: int)
    requires n.Valid() && n.kind.SwitchCase? && (!n.kind.hasTest || n.children != [])
      && from == (if n.kind.hasTest then 1 else 0)
    ensures TreesOf(n.children[from..]) == Consequent(n.Tree)
    ensures n.kind.hasTest ==> n.children[0].Repr !! ReprOf(n.children[1..]) && TestOf(n.Tree) == [n.children[0].Tree]
  {
  }

  // ---- The walk ----

  // The rebuilt tree when a placer may refuse: what it refuses is left as it was.
  function Attempt(n: Node, plan: Plan): Node {
    var base := Node(n.site, n.kind, AttemptAll(n.children, plan));
    if PlacedAt(plan, n) && AcceptsKind(plan[n.site.value], n.kind) then Place(plan[n.site.value], base) else base
  }

  function AttemptAll(ns: seq<Node>, plan: Plan): (rs: seq<Node>)
    ensures |rs| == |ns| && forall i :: 0 <= i < |ns| ==> rs[i] == Attempt(ns[i], plan)
  {
    if ns == [] then [] else [Attempt(ns[0], plan)] + AttemptAll(ns[1..], plan)
  }

  /** When no placer refuses, the walk leaves the tree the bottom-up rebuild gives. */
  lemma {:induction false} AttemptIsRebuild(n: Node, plan: Plan)
    requires AllAccepted(n, plan)
    ensures Attempt(n, plan) == Rebuild(n, plan)
  {
    forall i | 0 <= i < |n.children| ensures Attempt(n.children[i], plan) == Rebuild(n.children[i], plan) {
      AttemptIsRebuild(n.children[i], plan);
    }
    assert AttemptAll(n.children, plan) == RebuildAll(n.children, plan);
  }

  // The placements are kept by node object; a node object has the placement of its label.
  ghost predicate PlacesFor(places: map<AstNode, Placement>, plan: Plan, nodes: set<AstNode>)
  {
    forall n <- nodes ::
      (n in places <==> n.site.Some? && n.site.value in plan) && (n in places ==> places[n] == plan[n.site.value])
  }

  // The nodes the walk leaves, in order.
  function Exits(n: Node): seq<Option<Label>>
    decreases n, 1
  {
    ExitsAll(n.children) + [n.site]
  }

  function ExitsAll(ns: seq<Node>): seq<Option<Label>>
    decreases ns, 0
  {
    if ns == [] then [] else Exits(ns[0]) + ExitsAll(ns[1..])
  }

  // The children of a node part-way through its walk: those before `i` are done.
  ghost predicate Walked(n: AstNode, slots: seq<AstNode>, trees: seq<Node>, plan: Plan, i: int)
    reads n, n.children, set c, m | c in n.children && m in c.Repr :: m
  {
    && |n.children| == |slots| == |trees| && 0 <= i <= |slots|
    && Separate(n.children)
    && (forall c <- n.children :: n !in c.Repr)
    && (forall j :: 0 <= j < i ==> n.children[j].Tree == Attempt(trees[j], plan))
    && (forall j :: i <= j < |slots| ==> n.children[j] == slots[j] && n.children[j].Tree == trees[j])
  }

  // The node whose slots a walk from `parent` may write.
  function Owner(parent: AstNode?): set<AstNode> {
    if parent == null then {} else {parent}
  }

  // Overwrites a slot of the parent; the root has none.
  method ReplaceInSlot(parent: AstNode?, index: nat, replacement: AstNode)
    requires parent != null ==> index < |parent.children|
    modifies Owner(parent)`children
    ensures parent != null ==> parent.children == old(parent.children)[index := replacement]
  {
    if parent != null {
      parent.children := parent.children[index := replacement];
    }
  }

  // The node is what the slot holds, and the parent is not below it.
  ghost predicate InSlot(n: AstNode, parent: AstNode?, index: nat)
    reads n, parent
  {
    parent != null ==> parent !in n.Repr && index < |parent.children| && parent.children[index] == n
  }

  // Walks a subtree; `target` is what its slot in the parent then holds.
  method Traverse(n: AstNode, parent: AstNode?, index: nat, places: map<AstNode, Placement>, ghost plan: Plan)
    returns (failed: bool, ghost target: AstNode, ghost exits: seq<Option<Label>>)
    requires n.Valid() && CasesWellFormed(n.Tree) && PlacesFor(places, plan, n.Repr)
    requires InSlot(n, parent, index)
    modifies n.Repr, Owner(parent)`children
    ensures n.Valid() && fresh(n.Repr - old(n.Repr))
    ensures n.Tree == Node(n.site, old(n.kind), AttemptAll(old(n.Tree.children), plan))
    ensures target.Valid() && fresh(target.Repr - old(n.Repr)) && target.Tree == Attempt(old(n.Tree), plan)
    ensures parent != null ==> parent.children == old(parent.children)[index := target]
    ensures failed == !AllAccepted(old(n.Tree), plan)
    ensures exits == Exits(old(n.Tree))
    decreases n.Tree, 4
  {
    ghost var tree := n.Tree;
    failed, exits := TraverseChildren(n, places, plan);
    assert TreesOf(n.children) == AttemptAll(tree.children, plan);
    exits := exits + [n.site];
    var refused;
    refused, target := Leave(n, parent, index, if n in places then Some(places[n]) else None);
    failed := failed || refused;
  }

  // The exit visitor: places what is planned at a node whose children are done, in the slot it is in.
  method Leave(n: AstNode, parent: AstNode?, index: nat, placement: Option<Placement>)
    returns (refused: bool, ghost target: AstNode)
    requires Separate(n.children) && forall c <- n.children :: n !in c.Repr
    requires placement.Some? && n.kind.SwitchCase? ==> !n.kind.hasTest || n.children != []
    requires parent != null ==>
      parent != n && parent !in ReprOf(n.children) && index < |parent.children| && parent.children[index] == n
    modifies n`Tree, n`Repr, Owner(parent)`children
    ensures n.Valid() && n.Tree == Node(n.site, n.kind, old(TreesOf(n.children)))
    ensures n.Repr == {n} + old(ReprOf(n.children))
    ensures target.Valid() && fresh(target.Repr - n.Repr)
    ensures refused == (placement.Some? && !AcceptsKind(placement.value, n.kind))
    ensures target.Tree == if placement.Some? && !refused then Place(placement.value, n.Tree) else n.Tree
    ensures parent != null ==> parent.children == old(parent.children)[index := target]
  {
    n.Settle();
    target, refused := n, false;
    if placement.Some? {
      if AcceptsKind(placement.value, n.kind) {
        target := PlaceInSlot(n, parent, index, placement.value);
      } else {
        refused := true;
      }
    }
  }

  // A placer that accepts the node: it builds what the slot is to hold and writes it there.
  method PlaceInSlot(n: AstNode, parent: AstNode?, index: nat, p: Placement) returns (ghost target: AstNode)
    requires n.Valid() && AcceptsKind(p, n.kind) && (n.kind.SwitchCase? ==> !n.kind.hasTest || n.children != [])
    requires InSlot(n, parent, index)
    modifies Owner(parent)`children
    ensures n.Valid() && n.Tree == old(n.Tree) && n.Repr == old(n.Repr)
    ensures target.Valid() && fresh(target.Repr - n.Repr) && target.Tree == Place(p, n.Tree)
    ensures parent != null ==> parent.children == old(parent.children)[index := target]
  {
    var placed := PlaceOn(p, n);
    target := placed;
    ReplaceInSlot(parent, index, placed);
  }

  // The child slots are read once, before the first child is walked.
  method TraverseChildren(n: AstNode, places: map<AstNode, Placement>, ghost plan: Plan)
    returns (failed: bool, ghost exits: seq<Option<Label>>)
    requires n.Valid() && CasesWellFormed(n.Tree) && PlacesFor(places, plan, n.Repr)
    modifies n.Repr
    ensures Walked(n, old(n.children), old(n.Tree.children), plan, |old(n.children)|)
    ensures fresh(ReprOf(n.children) - old(n.Repr))
    ensures unchanged(n`kind) && unchanged(n`Tree) && unchanged(n`Repr)
    ensures failed == !AcceptedAll(old(n.Tree.children), plan)
    ensures exits == ExitsAll(old(n.Tree.children))
    decreases n.Tree, 3
  {
    var slots := n.children;
    ghost var trees := n.Tree.children;
    ghost var nodes := n.Repr;
    ghost var grown: set<AstNode> := {};
    failed, exits := false, [];
    Unwalked(n, plan);
    var i := 0;
    while i < |slots|
      invariant Progress(n, slots, trees, plan, i, nodes, grown, failed, exits)
      invariant unchanged(n`kind) && unchanged(n`Tree) && unchanged(n`Repr) && fresh(grown)
    {
      failed, exits, grown := Advance(n, slots, trees, i, places, plan, nodes, grown, failed, exits);
      i := i + 1;
    }
    assert trees[..i] == trees;
  }

  // What the loop over the child slots keeps.
  ghost predicate Progress(n: AstNode, slots: seq<AstNode>, trees: seq<Node>, plan: Plan, i: int,
                           nodes: set<AstNode>, grown: set<AstNode>, failed: bool, exits: seq<Option<Label>>)
    reads n, n.children, slots, set c, m | c in n.children && m in c.Repr :: m
  {
    && Walked(n, slots, trees, plan, i) && n in nodes
    && (forall c <- n.children :: c.Repr <= nodes + grown)
    && (forall j :: i <= j < |slots| ==> slots[j].Repr <= nodes)
    && !failed == AcceptedAll(trees[..i], plan) && exits == ExitsAll(trees[..i])
  }

  lemma {:induction false} Unwalked(n: AstNode, plan: Plan)
    requires n.Valid()
    ensures Progress(n, n.children, n.Tree.children, plan, 0, n.Repr, {}, false, [])
  {
    ChildrenOf(n);
  }

  // One round of the loop over the child slots.
  method Advance(
      n: AstNode, slots: seq<AstNode>, ghost trees: seq<Node>, i: nat, places: map<AstNode, Placement>,
      ghost plan: Plan, ghost nodes: set<AstNode>, ghost grown: set<AstNode>, failed: bool,
      ghost exits: seq<Option<Label>>)
    returns (failed': bool, ghost exits': seq<Option<Label>>, ghost grown': set<AstNode>)
    requires 0 <= i < |slots| && Progress(n, slots, trees, plan, i, nodes, grown, failed, exits)
    requires PlacesFor(places, plan, nodes) && CasesWellFormed(n.Tree) && trees == n.Tree.children
    modifies n`children, slots[i].Repr
    ensures Progress(n, slots, trees, plan, i + 1, nodes, grown', failed', exits')
    ensures unchanged(n`kind) && unchanged(n`Tree) && unchanged(n`Repr)
    ensures fresh(grown' - grown)
    decreases n.Tree, 2
  {
    ghost var before := n.children;
    forall c | c in before ensures c.Repr <= nodes + grown {}
    failed', exits' := Step(n, slots, trees, i, places, plan);
    grown' := grown + (n.children[i].Repr - nodes);
    failed', exits' := failed || failed', exits + exits';
    AcceptedNext(trees, plan, i);
    forall c | c in n.children ensures c.Repr <= nodes + grown' {
      var j :| 0 <= j < |before| && n.children[j] == c;
      if j != i {
        assert before[j] in before;
      }
    }
  }

  // One child's walk: the other children and what is below them stay as they were.
  method Step(
      n: AstNode, slots: seq<AstNode>, ghost trees: seq<Node>, i: nat, places: map<AstNode, Placement>,
      ghost plan: Plan)
    returns (failed: bool, ghost exits: seq<Option<Label>>)
    requires i < |slots| && Walked(n, slots, trees, plan, i) && PlacesFor(places, plan, slots[i].Repr)
    requires CasesWellFormed(trees[i]) && trees == n.Tree.children
    modifies n`children, slots[i].Repr
    ensures Walked(n, slots, trees, plan, i + 1)
    ensures fresh(n.children[i].Repr - old(slots[i].Repr))
    ensures unchanged(n`kind) && unchanged(n`Tree) && unchanged(n`Repr)
    ensures forall j :: 0 <= j < |slots| && j != i ==>
      n.children[j] == old(n.children[j]) && n.children[j].Repr == old(n.children[j].Repr)
    ensures failed == !AllAccepted(trees[i], plan)
    ensures exits == Exits(trees[i])
    decreases n.Tree, 1
  {
    ghost var before := n.children;
    ghost var target: AstNode;
    failed, target, exits := StepChild(n, slots, before, trees, i, places, plan);
    SeparateUpdate(before, i, target);
  }

  method StepChild(n: AstNode, slots: seq<AstNode>, ghost before: seq<AstNode>, ghost trees: seq<Node>, i: nat,
                   places: map<AstNode, Placement>, ghost plan: Plan)
    returns (failed: bool, ghost target: AstNode, ghost exits: seq<Option<Label>>)
    requires i < |before| == |trees| == |slots| && before == n.children && before[i] == slots[i]
    requires Separate(before) && trees == n.Tree.children
    requires forall c <- before :: n !in c.Repr
    requires PlacesFor(places, plan, before[i].Repr) && CasesWellFormed(trees[i]) && before[i].Tree == trees[i]
    modifies n`children, before[i].Repr
    ensures n.children == before[i := target]
    ensures target.Valid() && fresh(target.Repr - old(before[i].Repr))
    ensures target.Tree == Attempt(trees[i], plan) && n !in target.Repr
    ensures forall j :: 0 <= j < |before| && j != i ==>
      before[j].Valid() && before[j].Repr !! target.Repr && n !in before[j].Repr
      && before[j].Repr == old(before[j].Repr) && before[j].Tree == old(before[j].Tree)
    ensures forall j, k :: 0 <= j < k < |before| && j != i && k != i ==> before[j].Repr !! before[k].Repr
    ensures unchanged(n`kind) && unchanged(n`Tree) && unchanged(n`Repr)
    ensures failed == !AllAccepted(trees[i], plan) && exits == Exits(trees[i])
    decreases n.Tree, 0
  {
    forall j | 0 <= j < |before| && j != i
      ensures before[j].Valid() && before[j].Repr !! before[i].Repr && n !in before[j].Repr
    {
      assert before[j] in before;
    }
    assert before[i] in before;
    failed, target, exits := Traverse(slots[i], n, i, places, plan);
  }

  lemma {:induction false} SeparateUpdate(ns: seq<AstNode>, i: int, target: AstNode)
    requires 0 <= i < |ns| && target.Valid()
    requires forall j :: 0 <= j < |ns| && j != i ==> ns[j].Valid() && ns[j].Repr !! target.Repr
    requires forall j, k :: 0 <= j < k < |ns| && j != i && k != i ==> ns[j].Repr !! ns[k].Repr
    ensures Separate(ns[i := target])
  {
  }

  predicate AcceptedAll(ns: seq<Node>, plan: Plan) {
    forall n <- ns :: AllAccepted(n, plan)
  }

  lemma {:induction false} AcceptedNext(ns: seq<Node>, plan: Plan, i: int)
    requires 0 <= i < |ns|
    ensures AcceptedAll(ns[..i + 1], plan) == (AcceptedAll(ns[..i], plan) && AllAccepted(ns[i], plan))
    ensures ExitsAll(ns[..i + 1]) == ExitsAll(ns[..i]) + Exits(ns[i])
  {
    assert ns[..i + 1] == ns[..i] + [ns[i]];
    ExitsConcat(ns[..i], [ns[i]]);
    assert ExitsAll([ns[i]]) == Exits(ns[i]) + ExitsAll([]);
  }

  lemma {:induction false} ExitsConcat(a: seq<Node>, b: seq<Node>)
    ensures ExitsAll(a + b) == ExitsAll(a) + ExitsAll(b)
  {
    if a == [] {
      assert a + b == b;
    } else {
      assert (a + b)[0] == a[0] && (a + b)[1..] == a[1..] + b;
      ExitsConcat(a[1..], b);
      assert ExitsAll(a) == Exits(a[0]) + ExitsAll(a[1..]);
    }
  }

  // No placer accepts the program itself.
  lemma {:induction false} ProgramStays(n: Node, plan: Plan)
    requires n.kind.Program?
    ensures Attempt(n, plan) == Node(n.site, n.kind, AttemptAll(n.children, plan))
  {
  }

  /** The rewriting pass over a whole program, whose root has no parent slot and is never replaced. */
  method ApplyPlacements(root: AstNode, places: map<AstNode, Placement>, ghost plan: Plan) returns (failed: bool)
    requires root.Valid() && root.kind.Program? && CasesWellFormed(root.Tree) && PlacesFor(places, plan, root.Repr)
    modifies root.Repr
    ensures root.Valid() && fresh(root.Repr - old(root.Repr)) && root.Tree == Attempt(old(root.Tree), plan)
    ensures failed == !AllAccepted(old(root.Tree), plan)
    ensures !failed ==> root.Tree == Rebuild(old(root.Tree), plan)
  {
    ghost var tree := root.Tree;
    ProgramStays(tree, plan);
    ghost var target: AstNode;
    ghost var exits: seq<Option<Label>>;
    failed, target, exits := Traverse(root, null, 0, places, plan);
    if !failed {
      AttemptIsRebuild(tree, plan);
    }
  }

  /** The walk leaves every labelled node of the original tree exactly as often as the tree holds it. */
  lemma {:induction false} ExitsAreLabels(n: Node, l: Label)
    ensures multiset(Exits(n))[Some(l)] == multiset(Labels(n))[l]
    decreases n, 1
  {
    ExitsAllAreLabels(n.children, l);
    assert multiset(Exits(n)) == multiset(ExitsAll(n.children)) + multiset{n.site};
    if n.site.Some? {
      assert multiset(Labels(n)) == multiset{n.site.value} + multiset(LabelsAll(n.children));
    } else {
      assert Labels(n) == LabelsAll(n.children);
    }
  }

  lemma {:induction false} ExitsAllAreLabels(ns: seq<Node>, l: Label)
    ensures multiset(ExitsAll(ns))[Some(l)] == multiset(LabelsAll(ns))[l]
    decreases ns, 0
  {
    if ns != [] {
      ExitsAreLabels(ns[0], l);
      ExitsAllAreLabels(ns[1..], l);
      assert multiset(ExitsAll(ns)) == multiset(Exits(ns[0])) + multiset(ExitsAll(ns[1..]));
      assert multiset(LabelsAll(ns)) == multiset(Labels(ns[0])) + multiset(LabelsAll(ns[1..]));
    }
  }

  /** A plan that fits is accepted everywhere: the rewriting pass cannot fail on a kind check. */
  lemma {:induction false} FitsIsAccepted(n: Node, plan: Plan)
    requires Fits(n, plan)
    ensures AllAccepted(n, plan)
  {
    forall c | c in n.children ensures AllAccepted(c, plan) {
      FitsIsAccepted(c, plan);
    }
  }
}
