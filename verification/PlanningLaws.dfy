// The fold computes the placements its specification names.
module PlanningLaws {
  import opened Wrappers
  import opened Syntax
  import opened Instrumentation
  import opened Planning

  // ---- Invariants of the fold ----

  predicate AtAncestor(parent: Option<Frame>, l: Label)
    decreases parent
  {
    parent.Some? && (parent.value.node.site == Some(l) || AtAncestor(parent.value.parent, l))
  }

  // No ancestor's label occurs in the labels below it.
  ghost predicate AncestorsApart(parent: Option<Frame>, below: seq<Label>) {
    forall l <- below :: !AtAncestor(parent, l)
  }

  ghost predicate Apart(claims: seq<Claim>, below: seq<Label>) {
    forall c <- claims :: c.node.site.Some? && c.node.site.value !in below
  }

  // Exactly the claimable ancestors have a claim.
  ghost predicate AncestorsClaimed(parent: Option<Frame>, claims: seq<Claim>)
    decreases parent
  {
    parent.Some? ==>
      && parent.value.node.site.Some?
      && (HasClaim(claims, parent.value.node) <==> Claimable(parent.value))
      && AncestorsClaimed(parent.value.parent, claims)
  }

  ghost predicate SameSites(claims: seq<Claim>, claims': seq<Claim>) {
    |claims| == |claims'| && forall i :: 0 <= i < |claims| ==> claims[i].node == claims'[i].node
  }

  lemma SameClaims(claims: seq<Claim>, claims': seq<Claim>, n: Node)
    requires SameSites(claims, claims')
    ensures HasClaim(claims, n) <==> HasClaim(claims', n)
  {
    if HasClaim(claims, n) {
      var i :| 0 <= i < |claims| && ClaimedAt(claims[i], n);
      assert claims'[i] in claims';
    }
    if HasClaim(claims', n) {
      var i :| 0 <= i < |claims| && ClaimedAt(claims'[i], n);
      assert claims[i] in claims;
    }
  }

  lemma ClaimsConcat(a: seq<Claim>, b: seq<Claim>, n: Node)
    ensures HasClaim(a + b, n) <==> HasClaim(a, n) || HasClaim(b, n)
  {
    assert forall c :: c in a + b <==> c in a || c in b;
  }

  // Claims made below the ancestors do not change which ancestors are claimed.
  lemma {:induction false} StillClaimed(
      parent: Option<Frame>, claims: seq<Claim>, claims': seq<Claim>, added: seq<Claim>, below: seq<Label>)
    requires AncestorsClaimed(parent, claims) && SameSites(claims, claims')
    requires AncestorsApart(parent, below)
    requires forall c <- added :: c.node.site.Some? && c.node.site.value in below
    ensures AncestorsClaimed(parent, claims' + added)
    decreases parent
  {
    if parent.Some? {
      SameClaims(claims, claims', parent.value.node);
      ClaimsConcat(claims', added, parent.value.node);
      assert !HasClaim(added, parent.value.node);
      assert AncestorsApart(parent.value.parent, below);
      StillClaimed(parent.value.parent, claims, claims', added, below);
    }
  }

  // The first claimed frame upwards is the nearest claimable one.
  lemma {:induction false} TargetIsHome(frame: Frame, claims: seq<Claim>)
    requires AncestorsClaimed(Some(frame), claims)
    ensures Target(frame, claims) == Home(frame)
    decreases frame
  {
    if !Claimable(frame) && frame.parent.Some? {
      TargetIsHome(frame.parent.value, claims);
    }
  }

  lemma {:induction false} HomeIsAncestor(frame: Frame)
    requires Home(frame).Some? && Home(frame).value.node.site.Some?
    ensures AtAncestor(Some(frame), Home(frame).value.node.site.value)
    decreases frame
  {
    if !Claimable(frame) {
      HomeIsAncestor(frame.parent.value);
    }
  }

  lemma {:induction false} HomeIsSited(frame: Frame, claims: seq<Claim>)
    requires AncestorsClaimed(Some(frame), claims) && Home(frame).Some?
    ensures Home(frame).value.node.site.Some?
    decreases frame
  {
    if !Claimable(frame) {
      HomeIsSited(frame.parent.value, claims);
    }
  }

  // ---- Entries ----

  lemma {:induction false} EntriesConcat(n: Node, a: seq<Attached>, b: seq<Attached>)
    ensures EntriesFor(n, a + b) == EntriesFor(n, a) + EntriesFor(n, b)
  {
    if a == [] {
      assert a + b == b;
    } else {
      EntriesConcat(n, a[1..], b);
      assert (a + b)[1..] == a[1..] + b;
    }
  }

  lemma {:induction false} NoEntries(n: Node, attached: seq<Attached>)
    requires forall a <- attached :: a.target.site != n.site
    ensures EntriesFor(n, attached) == []
  {
    if attached != [] {
      NoEntries(n, attached[1..]);
    }
  }

  lemma ExtendTwice(claims: seq<Claim>, a: seq<Attached>, b: seq<Attached>)
    ensures Extended(Extended(claims, a), b) == Extended(claims, a + b)
  {
    forall i | 0 <= i < |claims|
      ensures Extended(Extended(claims, a), b)[i] == Extended(claims, a + b)[i]
    {
      EntriesConcat(claims[i].node, a, b);
      var e, e' := EntriesFor(claims[i].node, a), EntriesFor(claims[i].node, b);
      assert claims[i].applied + e + e' == claims[i].applied + (e + e');
    }
  }

  lemma ExtendConcat(c: seq<Claim>, c': seq<Claim>, a: seq<Attached>)
    ensures Extended(c + c', a) == Extended(c, a) + Extended(c', a)
  {
  }

  lemma ExtendNone(claims: seq<Claim>, attached: seq<Attached>)
    requires forall c <- claims, a <- attached :: a.target.site != c.node.site
    ensures Extended(claims, attached) == claims
  {
    forall i | 0 <= i < |claims| ensures Extended(claims, attached)[i] == claims[i] {
      assert claims[i] in claims;
      NoEntries(claims[i].node, attached);
      assert claims[i].applied + [] == claims[i].applied;
    }
  }

  // ---- Where attachments and claims of a subtree are ----

  // At a label below, or at an ancestor.
  ghost predicate Within(parent: Option<Frame>, below: seq<Label>, n: Node) {
    n.site.Some? ==> AtAncestor(parent, n.site.value) || n.site.value in below
  }

  lemma {:induction false} AttachedWithin(frame: Frame, ctx: Context)
    ensures forall a <- AttachedIn(frame, ctx) :: Within(frame.parent, Labels(frame.node), a.target)
    decreases frame.node, 1
  {
    if Home(frame).Some? && Home(frame).value.node.site.Some? {
      HomeIsAncestor(frame);
    }
    AttachedAllWithin(frame, frame.node.children, ctx);
    forall a | a in AttachedIn(frame, ctx) ensures Within(frame.parent, Labels(frame.node), a.target) {
      assert a in AttachedAt(frame, ctx) || a in AttachedInAll(frame, frame.node.children, ctx);
      assert frame.node.site.Some? ==> Labels(frame.node)[0] == frame.node.site.value;
    }
  }

  lemma {:induction false} AttachedAllWithin(frame: Frame, children: seq<Node>, ctx: Context)
    ensures forall a <- AttachedInAll(frame, children, ctx) :: Within(Some(frame), LabelsAll(children), a.target)
    decreases children, 0
  {
    if children != [] {
      AttachedWithin(Frame(children[0], Some(frame)), ctx);
      AttachedAllWithin(frame, children[1..], ctx);
    }
  }

  // The claims of a subtree are of its own nodes.
  ghost predicate ClaimsOf(claims: seq<Claim>, below: seq<Label>) {
    forall c <- claims :: c.node.site.Some? && c.node.site.value in below
  }

  lemma OthersEntries(claims: seq<Claim>, attached: seq<Attached>, frame: Frame, mine: seq<Label>, theirs: seq<Label>)
    requires ClaimsOf(claims, mine) && forall a <- attached :: Within(Some(frame), theirs, a.target)
    requires AncestorsApart(Some(frame), mine) && forall l <- mine :: l !in theirs
    ensures Extended(claims, attached) == claims
  {
    ExtendNone(claims, attached);
  }

  // ---- What a fold that succeeds has checked ----

  predicate HousedAt(frame: Frame, ctx: Context) {
    LiveAt(frame.node, ctx) != [] ==>
      Home(frame).Some? && forall m <- LiveAt(frame.node, ctx) :: ApplyMutant(m, Home(frame).value.node).Ok?
  }

  predicate MatchedAt(frame: Frame, attached: seq<Attached>) {
    forall p <- SelfPlacement(frame, attached) :: FirstMismatch(p.placer, p.applied).None?
  }

  // Every live mutant has a claim above it and applies there, and every placement holds trees of its kind.
  predicate Checked(frame: Frame, ctx: Context)
    decreases frame.node, 1
  {
    IsSkipped(frame.node, ctx)
    || (HousedAt(frame, ctx) && MatchedAt(frame, AttachedIn(frame, ctx)) && CheckedAll(frame, frame.node.children, ctx))
  }

  predicate CheckedAll(frame: Frame, children: seq<Node>, ctx: Context)
    decreases children, 0
  {
    children == [] || (Checked(Frame(children[0], Some(frame)), ctx) && CheckedAll(frame, children[1..], ctx))
  }

  // ---- The fold ----

  lemma {:induction false} AllApply(mutants: seq<Mutant>, target: Node)
    requires ApplyAll(mutants, target).Ok?
    ensures forall m <- mutants :: ApplyMutant(m, target).Ok?
  {
    if mutants != [] {
      AllApply(mutants[..|mutants| - 1], target);
      forall m | m in mutants ensures ApplyMutant(m, target).Ok? {
        assert m in mutants[..|mutants| - 1] || m == mutants[|mutants| - 1];
      }
    }
  }

  lemma {:induction false} AppliedEntries(mutants: seq<Mutant>, target: Node, n: Node)
    requires ApplyAll(mutants, target).Ok?
    ensures
      var attached := seq(|mutants|, i requires 0 <= i < |mutants| => Attached(target, mutants[i]));
      EntriesFor(n, attached) == if target.site == n.site then ApplyAll(mutants, target).value else []
  {
    if mutants != [] {
      var m := |mutants| - 1;
      var before := seq(m, i requires 0 <= i < m => Attached(target, mutants[i]));
      var all := seq(|mutants|, i requires 0 <= i < |mutants| => Attached(target, mutants[i]));
      AppliedEntries(mutants[..m], target, n);
      assert all == before + [Attached(target, mutants[m])];
      assert seq(m, i requires 0 <= i < m => Attached(target, mutants[..m][i])) == before;
      EntriesConcat(n, before, [Attached(target, mutants[m])]);
      assert EntriesFor(n, [Attached(target, mutants[m])])
          == (if target.site == n.site then [Entry(mutants[m], TreeOf(mutants[m], target))] else [])
             + EntriesFor(n, []);
    }
  }

  lemma {:induction false} AttachExtends(frame: Frame, state: FoldState, ctx: Context)
    requires AncestorsClaimed(Some(frame), state.claims)
    requires AttachPlaceable(LiveAt(frame.node, ctx), frame, state).Ok?
    ensures AttachPlaceable(LiveAt(frame.node, ctx), frame, state).value
         == state.(claims := Extended(state.claims, AttachedAt(frame, ctx)))
    ensures HousedAt(frame, ctx)
  {
    var live := LiveAt(frame.node, ctx);
    TargetIsHome(frame, state.claims);
    if live == [] {
      ExtendNone(state.claims, AttachedAt(frame, ctx));
    } else {
      var target := Home(frame).value.node;
      var entries := ApplyAll(live, target).value;
      AllApply(live, target);
      var attached := AttachedAt(frame, ctx);
      forall i | 0 <= i < |state.claims|
        ensures WithEntries(state.claims, target, entries)[i] == Extended(state.claims, attached)[i]
      {
        AppliedEntries(live, target, state.claims[i].node);
        assert state.claims[i].applied + [] == state.claims[i].applied;
      }
    }
  }

  lemma {:induction false} FindAppended(before: seq<Claim>, self: Claim, after: seq<Claim>, n: Node)
    requires ClaimedAt(self, n) && !HasClaim(before, n)
    ensures FindClaim(before + [self] + after, n) == Some(self)
  {
    if before == [] {
      assert before + [self] + after == [self] + after;
    } else {
      assert before[0] in before;
      assert (before + [self] + after)[1..] == before[1..] + [self] + after;
      assert !HasClaim(before[1..], n) by {
        assert forall c <- before[1..] :: c in before;
      }
      FindAppended(before[1..], self, after, n);
    }
  }

  lemma {:induction false} FindAbsent(claims: seq<Claim>, n: Node)
    requires !HasClaim(claims, n)
    ensures FindClaim(claims, n).None?
  {
    if claims != [] {
      assert claims[0] in claims;
      assert forall c <- claims[1..] :: c in claims;
      FindAbsent(claims[1..], n);
    }
  }

  // The claims and placements a fold of this subtree adds to a state.
  function Extend(state: FoldState, attached: seq<Attached>, claims: seq<Claim>, placements: seq<Planned>): FoldState {
    FoldState(Extended(state.claims, attached) + claims, state.placements + placements)
  }

  ghost predicate Ready(parent: Option<Frame>, below: seq<Label>, claims: seq<Claim>) {
    Distinct(below) && Apart(claims, below) && AncestorsApart(parent, below) && AncestorsClaimed(parent, claims)
  }

  /** A fold that succeeds adds exactly the claims and placements of the subtree, and gives every claim above
      exactly the mutants attached to it. */
  lemma {:induction false} FoldAdds(frame: Frame, state: FoldState, ctx: Context)
    requires Ready(frame.parent, Labels(frame.node), state.claims)
    requires FoldPlacements(frame, state, ctx).Ok?
    ensures FoldPlacements(frame, state, ctx).value
         == Extend(state, AttachedIn(frame, ctx), ClaimsIn(frame, ctx), PlacementsIn(frame, ctx))
    ensures ClaimsOf(ClaimsIn(frame, ctx), Labels(frame.node)) && Checked(frame, ctx)
    decreases frame.node, 1
  {
    if IsSkipped(frame.node, ctx) {
      ExtendNone(state.claims, []);
    } else {
      VisitAdds(frame, state, ctx);
    }
  }

  lemma {:induction false} VisitAdds(frame: Frame, state: FoldState, ctx: Context)
    requires Ready(frame.parent, Labels(frame.node), state.claims) && frame.node.site.Some?
      && !IsSkipped(frame.node, ctx)
    requires VisitFrame(frame, state, ctx).Ok?
    ensures VisitFrame(frame, state, ctx).value
         == Extend(state, AttachedIn(frame, ctx), ClaimsIn(frame, ctx), PlacementsIn(frame, ctx))
    ensures ClaimsOf(ClaimsIn(frame, ctx), Labels(frame.node)) && Checked(frame, ctx)
    decreases frame.node, 0
  {
    var children := frame.node.children;
    ClaimedReady(frame, state, ctx);
    var planned := AfterAttach(frame, state, ctx);
    var folded := FoldChildren(frame, children, planned, ctx).value;
    assert VisitFrame(frame, state, ctx) == EmitPlacement(frame, folded);
    ChildrenAdd(frame, children, planned, ctx);
    OwnLabel(frame.node);
    EmitAdds(frame, state, planned, folded, AttachedAt(frame, ctx), AttachedInAll(frame, children, ctx),
      ClaimsInAll(frame, children, ctx), PlacementsInAll(frame, children, ctx));
    assert AttachedIn(frame, ctx) == AttachedAt(frame, ctx) + AttachedInAll(frame, children, ctx);
    assert ClaimsIn(frame, ctx) == SelfClaim(frame, AttachedIn(frame, ctx)) + ClaimsInAll(frame, children, ctx);
  }

  lemma {:induction false} OwnLabel(n: Node)
    requires n.site.Some? && DistinctLabels(n)
    ensures Labels(n) == [n.site.value] + LabelsAll(n.children)
    ensures n.site.value !in LabelsAll(n.children) && Distinct(LabelsAll(n.children))
  {
    DistinctConcat([n.site.value], LabelsAll(n.children));
    assert n.site.value in [n.site.value];
  }

  // The state the children are folded from.
  function AfterAttach(frame: Frame, state: FoldState, ctx: Context): FoldState {
    state.(claims := Extended(state.claims + SelfClaim(frame, []), AttachedAt(frame, ctx)))
  }

  lemma {:induction false} ClaimedAncestors(frame: Frame, claims: seq<Claim>)
    requires Ready(frame.parent, Labels(frame.node), claims) && frame.node.site.Some?
    ensures !HasClaim(claims, frame.node) && ClaimSelf(frame, claims) == claims + SelfClaim(frame, [])
    ensures AncestorsClaimed(Some(frame), claims + SelfClaim(frame, []))
  {
    var n := frame.node;
    OwnLabel(n);
    assert n.site.value in Labels(n);
    var self := SelfClaim(frame, []);
    ClaimsConcat(claims, self, n);
    assert Claimable(frame) ==> ClaimedAt(self[0], n) && self[0] in self;
    StillClaimed(frame.parent, claims, claims, self, Labels(n));
  }

  lemma ClaimedReady(frame: Frame, state: FoldState, ctx: Context)
    requires Ready(frame.parent, Labels(frame.node), state.claims) && frame.node.site.Some?
    requires AttachPlaceable(LiveAt(frame.node, ctx), frame, state.(claims := ClaimSelf(frame, state.claims))).Ok?
    ensures AttachPlaceable(LiveAt(frame.node, ctx), frame, state.(claims := ClaimSelf(frame, state.claims))).value
         == AfterAttach(frame, state, ctx)
    ensures Ready(Some(frame), LabelsAll(frame.node.children), AfterAttach(frame, state, ctx).claims)
    ensures !HasClaim(state.claims, frame.node) && HousedAt(frame, ctx)
  {
    var n := frame.node;
    OwnLabel(n);
    ClaimedAncestors(frame, state.claims);
    var claimed := state.claims + SelfClaim(frame, []);
    AttachExtends(frame, state.(claims := claimed), ctx);
    var extended := Extended(claimed, AttachedAt(frame, ctx));
    StillClaimed(Some(frame), claimed, extended, [], LabelsAll(n.children));
    assert extended + [] == extended;
    forall c | c in extended ensures c.node.site.Some? && c.node.site.value !in LabelsAll(n.children) {
      var i :| 0 <= i < |extended| && extended[i] == c;
      assert claimed[i] in claimed && claimed[i].node == c.node;
    }
  }

  lemma SelfExtends(frame: Frame, claims: seq<Claim>, a: seq<Attached>, b: seq<Attached>)
    ensures Extended(Extended(claims + SelfClaim(frame, []), a), b) == Extended(claims, a + b) + SelfClaim(frame, a + b)
  {
    var self := SelfClaim(frame, []);
    ExtendTwice(claims + self, a, b);
    ExtendConcat(claims, self, a + b);
    if Claimable(frame) {
      assert [] + EntriesFor(frame.node, a + b) == EntriesFor(frame.node, a + b);
      assert Extended(self, a + b) == [SelfClaim(frame, a + b)[0]];
    }
  }

  // The claim a node's exit finds is the node's own, with all that was attached to it.
  lemma EmitFinds(frame: Frame, state: FoldState, planned: FoldState, folded: FoldState,
                  a: seq<Attached>, b: seq<Attached>, inside: seq<Claim>, placed: seq<Planned>)
    requires frame.node.site.Some? && !HasClaim(state.claims, frame.node)
    requires ClaimsOf(inside, LabelsAll(frame.node.children))
      && frame.node.site.value !in LabelsAll(frame.node.children)
    requires planned == state.(claims := Extended(state.claims + SelfClaim(frame, []), a))
    requires folded == Extend(planned, b, inside, placed)
    ensures folded.claims == Extended(state.claims, a + b) + SelfClaim(frame, a + b) + inside
    ensures FindClaim(folded.claims, frame.node) == if Claimable(frame) then Some(SelfClaim(frame, a + b)[0]) else None
  {
    SelfExtends(frame, state.claims, a, b);
    var extended, self := Extended(state.claims, a + b), SelfClaim(frame, a + b);
    SameClaims(state.claims, extended, frame.node);
    assert !HasClaim(inside, frame.node);
    if Claimable(frame) {
      FindAppended(extended, self[0], inside, frame.node);
    } else {
      ClaimsConcat(extended, inside, frame.node);
      assert extended + self + inside == extended + inside;
      FindAbsent(folded.claims, frame.node);
    }
  }

  lemma Regrouped<T>(a: seq<T>, b: seq<T>, c: seq<T>)
    ensures a + b + c == a + (b + c)
  {
  }

  lemma EmitAdds(frame: Frame, state: FoldState, planned: FoldState, folded: FoldState,
                 a: seq<Attached>, b: seq<Attached>, inside: seq<Claim>, placed: seq<Planned>)
    requires frame.node.site.Some? && !HasClaim(state.claims, frame.node)
    requires ClaimsOf(inside, LabelsAll(frame.node.children))
      && frame.node.site.value !in LabelsAll(frame.node.children)
    requires planned == state.(claims := Extended(state.claims + SelfClaim(frame, []), a))
    requires folded == Extend(planned, b, inside, placed)
    requires EmitPlacement(frame, folded).Ok?
    ensures EmitPlacement(frame, folded).value
         == Extend(state, a + b, SelfClaim(frame, a + b) + inside, placed + SelfPlacement(frame, a + b))
    ensures MatchedAt(frame, a + b)
  {
    EmitFinds(frame, state, planned, folded, a, b, inside, placed);
    Regrouped(Extended(state.claims, a + b), SelfClaim(frame, a + b), inside);
    Regrouped(state.placements, placed, SelfPlacement(frame, a + b));
    assert placed + [] == placed;
  }

  lemma {:induction false} ChildrenAdd(frame: Frame, children: seq<Node>, state: FoldState, ctx: Context)
    requires Ready(Some(frame), LabelsAll(children), state.claims)
    requires FoldChildren(frame, children, state, ctx).Ok?
    ensures FoldChildren(frame, children, state, ctx).value
         == Extend(state, AttachedInAll(frame, children, ctx), ClaimsInAll(frame, children, ctx),
           PlacementsInAll(frame, children, ctx))
    ensures ClaimsOf(ClaimsInAll(frame, children, ctx), LabelsAll(children)) && CheckedAll(frame, children, ctx)
    decreases children, 0
  {
    if children == [] {
      ExtendNone(state.claims, []);
    } else {
      var first, rest := Frame(children[0], Some(frame)), children[1..];
      DistinctConcat(Labels(children[0]), LabelsAll(rest));
      FoldAdds(first, state, ctx);
      var next := FoldPlacements(first, state, ctx).value;
      NextReady(frame, state, AttachedIn(first, ctx), ClaimsIn(first, ctx), Labels(children[0]), LabelsAll(rest));
      ChildrenAdd(frame, rest, next, ctx);
      AttachedAllWithin(frame, rest, ctx);
      OthersEntries(ClaimsIn(first, ctx), AttachedInAll(frame, rest, ctx), frame, Labels(children[0]), LabelsAll(rest));
      ExtendAgain(state, AttachedIn(first, ctx), ClaimsIn(first, ctx), PlacementsIn(first, ctx),
        AttachedInAll(frame, rest, ctx), ClaimsInAll(frame, rest, ctx), PlacementsInAll(frame, rest, ctx));
    }
  }

  lemma ExtendAgain(state: FoldState, a: seq<Attached>, c: seq<Claim>, p: seq<Planned>,
                    a': seq<Attached>, c': seq<Claim>, p': seq<Planned>)
    requires Extended(c, a') == c
    ensures Extend(Extend(state, a, c, p), a', c', p') == Extend(state, a + a', c + c', p + p')
  {
    ExtendConcat(Extended(state.claims, a), c, a');
    ExtendTwice(state.claims, a, a');
    assert Extended(state.claims, a + a') + c + c' == Extended(state.claims, a + a') + (c + c');
    assert state.placements + p + p' == state.placements + (p + p');
  }

  // After the first child, the fold is ready for the others.
  lemma NextReady(
      frame: Frame, state: FoldState, attached: seq<Attached>, claims: seq<Claim>, first: seq<Label>, rest: seq<Label>)
    requires Ready(Some(frame), first + rest, state.claims) && ClaimsOf(claims, first)
    ensures Ready(Some(frame), rest, Extended(state.claims, attached) + claims)
  {
    DistinctConcat(first, rest);
    var extended := Extended(state.claims, attached);
    StillClaimed(Some(frame), state.claims, extended, claims, first);
    forall c | c in extended + claims ensures c.node.site.Some? && c.node.site.value !in rest {
      if c in extended {
        var i :| 0 <= i < |extended| && extended[i] == c;
        assert state.claims[i] in state.claims && state.claims[i].node == c.node;
      }
    }
  }

  // ---- When the fold succeeds ----

  lemma {:induction false} AllApplied(mutants: seq<Mutant>, target: Node)
    requires forall m <- mutants :: ApplyMutant(m, target).Ok?
    ensures ApplyAll(mutants, target).Ok?
  {
    if mutants != [] {
      var front, last := mutants[..|mutants| - 1], mutants[|mutants| - 1];
      assert last in mutants && forall m <- front :: m in mutants;
      AllApplied(front, target);
    }
  }

  // Every node the fold comes to has a span.
  predicate Located(n: Node, ctx: Context) {
    n.site.Some? && (IsSkipped(n, ctx) || forall c <- n.children :: Located(c, ctx))
  }

  // What the fold has checked is all it checks: where every node has a span, nothing else stops it.
  lemma {:induction false} FoldSucceeds(frame: Frame, state: FoldState, ctx: Context)
    requires Ready(frame.parent, Labels(frame.node), state.claims) && Located(frame.node, ctx) && Checked(frame, ctx)
    ensures FoldPlacements(frame, state, ctx).Ok?
    decreases frame.node, 1
  {
    if !IsSkipped(frame.node, ctx) {
      ClaimedAncestors(frame, state.claims);
      var claimed := state.(claims := ClaimSelf(frame, state.claims));
      TargetIsHome(frame, claimed.claims);
      if LiveAt(frame.node, ctx) != [] {
        AllApplied(LiveAt(frame.node, ctx), Home(frame).value.node);
      }
      ClaimedReady(frame, state, ctx);
      var planned := AfterAttach(frame, state, ctx);
      var children := frame.node.children;
      ChildrenSucceed(frame, children, planned, ctx);
      ChildrenAdd(frame, children, planned, ctx);
      OwnLabel(frame.node);
      EmitFinds(frame, state, planned, FoldChildren(frame, children, planned, ctx).value,
        AttachedAt(frame, ctx), AttachedInAll(frame, children, ctx), ClaimsInAll(frame, children, ctx),
        PlacementsInAll(frame, children, ctx));
      EmitSucceeds(frame, AttachedIn(frame, ctx), FoldChildren(frame, children, planned, ctx).value);
    }
  }

  lemma EmitSucceeds(frame: Frame, attached: seq<Attached>, folded: FoldState)
    requires FindClaim(folded.claims, frame.node)
      == if Claimable(frame) then Some(SelfClaim(frame, attached)[0]) else None
    requires MatchedAt(frame, attached)
    ensures EmitPlacement(frame, folded).Ok?
  {
    if Claimable(frame) && SelfClaim(frame, attached)[0].applied != [] {
      assert SelfPlacement(frame, attached)[0] in SelfPlacement(frame, attached);
    }
  }

  lemma {:induction false} ChildrenSucceed(frame: Frame, children: seq<Node>, state: FoldState, ctx: Context)
    requires Ready(Some(frame), LabelsAll(children), state.claims) && CheckedAll(frame, children, ctx)
    requires forall c <- children :: Located(c, ctx)
    ensures FoldChildren(frame, children, state, ctx).Ok?
    decreases children, 0
  {
    if children != [] {
      var first, rest := Frame(children[0], Some(frame)), children[1..];
      DistinctConcat(Labels(children[0]), LabelsAll(rest));
      FoldSucceeds(first, state, ctx);
      FoldAdds(first, state, ctx);
      NextReady(frame, state, AttachedIn(first, ctx), ClaimsIn(first, ctx), Labels(children[0]), LabelsAll(rest));
      ChildrenSucceed(frame, rest, FoldPlacements(first, state, ctx).value, ctx);
    }
  }
}
