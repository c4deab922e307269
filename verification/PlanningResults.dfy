// What a successful plan guarantees: nothing lost, everything at its nearest claim, and nothing the
// placers can refuse.
module PlanningResults {
  import opened Wrappers
  import opened Syntax
  import opened Instrumentation
  import opened Planning
  import opened PlanningLaws

  // ---- Nodes the fold enters ----

  function Root(n: Node): Frame {
    Frame(n, None)
  }

  lemma {:induction false} FoldLocates(frame: Frame, state: FoldState, ctx: Context)
    requires FoldPlacements(frame, state, ctx).Ok?
    ensures Located(frame.node, ctx)
    decreases frame.node, 1
  {
    if !IsSkipped(frame.node, ctx) {
      var planned := AttachPlaceable(LiveAt(frame.node, ctx), frame,
        state.(claims := ClaimSelf(frame, state.claims))).value;
      ChildrenLocate(frame, frame.node.children, planned, ctx);
    }
  }

  lemma {:induction false} ChildrenLocate(frame: Frame, children: seq<Node>, state: FoldState, ctx: Context)
    requires FoldChildren(frame, children, state, ctx).Ok?
    ensures forall c <- children :: Located(c, ctx)
    decreases children, 0
  {
    if children != [] {
      FoldLocates(Frame(children[0], Some(frame)), state, ctx);
      ChildrenLocate(frame, children[1..], FoldPlacements(Frame(children[0], Some(frame)), state, ctx).value, ctx);
    }
  }

  // ---- The claims of a tree ----

  lemma {:induction false} ClaimSites(frame: Frame, ctx: Context)
    requires Located(frame.node, ctx)
    ensures ClaimsOf(ClaimsIn(frame, ctx), Labels(frame.node))
    decreases frame.node, 1
  {
    assert Labels(frame.node)[0] == frame.node.site.value;
    if !IsSkipped(frame.node, ctx) {
      ClaimSitesAll(frame, frame.node.children, ctx);
    }
  }

  lemma {:induction false} ClaimSitesAll(frame: Frame, children: seq<Node>, ctx: Context)
    requires forall c <- children :: Located(c, ctx)
    ensures ClaimsOf(ClaimsInAll(frame, children, ctx), LabelsAll(children))
    decreases children, 0
  {
    if children != [] {
      ClaimSites(Frame(children[0], Some(frame)), ctx);
      ClaimSitesAll(frame, children[1..], ctx);
    }
  }

  ghost predicate Settled(frame: Frame, ctx: Context) {
    DistinctLabels(frame.node) && AncestorsApart(frame.parent, Labels(frame.node)) && Located(frame.node, ctx)
  }

  ghost predicate SettledAll(frame: Frame, children: seq<Node>, ctx: Context) {
    && Distinct(LabelsAll(children)) && AncestorsApart(Some(frame), LabelsAll(children))
    && forall c <- children :: Located(c, ctx)
  }

  lemma SettledBelow(frame: Frame, ctx: Context)
    requires Settled(frame, ctx) && !IsSkipped(frame.node, ctx)
    ensures SettledAll(frame, frame.node.children, ctx)
  {
    OwnLabel(frame.node);
    assert forall l <- LabelsAll(frame.node.children) :: l in Labels(frame.node) && l != frame.node.site.value;
  }

  lemma SettledFirst(frame: Frame, children: seq<Node>, ctx: Context)
    requires SettledAll(frame, children, ctx) && children != []
    ensures Settled(Frame(children[0], Some(frame)), ctx) && SettledAll(frame, children[1..], ctx)
    ensures forall l <- Labels(children[0]) :: l !in LabelsAll(children[1..])
  {
    DistinctConcat(Labels(children[0]), LabelsAll(children[1..]));
  }

  // A claim's mutants are those of the whole subtree that were attached to it.
  lemma {:induction false} ClaimHoldsAll(frame: Frame, ctx: Context)
    requires Settled(frame, ctx)
    ensures forall c <- ClaimsIn(frame, ctx) :: c.applied == EntriesFor(c.node, AttachedIn(frame, ctx))
    decreases frame.node, 1
  {
    if !IsSkipped(frame.node, ctx) {
      SettledBelow(frame, ctx);
      ClaimHoldsAllBelow(frame, frame.node.children, ctx);
      ClaimSitesAll(frame, frame.node.children, ctx);
      forall c | c in ClaimsInAll(frame, frame.node.children, ctx)
        ensures c.applied == EntriesFor(c.node, AttachedIn(frame, ctx))
      {
        OwnAttachments(frame, ctx, c.node);
        EntriesConcat(c.node, AttachedAt(frame, ctx), AttachedInAll(frame, frame.node.children, ctx));
      }
    }
  }

  // A frame's own mutants never go below it.
  lemma {:induction false} OwnAttachments(frame: Frame, ctx: Context, below: Node)
    requires Settled(frame, ctx) && below.site.Some? && below.site.value in LabelsAll(frame.node.children)
    ensures EntriesFor(below, AttachedAt(frame, ctx)) == []
  {
    OwnLabel(frame.node);
    if Home(frame).Some? && Home(frame).value.node.site.Some? {
      HomeIsAncestor(frame);
    }
    NoEntries(below, AttachedAt(frame, ctx));
  }

  lemma {:induction false} ClaimHoldsAllBelow(frame: Frame, children: seq<Node>, ctx: Context)
    requires SettledAll(frame, children, ctx)
    ensures forall c <- ClaimsInAll(frame, children, ctx) ::
      c.applied == EntriesFor(c.node, AttachedInAll(frame, children, ctx))
    decreases children, 0
  {
    if children != [] {
      var first, rest := Frame(children[0], Some(frame)), children[1..];
      SettledFirst(frame, children, ctx);
      ClaimHoldsAll(first, ctx);
      ClaimHoldsAllBelow(frame, rest, ctx);
      ClaimSites(first, ctx);
      ClaimSitesAll(frame, rest, ctx);
      AttachedWithin(first, ctx);
      AttachedAllWithin(frame, rest, ctx);
      forall c | c in ClaimsInAll(frame, children, ctx)
        ensures c.applied == EntriesFor(c.node, AttachedInAll(frame, children, ctx))
      {
        EntriesConcat(c.node, AttachedIn(first, ctx), AttachedInAll(frame, rest, ctx));
        if c in ClaimsIn(first, ctx) {
          NoEntries(c.node, AttachedInAll(frame, rest, ctx));
        } else {
          NoEntries(c.node, AttachedIn(first, ctx));
        }
      }
    }
  }

  // A claim is of the node its label names, and of one node only.
  lemma {:induction false} ClaimsAreNodes(frame: Frame, ctx: Context)
    requires Settled(frame, ctx)
    ensures ClaimsOf(ClaimsIn(frame, ctx), Labels(frame.node))
    ensures forall c <- ClaimsIn(frame, ctx) :: Find(frame.node, c.node.site.value) == Some(c.node)
    ensures Distinct(ClaimSiteList(ClaimsIn(frame, ctx)))
    decreases frame.node, 1
  {
    ClaimSites(frame, ctx);
    if !IsSkipped(frame.node, ctx) {
      SettledBelow(frame, ctx);
      OwnLabel(frame.node);
      ClaimsAreNodesBelow(frame, frame.node.children, ctx);
      ClaimSitesAll(frame, frame.node.children, ctx);
      var self, below := SelfClaim(frame, AttachedIn(frame, ctx)), ClaimsInAll(frame, frame.node.children, ctx);
      SitesConcat(self, below);
    }
  }

  function ClaimSiteList(claims: seq<Claim>): (sites: seq<Option<Label>>)
    ensures |sites| == |claims| && forall i :: 0 <= i < |claims| ==> sites[i] == claims[i].node.site
  {
    seq(|claims|, i requires 0 <= i < |claims| => claims[i].node.site)
  }

  lemma SitesConcat(a: seq<Claim>, b: seq<Claim>)
    requires Distinct(ClaimSiteList(a)) && Distinct(ClaimSiteList(b))
    requires forall c <- a, d <- b :: c.node.site != d.node.site
    ensures Distinct(ClaimSiteList(a + b))
  {
    forall i, j | 0 <= i < j < |a + b| ensures ClaimSiteList(a + b)[i] != ClaimSiteList(a + b)[j] {
      if j < |a| {
        assert ClaimSiteList(a)[i] != ClaimSiteList(a)[j];
      } else if i >= |a| {
        assert ClaimSiteList(b)[i - |a|] != ClaimSiteList(b)[j - |a|];
      } else {
        assert a[i] in a && b[j - |a|] in b;
      }
    }
  }

  lemma {:induction false} ClaimsAreNodesBelow(frame: Frame, children: seq<Node>, ctx: Context)
    requires SettledAll(frame, children, ctx)
    ensures ClaimsOf(ClaimsInAll(frame, children, ctx), LabelsAll(children))
    ensures forall c <- ClaimsInAll(frame, children, ctx) :: FindAll(children, c.node.site.value) == Some(c.node)
    ensures Distinct(ClaimSiteList(ClaimsInAll(frame, children, ctx)))
    decreases children, 0
  {
    ClaimSitesAll(frame, children, ctx);
    if children != [] {
      var first, rest := Frame(children[0], Some(frame)), children[1..];
      SettledFirst(frame, children, ctx);
      ClaimSites(first, ctx);
      ClaimsAreNodes(first, ctx);
      ClaimsAreNodesBelow(frame, rest, ctx);
      SitesConcat(ClaimsIn(first, ctx), ClaimsInAll(frame, rest, ctx));
      forall c | c in ClaimsInAll(frame, rest, ctx) ensures FindAll(children, c.node.site.value) == Some(c.node) {
        FoundIffLabelled(children[0], c.node.site.value);
      }
    }
  }

  // ---- Placements and claims ----

  function EntriesOf(claims: seq<Claim>): seq<Entry> {
    if claims == [] then [] else claims[0].applied + EntriesOf(claims[1..])
  }

  function PlacedEntries(placements: seq<Planned>): seq<Entry> {
    if placements == [] then [] else placements[0].applied + PlacedEntries(placements[1..])
  }

  lemma {:induction false} EntriesOfConcat(a: seq<Claim>, b: seq<Claim>)
    ensures EntriesOf(a + b) == EntriesOf(a) + EntriesOf(b)
  {
    if a == [] {
      assert a + b == b;
    } else {
      EntriesOfConcat(a[1..], b);
      assert a + b == [a[0]] + (a[1..] + b);
      assert EntriesOf(a + b) == a[0].applied + EntriesOf(a[1..] + b);
      assert a[0].applied + (EntriesOf(a[1..]) + EntriesOf(b)) == a[0].applied + EntriesOf(a[1..]) + EntriesOf(b);
    }
  }

  lemma {:induction false} PlacedEntriesConcat(a: seq<Planned>, b: seq<Planned>)
    ensures PlacedEntries(a + b) == PlacedEntries(a) + PlacedEntries(b)
  {
    if a == [] {
      assert a + b == b;
    } else {
      PlacedEntriesConcat(a[1..], b);
      assert a + b == [a[0]] + (a[1..] + b);
      assert PlacedEntries(a + b) == a[0].applied + PlacedEntries(a[1..] + b);
      assert a[0].applied + (PlacedEntries(a[1..]) + PlacedEntries(b))
        == a[0].applied + PlacedEntries(a[1..]) + PlacedEntries(b);
    }
  }

  ghost predicate IsEmitted(p: Planned, claims: seq<Claim>) {
    exists c <- claims :: c.applied != [] && Emitted(c) == [p]
  }

  // Placements are the claims that hold mutants, children first.
  lemma {:induction false} PlacementsHoldEntries(frame: Frame, ctx: Context)
    ensures multiset(PlacedEntries(PlacementsIn(frame, ctx))) == multiset(EntriesOf(ClaimsIn(frame, ctx)))
    decreases frame.node, 1
  {
    if !IsSkipped(frame.node, ctx) {
      var attached := AttachedIn(frame, ctx);
      PlacementsHoldEntriesBelow(frame, frame.node.children, ctx);
      var self, below := SelfClaim(frame, attached), ClaimsInAll(frame, frame.node.children, ctx);
      PlacedEntriesConcat(PlacementsInAll(frame, frame.node.children, ctx), SelfPlacement(frame, attached));
      EntriesOfConcat(self, below);
      OneEntries(frame, attached);
    }
  }

  lemma OneEntries(frame: Frame, attached: seq<Attached>)
    ensures PlacedEntries(SelfPlacement(frame, attached)) == EntriesOf(SelfClaim(frame, attached))
  {
    if Claimable(frame) {
      var entries := EntriesFor(frame.node, attached);
      assert EntriesOf(SelfClaim(frame, attached)) == entries + EntriesOf([]);
      if entries != [] {
        assert PlacedEntries(SelfPlacement(frame, attached)) == entries + PlacedEntries([]);
      }
    }
  }

  lemma {:induction false} PlacementsHoldEntriesBelow(frame: Frame, children: seq<Node>, ctx: Context)
    ensures multiset(PlacedEntries(PlacementsInAll(frame, children, ctx)))
      == multiset(EntriesOf(ClaimsInAll(frame, children, ctx)))
    decreases children, 0
  {
    if children != [] {
      var first, rest := Frame(children[0], Some(frame)), children[1..];
      PlacementsHoldEntries(first, ctx);
      PlacementsHoldEntriesBelow(frame, rest, ctx);
      PlacedEntriesConcat(PlacementsIn(first, ctx), PlacementsInAll(frame, rest, ctx));
      EntriesOfConcat(ClaimsIn(first, ctx), ClaimsInAll(frame, rest, ctx));
    }
  }

  lemma {:induction false} PlacementsAreClaims(frame: Frame, ctx: Context)
    ensures forall p <- PlacementsIn(frame, ctx) :: IsEmitted(p, ClaimsIn(frame, ctx))
    decreases frame.node, 1
  {
    if !IsSkipped(frame.node, ctx) {
      var attached := AttachedIn(frame, ctx);
      PlacementsAreClaimsBelow(frame, frame.node.children, ctx);
      forall p | p in PlacementsIn(frame, ctx) ensures IsEmitted(p, ClaimsIn(frame, ctx)) {
        if p in SelfPlacement(frame, attached) {
          assert SelfClaim(frame, attached)[0] in ClaimsIn(frame, ctx);
        } else {
          EmittedByMore(p, ClaimsInAll(frame, frame.node.children, ctx), ClaimsIn(frame, ctx));
        }
      }
    }
  }

  lemma EmittedByMore(p: Planned, claims: seq<Claim>, more: seq<Claim>)
    requires IsEmitted(p, claims) && forall c <- claims :: c in more
    ensures IsEmitted(p, more)
  {
    var c :| c in claims && c.applied != [] && Emitted(c) == [p];
    assert c in more;
  }

  lemma {:induction false} PlacementsAreClaimsBelow(frame: Frame, children: seq<Node>, ctx: Context)
    ensures forall p <- PlacementsInAll(frame, children, ctx) :: IsEmitted(p, ClaimsInAll(frame, children, ctx))
    decreases children, 0
  {
    if children != [] {
      var first, rest := Frame(children[0], Some(frame)), children[1..];
      PlacementsAreClaims(first, ctx);
      PlacementsAreClaimsBelow(frame, rest, ctx);
      forall p | p in PlacementsInAll(frame, children, ctx) ensures IsEmitted(p, ClaimsInAll(frame, children, ctx)) {
        if p in PlacementsIn(first, ctx) {
          EmittedByMore(p, ClaimsIn(first, ctx), ClaimsInAll(frame, children, ctx));
        } else {
          EmittedByMore(p, ClaimsInAll(frame, rest, ctx), ClaimsInAll(frame, children, ctx));
        }
      }
    }
  }
}
