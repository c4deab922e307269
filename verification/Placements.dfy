// What a successful plan holds: each placement's trees and claim, the plan by node, and which program the active
// mutant stands for.
module Placements {
  import opened Wrappers
  import opened Syntax
  import opened Placers
  import opened Preservation
  import opened Instrumentation
  import opened Coverage
  import opened Planning
  import opened Frames
  import opened PlanningLaws
  import opened PlanningResults
  import opened Conservation

  // ---- What one placement holds ----

  // The mutant is live at a node whose nearest claiming ancestor-or-self is `target`.
  ghost predicate NearestClaim(root: Frame, ctx: Context, m: Mutant, target: Node) {
    exists l :: LiveWithHome(FrameOf(root, l), ctx, m, target)
  }

  predicate LiveWithHome(frame: Option<Frame>, ctx: Context, m: Mutant, target: Node) {
    frame.Some? && m in LiveAt(frame.value.node, ctx) && Home(frame.value).Some?
      && Home(frame.value).value.node == target
  }

  lemma {:induction false} AttachedToNearest(frame: Frame, ctx: Context, a: Attached)
    requires Settled(frame, ctx) && a in AttachedIn(frame, ctx)
    ensures exists l :: l in Labels(frame.node) && LiveWithHome(FrameOf(frame, l), ctx, a.mutant, a.target)
    decreases frame.node, 1
  {
    OwnLabel(frame.node);
    SettledBelow(frame, ctx);
    if a in AttachedAt(frame, ctx) {
      assert LiveWithHome(FrameOf(frame, frame.node.site.value), ctx, a.mutant, a.target);
      assert Labels(frame.node)[0] == frame.node.site.value;
    } else {
      AttachedToNearestBelow(frame, frame.node.children, ctx, a);
      var l :| l in LabelsAll(frame.node.children)
        && LiveWithHome(FrameBelow(frame, frame.node.children, l), ctx, a.mutant, a.target);
      assert FrameOf(frame, l) == FrameBelow(frame, frame.node.children, l);
    }
  }

  lemma {:induction false} AttachedToNearestBelow(frame: Frame, children: seq<Node>, ctx: Context, a: Attached)
    requires SettledAll(frame, children, ctx) && a in AttachedInAll(frame, children, ctx)
    ensures exists l ::
      l in LabelsAll(children) && LiveWithHome(FrameBelow(frame, children, l), ctx, a.mutant, a.target)
    decreases children, 0
  {
    var first := Frame(children[0], Some(frame));
    SettledFirst(frame, children, ctx);
    if a in AttachedIn(first, ctx) {
      AttachedToNearest(first, ctx, a);
      var l :| l in Labels(children[0]) && LiveWithHome(FrameOf(first, l), ctx, a.mutant, a.target);
      assert FrameBelow(frame, children, l) == FrameOf(first, l);
    } else {
      AttachedToNearestBelow(frame, children[1..], ctx, a);
      var l :| l in LabelsAll(children[1..])
        && LiveWithHome(FrameBelow(frame, children[1..], l), ctx, a.mutant, a.target);
      FrameIffLabelled(first, l);
      assert FrameBelow(frame, children, l) == FrameBelow(frame, children[1..], l);
    }
  }

  lemma {:induction false} ReplaceFirstReplaces(n: Node, l: Label, r: Node)
    requires DistinctLabels(n)
    ensures ReplaceFirst(n, l, r) == (Replace(n, l, r), l in Labels(n))
    decreases n, 1
  {
    if n.site != Some(l) {
      assert Distinct(LabelsAll(n.children)) by {
        assert LabelsAll(n.children) == Labels(n)[if n.site.Some? then 1 else 0..];
      }
      ReplaceFirstReplacesIn(n.children, l, r);
    } else {
      assert Labels(n)[0] == l;
    }
  }

  lemma {:induction false} ReplaceFirstReplacesIn(ns: seq<Node>, l: Label, r: Node)
    requires Distinct(LabelsAll(ns))
    ensures ReplaceFirstIn(ns, l, r) == (ReplaceAll(ns, l, r), l in LabelsAll(ns))
    decreases ns, 0
  {
    if ns != [] {
      DistinctConcat(Labels(ns[0]), LabelsAll(ns[1..]));
      ReplaceFirstReplaces(ns[0], l, r);
      ReplaceFirstReplacesIn(ns[1..], l, r);
      if l in Labels(ns[0]) {
        ReplaceAbsentAll(ns[1..], l, r);
      }
    }
  }

  lemma {:induction false} ReplaceAbsentAll(ns: seq<Node>, l: Label, r: Node)
    requires l !in LabelsAll(ns)
    ensures ReplaceAll(ns, l, r) == ns
  {
    if ns != [] {
      ReplaceAbsent(ns[0], l, r);
      ReplaceAbsentAll(ns[1..], l, r);
    }
  }

  // The tree applied for a mutant is the claimed tree with the mutant's node, and nothing else, replaced.
  lemma {:induction false} AppliedIsReplacement(m: Mutant, target: Node)
    requires DistinctLabels(target) && ApplyMutant(m, target).Ok?
    ensures ApplyMutant(m, target).value == Replace(target, m.original, m.replacement) && m.original in Labels(target)
  {
    ReplaceFirstReplaces(target, m.original, m.replacement);
    if target.site == Some(m.original) {
      assert Labels(target)[0] == m.original;
    }
  }

  lemma {:induction false} CheckedApplies(frame: Frame, ctx: Context)
    requires Checked(frame, ctx)
    ensures forall a <- AttachedIn(frame, ctx) :: ApplyMutant(a.mutant, a.target).Ok?
    ensures forall p <- PlacementsIn(frame, ctx) :: FirstMismatch(p.placer, p.applied).None?
    decreases frame.node, 1
  {
    if !IsSkipped(frame.node, ctx) {
      CheckedAppliesBelow(frame, frame.node.children, ctx);
    }
  }

  lemma {:induction false} CheckedAppliesBelow(frame: Frame, children: seq<Node>, ctx: Context)
    requires CheckedAll(frame, children, ctx)
    ensures forall a <- AttachedInAll(frame, children, ctx) :: ApplyMutant(a.mutant, a.target).Ok?
    ensures forall p <- PlacementsInAll(frame, children, ctx) :: FirstMismatch(p.placer, p.applied).None?
    decreases children, 0
  {
    if children != [] {
      CheckedApplies(Frame(children[0], Some(frame)), ctx);
      CheckedAppliesBelow(frame, children[1..], ctx);
    }
  }

  lemma {:induction false} DistinctFound(n: Node, l: Label)
    requires DistinctLabels(n) && Find(n, l).Some?
    ensures DistinctLabels(Find(n, l).value)
  {
    if n.site != Some(l) {
      assert Distinct(LabelsAll(n.children)) by {
        assert LabelsAll(n.children) == Labels(n)[if n.site.Some? then 1 else 0..];
      }
      DistinctFoundAll(n.children, l);
    }
  }

  lemma {:induction false} DistinctFoundAll(ns: seq<Node>, l: Label)
    requires Distinct(LabelsAll(ns)) && FindAll(ns, l).Some?
    ensures DistinctLabels(FindAll(ns, l).value)
  {
    DistinctConcat(Labels(ns[0]), LabelsAll(ns[1..]));
    if Find(ns[0], l).Some? {
      DistinctFound(ns[0], l);
    } else {
      DistinctFoundAll(ns[1..], l);
    }
  }

  /** Every placement of a successful plan is non-empty, is at a node of the tree, and holds for each of its
      mutants the claimed tree with that mutant's node replaced; the claim is the nearest one above the mutant. */
  lemma {:induction false} PlacementIsSound(root: Node, ctx: Context, p: Planned)
    requires DistinctLabels(root) && PlanInstrumentation(root, ctx).Ok? && p in PlanInstrumentation(root, ctx).value
    ensures p.applied != [] && p.node.site.Some? && Find(root, p.node.site.value) == Some(p.node)
      && DistinctLabels(p.node)
    ensures forall e <- p.applied ::
      && e.tree == Replace(p.node, e.mutant.original, e.mutant.replacement) && e.mutant.original in Labels(p.node)
      && NearestClaim(Root(root), ctx, e.mutant, p.node)
    ensures FirstMismatch(p.placer, p.applied).None? && MatchesPlacer(p.placer, p.node.kind)
  {
    PlanFacts(root, ctx);
    var frame := Root(root);
    PlacementsAreClaims(frame, ctx);
    ClaimsAreNodes(frame, ctx);
    ClaimHoldsAll(frame, ctx);
    CheckedApplies(frame, ctx);
    TargetsAreClaims(frame, ctx, ClaimsIn(frame, ctx));
    ClaimFacts(frame, ctx);
    var c :| c in ClaimsIn(frame, ctx) && c.applied != [] && Emitted(c) == [p];
    DistinctFound(root, c.node.site.value);
    forall e | e in p.applied
      ensures e.tree == Replace(p.node, e.mutant.original, e.mutant.replacement) && e.mutant.original in Labels(p.node)
      ensures NearestClaim(frame, ctx, e.mutant, p.node)
    {
      EntryIsAttached(c.node, AttachedIn(frame, ctx), e);
      var a :| a in AttachedIn(frame, ctx) && a.target.site == c.node.site && e == EntryOf(a);
      var d :| d in ClaimsIn(frame, ctx) && d.node == a.target;
      assert Find(root, d.node.site.value) == Some(d.node);
      assert a.target == p.node;
      AppliedIsReplacement(a.mutant, a.target);
      AttachedToNearest(frame, ctx, a);
    }
  }

  lemma {:induction false} ClaimFacts(frame: Frame, ctx: Context)
    ensures forall c <- ClaimsIn(frame, ctx) ::
      ClaimingPlacer(c.facts).Some? && MatchesPlacer(ClaimingPlacer(c.facts).value, c.node.kind)
    decreases frame.node, 1
  {
    if !IsSkipped(frame.node, ctx) {
      ClaimFactsBelow(frame, frame.node.children, ctx);
    }
  }

  lemma {:induction false} ClaimFactsBelow(frame: Frame, children: seq<Node>, ctx: Context)
    ensures forall c <- ClaimsInAll(frame, children, ctx) ::
      ClaimingPlacer(c.facts).Some? && MatchesPlacer(ClaimingPlacer(c.facts).value, c.node.kind)
    decreases children, 0
  {
    if children != [] {
      ClaimFacts(Frame(children[0], Some(frame)), ctx);
      ClaimFactsBelow(frame, children[1..], ctx);
    }
  }

  // ---- The plan the placers get ----

  function AppliedOf(entries: seq<Entry>): seq<Applied> {
    Map((e: Entry) => Applied(e.mutant.id, e.tree), entries)
  }

  function PlacementOf(p: Planned): Placement {
    Placement(p.placer, AppliedOf(p.applied))
  }

  // The placements by node, a later one for the same node winning.
  function PlanOf(placements: seq<Planned>): Plan {
    if placements == [] then map[]
    else
      var last := placements[|placements| - 1];
      var before := PlanOf(placements[..|placements| - 1]);
      if last.node.site.Some? then before[last.node.site.value := PlacementOf(last)] else before
  }

  lemma {:induction false} PlanHolds(placements: seq<Planned>, l: Label)
    ensures l in PlanOf(placements) <==> exists p <- placements :: p.node.site == Some(l)
    ensures l in PlanOf(placements) ==>
      exists p <- placements :: p.node.site == Some(l) && PlanOf(placements)[l] == PlacementOf(p)
  {
    if placements != [] {
      var n := |placements| - 1;
      PlanHolds(placements[..n], l);
      assert placements == placements[..n] + [placements[n]];
    }
  }

  // A replacement tree in parentheses passes the plan-time check by what is inside them.
  predicate Bare(p: Planned) {
    p.placer == ExpressionPlacer || forall e <- p.applied :: Unwrap(e.tree) == e.tree
  }

  /** Two-phase agreement: the placers accept a planned placement exactly when no statement or case in it is
      parenthesized, which no parser produces. */
  lemma PlacersAgree(root: Node, ctx: Context, p: Planned)
    requires DistinctLabels(root) && PlanInstrumentation(root, ctx).Ok? && p in PlanInstrumentation(root, ctx).value
    ensures PlacerAccepts(PlacementOf(p), p.node) <==> Bare(p)
  {
    PlacementIsSound(root, ctx, p);
    NoneMismatches(p.placer, p.applied);
    AcceptsIffMatches(p);
  }

  lemma AcceptsIffMatches(p: Planned)
    requires MatchesPlacer(p.placer, p.node.kind) && forall e <- p.applied ::
      MatchesPlacer(p.placer, Unwrap(e.tree).kind)
    ensures PlacerAccepts(PlacementOf(p), p.node) <==> Bare(p)
  {
    var applied := AppliedOf(p.applied);
    assert forall i :: 0 <= i < |applied| ==>
      applied[i] in applied && p.applied[i] in p.applied && applied[i].tree == p.applied[i].tree;
    if PlacerAccepts(PlacementOf(p), p.node) && p.placer != ExpressionPlacer {
      forall e | e in p.applied ensures Unwrap(e.tree) == e.tree {
        var i :| 0 <= i < |p.applied| && p.applied[i] == e;
        assert MatchesPlacer(p.placer, applied[i].tree.kind);
      }
    }
  }

  // Claims at one site are one claim.
  lemma OneClaimAt(claims: seq<Claim>, c: Claim, d: Claim)
    requires Distinct(ClaimSiteList(claims)) && c in claims && d in claims && c.node.site == d.node.site
    ensures c == d
  {
    var i :| 0 <= i < |claims| && claims[i] == c;
    var j :| 0 <= j < |claims| && claims[j] == d;
    assert ClaimSiteList(claims)[i] == ClaimSiteList(claims)[j];
    assert i == j;
  }

  lemma SameClaim(root: Node, ctx: Context, p: Planned, q: Planned)
    requires DistinctLabels(root) && PlanInstrumentation(root, ctx).Ok?
    requires p in PlanInstrumentation(root, ctx).value && q in PlanInstrumentation(root, ctx).value
    requires p.node.site == q.node.site
    ensures p == q
  {
    PlanFacts(root, ctx);
    var frame := Root(root);
    PlacementsAreClaims(frame, ctx);
    ClaimsAreNodes(frame, ctx);
    var claims := ClaimsIn(frame, ctx);
    var c :| c in claims && c.applied != [] && Emitted(c) == [p];
    var d :| d in claims && d.applied != [] && Emitted(d) == [q];
    OneClaimAt(claims, c, d);
  }

  lemma PlannedAt(root: Node, ctx: Context, p: Planned)
    requires DistinctLabels(root) && PlanInstrumentation(root, ctx).Ok? && p in PlanInstrumentation(root, ctx).value
    ensures p.node.site.Some? && p.node.site.value in PlanOf(PlanInstrumentation(root, ctx).value)
    ensures PlanOf(PlanInstrumentation(root, ctx).value)[p.node.site.value] == PlacementOf(p)
  {
    var ps := PlanInstrumentation(root, ctx).value;
    PlacementIsSound(root, ctx, p);
    PlanHolds(ps, p.node.site.value);
    var q :| q in ps && q.node.site == p.node.site && PlanOf(ps)[p.node.site.value] == PlacementOf(q);
    SameClaim(root, ctx, p, q);
  }

  // ---- Each live mutant has its own switch ----

  function IdOf(m: Mutant): Id {
    m.id
  }

  ghost predicate DistinctIds(root: Node, ctx: Context) {
    Distinct(Map(IdOf, LiveIn(root, ctx)))
  }

  lemma {:induction false} CountOnce<T(!new)>(s: seq<T>, x: T)
    requires Distinct(s)
    ensures multiset(s)[x] <= 1
  {
    if s != [] {
      assert s == [s[0]] + s[1..];
      assert Distinct(s[1..]) by {
        forall i, j | 0 <= i < j < |s[1..]| ensures s[1..][i] != s[1..][j] {
          assert s[1..][i] == s[i + 1] && s[1..][j] == s[j + 1];
        }
      }
      CountOnce(s[1..], x);
      if x == s[0] {
        assert x !in s[1..] by {
          forall i | 0 <= i < |s[1..]| ensures s[1..][i] != x {
            assert s[1..][i] == s[i + 1];
          }
        }
      }
    }
  }

  function EntryId(e: Entry): Id {
    e.mutant.id
  }

  lemma IdsPlacedOnce(root: Node, ctx: Context, id: Id)
    requires DistinctLabels(root) && PlanInstrumentation(root, ctx).Ok? && DistinctIds(root, ctx)
    ensures multiset(Map(EntryId, PlacedEntries(PlanInstrumentation(root, ctx).value)))[id] <= 1
  {
    var es := PlacedEntries(PlanInstrumentation(root, ctx).value);
    MutantsAreConserved(root, ctx);
    SameImages(IdOf, Map(MutantOf, es), LiveIn(root, ctx));
    assert Map(IdOf, Map(MutantOf, es)) == Map(EntryId, es);
    CountOnce(Map(IdOf, LiveIn(root, ctx)), id);
  }

  // How often an id occurs in the placements.
  function Occurrences(ps: seq<Planned>, id: Id): nat {
    if ps == [] then 0 else Hits(IdsOf(AppliedOf(ps[0].applied)), id) + Occurrences(ps[1..], id)
  }

  lemma {:induction false} OccurrencesCount(ps: seq<Planned>, id: Id)
    ensures Occurrences(ps, id) == multiset(Map(EntryId, PlacedEntries(ps)))[id]
  {
    if ps != [] {
      OccurrencesCount(ps[1..], id);
      assert Map(EntryId, PlacedEntries(ps)) == Map(EntryId, ps[0].applied) + Map(EntryId, PlacedEntries(ps[1..]));
      assert IdsOf(AppliedOf(ps[0].applied)) == Map(EntryId, ps[0].applied);
    }
  }

  lemma {:induction false} OccursAt(ps: seq<Planned>, id: Id, i: int, j: int)
    requires 0 <= i <= j < |ps|
    ensures Occurrences(ps, id) >= Hits(IdsOf(AppliedOf(ps[j].applied)), id)
    ensures i != j ==>
      Occurrences(ps, id) >= Hits(IdsOf(AppliedOf(ps[i].applied)), id) + Hits(IdsOf(AppliedOf(ps[j].applied)), id)
  {
    if i > 0 {
      OccursAt(ps[1..], id, i - 1, j - 1);
    } else if j > 0 {
      OccursAt(ps[1..], id, 0, j - 1);
    }
  }

  lemma {:induction false} OccursOnce(ps: seq<Planned>, id: Id, i: int, j: int)
    requires 0 <= i < |ps| && 0 <= j < |ps| && i != j && Occurrences(ps, id) <= 1
    requires id in IdsOf(AppliedOf(ps[i].applied))
    ensures id !in IdsOf(AppliedOf(ps[j].applied))
  {
    OccursAt(ps, id, if i < j then i else j, if i < j then j else i);
    assert Hits(IdsOf(AppliedOf(ps[i].applied)), id) >= 1;
    assert Hits(IdsOf(AppliedOf(ps[j].applied)), id) == 0;
  }

  // No other placement has a placed id.
  lemma NotElsewhere(root: Node, ctx: Context, p: Planned, q: Planned, id: Id)
    requires DistinctLabels(root) && PlanInstrumentation(root, ctx).Ok? && DistinctIds(root, ctx)
    requires p in PlanInstrumentation(root, ctx).value && q in PlanInstrumentation(root, ctx).value && p != q
    requires id in IdsOf(AppliedOf(p.applied))
    ensures id !in IdsOf(AppliedOf(q.applied))
  {
    var ps := PlanInstrumentation(root, ctx).value;
    IdsPlacedOnce(root, ctx, id);
    OccurrencesCount(ps, id);
    var i :| 0 <= i < |ps| && ps[i] == p;
    var j :| 0 <= j < |ps| && ps[j] == q;
    OccursOnce(ps, id, i, j);
  }

  // A placement has each of its ids once.
  lemma OnceHere(root: Node, ctx: Context, p: Planned, e: Entry)
    requires DistinctLabels(root) && PlanInstrumentation(root, ctx).Ok? && DistinctIds(root, ctx)
    requires p in PlanInstrumentation(root, ctx).value && e in p.applied
    ensures e.mutant.id in IdsOf(AppliedOf(p.applied)) && Hits(IdsOf(AppliedOf(p.applied)), e.mutant.id) == 1
  {
    var ps := PlanInstrumentation(root, ctx).value;
    IdsPlacedOnce(root, ctx, e.mutant.id);
    OccurrencesCount(ps, e.mutant.id);
    var i :| 0 <= i < |ps| && ps[i] == p;
    OccursAt(ps, e.mutant.id, i, i);
    var k :| 0 <= k < |p.applied| && p.applied[k] == e;
    assert IdsOf(AppliedOf(p.applied))[k] == e.mutant.id;
  }

  lemma PlacementHasItsIds(root: Node, ctx: Context, p: Planned, e: Entry)
    requires DistinctLabels(root) && PlanInstrumentation(root, ctx).Ok? && DistinctIds(root, ctx)
    requires p in PlanInstrumentation(root, ctx).value && e in p.applied
    ensures p.node.site.Some?
      && PlacedOnce(PlanOf(PlanInstrumentation(root, ctx).value), p.node.site.value, e.mutant.id)
  {
    var ps, id := PlanInstrumentation(root, ctx).value, e.mutant.id;
    var plan := PlanOf(ps);
    PlannedAt(root, ctx, p);
    OnceHere(root, ctx, p, e);
    forall other | other in plan && other != p.node.site.value ensures id !in IdsOf(plan[other].applied) {
      PlanHolds(ps, other);
      var q :| q in ps && q.node.site == Some(other) && plan[other] == PlacementOf(q);
      NotElsewhere(root, ctx, p, q, id);
    }
  }

  lemma {:induction false} ChosenIsOnly(applied: seq<Applied>, k: int)
    requires 0 <= k < |applied| && Hits(IdsOf(applied), applied[k].id) == 1
    ensures Chosen(applied, Some(applied[k].id)) == Some(applied[k].tree)
  {
    ChosenNeedsId(applied, Some(applied[k].id));
    assert IdsOf(applied)[k] == applied[k].id;
    ChosenIsApplied(applied, Some(applied[k].id));
    var i :| 0 <= i < |applied| && applied[i].id == applied[k].id
      && Chosen(applied, Some(applied[k].id)).value == applied[i].tree;
    if i != k {
      TwiceCounted(IdsOf(applied), i, k);
    }
  }

  lemma TwiceCounted<T>(s: seq<T>, i: int, k: int)
    requires 0 <= i < |s| && 0 <= k < |s| && i != k && s[i] == s[k]
    ensures multiset(s)[s[k]] >= 2
  {
    var a, b := if i < k then i else k, if i < k then k else i;
    assert s == s[..a] + [s[a]] + s[a + 1..b] + [s[b]] + s[b + 1..];
  }

  // ---- Where a mutant is placed ----

  lemma PlacementOfMutant(root: Node, ctx: Context, m: Mutant) returns (p: Planned, e: Entry)
    requires DistinctLabels(root) && PlanInstrumentation(root, ctx).Ok? && m in LiveIn(root, ctx)
    ensures p in PlanInstrumentation(root, ctx).value && e in p.applied && e.mutant == m
  {
    var ps := PlanInstrumentation(root, ctx).value;
    MutantsAreConserved(root, ctx);
    var ms := Map(MutantOf, PlacedEntries(ps));
    assert m in multiset(ms);
    var i :| 0 <= i < |ms| && ms[i] == m;
    p, e := PlannedEntry(ps, PlacedEntries(ps)[i]);
  }

  lemma {:induction false} PlannedEntry(ps: seq<Planned>, e: Entry) returns (p: Planned, e': Entry)
    requires e in PlacedEntries(ps)
    ensures p in ps && e in p.applied && e' == e
  {
    if e in ps[0].applied {
      p, e' := ps[0], e;
    } else {
      p, e' := PlannedEntry(ps[1..], e);
    }
  }

  /** A placed mutant's program is the original with the claimed tree replaced by what the placer makes of it. */
  lemma {:induction false} MutatedBy(root: Node, ctx: Context, p: Planned, e: Entry)
    requires DistinctLabels(root) && PlanInstrumentation(root, ctx).Ok? && DistinctIds(root, ctx)
    requires p in PlanInstrumentation(root, ctx).value && e in p.applied
    ensures p.node.site.Some?
    ensures Mutated(root, PlanOf(PlanInstrumentation(root, ctx).value), Some(e.mutant.id))
         == Replace(root, p.node.site.value, Effective(p.placer, p.node, e.tree))
  {
    var plan, id := PlanOf(PlanInstrumentation(root, ctx).value), e.mutant.id;
    PlacementIsSound(root, ctx, p);
    PlannedAt(root, ctx, p);
    PlacementHasItsIds(root, ctx, p, e);
    var l := p.node.site.value;
    var k :| 0 <= k < |p.applied| && p.applied[k] == e;
    ChosenIsOnly(plan[l].applied, k);
    forall other | other in plan && other != l ensures Chosen(plan[other].applied, Some(id)).None? {
      ChosenNeedsId(plan[other].applied, Some(id));
    }
    FoundIffLabelled(root, l);
    MutatedIsReplacement(root, plan, l, Some(id));
  }

  // Replacing inside the claimed tree is replacing inside the program.
  lemma {:induction false} ReplaceInside(n: Node, l: Label, q: Label, r: Node)
    requires DistinctLabels(n) && Find(n, l).Some? && q in Labels(Find(n, l).value)
    ensures Replace(n, l, Replace(Find(n, l).value, q, r)) == Replace(n, q, r) && q in Labels(n)
  {
    FoundIffLabelled(n, l);
    if n.site != Some(l) {
      var t := Replace(Find(n, l).value, q, r);
      var k := ChildWith(n.children, l);
      DistinctBelow(n, k);
      FoundBelow(n, k, l);
      ReplaceInside(n.children[k], l, q, r);
      LabelsBelow(n, k);
      DistinctBelow(n, k);
      forall i | 0 <= i < |n.children| ensures Replace(n.children[i], l, t) == Replace(n.children[i], q, r) {
        if i != k {
          DifferentChildren(n, i, k);
          ReplaceAbsent(n.children[i], l, t);
          ReplaceAbsent(n.children[i], q, r);
        }
      }
      assert ReplaceAll(n.children, l, t) == ReplaceAll(n.children, q, r);
    }
  }

  lemma {:induction false} ChildWith(ns: seq<Node>, l: Label) returns (k: int)
    requires l in LabelsAll(ns)
    ensures 0 <= k < |ns| && l in Labels(ns[k])
  {
    if l in Labels(ns[0]) {
      k := 0;
    } else {
      k := ChildWith(ns[1..], l);
      k := k + 1;
    }
  }

  lemma DifferentChildren(n: Node, i: int, k: int)
    requires DistinctLabels(n) && 0 <= i < |n.children| && 0 <= k < |n.children| && i != k
    ensures forall l <- Labels(n.children[k]) :: l !in Labels(n.children[i])
  {
    assert Distinct(LabelsAll(n.children)) by {
      assert LabelsAll(n.children) == Labels(n)[if n.site.Some? then 1 else 0..];
    }
    DifferentIn(n.children, if i < k then i else k, if i < k then k else i);
  }

  lemma {:induction false} DifferentIn(ns: seq<Node>, a: int, b: int)
    requires Distinct(LabelsAll(ns)) && 0 <= a < b < |ns|
    ensures forall l <- Labels(ns[a]) :: l !in Labels(ns[b])
  {
    DistinctConcat(Labels(ns[0]), LabelsAll(ns[1..]));
    if a == 0 {
      LabelsInAll(ns[1..], b - 1);
    } else {
      DifferentIn(ns[1..], a - 1, b - 1);
    }
  }
}
