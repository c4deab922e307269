// Frames: a node with the chain of its ancestors, as the planning fold meets it.
module Frames {
  import opened Wrappers
  import opened Syntax
  import opened Placers
  import opened Instrumentation
  import opened Planning
  import opened PlanningLaws
  import opened PlanningResults

  // The frame of the node with this label.
  function FrameOf(frame: Frame, l: Label): Option<Frame>
    decreases frame.node, 1
  {
    if frame.node.site == Some(l) then Some(frame) else FrameBelow(frame, frame.node.children, l)
  }

  function FrameBelow(frame: Frame, children: seq<Node>, l: Label): Option<Frame>
    decreases children, 0
  {
    if children == [] then None
    else
      var first := FrameOf(Frame(children[0], Some(frame)), l);
      if first.Some? then first else FrameBelow(frame, children[1..], l)
  }

  lemma {:induction false} FrameIffLabelled(frame: Frame, l: Label)
    ensures FrameOf(frame, l).Some? <==> l in Labels(frame.node)
    decreases frame.node, 1
  {
    FrameIffLabelledBelow(frame, frame.node.children, l);
  }

  lemma {:induction false} FrameIffLabelledBelow(frame: Frame, children: seq<Node>, l: Label)
    ensures FrameBelow(frame, children, l).Some? <==> l in LabelsAll(children)
    decreases children, 0
  {
    if children != [] {
      FrameIffLabelled(Frame(children[0], Some(frame)), l);
      FrameIffLabelledBelow(frame, children[1..], l);
    }
  }

  lemma {:induction false} FrameBelowAt(frame: Frame, children: seq<Node>, i: int, l: Label)
    requires Distinct(LabelsAll(children)) && 0 <= i < |children| && l in Labels(children[i])
    ensures FrameBelow(frame, children, l) == FrameOf(Frame(children[i], Some(frame)), l)
    ensures l in LabelsAll(children)
  {
    DistinctConcat(Labels(children[0]), LabelsAll(children[1..]));
    LabelsInAll(children, i);
    FrameIffLabelled(Frame(children[0], Some(frame)), l);
    if i > 0 {
      LabelsInAll(children[1..], i - 1);
      FrameBelowAt(frame, children[1..], i - 1, l);
    }
  }

  // Looking a label up from a node is looking it up from the child that holds it.
  lemma {:induction false} ChildFrameOf(frame: Frame, i: int, l: Label)
    requires DistinctLabels(frame.node) && 0 <= i < |frame.node.children| && l in Labels(frame.node.children[i])
    ensures FrameOf(frame, l) == FrameOf(Frame(frame.node.children[i], Some(frame)), l)
  {
    var children := frame.node.children;
    assert Distinct(LabelsAll(children)) by {
      assert LabelsAll(children) == Labels(frame.node)[if frame.node.site.Some? then 1 else 0..];
    }
    FrameBelowAt(frame, children, i, l);
    DistinctBelow(frame.node, i);
  }

  // ---- The frames the fold enters ----

  ghost predicate Enters(frame: Frame, ctx: Context, g: Frame)
    decreases frame.node
  {
    !IsSkipped(frame.node, ctx)
      && (g == frame || exists c <- frame.node.children :: Enters(Frame(c, Some(frame)), ctx, g))
  }

  lemma {:induction false} VisitedFrame(frame: Frame, ctx: Context, g: Frame)
    requires DistinctLabels(frame.node) && Enters(frame, ctx, g) && g.node.site.Some?
    ensures g.node.site.value in Labels(frame.node) && FrameOf(frame, g.node.site.value) == Some(g)
    decreases frame.node
  {
    if g == frame {
      assert Labels(frame.node)[0] == g.node.site.value;
    } else {
      var i :| 0 <= i < |frame.node.children| && Enters(Frame(frame.node.children[i], Some(frame)), ctx, g);
      DistinctBelow(frame.node, i);
      VisitedFrame(Frame(frame.node.children[i], Some(frame)), ctx, g);
      ChildFrameOf(frame, i, g.node.site.value);
      LabelsBelow(frame.node, i);
    }
  }

  lemma {:induction false} VisitedIsLocated(frame: Frame, ctx: Context, g: Frame)
    requires Located(frame.node, ctx) && Enters(frame, ctx, g)
    ensures g.node.site.Some? && Located(g.node, ctx) && !IsSkipped(g.node, ctx)
    decreases frame.node
  {
    if g != frame {
      var c :| c in frame.node.children && Enters(Frame(c, Some(frame)), ctx, g);
      VisitedIsLocated(Frame(c, Some(frame)), ctx, g);
    }
  }

  lemma {:induction false} VisitedInside(a: Frame, b: Frame, ctx: Context, c: Frame)
    requires Enters(a, ctx, b) && Enters(b, ctx, c)
    ensures Enters(a, ctx, c)
    decreases a.node
  {
    if a != b {
      var child :| child in a.node.children && Enters(Frame(child, Some(a)), ctx, b);
      VisitedInside(Frame(child, Some(a)), b, ctx, c);
    }
  }

  lemma {:induction false} ParentVisited(frame: Frame, ctx: Context, g: Frame)
    requires Enters(frame, ctx, g) && g != frame
    ensures g.parent.Some? && Enters(frame, ctx, g.parent.value) && Enters(g.parent.value, ctx, g)
    decreases frame.node
  {
    var c :| c in frame.node.children && Enters(Frame(c, Some(frame)), ctx, g);
    var child := Frame(c, Some(frame));
    if g != child {
      ParentVisited(child, ctx, g);
      assert Enters(frame, ctx, g.parent.value);
    }
  }

  // The nearest claim is entered before what is attached to it.
  lemma {:induction false} HomeVisited(root: Node, ctx: Context, g: Frame)
    requires Enters(Root(root), ctx, g) && Home(g).Some?
    ensures Enters(Root(root), ctx, Home(g).value) && Enters(Home(g).value, ctx, g) && Claimable(Home(g).value)
    decreases g
  {
    if Claimable(g) {
      NotSkipped(Root(root), ctx, g);
    } else {
      ParentVisited(Root(root), ctx, g);
      HomeVisited(root, ctx, g.parent.value);
      VisitedInside(Home(g).value, g.parent.value, ctx, g);
    }
  }

  lemma {:induction false} NotSkipped(frame: Frame, ctx: Context, g: Frame)
    requires Enters(frame, ctx, g)
    ensures !IsSkipped(g.node, ctx)
    decreases frame.node
  {
    if g != frame {
      var c :| c in frame.node.children && Enters(Frame(c, Some(frame)), ctx, g);
      NotSkipped(Frame(c, Some(frame)), ctx, g);
    }
  }

  // ---- Attachments by frame ----

  ghost predicate Attaches(g: Frame, ctx: Context, a: Attached) {
    a.mutant in LiveAt(g.node, ctx) && Home(g).Some? && a.target == Home(g).value.node
  }

  lemma {:induction false} AttachedFrom(frame: Frame, ctx: Context, a: Attached) returns (g: Frame)
    requires a in AttachedIn(frame, ctx)
    ensures Enters(frame, ctx, g) && Attaches(g, ctx, a)
    decreases frame.node, 1
  {
    if a in AttachedAt(frame, ctx) {
      g := frame;
    } else {
      var c;
      c, g := AttachedFromBelow(frame, frame.node.children, ctx, a);
    }
  }

  lemma {:induction false} AttachedFromBelow(frame: Frame, children: seq<Node>, ctx: Context, a: Attached)
    returns (c: Node, g: Frame)
    requires a in AttachedInAll(frame, children, ctx)
    ensures c in children && Enters(Frame(c, Some(frame)), ctx, g) && Attaches(g, ctx, a)
    decreases children, 0
  {
    if a in AttachedIn(Frame(children[0], Some(frame)), ctx) {
      c := children[0];
      g := AttachedFrom(Frame(children[0], Some(frame)), ctx, a);
    } else {
      c, g := AttachedFromBelow(frame, children[1..], ctx, a);
    }
  }

  lemma {:induction false} FrameAttaches(frame: Frame, ctx: Context, g: Frame, a: Attached)
    requires Enters(frame, ctx, g) && Attaches(g, ctx, a)
    ensures a in AttachedIn(frame, ctx)
    decreases frame.node, 1
  {
    if g == frame {
      var live := LiveAt(frame.node, ctx);
      var i :| 0 <= i < |live| && live[i] == a.mutant;
      assert AttachedAt(frame, ctx)[i] == a;
    } else {
      var i :| 0 <= i < |frame.node.children| && Enters(Frame(frame.node.children[i], Some(frame)), ctx, g);
      FrameAttaches(Frame(frame.node.children[i], Some(frame)), ctx, g, a);
      AttachedBelow(frame, frame.node.children, ctx, i, a);
    }
  }

  lemma {:induction false} AttachedBelow(frame: Frame, children: seq<Node>, ctx: Context, i: int, a: Attached)
    requires 0 <= i < |children| && a in AttachedIn(Frame(children[i], Some(frame)), ctx)
    ensures a in AttachedInAll(frame, children, ctx)
    decreases children, 0
  {
    if i > 0 {
      AttachedBelow(frame, children[1..], ctx, i - 1, a);
    }
  }

  lemma {:induction false} AttachedIsEntry(n: Node, attached: seq<Attached>, a: Attached)
    requires a in attached && a.target.site == n.site
    ensures EntryOf(a) in EntriesFor(n, attached)
  {
    if attached[0] != a {
      AttachedIsEntry(n, attached[1..], a);
    }
  }

  lemma {:induction false} EntryIsAttached(n: Node, attached: seq<Attached>, e: Entry)
    requires e in EntriesFor(n, attached)
    ensures exists a <- attached :: a.target.site == n.site && e == EntryOf(a)
  {
    if !(attached[0].target.site == n.site && e == EntryOf(attached[0])) {
      EntryIsAttached(n, attached[1..], e);
      var a :| a in attached[1..] && a.target.site == n.site && e == EntryOf(a);
      assert a in attached;
    }
  }

  // ---- When planning succeeds ----

  // What planning asks of a node's live mutants: a claim above it whose tree holds their nodes and keeps its kind.
  predicate Plannable(g: Frame, ctx: Context) {
    forall m <- LiveAt(g.node, ctx) ::
      && Home(g).Some? && ApplyMutant(m, Home(g).value.node).Ok?
      && MatchesPlacer(ClaimingPlacer(FactsOf(Home(g).value)).value,
        Unwrap(ApplyMutant(m, Home(g).value.node).value).kind)
  }

  ghost predicate AllPlannable(frame: Frame, ctx: Context) {
    forall g :: Enters(frame, ctx, g) ==> Plannable(g, ctx)
  }

  lemma {:induction false} NoneMismatches(placer: Placer, applied: seq<Entry>)
    ensures FirstMismatch(placer, applied).None? <==> forall e <- applied :: MatchesPlacer(placer, Unwrap(e.tree).kind)
  {
    if applied != [] {
      NoneMismatches(placer, applied[1..]);
    }
  }

  // Two frames of one program with the same label are the same frame.
  lemma {:induction false} OneFrame(root: Node, ctx: Context, g: Frame, h: Frame)
    requires DistinctLabels(root) && Enters(Root(root), ctx, g) && Enters(Root(root), ctx, h)
    requires g.node.site.Some? && g.node.site == h.node.site
    ensures g == h
  {
    VisitedFrame(Root(root), ctx, g);
    VisitedFrame(Root(root), ctx, h);
  }

  lemma {:induction false} PlannableMatches(root: Node, ctx: Context, f: Frame)
    requires DistinctLabels(root) && Located(root, ctx) && AllPlannable(Root(root), ctx) && Enters(Root(root), ctx, f)
    ensures HousedAt(f, ctx) && MatchedAt(f, AttachedIn(f, ctx))
  {
    assert Plannable(f, ctx);
    assert LiveAt(f.node, ctx) != [] ==> LiveAt(f.node, ctx)[0] in LiveAt(f.node, ctx);
    VisitedIsLocated(Root(root), ctx, f);
    if Claimable(f) {
      var placer := ClaimingPlacer(FactsOf(f)).value;
      var entries := EntriesFor(f.node, AttachedIn(f, ctx));
      forall e | e in entries ensures MatchesPlacer(placer, Unwrap(e.tree).kind) {
        EntryIsAttached(f.node, AttachedIn(f, ctx), e);
        var a :| a in AttachedIn(f, ctx) && a.target.site == f.node.site && e == EntryOf(a);
        var g := AttachedFrom(f, ctx, a);
        VisitedInside(Root(root), f, ctx, g);
        HomeVisited(root, ctx, g);
        OneFrame(root, ctx, Home(g).value, f);
        assert Plannable(g, ctx);
      }
      NoneMismatches(placer, entries);
    }
  }

  lemma {:induction false} PlannableIsChecked(root: Node, ctx: Context, frame: Frame)
    requires DistinctLabels(root) && Located(root, ctx) && AllPlannable(Root(root), ctx)
    requires IsSkipped(frame.node, ctx) || Enters(Root(root), ctx, frame)
    ensures Checked(frame, ctx)
    decreases frame.node, 1
  {
    if !IsSkipped(frame.node, ctx) {
      PlannableMatches(root, ctx, frame);
      PlannableIsCheckedBelow(root, ctx, frame, 0);
    }
  }

  lemma {:induction false} PlannableIsCheckedBelow(root: Node, ctx: Context, frame: Frame, i: nat)
    requires DistinctLabels(root) && Located(root, ctx) && AllPlannable(Root(root), ctx)
    requires Enters(Root(root), ctx, frame) && !IsSkipped(frame.node, ctx) && i <= |frame.node.children|
    ensures CheckedAll(frame, frame.node.children[i..], ctx)
    decreases frame.node, 0, |frame.node.children| - i
  {
    if i < |frame.node.children| {
      var c := frame.node.children[i];
      if !IsSkipped(c, ctx) {
        assert Enters(frame, ctx, Frame(c, Some(frame)));
        VisitedInside(Root(root), frame, ctx, Frame(c, Some(frame)));
      }
      PlannableIsChecked(root, ctx, Frame(c, Some(frame)));
      PlannableIsCheckedBelow(root, ctx, frame, i + 1);
      assert frame.node.children[i..][1..] == frame.node.children[i + 1..];
    }
  }

  lemma {:induction false} CheckedVisited(frame: Frame, ctx: Context, g: Frame)
    requires Checked(frame, ctx) && Enters(frame, ctx, g)
    ensures HousedAt(g, ctx) && MatchedAt(g, AttachedIn(g, ctx))
    decreases frame.node
  {
    if g != frame {
      var i :| 0 <= i < |frame.node.children| && Enters(Frame(frame.node.children[i], Some(frame)), ctx, g);
      CheckedAt(frame, frame.node.children, ctx, i);
      CheckedVisited(Frame(frame.node.children[i], Some(frame)), ctx, g);
    }
  }

  lemma {:induction false} CheckedAt(frame: Frame, children: seq<Node>, ctx: Context, i: int)
    requires CheckedAll(frame, children, ctx) && 0 <= i < |children|
    ensures Checked(Frame(children[i], Some(frame)), ctx)
    decreases children, 0
  {
    if i > 0 {
      CheckedAt(frame, children[1..], ctx, i - 1);
    }
  }

  lemma {:induction false} CheckedIsPlannable(root: Node, ctx: Context, g: Frame)
    requires Checked(Root(root), ctx) && Enters(Root(root), ctx, g)
    ensures Plannable(g, ctx)
  {
    CheckedVisited(Root(root), ctx, g);
    if LiveAt(g.node, ctx) != [] {
      var h := Home(g).value;
      HomeVisited(root, ctx, g);
      CheckedVisited(Root(root), ctx, h);
      var placer, entries := ClaimingPlacer(FactsOf(h)).value, EntriesFor(h.node, AttachedIn(h, ctx));
      NoneMismatches(placer, entries);
      forall m | m in LiveAt(g.node, ctx) ensures MatchesPlacer(placer, Unwrap(ApplyMutant(m, h.node).value).kind) {
        FrameAttaches(h, ctx, g, Attached(h.node, m));
        AttachedIsEntry(h.node, AttachedIn(h, ctx), Attached(h.node, m));
        assert Planned(h.node, placer, entries) in SelfPlacement(h, AttachedIn(h, ctx));
      }
    }
  }

  /** Planning succeeds exactly when every node the fold comes to has a span and each live mutant has a claim at or
      above its node whose tree holds that node and, with it replaced, still is of the kind the claim's placer takes. */
  lemma {:induction false} PlanningSucceedsExactly(root: Node, ctx: Context)
    requires DistinctLabels(root)
    ensures PlanInstrumentation(root, ctx).Ok? <==> Located(root, ctx) && AllPlannable(Root(root), ctx)
  {
    if PlanInstrumentation(root, ctx).Ok? {
      FoldLocates(Root(root), FoldState([], []), ctx);
      FoldAdds(Root(root), FoldState([], []), ctx);
      forall g | Enters(Root(root), ctx, g) ensures Plannable(g, ctx) {
        CheckedIsPlannable(root, ctx, g);
      }
    }
    if Located(root, ctx) && AllPlannable(Root(root), ctx) {
      if !IsSkipped(root, ctx) {
        assert Enters(Root(root), ctx, Root(root));
      }
      PlannableIsChecked(root, ctx, Root(root));
      FoldSucceeds(Root(root), FoldState([], []), ctx);
    }
  }
}
