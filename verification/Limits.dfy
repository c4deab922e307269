// Where the instrumented program does not mean what the mutant means, and exactly when.
//
// The switch-case placer keeps the test of the case it rewrites, so a mutant whose node lies in a test is
// lost. An expression placer that rewrites a node used as a reference turns the reference into a value:
// the claiming rules protect most references from that, but none in parentheses or under `++` and `--`.
module Limits {
  import opened Wrappers
  import opened Syntax
  import opened Semantics
  import opened Placers
  import opened Preservation
  import opened Instrumentation
  import opened Planning
  import opened PlanningLaws
  import opened PlanningResults
  import opened Conservation
  import opened Frames
  import opened Placements

  // ---- Mutants in case tests ----

  // A case's tree with a mutant in it is kept whole exactly when the mutant does not change the case's test.
  lemma {:induction false} RealisedIffTestKept(n: Node, q: Label, r: Node)
    requires n.kind.SwitchCase? && WellFormedCase(n) && DistinctLabels(n) && q in Labels(n)
    ensures Effective(SwitchCasePlacer, n, Replace(n, q, r)) == Replace(n, q, r)
      <==> if n.site == Some(q) then r.site == n.site && r.kind == n.kind && TestOf(r) == TestOf(n)
           else n.kind.hasTest && q in Labels(n.children[0]) ==> Find(n.children[0], q) == Some(r)
  {
    var t := Replace(n, q, r);
    if n.site == Some(q) {
      assert r.kind == n.kind ==> r.children == TestOf(r) + Consequent(r);
    } else {
      assert t.children == TestOf(t) + Consequent(t);
      if n.kind.hasTest {
        var test := n.children[0];
        assert TestOf(t) == [Replace(test, q, r)];
        FoundIffLabelled(test, q);
        DistinctBelow(n, 0);
        if q in Labels(test) {
          SelfReplace(test, q, r);
        } else {
          ReplaceAbsent(test, q, r);
        }
        assert Effective(SwitchCasePlacer, n, t) == t <==> TestOf(n) == TestOf(t) by {
          if Effective(SwitchCasePlacer, n, t) == t {
            assert (TestOf(n) + Consequent(t))[0] == t.children[0];
          }
        }
      }
    }
  }

  // Replacing a node changes the tree unless the node is already there.
  lemma {:induction false} SelfReplace(n: Node, q: Label, r: Node)
    requires DistinctLabels(n) && q in Labels(n)
    ensures Replace(n, q, r) == n <==> Find(n, q) == Some(r)
  {
    FoundIffLabelled(n, q);
    if n.site != Some(q) {
      var k := ChildWith(n.children, q);
      DistinctBelow(n, k);
      FoundBelow(n, k, q);
      SelfReplace(n.children[k], q, r);
      if Find(n, q) == Some(r) {
        forall i | 0 <= i < |n.children| ensures Replace(n.children[i], q, r) == n.children[i] {
          if i != k {
            DifferentChildren(n, i, k);
            ReplaceAbsent(n.children[i], q, r);
          }
        }
        assert ReplaceAll(n.children, q, r) == n.children;
      } else {
        assert ReplaceAll(n.children, q, r)[k] != n.children[k];
      }
    }
  }

  // The mutant leaves the test of a case it is placed at as it is.
  predicate KeepsTest(n: Node, m: Mutant) {
    n.kind.SwitchCase? ==>
      if n.site == Some(m.original) then
        m.replacement.site == n.site && m.replacement.kind == n.kind && TestOf(m.replacement) == TestOf(n)
      else
        n.kind.hasTest && |n.children| > 0 && m.original in Labels(n.children[0]) ==>
          Find(n.children[0], m.original) == Some(m.replacement)
  }

  lemma {:induction false} CaseFound(n: Node, l: Label)
    requires CasesWellFormed(n) && Find(n, l).Some?
    ensures CasesWellFormed(Find(n, l).value)
    decreases n, 1
  {
    if n.site != Some(l) {
      CaseFoundAll(n.children, l);
    }
  }

  lemma {:induction false} CaseFoundAll(ns: seq<Node>, l: Label)
    requires (forall n <- ns :: CasesWellFormed(n)) && FindAll(ns, l).Some?
    ensures CasesWellFormed(FindAll(ns, l).value)
    decreases ns, 0
  {
    if Find(ns[0], l).Some? {
      CaseFound(ns[0], l);
    } else {
      CaseFoundAll(ns[1..], l);
    }
  }

  /** A placed mutant is realised, its placer keeping the whole of its tree, exactly when it does not change the test
      of a case it is placed at. */
  lemma {:induction false} RealisedExactly(root: Node, ctx: Context, p: Planned, e: Entry)
    requires DistinctLabels(root) && CasesWellFormed(root) && PlanInstrumentation(root, ctx).Ok?
    requires p in PlanInstrumentation(root, ctx).value && e in p.applied
    ensures Effective(p.placer, p.node, e.tree) == e.tree <==> KeepsTest(p.node, e.mutant)
  {
    PlacementIsSound(root, ctx, p);
    if p.node.kind.SwitchCase? {
      CaseFound(root, p.node.site.value);
      RealisedIffTestKept(p.node, e.mutant.original, e.mutant.replacement);
    }
  }

  // ---- References at one node ----

  /** For every plan and every active mutant, the first child of a reference context is handed over as in the program
      the mutant stands for exactly when no placement is at what is a reference there. */
  lemma {:induction false} ReceiverKeptExactly(k: Kind, cs: seq<Node>, plan: Plan, active: Option<Id>)
    requires UsesReference(k) && cs != [] && Accepted(cs[0], plan)
    ensures ReceiverOf(k, RebuildAll(cs, plan)) == ReceiverOf(k, MutatedAll(cs, plan, active))
      <==> !(PlacedAt(plan, Unwrap(cs[0])) && IsReference(k, Unwrap(Mutated(cs[0], plan, active)).kind))
  {
    UnwrapRebuilds(cs[0], plan);
    UnwrapMutates(cs[0], plan, active);
  }

  lemma {:induction false} UnwrapMutates(n: Node, plan: Plan, active: Option<Id>)
    requires Accepted(n, plan)
    ensures !PlacedAt(plan, Unwrap(n)) ==> Unwrap(Mutated(n, plan, active)).kind == Unwrap(n).kind
  {
    if n.kind.Paren? && |n.children| == 1 {
      UnwrapMutates(n.children[0], plan, active);
    }
  }

  // The placements at a node and in the parentheses around it are accepted by their placers.
  predicate Accepted(n: Node, plan: Plan) {
    && (PlacedAt(plan, n) ==> PlacerAccepts(plan[n.site.value], n))
    && (n.kind.Paren? && |n.children| == 1 ==> Accepted(n.children[0], plan))
  }

  lemma {:induction false} UnwrapRebuilds(n: Node, plan: Plan)
    requires Accepted(n, plan)
    ensures !PlacedAt(plan, Unwrap(n)) ==> Unwrap(Rebuild(n, plan)).kind == Unwrap(n).kind
    ensures PlacedAt(plan, Unwrap(n)) ==> var k := Unwrap(Rebuild(n, plan)).kind; !k.Identifier? && !k.Member?
  {
    if n.kind.Paren? && |n.children| == 1 {
      UnwrapRebuilds(n.children[0], plan);
    } else if PlacedAt(plan, n) {
      var base := Node(n.site, n.kind, RebuildAll(n.children, plan));
      PlaceShape(plan[n.site.value], base);
      assert Rebuild(n, plan) == Place(plan[n.site.value], base);
    }
  }

  // ---- The context a node stands in ----

  // The reference context a node is the first operand of, looking out through parentheses.
  function ContextOf(f: Frame): Option<Kind>
    decreases f
  {
    if f.parent.None? then None
    else
      var parent := f.parent.value;
      if parent.node.children == [] || parent.node.children[0] != f.node then None
      else if UsesReference(parent.node.kind) then Some(parent.node.kind)
      else if parent.node.kind.Paren? && |parent.node.children| == 1 then ContextOf(parent)
      else None
  }

  predicate StandsAsReference(f: Frame) {
    ContextOf(f).Some? && IsReference(ContextOf(f).value, f.node.kind)
  }

  /** The claiming rules refuse a node that stands as a reference unless it is in parentheses or the operand of `++` or
      `--`. */
  lemma ClaimableReference(f: Frame)
    requires StandsAsReference(f)
    ensures Claimable(f) <==> f.parent.value.node.kind.Paren? || f.parent.value.node.kind.Update?
  {
    var parent := f.parent.value.node;
    assert IsChild(parent, 0, f.node);
    assert IsExpressionKind(f.node.kind);
  }

  // The innermost frame of a node in parentheses.
  function Inner(f: Frame): (inner: Frame)
    ensures inner.node == Unwrap(f.node)
    decreases f.node
  {
    if f.node.kind.Paren? && |f.node.children| == 1 then Inner(Frame(f.node.children[0], Some(f))) else f
  }

  lemma {:induction false} InnerContext(f: Frame)
    ensures ContextOf(Inner(f)) == ContextOf(f)
    decreases f.node
  {
    if f.node.kind.Paren? && |f.node.children| == 1 {
      InnerContext(Frame(f.node.children[0], Some(f)));
    }
  }

  lemma {:induction false} InnerFrame(f: Frame)
    requires DistinctLabels(f.node) && Unwrap(f.node).site.Some?
    ensures Unwrap(f.node).site.value in Labels(f.node)
    ensures FrameOf(f, Unwrap(f.node).site.value) == Some(Inner(f))
    decreases f.node
  {
    if f.node.kind.Paren? && |f.node.children| == 1 {
      DistinctBelow(f.node, 0);
      InnerFrame(Frame(f.node.children[0], Some(f)));
      ChildFrameOf(f, 0, Unwrap(f.node).site.value);
      LabelsBelow(f.node, 0);
    } else {
      assert Labels(f.node)[0] == f.node.site.value;
    }
  }

  // The frame of the context itself, whose first operand is the node or holds it in parentheses.
  lemma {:induction false} ContextFrame(root: Node, ctx: Context, f: Frame) returns (c: Frame)
    requires Enters(Root(root), ctx, f) && ContextOf(f).Some?
    ensures Enters(Root(root), ctx, c) && c.node.kind == ContextOf(f).value && UsesReference(c.node.kind)
    ensures |c.node.children| > 0 && Unwrap(c.node.children[0]) == Unwrap(f.node)
    ensures f.parent.Some? && f.parent.value.node.kind.Paren? ==>
      c.node.children[0].kind.Paren? && |c.node.children[0].children| == 1
    ensures f.parent.Some? && !f.parent.value.node.kind.Paren? ==> c == f.parent.value
    decreases f
  {
    ParentVisited(Root(root), ctx, f);
    var parent := f.parent.value;
    if UsesReference(parent.node.kind) {
      c := parent;
    } else {
      c := ContextFrame(root, ctx, parent);
      if !parent.parent.value.node.kind.Paren? {
        assert c == parent.parent.value && c.node.children[0] == parent.node;
      }
    }
  }

  // ---- References in a program ----

  // No live mutant's nearest claim stands as a reference.
  ghost predicate SparesReferences(root: Node, ctx: Context) {
    forall g :: Enters(Root(root), ctx, g) && LiveAt(g.node, ctx) != [] && Home(g).Some? ==>
      !StandsAsReference(Home(g).value)
  }

  ghost predicate LiveBelow(root: Node, ctx: Context, g: Frame, l: Label) {
    Enters(Root(root), ctx, g) && LiveAt(g.node, ctx) != [] && Home(g).Some? && Home(g).value.node.site == Some(l)
  }

  lemma {:induction false} ClaimsArePlaced(frame: Frame, ctx: Context)
    ensures forall c <- ClaimsIn(frame, ctx), p <- Emitted(c) :: p in PlacementsIn(frame, ctx)
    decreases frame.node, 1
  {
    if !IsSkipped(frame.node, ctx) {
      ClaimsArePlacedBelow(frame, frame.node.children, ctx);
    }
  }

  lemma {:induction false} ClaimsArePlacedBelow(frame: Frame, children: seq<Node>, ctx: Context)
    ensures forall c <- ClaimsInAll(frame, children, ctx), p <- Emitted(c) :: p in PlacementsInAll(frame, children, ctx)
    decreases children, 0
  {
    if children != [] {
      ClaimsArePlaced(Frame(children[0], Some(frame)), ctx);
      ClaimsArePlacedBelow(frame, children[1..], ctx);
    }
  }

  lemma PlacedHasLive(root: Node, ctx: Context, l: Label) returns (g: Frame)
    requires DistinctLabels(root) && PlanInstrumentation(root, ctx).Ok?
    requires l in PlanOf(PlanInstrumentation(root, ctx).value)
    ensures LiveBelow(root, ctx, g, l)
  {
    var frame, ps := Root(root), PlanInstrumentation(root, ctx).value;
    PlanHolds(ps, l);
    var p :| p in ps && p.node.site == Some(l);
    PlanFacts(root, ctx);
    PlacementsAreClaims(frame, ctx);
    var c :| c in ClaimsIn(frame, ctx) && c.applied != [] && Emitted(c) == [p];
    ClaimHoldsAll(frame, ctx);
    EntryIsAttached(c.node, AttachedIn(frame, ctx), c.applied[0]);
    var a :| a in AttachedIn(frame, ctx) && a.target.site == c.node.site && c.applied[0] == EntryOf(a);
    g := AttachedFrom(frame, ctx, a);
  }

  lemma LiveIsPlaced(root: Node, ctx: Context, g: Frame, l: Label)
    requires DistinctLabels(root) && PlanInstrumentation(root, ctx).Ok? && LiveBelow(root, ctx, g, l)
    ensures l in PlanOf(PlanInstrumentation(root, ctx).value)
  {
    var frame, ps := Root(root), PlanInstrumentation(root, ctx).value;
    PlanFacts(root, ctx);
    var a := Attached(Home(g).value.node, LiveAt(g.node, ctx)[0]);
    FrameAttaches(frame, ctx, g, a);
    TargetsAreClaims(frame, ctx, ClaimsIn(frame, ctx));
    var c :| c in ClaimsIn(frame, ctx) && c.node == a.target;
    ClaimHoldsAll(frame, ctx);
    ClaimFacts(frame, ctx);
    AttachedIsEntry(c.node, AttachedIn(frame, ctx), a);
    ClaimsArePlaced(frame, ctx);
    assert Emitted(c)[0] in ps && Emitted(c)[0].node == c.node;
    PlanHolds(ps, l);
  }

  // Looking a label up from a node of the program finds what looking it up from the root finds.
  ghost predicate FrameIn(root: Node, f: Frame) {
    DistinctLabels(f.node) && forall l <- Labels(f.node) :: FrameOf(Root(root), l) == FrameOf(f, l)
  }

  lemma ChildFrameIn(root: Node, f: Frame, i: int)
    requires FrameIn(root, f) && 0 <= i < |f.node.children|
    ensures FrameIn(root, Frame(f.node.children[i], Some(f)))
  {
    DistinctBelow(f.node, i);
    LabelsBelow(f.node, i);
    forall l | l in Labels(f.node.children[i])
      ensures FrameOf(Root(root), l) == FrameOf(Frame(f.node.children[i], Some(f)), l)
    {
      ChildFrameOf(f, i, l);
    }
  }

  // A node of the program that stands as a reference in its context, by its label.
  lemma ReferenceFrame(root: Node, f: Frame)
    requires FrameIn(root, f) && UsesReference(f.node.kind) && |f.node.children| > 0
      && Unwrap(f.node.children[0]).site.Some?
    ensures
      var found := FrameOf(Root(root), Unwrap(f.node.children[0]).site.value);
      found.Some? && found.value.node == Unwrap(f.node.children[0]) && ContextOf(found.value) == Some(f.node.kind)
  {
    var child := Frame(f.node.children[0], Some(f));
    ChildFrameIn(root, f, 0);
    InnerFrame(child);
    InnerContext(child);
  }

  lemma {:induction false} SparedIsKept(root: Node, ctx: Context, f: Frame)
    requires DistinctLabels(root) && PlanInstrumentation(root, ctx).Ok? && SparesReferences(root, ctx)
      && FrameIn(root, f)
    ensures ReferencesKept(f.node, PlanOf(PlanInstrumentation(root, ctx).value))
    decreases f.node
  {
    var plan := PlanOf(PlanInstrumentation(root, ctx).value);
    forall c | c in f.node.children ensures ReferencesKept(c, plan) {
      var i :| 0 <= i < |f.node.children| && f.node.children[i] == c;
      ChildFrameIn(root, f, i);
      SparedIsKept(root, ctx, Frame(c, Some(f)));
    }
    if UsesReference(f.node.kind) && |f.node.children| > 0 && PlacedAt(plan, Unwrap(f.node.children[0])) {
      var core := Unwrap(f.node.children[0]);
      ReferenceFrame(root, f);
      var g := PlacedHasLive(root, ctx, core.site.value);
      HomeVisited(root, ctx, g);
      VisitedFrame(Root(root), ctx, Home(g).value);
    }
  }

  lemma {:induction false} KeptAtVisited(frame: Frame, ctx: Context, f: Frame, plan: Plan)
    requires ReferencesKept(frame.node, plan) && Enters(frame, ctx, f)
    ensures ReferencesKept(f.node, plan)
    decreases frame.node
  {
    if f != frame {
      var c :| c in frame.node.children && Enters(Frame(c, Some(frame)), ctx, f);
      KeptAtVisited(Frame(c, Some(frame)), ctx, f, plan);
    }
  }

  /** No placement of a successful plan is at a reference exactly when no live mutant's nearest claim stands as one. */
  lemma {:induction false} ReferencesKeptExactly(root: Node, ctx: Context)
    requires DistinctLabels(root) && PlanInstrumentation(root, ctx).Ok?
    ensures ReferencesKept(root, PlanOf(PlanInstrumentation(root, ctx).value)) <==> SparesReferences(root, ctx)
  {
    var plan := PlanOf(PlanInstrumentation(root, ctx).value);
    if SparesReferences(root, ctx) {
      SparedIsKept(root, ctx, Root(root));
    }
    if ReferencesKept(root, plan) {
      PlanFacts(root, ctx);
      forall g | Enters(Root(root), ctx, g) && LiveAt(g.node, ctx) != [] && Home(g).Some?
        ensures !StandsAsReference(Home(g).value)
      {
        PlacedReferenceIsNotKept(root, ctx, g);
      }
    }
  }

  lemma {:induction false} PlacedReferenceIsNotKept(root: Node, ctx: Context, g: Frame)
    requires DistinctLabels(root) && PlanInstrumentation(root, ctx).Ok? && Located(root, ctx)
    requires Enters(Root(root), ctx, g) && LiveAt(g.node, ctx) != [] && Home(g).Some?
    requires ReferencesKept(root, PlanOf(PlanInstrumentation(root, ctx).value))
    ensures !StandsAsReference(Home(g).value)
  {
    var h := Home(g).value;
    if StandsAsReference(h) {
      HomeVisited(root, ctx, g);
      VisitedIsLocated(Root(root), ctx, h);
      LiveIsPlaced(root, ctx, g, h.node.site.value);
      var c := ContextFrame(root, ctx, h);
      KeptAtVisited(Root(root), ctx, c, PlanOf(PlanInstrumentation(root, ctx).value));
    }
  }

  // Every reference is the bare operand of a `delete`, an assignment or a call.
  predicate ReferencesAreBare(n: Node) {
    && (UsesReference(n.kind) && |n.children| > 0 && IsReference(n.kind, Unwrap(n.children[0]).kind) ==>
          !n.children[0].kind.Paren? && !n.kind.Update?)
    && forall c <- n.children :: ReferencesAreBare(c)
  }

  lemma {:induction false} BareAtVisited(frame: Frame, ctx: Context, f: Frame)
    requires ReferencesAreBare(frame.node) && Enters(frame, ctx, f)
    ensures ReferencesAreBare(f.node)
    decreases frame.node
  {
    if f != frame {
      var c :| c in frame.node.children && Enters(Frame(c, Some(frame)), ctx, f);
      BareAtVisited(Frame(c, Some(frame)), ctx, f);
    }
  }

  /** So in a program with no reference in parentheses and none under `++` or `--`, the claiming rules protect every
      reference, whatever mutants are live. */
  lemma {:induction false} BareReferencesAreSpared(root: Node, ctx: Context)
    requires ReferencesAreBare(root)
    ensures SparesReferences(root, ctx)
  {
    forall g | Enters(Root(root), ctx, g) && LiveAt(g.node, ctx) != [] && Home(g).Some?
      ensures !StandsAsReference(Home(g).value)
    {
      var h := Home(g).value;
      HomeVisited(root, ctx, g);
      if StandsAsReference(h) {
        assert Unwrap(h.node) == h.node;
        ClaimableReference(h);
        var c := ContextFrame(root, ctx, h);
        BareAtVisited(Root(root), ctx, c);
      }
    }
  }
}
