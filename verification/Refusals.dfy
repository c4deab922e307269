// Which refusal stops planning, told of the tree and its live mutants: the first in the order the nodes are entered,
// where a claim that does not take its mutants is met when its node is left.
module Refusals {
  import opened Wrappers
  import opened Syntax
  import opened Placers
  import opened Instrumentation
  import opened Planning
  import opened PlanningLaws
  import opened PlanningResults

  // The first mutant that does not apply to its claim's tree.
  function Unapplied(mutants: seq<Mutant>, target: Node): Option<Refusal> {
    if mutants == [] then None
    else if mutants[0].original !in Labels(target) then Some(MutantNotApplied(mutants[0].id))
    else Unapplied(mutants[1..], target)
  }

  // The first mutant attached to a claim whose tree is of a kind the claim's placer does not take.
  function Mismatched(frame: Frame, entries: seq<Entry>): Option<Refusal>
    requires Claimable(frame)
  {
    if entries == [] then None
    else if !MatchesPlacer(ClaimingPlacer(FactsOf(frame)).value, Unwrap(entries[0].tree).kind) then
      Some(MutantKindMismatch(entries[0].mutant.id))
    else Mismatched(frame, entries[1..])
  }

  function RefusalIn(frame: Frame, ctx: Context): Option<Refusal>
    decreases frame.node, 1
  {
    var live := LiveAt(frame.node, ctx);
    if frame.node.site.None? then Some(NodeWithoutSpan)
    else if IsSkipped(frame.node, ctx) then None
    else if live != [] && Home(frame).None? then Some(MutantsUnplaced)
    else if live != [] && Unapplied(live, Home(frame).value.node).Some? then Unapplied(live, Home(frame).value.node)
    else if RefusalBelow(frame, frame.node.children, ctx).Some? then RefusalBelow(frame, frame.node.children, ctx)
    else if Claimable(frame) then Mismatched(frame, EntriesFor(frame.node, AttachedIn(frame, ctx)))
    else None
  }

  function RefusalBelow(frame: Frame, children: seq<Node>, ctx: Context): Option<Refusal>
    decreases children, 0
  {
    if children == [] then None
    else if RefusalIn(Frame(children[0], Some(frame)), ctx).Some? then RefusalIn(Frame(children[0], Some(frame)), ctx)
    else RefusalBelow(frame, children[1..], ctx)
  }

  lemma {:induction false} ReplacedIffHeld(n: Node, l: Label, r: Node)
    ensures ReplaceFirst(n, l, r).1 <==> l in Labels(n)
    decreases n, 1
  {
    if n.site == Some(l) {
      assert Labels(n)[0] == l;
    } else {
      ReplacedIffHeldIn(n.children, l, r);
    }
  }

  lemma {:induction false} ReplacedIffHeldIn(ns: seq<Node>, l: Label, r: Node)
    ensures ReplaceFirstIn(ns, l, r).1 <==> l in LabelsAll(ns)
    decreases ns, 0
  {
    if ns != [] {
      ReplacedIffHeld(ns[0], l, r);
      ReplacedIffHeldIn(ns[1..], l, r);
    }
  }

  lemma {:induction false} AppliesIffHeld(m: Mutant, target: Node)
    ensures m.original !in Labels(target) ==> ApplyMutant(m, target) == Err(MutantNotApplied(m.id))
    ensures ApplyMutant(m, target).Ok? <==> m.original in Labels(target)
  {
    ReplacedIffHeld(target, m.original, m.replacement);
    if target.site == Some(m.original) {
      assert Labels(target)[0] == m.original;
    }
  }

  lemma {:induction false} UnappliedInParts(front: seq<Mutant>, last: Mutant, target: Node)
    ensures Unapplied(front + [last], target)
      == if Unapplied(front, target).Some? then Unapplied(front, target) else Unapplied([last], target)
  {
    if front == [] {
      assert front + [last] == [last];
    } else {
      assert (front + [last])[0] == front[0] && (front + [last])[1..] == front[1..] + [last];
      UnappliedInParts(front[1..], last, target);
    }
  }

  lemma {:induction false} AllRefuse(mutants: seq<Mutant>, target: Node)
    ensures ApplyAll(mutants, target).Err? <==> Unapplied(mutants, target).Some?
    ensures ApplyAll(mutants, target).Err? ==> Unapplied(mutants, target) == Some(ApplyAll(mutants, target).error)
  {
    if mutants != [] {
      var front, last := mutants[..|mutants| - 1], mutants[|mutants| - 1];
      assert mutants == front + [last];
      AllRefuse(front, target);
      UnappliedInParts(front, last, target);
      AppliesIffHeld(last, target);
      assert [last][1..] == [];
    }
  }

  lemma {:induction false} MismatchIsFirst(frame: Frame, entries: seq<Entry>)
    requires Claimable(frame)
    ensures
      var first := FirstMismatch(ClaimingPlacer(FactsOf(frame)).value, entries);
      Mismatched(frame, entries) == if first.Some? then Some(MutantKindMismatch(first.value)) else None
  {
    if entries != [] {
      MismatchIsFirst(frame, entries[1..]);
    }
  }

  // The refusal a step of the fold gives, or none.
  function Refused<T>(r: Result<T, Refusal>): Option<Refusal> {
    if r.Err? then Some(r.error) else None
  }

  lemma {:induction false} FoldRefuses(frame: Frame, state: FoldState, ctx: Context)
    requires Ready(frame.parent, Labels(frame.node), state.claims)
    ensures Refused(FoldPlacements(frame, state, ctx)) == RefusalIn(frame, ctx)
    decreases frame.node, 1
  {
    if frame.node.site.Some? && !IsSkipped(frame.node, ctx) {
      AttachRefuses(frame, state, ctx);
      if AttachPlaceable(LiveAt(frame.node, ctx), frame, state.(claims := ClaimSelf(frame, state.claims))).Ok? {
        ClaimedReady(frame, state, ctx);
        FoldBelowRefuses(frame, frame.node.children, AfterAttach(frame, state, ctx), ctx);
        if FoldChildren(frame, frame.node.children, AfterAttach(frame, state, ctx), ctx).Ok? {
          EmitRefuses(frame, state, ctx);
        }
      }
    }
  }

  // What the first half of a visit refuses: no claim for the node's mutants, or one that does not hold their nodes.
  function AttachRefusal(frame: Frame, ctx: Context): Option<Refusal> {
    var live := LiveAt(frame.node, ctx);
    if live == [] then None
    else if Home(frame).None? then Some(MutantsUnplaced)
    else Unapplied(live, Home(frame).value.node)
  }

  lemma {:induction false} AttachRefuses(frame: Frame, state: FoldState, ctx: Context)
    requires Ready(frame.parent, Labels(frame.node), state.claims) && frame.node.site.Some?
    ensures Refused(AttachPlaceable(LiveAt(frame.node, ctx), frame, state.(claims := ClaimSelf(frame, state.claims))))
      == AttachRefusal(frame, ctx)
  {
    ClaimedAncestors(frame, state.claims);
    TargetIsHome(frame, ClaimSelf(frame, state.claims));
    if Home(frame).Some? {
      AllRefuse(LiveAt(frame.node, ctx), Home(frame).value.node);
    }
  }

  lemma {:induction false} EmitRefuses(frame: Frame, state: FoldState, ctx: Context)
    requires Ready(frame.parent, Labels(frame.node), state.claims) && frame.node.site.Some?
    requires AttachPlaceable(LiveAt(frame.node, ctx), frame, state.(claims := ClaimSelf(frame, state.claims))).Ok?
    requires !IsSkipped(frame.node, ctx)
    requires FoldChildren(frame, frame.node.children, AfterAttach(frame, state, ctx), ctx).Ok?
    ensures
      var folded := FoldChildren(frame, frame.node.children, AfterAttach(frame, state, ctx), ctx).value;
      Refused(EmitPlacement(frame, folded))
      == if Claimable(frame) then Mismatched(frame, EntriesFor(frame.node, AttachedIn(frame, ctx))) else None
  {
    var children, planned := frame.node.children, AfterAttach(frame, state, ctx);
    ClaimedReady(frame, state, ctx);
    ChildrenAdd(frame, children, planned, ctx);
    OwnLabel(frame.node);
    EmitFinds(frame, state, planned, FoldChildren(frame, children, planned, ctx).value,
      AttachedAt(frame, ctx), AttachedInAll(frame, children, ctx), ClaimsInAll(frame, children, ctx),
      PlacementsInAll(frame, children, ctx));
    if Claimable(frame) {
      MismatchIsFirst(frame, EntriesFor(frame.node, AttachedIn(frame, ctx)));
    }
  }

  lemma {:induction false} FoldBelowRefuses(frame: Frame, children: seq<Node>, state: FoldState, ctx: Context)
    requires Ready(Some(frame), LabelsAll(children), state.claims)
    ensures Refused(FoldChildren(frame, children, state, ctx)) == RefusalBelow(frame, children, ctx)
    decreases children, 0
  {
    if children != [] {
      var first, rest := Frame(children[0], Some(frame)), children[1..];
      DistinctConcat(Labels(children[0]), LabelsAll(rest));
      ReadyFirst(frame, children, state.claims);
      FoldRefuses(first, state, ctx);
      if FoldPlacements(first, state, ctx).Ok? {
        FoldAdds(first, state, ctx);
        NextReady(frame, state, AttachedIn(first, ctx), ClaimsIn(first, ctx), Labels(children[0]), LabelsAll(rest));
        FoldBelowRefuses(frame, rest, FoldPlacements(first, state, ctx).value, ctx);
      }
    }
  }

  lemma {:induction false} ReadyFirst(frame: Frame, children: seq<Node>, claims: seq<Claim>)
    requires children != [] && Ready(Some(frame), LabelsAll(children), claims)
    ensures Ready(Some(frame), Labels(children[0]), claims)
  {
    DistinctConcat(Labels(children[0]), LabelsAll(children[1..]));
  }

  /** Planning stops at the first refusal there is, and succeeds when there is none. */
  lemma {:induction false} RefusalIsExact(root: Node, ctx: Context)
    requires DistinctLabels(root)
    ensures PlanInstrumentation(root, ctx).Err? <==> RefusalIn(Root(root), ctx).Some?
    ensures PlanInstrumentation(root, ctx).Err? ==>
      RefusalIn(Root(root), ctx) == Some(PlanInstrumentation(root, ctx).error)
  {
    FoldRefuses(Root(root), FoldState([], []), ctx);
  }
}
