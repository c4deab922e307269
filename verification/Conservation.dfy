// Placement conservation: a successful plan places every live mutant of the program, each of them once.
module Conservation {
  import opened Wrappers
  import opened Syntax
  import opened Planning
  import opened PlanningLaws
  import opened PlanningResults

  // ---- Nothing is lost and nothing is placed twice ----

  // The live mutants of the nodes the fold enters, in source order.
  function LiveIn(n: Node, ctx: Context): seq<Mutant>
    decreases n, 1
  {
    if IsSkipped(n, ctx) then [] else LiveAt(n, ctx) + LiveInAll(n.children, ctx)
  }

  function LiveInAll(ns: seq<Node>, ctx: Context): seq<Mutant>
    decreases ns, 0
  {
    if ns == [] then [] else LiveIn(ns[0], ctx) + LiveInAll(ns[1..], ctx)
  }

  function AttachedMutants(attached: seq<Attached>): (ms: seq<Mutant>)
    ensures |ms| == |attached| && forall i :: 0 <= i < |ms| ==> ms[i] == attached[i].mutant
  {
    Map((a: Attached) => a.mutant, attached)
  }

  lemma {:induction false} EveryLiveIsAttached(frame: Frame, ctx: Context)
    requires Checked(frame, ctx)
    ensures AttachedMutants(AttachedIn(frame, ctx)) == LiveIn(frame.node, ctx)
    decreases frame.node, 1
  {
    if !IsSkipped(frame.node, ctx) {
      EveryLiveIsAttachedBelow(frame, frame.node.children, ctx);
      assert AttachedMutants(AttachedAt(frame, ctx)) == LiveAt(frame.node, ctx);
      assert AttachedMutants(AttachedIn(frame, ctx))
          == AttachedMutants(AttachedAt(frame, ctx)) + AttachedMutants(AttachedInAll(frame, frame.node.children, ctx));
    }
  }

  lemma {:induction false} EveryLiveIsAttachedBelow(frame: Frame, children: seq<Node>, ctx: Context)
    requires CheckedAll(frame, children, ctx)
    ensures AttachedMutants(AttachedInAll(frame, children, ctx)) == LiveInAll(children, ctx)
    decreases children, 0
  {
    if children != [] {
      var first := Frame(children[0], Some(frame));
      EveryLiveIsAttached(first, ctx);
      EveryLiveIsAttachedBelow(frame, children[1..], ctx);
      assert AttachedMutants(AttachedInAll(frame, children, ctx))
          == AttachedMutants(AttachedIn(first, ctx)) + AttachedMutants(AttachedInAll(frame, children[1..], ctx));
    }
  }

  function Map<A, B>(f: A -> B, s: seq<A>): (r: seq<B>)
    ensures |r| == |s| && forall i :: 0 <= i < |r| ==> r[i] == f(s[i])
  {
    seq(|s|, i requires 0 <= i < |s| => f(s[i]))
  }

  function MutantOf(e: Entry): Mutant {
    e.mutant
  }

  // The entries claims with these sites take from a list of attachments.
  function Taken(claims: seq<Claim>, attached: seq<Attached>): seq<Entry> {
    if claims == [] then [] else EntriesFor(claims[0].node, attached) + Taken(claims[1..], attached)
  }

  ghost predicate GoesTo(claims: seq<Claim>, a: Attached) {
    exists c <- claims :: c.node.site == a.target.site
  }

  lemma GoesToFirst(claims: seq<Claim>, a: Attached)
    requires Distinct(ClaimSiteList(claims)) && claims != []
    ensures Distinct(ClaimSiteList(claims[1..]))
    ensures GoesTo(claims, a) <==> claims[0].node.site == a.target.site || GoesTo(claims[1..], a)
    ensures claims[0].node.site == a.target.site ==> !GoesTo(claims[1..], a)
  {
    assert ClaimSiteList(claims[1..]) == ClaimSiteList(claims)[1..];
    assert claims[0] in claims && forall c <- claims[1..] :: c in claims;
  }

  lemma {:induction false} TakenOne(claims: seq<Claim>, attached: seq<Attached>)
    requires Distinct(ClaimSiteList(claims)) && attached != []
    ensures multiset(Taken(claims, attached))
         == (if GoesTo(claims, attached[0]) then multiset{EntryOf(attached[0])} else multiset{})
            + multiset(Taken(claims, attached[1..]))
  {
    if claims != [] {
      var a := attached[0];
      GoesToFirst(claims, a);
      TakenOne(claims[1..], attached);
      var mine, others := EntriesFor(claims[0].node, attached[1..]), Taken(claims[1..], attached[1..]);
      var own := if claims[0].node.site == a.target.site then [EntryOf(a)] else [];
      assert EntriesFor(claims[0].node, attached) == own + mine;
      assert multiset(Taken(claims, attached))
        == multiset(own) + multiset(mine) + multiset(Taken(claims[1..], attached));
      assert multiset(Taken(claims, attached[1..])) == multiset(mine) + multiset(others);
    }
  }

  function AttachedEntries(attached: seq<Attached>): (es: seq<Entry>)
    ensures |es| == |attached| && forall i :: 0 <= i < |es| ==> es[i] == EntryOf(attached[i])
  {
    Map(EntryOf, attached)
  }

  lemma FirstEntry(attached: seq<Attached>)
    requires attached != []
    ensures multiset(AttachedEntries(attached))
      == multiset{EntryOf(attached[0])} + multiset(AttachedEntries(attached[1..]))
  {
    assert AttachedEntries(attached) == [EntryOf(attached[0])] + AttachedEntries(attached[1..]);
  }

  lemma {:induction false} TakenAll(claims: seq<Claim>, attached: seq<Attached>)
    requires Distinct(ClaimSiteList(claims))
    requires forall a <- attached :: GoesTo(claims, a)
    ensures multiset(Taken(claims, attached)) == multiset(AttachedEntries(attached))
  {
    if attached == [] {
      TakenNone(claims);
    } else {
      TakenOne(claims, attached);
      TakenAll(claims, attached[1..]);
      FirstEntry(attached);
    }
  }

  lemma {:induction false} TakenNone(claims: seq<Claim>)
    ensures Taken(claims, []) == []
  {
    if claims != [] {
      TakenNone(claims[1..]);
    }
  }

  lemma {:induction false} HeldIsTaken(claims: seq<Claim>, attached: seq<Attached>)
    requires forall c <- claims :: c.applied == EntriesFor(c.node, attached)
    ensures EntriesOf(claims) == Taken(claims, attached)
  {
    if claims != [] {
      HeldIsTaken(claims[1..], attached);
    }
  }

  // Every attachment of a whole tree goes to one of its claims.
  lemma {:induction false} TargetsAreClaims(frame: Frame, ctx: Context, claims: seq<Claim>)
    requires forall c <- ClaimsIn(frame, ctx) :: c in claims
    requires HomesClaimed(frame.parent, claims)
    ensures forall a <- AttachedIn(frame, ctx) :: exists c <- claims :: c.node == a.target
    decreases frame.node, 1
  {
    if !IsSkipped(frame.node, ctx) {
      var self := SelfClaim(frame, AttachedIn(frame, ctx));
      if Claimable(frame) {
        assert self[0] in ClaimsIn(frame, ctx) && self[0].node == frame.node;
      }
      HomeIsClaimed(Some(frame), claims);
      TargetsAreClaimsBelow(frame, frame.node.children, ctx, claims);
    }
  }

  ghost predicate HomesClaimed(parent: Option<Frame>, claims: seq<Claim>)
    decreases parent
  {
    parent.Some? ==>
      (Claimable(parent.value) ==> exists c <- claims :: c.node == parent.value.node)
        && HomesClaimed(parent.value.parent, claims)
  }

  lemma {:induction false} HomeIsClaimed(frame: Option<Frame>, claims: seq<Claim>)
    requires HomesClaimed(frame, claims) && frame.Some?
    ensures Home(frame.value).Some? ==> exists c <- claims :: c.node == Home(frame.value).value.node
    decreases frame
  {
    if !Claimable(frame.value) && frame.value.parent.Some? {
      HomeIsClaimed(frame.value.parent, claims);
    }
  }

  lemma {:induction false} TargetsAreClaimsBelow(frame: Frame, children: seq<Node>, ctx: Context, claims: seq<Claim>)
    requires forall c <- ClaimsInAll(frame, children, ctx) :: c in claims
    requires HomesClaimed(Some(frame), claims)
    ensures forall a <- AttachedInAll(frame, children, ctx) :: exists c <- claims :: c.node == a.target
    decreases children, 0
  {
    if children != [] {
      TargetsAreClaims(Frame(children[0], Some(frame)), ctx, claims);
      TargetsAreClaimsBelow(frame, children[1..], ctx, claims);
    }
  }

  // The facts every theorem below starts from.
  lemma {:induction false} PlanFacts(root: Node, ctx: Context)
    requires DistinctLabels(root) && PlanInstrumentation(root, ctx).Ok?
    ensures Settled(Root(root), ctx) && Checked(Root(root), ctx)
    ensures PlanInstrumentation(root, ctx).value == PlacementsIn(Root(root), ctx)
  {
    FoldLocates(Root(root), FoldState([], []), ctx);
    FoldAdds(Root(root), FoldState([], []), ctx);
  }

  /** If planning succeeds, the placed mutants are exactly the live mutants, each placed once. */
  lemma {:induction false} MutantsAreConserved(root: Node, ctx: Context)
    requires DistinctLabels(root) && PlanInstrumentation(root, ctx).Ok?
    ensures multiset(Map(MutantOf, PlacedEntries(PlanInstrumentation(root, ctx).value))) == multiset(LiveIn(root, ctx))
  {
    PlanFacts(root, ctx);
    var frame := Root(root);
    var claims, attached := ClaimsIn(frame, ctx), AttachedIn(frame, ctx);
    PlacementsHoldEntries(frame, ctx);
    ClaimHoldsAll(frame, ctx);
    ClaimsAreNodes(frame, ctx);
    HeldIsTaken(claims, attached);
    TargetsAreClaims(frame, ctx, claims);
    TakenAll(claims, attached);
    SameImages(MutantOf, PlacedEntries(PlacementsIn(frame, ctx)), AttachedEntries(attached));
    assert Map(MutantOf, AttachedEntries(attached)) == AttachedMutants(attached);
    EveryLiveIsAttached(frame, ctx);
  }

  function Without<T>(s: seq<T>, i: int): seq<T>
    requires 0 <= i < |s|
  {
    s[..i] + s[i + 1..]
  }

  lemma WithoutOne<T>(s: seq<T>, i: int)
    requires 0 <= i < |s|
    ensures multiset(s) == multiset{s[i]} + multiset(Without(s, i))
    ensures multiset(Without(s, i)) == multiset(s) - multiset{s[i]}
  {
    assert s == s[..i] + [s[i]] + s[i + 1..];
  }

  lemma MapWithout<A, B>(f: A -> B, s: seq<A>, i: int)
    requires 0 <= i < |s|
    ensures Map(f, Without(s, i)) == Without(Map(f, s), i)
  {
  }

  lemma {:induction false} SameImages<A, B>(f: A -> B, a: seq<A>, b: seq<A>)
    requires multiset(a) == multiset(b)
    ensures multiset(Map(f, a)) == multiset(Map(f, b))
  {
    if a == [] {
      assert |multiset(b)| == 0;
    } else {
      assert a[0] in multiset(b);
      var i :| 0 <= i < |b| && b[i] == a[0];
      WithoutOne(a, 0);
      WithoutOne(b, i);
      SameImages(f, Without(a, 0), Without(b, i));
      MapWithout(f, a, 0);
      MapWithout(f, b, i);
      WithoutOne(Map(f, a), 0);
      WithoutOne(Map(f, b), i);
    }
  }
}
