// What the coverage report means, and why a mutant it never mentions need not be run.
module Coverage {
  import opened Wrappers
  import opened Syntax
  import opened Semantics
  import opened Congruence
  import opened Placers
  import opened Preservation
  import opened Instrumentation

  // A parsed program never calls the helpers itself.
  predicate HelperFree(n: Node) {
    !n.kind.CoverCall? && !n.kind.ActiveTest? && forall c <- n.children :: HelperFree(c)
  }

  // The mutants a call of the coverage helper records.
  function Recorded(e: Event): seq<Id> {
    if e.Covered? then e.ids else []
  }

  // The mutants the report owes: those placed at the node control reaches.
  function Due(plan: Plan, e: Event): seq<Id> {
    match e
    case Reached(l) => if l in plan then IdsOf(plan[l].applied) else []
    case Covered(ids) => ids
  }

  ghost function CoverageLens<V(!new), S(!new)>(sem: Semantics<V, S>, plan: Plan, active: Option<Id>): Lens<V, S> {
    Lens(sem, active, active, None, e => Due(plan, e), Recorded)
  }

  /** With no placed mutant active, the recorded mutants are, in order and with repetition, those placed at
      the nodes the original program reaches. */
  lemma {:induction false} RecordsWhatIsReached<V(!new), S(!new)>(
    sem: Semantics<V, S>, program: Node, plan: Plan, active: Option<Id>, fuel: nat, st: S)
    requires Sane(sem) && Fits(program, plan) && Inactive(plan, active)
    ensures View(Recorded, Eval(sem, active, fuel, Rebuild(program, plan), st).trace)
         == View(e => Due(plan, e), Eval(sem, active, fuel, program, st).trace)
  {
    var lens := CoverageLens(sem, plan, active);
    InactiveMakesNoReference(program, plan, active);
    InstrumentSim(lens, program, plan);
    NothingChosen(program, plan, active);
    UseSim(lens, program, Rebuild(program, plan), fuel, st);
  }

  // ---- Programs that do not ask which mutant is active ----

  // On the right, the one placement whose mutant is active, if any, is at `avoid`.
  ghost predicate OnlyAvoided<V(!new), S(!new)>(lens: Lens<V, S>, plan: Plan) {
    forall l <- plan :: Chosen(plan[l].applied, lens.right).Some? ==> lens.avoid == Some(l)
  }

  /** Unless control reaches the one node whose placement is active, the instrumented program does what the original
      does, whatever that placement holds. */
  lemma {:induction false} SkipSim<V(!new), S(!new)>(lens: Lens<V, S>, n: Node, plan: Plan)
    requires (Sane(lens.sem) || plan == map[]) && Records(lens, plan) && OnlyAvoided(lens, plan)
    requires HelperFree(n) && Fits(n, plan)
    ensures Sim(lens, n, Rebuild(n, plan))
    decreases n, 1
  {
    var base := Node(n.site, n.kind, RebuildAll(n.children, plan));
    if PlacedAt(plan, n) && Chosen(plan[n.site.value].applied, lens.right).Some? {
      AvoidedSim(lens, n, Rebuild(n, plan));
    } else {
      forall i | 0 <= i < |n.children|
        ensures Sim(lens, n.children[i], base.children[i])
      {
        SkipSim(lens, n.children[i], plan);
      }
      if UsesReference(n.kind) && |n.children| > 0 {
        SkipReference(lens, n.kind, n.children[0], plan);
      }
      if n.kind.Switch? {
        forall i | 1 <= i < |n.children|
          ensures CaseLike(lens, n.children[i], base.children[i])
        {
          SkipCase(lens, n.children[i], plan);
        }
      }
      BodyAgree(lens, n, base);
      if PlacedAt(plan, n) {
        PlacedSim(lens, plan, n, base);
      } else {
        SameNode(lens, n, base);
      }
    }
  }

  // A node whose every run reaches what is not compared agrees with anything.
  lemma AvoidedSim<V(!new), S(!new)>(lens: Lens<V, S>, n: Node, n': Node)
    requires n.site.Some? && lens.avoid == n.site
    ensures Sim(lens, n, n')
  {
    forall fuel: nat, st: S
      ensures !Quiet(lens.avoid, Eval(lens.sem, lens.left, fuel, n, st).trace)
    {
      assert Eval(lens.sem, lens.left, fuel, n, st).trace[0] == Reached(n.site.value);
    }
  }

  lemma {:induction false} SkipReference<V(!new), S(!new)>(lens: Lens<V, S>, context: Kind, n: Node, plan: Plan)
    requires (Sane(lens.sem) || plan == map[]) && Records(lens, plan) && OnlyAvoided(lens, plan)
    requires HelperFree(n) && Fits(n, plan) && KeepsReference(context, n, plan)
    ensures ReferenceLike(lens, context, n, Rebuild(n, plan))
    decreases n, 2
  {
    if n.kind.Paren? && |n.children| == 1 {
      ParenForms(n, plan, None);
      SkipReference(lens, context, n.children[0], plan);
    } else if PlacedAt(plan, n) {
      RebuiltIsNoReference(context, n, plan);
    } else {
      UnplacedForms(n, plan, None);
      forall i | 0 <= i < |n.children|
        ensures Sim(lens, n.children[i], Rebuild(n.children[i], plan))
      {
        SkipSim(lens, n.children[i], plan);
      }
    }
  }

  lemma {:induction false} SkipCase<V(!new), S(!new)>(lens: Lens<V, S>, n: Node, plan: Plan)
    requires (Sane(lens.sem) || plan == map[]) && Records(lens, plan) && OnlyAvoided(lens, plan)
    requires HelperFree(n) && Fits(n, plan)
    ensures CaseLike(lens, n, Rebuild(n, plan))
    decreases n, 2
  {
    if n.kind.SwitchCase? {
      if n.kind.hasTest && |n.children| > 0 {
        SkipSim(lens, n.children[0], plan);
      }
      CaseKeepsTest(n, plan, lens.right);
    } else {
      NotACase(n, plan, lens.right);
    }
  }

  lemma {:induction false} EmptyPlan(n: Node)
    ensures Fits(n, map[]) && Rebuild(n, map[]) == n
  {
    forall i | 0 <= i < |n.children|
      ensures Fits(n.children[i], map[]) && Rebuild(n.children[i], map[]) == n.children[i]
    {
      EmptyPlan(n.children[i]);
    }
    assert RebuildAll(n.children, map[]) == n.children;
  }

  /** The original program runs the same whichever mutant is active, and records nothing. */
  lemma {:induction false} OriginalIgnoresActive<V(!new), S(!new)>(
    sem: Semantics<V, S>, program: Node, active: Option<Id>, other: Option<Id>, fuel: nat, st: S)
    requires HelperFree(program)
    ensures
      var r, r' := Eval(sem, active, fuel, program, st), Eval(sem, other, fuel, program, st);
      r.out == r'.out && r.st == r'.st && View(Recorded, r.trace) == []
  {
    var lens := Lens(sem, active, other, None, Recorded, e => []);
    EmptyPlan(program);
    SkipSim(lens, program, map[]);
    UseSim(lens, program, program, fuel, st);
    SilentView(lens.rightView, Eval(sem, other, fuel, program, st).trace);
  }

  // ---- Counting ----

  // How often a mutant's counter is incremented.
  function Hits(ids: seq<Id>, id: Id): nat {
    multiset(ids)[id]
  }

  // How often control reaches a node.
  function Visits(trace: seq<Event>, l: Label): nat {
    multiset(trace)[Reached(l)]
  }

  // Every mutant has one id, used at one placement.
  ghost predicate PlacedOnce(plan: Plan, l: Label, id: Id) {
    && l in plan && Hits(IdsOf(plan[l].applied), id) == 1
    && forall other <- plan :: other != l ==> id !in IdsOf(plan[other].applied)
  }

  lemma {:induction false} HitsAreVisits(plan: Plan, l: Label, id: Id, trace: seq<Event>)
    requires PlacedOnce(plan, l, id) && View(Recorded, trace) == []
    ensures Hits(View(e => Due(plan, e), trace), id) == Visits(trace, l)
  {
    if trace != [] {
      var f := e => Due(plan, e);
      assert View(Recorded, trace) == Recorded(trace[0]) + View(Recorded, trace[1..]);
      HitsAreVisits(plan, l, id, trace[1..]);
      assert trace == [trace[0]] + trace[1..];
      assert View(f, trace) == Due(plan, trace[0]) + View(f, trace[1..]);
      assert multiset(View(f, trace)) == multiset(Due(plan, trace[0])) + multiset(View(f, trace[1..]));
      assert multiset(trace) == multiset{trace[0]} + multiset(trace[1..]);
      assert Hits(Due(plan, trace[0]), id) == if trace[0] == Reached(l) then 1 else 0;
    }
  }

  /** A mutant's counter is incremented exactly as often as control reaches the node it is placed at. */
  lemma {:induction false} CounterIsVisits<V(!new), S(!new)>(
    sem: Semantics<V, S>, program: Node, plan: Plan, active: Option<Id>, l: Label, id: Id, fuel: nat, st: S)
    requires Sane(sem) && HelperFree(program) && Fits(program, plan) && Inactive(plan, active)
      && PlacedOnce(plan, l, id)
    ensures Hits(View(Recorded, Eval(sem, active, fuel, Rebuild(program, plan), st).trace), id)
         == Visits(Eval(sem, active, fuel, program, st).trace, l)
  {
    RecordsWhatIsReached(sem, program, plan, active, fuel, st);
    OriginalIgnoresActive(sem, program, active, active, fuel, st);
    HitsAreVisits(plan, l, id, Eval(sem, active, fuel, program, st).trace);
  }

  lemma {:induction false} ChosenNeedsId(applied: seq<Applied>, active: Option<Id>)
    ensures Chosen(applied, active).Some? <==> active.Some? && active.value in IdsOf(applied)
  {
    if applied != [] {
      ChosenNeedsId(applied[..|applied| - 1], active);
      assert IdsOf(applied) == IdsOf(applied[..|applied| - 1]) + [applied[|applied| - 1].id];
    }
  }

  /** A mutant the dry run never records behaves, when active, as the dry run did: leaving it out is safe. */
  lemma {:induction false} UncoveredMutantIsHarmless<V(!new), S(!new)>(
    sem: Semantics<V, S>, program: Node, plan: Plan, l: Label, id: Id, fuel: nat, st: S)
    requires Sane(sem) && HelperFree(program) && Fits(program, plan) && PlacedOnce(plan, l, id)
    requires id !in View(Recorded, Eval(sem, None, fuel, Rebuild(program, plan), st).trace)
    ensures
      var dry, run := Eval(sem, None, fuel, Rebuild(program, plan), st),
        Eval(sem, Some(id), fuel, Rebuild(program, plan), st);
      dry.out == run.out && dry.st == run.st
  {
    assert Inactive(plan, None) by {
      forall other | other in plan ensures Chosen(plan[other].applied, None).None? {
        ChosenNeedsId(plan[other].applied, None);
      }
    }
    CounterIsVisits(sem, program, plan, None, l, id, fuel, st);
    var original := Eval(sem, None, fuel, program, st);
    var silent := e => [];
    var lens := Lens(sem, None, Some(id), Some(l), silent, silent);
    forall other | other in plan && Chosen(plan[other].applied, Some(id)).Some? ensures other == l {
      ChosenNeedsId(plan[other].applied, Some(id));
    }
    SkipSim(lens, program, plan);
    UseSim(lens, program, Rebuild(program, plan), fuel, st);
    assert Quiet(lens.avoid, original.trace);
    InstrumentedMeansOriginal(sem, program, plan, None, fuel, st);
  }
}
