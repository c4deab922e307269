// Which tsconfig projects compile a file besides its owner: those no chain of references leads from to the owner.
module ProjectReferences {
  import opened Paths

  type ReferenceGraph = map<string, seq<string>>

  function ReferencesOf(graph: ReferenceGraph, config: string): seq<string> {
    if config in graph then graph[config] else []
  }

  function Targets(graph: ReferenceGraph): set<string> {
    set config, target | config in graph && target in graph[config] :: target
  }

  function SetOf(names: seq<string>): set<string> {
    set name | name in names
  }

  function Unseen(graph: ReferenceGraph, pending: seq<string>, seen: set<string>): set<string> {
    Targets(graph) + SetOf(pending) - seen
  }

  function ReachedFrom(graph: ReferenceGraph, pending: seq<string>, seen: set<string>): set<string>
    decreases Unseen(graph, pending, seen), |pending|
  {
    if pending == [] then seen
    else
      var config, rest := pending[0], pending[1..];
      assert pending == [config] + rest;
      if config in seen then
        assert Unseen(graph, rest, seen) == Unseen(graph, pending, seen);
        ReachedFrom(graph, rest, seen)
      else
        assert config in Unseen(graph, pending, seen);
        ReachedFrom(graph, rest + ReferencesOf(graph, config), seen + {config})
  }

  function ReachesOwner(graph: ReferenceGraph, owner: string, holder: string): bool {
    owner in ReachedFrom(graph, ReferencesOf(graph, holder), {})
  }

  // The names in the order they first occur.
  function Dedupe(names: seq<string>): seq<string> {
    if names == [] then []
    else
      var front, last := Dedupe(names[..|names| - 1]), names[|names| - 1];
      if last in front then front else front + [last]
  }

  function Kept(graph: ReferenceGraph, owner: string, holders: seq<string>): seq<string> {
    if holders == [] then []
    else
      var front, last := Kept(graph, owner, holders[..|holders| - 1]), holders[|holders| - 1];
      if last != owner && !ReachesOwner(graph, owner, last) then front + [last] else front
  }

  function OtherCompilersOf(graph: ReferenceGraph, owner: string, holders: seq<string>): seq<string> {
    Kept(graph, owner, Dedupe(holders))
  }

  // ---- Exactness ----

  function ReferenceEdge(graph: ReferenceGraph): Edge {
    (from, to) => to in ReferencesOf(graph, from)
  }

  // Everything a seen project refers to is seen or still pending.
  ghost predicate Balanced(graph: ReferenceGraph, pending: seq<string>, seen: set<string>) {
    forall config, target :: config in seen && target in ReferencesOf(graph, config) ==>
      target in seen || target in pending
  }

  ghost predicate FromPending(graph: ReferenceGraph, pending: seq<string>, target: string) {
    exists config <- pending :: Reaches(ReferenceEdge(graph), config, target)
  }

  lemma {:induction false} WorklistIsClosed(graph: ReferenceGraph, pending: seq<string>, seen: set<string>)
    requires Balanced(graph, pending, seen)
    ensures
      var reached := ReachedFrom(graph, pending, seen);
      && seen <= reached && (forall config <- pending :: config in reached)
      && forall config, target :: config in reached && target in ReferencesOf(graph, config) ==> target in reached
    decreases Unseen(graph, pending, seen), |pending|
  {
    if pending != [] {
      var config, rest := pending[0], pending[1..];
      assert pending == [config] + rest;
      if config in seen {
        assert Unseen(graph, rest, seen) == Unseen(graph, pending, seen);
        WorklistIsClosed(graph, rest, seen);
      } else {
        assert config in Unseen(graph, pending, seen);
        WorklistIsClosed(graph, rest + ReferencesOf(graph, config), seen + {config});
      }
    }
  }

  lemma {:induction false} WorklistIsReached(
      graph: ReferenceGraph, pending: seq<string>, seen: set<string>, target: string)
    requires target in ReachedFrom(graph, pending, seen)
    ensures target in seen || FromPending(graph, pending, target)
    decreases Unseen(graph, pending, seen), |pending|
  {
    if pending != [] {
      var config, rest := pending[0], pending[1..];
      assert pending == [config] + rest;
      if config in seen {
        assert Unseen(graph, rest, seen) == Unseen(graph, pending, seen);
        WorklistIsReached(graph, rest, seen, target);
      } else {
        assert config in Unseen(graph, pending, seen);
        WorklistIsReached(graph, rest + ReferencesOf(graph, config), seen + {config}, target);
        Stays(ReferenceEdge(graph), config);
        if next :| next in ReferencesOf(graph, config) && Reaches(ReferenceEdge(graph), next, target) {
          StepFirst(ReferenceEdge(graph), config, next, target);
        }
      }
    }
  }

  /** A project reaches the owner exactly when some chain of one or more references leads from it to the owner,
      cycles included. */
  lemma ReachesOwnerIsExact(graph: ReferenceGraph, owner: string, holder: string)
    ensures ReachesOwner(graph, owner, holder) <==> ReachesOnward(ReferenceEdge(graph), holder, owner)
  {
    var edge, pending := ReferenceEdge(graph), ReferencesOf(graph, holder);
    WorklistIsClosed(graph, pending, {});
    if ReachesOwner(graph, owner, holder) {
      WorklistIsReached(graph, pending, {}, owner);
      var next :| next in pending && Reaches(edge, next, owner);
      StepFirst(edge, holder, next, owner);
    }
    if ReachesOnward(edge, holder, owner) {
      var next := OnwardHasFirst(edge, holder, owner);
      var path :| Leads(edge, path, next, owner);
      ForwardClosed(edge, ReachedFrom(graph, pending, {}), path);
    }
  }

  // Of two names, the first occurs before the second.
  ghost predicate OccursFirst(a: string, b: string, names: seq<string>) {
    a != b && exists at: nat :: at < |names| && a in names[..at] && b !in names[..at]
  }

  // Holders come in the order of their first occurrence, each once.
  ghost predicate InFirstOrder(kept: seq<string>, holders: seq<string>) {
    forall i, j :: 0 <= i < j < |kept| ==>
      OccursFirst(kept[i], kept[j], holders)
  }

  lemma {:induction false} DedupeKeepsFirst(names: seq<string>)
    ensures forall name :: name in Dedupe(names) <==> name in names
    ensures InFirstOrder(Dedupe(names), names)
  {
    if names != [] {
      var front, last := names[..|names| - 1], names[|names| - 1];
      assert names == front + [last];
      DedupeKeepsFirst(front);
      var kept := Dedupe(names);
      forall i, j | 0 <= i < j < |kept|
        ensures OccursFirst(kept[i], kept[j], names)
      {
        if j < |Dedupe(front)| {
          assert OccursFirst(kept[i], kept[j], front);
          var at: nat :| at < |front| && kept[i] in front[..at] && kept[j] !in front[..at];
          assert names[..at] == front[..at];
        } else {
          assert names[..|front|] == front;
          assert kept[i] in Dedupe(front);
        }
      }
    }
  }

  lemma {:induction false} KeptAre(graph: ReferenceGraph, owner: string, holders: seq<string>)
    ensures forall h ::
      h in Kept(graph, owner, holders) <==> h in holders && h != owner && !ReachesOwner(graph, owner, h)
  {
    if holders != [] {
      assert holders == holders[..|holders| - 1] + [holders[|holders| - 1]];
      KeptAre(graph, owner, holders[..|holders| - 1]);
    }
  }

  lemma {:induction false} KeptInOrder(graph: ReferenceGraph, owner: string, holders: seq<string>, names: seq<string>)
    requires InFirstOrder(holders, names)
    ensures InFirstOrder(Kept(graph, owner, holders), names)
  {
    if holders != [] {
      var front, last := holders[..|holders| - 1], holders[|holders| - 1];
      KeptInOrder(graph, owner, front, names);
      KeptAre(graph, owner, front);
      var before := Kept(graph, owner, front);
      forall i | 0 <= i < |before| ensures OccursFirst(before[i], last, names) {
        assert before[i] in front;
        var k :| 0 <= k < |front| && front[k] == before[i];
        assert OccursFirst(holders[k], holders[|holders| - 1], names);
      }
    }
  }

  /** A holder is reported exactly when it is not the owner and no chain of references leads from it to the owner;
      each is reported once, in first-occurrence order. */
  lemma OtherCompilersAreExact(graph: ReferenceGraph, owner: string, holders: seq<string>)
    ensures InFirstOrder(OtherCompilersOf(graph, owner, holders), holders)
    ensures forall holder ::
      holder in OtherCompilersOf(graph, owner, holders)
      <==> holder in holders && holder != owner && !ReachesOnward(ReferenceEdge(graph), holder, owner)
  {
    DedupeKeepsFirst(holders);
    KeptAre(graph, owner, Dedupe(holders));
    KeptInOrder(graph, owner, Dedupe(holders), holders);
    forall holder ensures ReachesOwner(graph, owner, holder) <==> ReachesOnward(ReferenceEdge(graph), holder, owner) {
      ReachesOwnerIsExact(graph, owner, holder);
    }
  }
}
