// The runtime helpers the instrumented program calls: which mutant is active, and the coverage counters.
module Header {
  import opened Wrappers
  import opened Syntax
  import opened Semantics
  import opened Congruence
  import opened Coverage
  import Preservation

  type Counts = map<Id, nat>

  function CountOf(c: Counts, id: Id): nat {
    if id in c then c[id] else 0
  }

  // The counters after each of the ids was counted once more.
  function Counted(c: Counts, ids: seq<Id>): Counts {
    if ids == [] then c
    else var before := Counted(c, ids[..|ids| - 1]); before[ids[|ids| - 1] := CountOf(before, ids[|ids| - 1]) + 1]
  }

  /** Counting adds to each counter how often its id was given, and makes no other counter. */
  lemma {:induction false} CountedAddsHits(c: Counts, ids: seq<Id>, id: Id)
    ensures CountOf(Counted(c, ids), id) == CountOf(c, id) + Hits(ids, id)
    ensures Counted(c, ids).Keys == c.Keys + set i | i in ids
    ensures id in Counted(c, ids) ==> Counted(c, ids)[id] == (if id in c then c[id] else 0) + multiset(ids)[id]
  {
    if ids != [] {
      var n := |ids| - 1;
      CountedAddsHits(c, ids[..n], id);
      assert ids == ids[..n] + [ids[n]];
    }
  }

  lemma {:induction false} CountedConcat(c: Counts, a: seq<Id>, b: seq<Id>)
    ensures Counted(c, a + b) == Counted(Counted(c, a), b)
  {
    if b == [] {
      assert a + b == a;
    } else {
      var n := |b| - 1;
      CountedConcat(c, a, b[..n]);
      assert (a + b)[..|a + b| - 1] == a + b[..n];
    }
  }

  class Namespace {
    var activeMutant: Option<Id>
    var currentTestId: Option<string>
    var staticCounts: Counts
    var perTest: map<string, Counts>

    constructor (activeMutant: Option<Id>)
      ensures this.activeMutant == activeMutant && currentTestId == None && staticCounts == map[] && perTest == map[]
    {
      this.activeMutant, currentTestId, staticCounts, perTest := activeMutant, None, map[], map[];
    }

    // An empty test id counts as none.
    predicate InTest()
      reads this
    {
      currentTestId.Some? && currentTestId.value != ""
    }

    // The counters the current test is charged to.
    function Bucket(): Counts
      reads this
    {
      if !InTest() then staticCounts
      else if currentTestId.value in perTest then perTest[currentTestId.value]
      else map[]
    }

    // Increments the counter of each argument, in the bucket of the current test.
    method Cover(ids: seq<Id>)
      modifies this`staticCounts, this`perTest
      ensures Bucket() == Counted(old(Bucket()), ids)
      ensures currentTestId == None || currentTestId == Some("") ==>
        staticCounts == Counted(old(staticCounts), ids) && perTest == old(perTest)
      ensures currentTestId != None && currentTestId != Some("") ==>
        var test := currentTestId.value;
        && staticCounts == old(staticCounts)
        && perTest == old(perTest)[test := Counted(if test in old(perTest) then old(perTest)[test] else map[], ids)]
    {
      if InTest() {
        perTest := perTest[currentTestId.value := Bucket()];
      }
      for i := 0 to |ids|
        invariant Bucket() == Counted(old(Bucket()), ids[..i])
        invariant InTest() ==>
          staticCounts == old(staticCounts) && perTest == old(perTest)[currentTestId.value := Bucket()]
        invariant !InTest() ==> perTest == old(perTest)
      {
        var counts := Bucket();
        counts := counts[ids[i] := CountOf(counts, ids[i]) + 1];
        if InTest() {
          perTest := perTest[currentTestId.value := counts];
        } else {
          staticCounts := counts;
        }
        assert ids[..i + 1][..i] == ids[..i];
      }
      assert ids[..|ids|] == ids;
    }

    // Without a hit limit, asking only compares.
    method IsActive(id: Id) returns (active: bool)
      ensures active <==> activeMutant == Some(id)
    {
      active := activeMutant == Some(id);
    }

    // What the helper calls of a whole run leave in the counters.
    method Replay(trace: seq<Event>)
      modifies this`staticCounts, this`perTest
      ensures Bucket() == Counted(old(Bucket()), View(Recorded, trace))
      ensures forall id :: CountOf(Bucket(), id) == CountOf(old(Bucket()), id) + Hits(View(Recorded, trace), id)
    {
      for i := 0 to |trace|
        invariant Bucket() == Counted(old(Bucket()), View(Recorded, trace[..i]))
      {
        ViewConcat(Recorded, trace[..i], [trace[i]]);
        assert trace[..i + 1] == trace[..i] + [trace[i]];
        Preservation.ViewOne(Recorded, trace[i]);
        if trace[i].Covered? {
          CountedConcat(old(Bucket()), View(Recorded, trace[..i]), trace[i].ids);
          Cover(trace[i].ids);
        } else {
          assert View(Recorded, trace[..i]) + [] == View(Recorded, trace[..i]);
        }
      }
      assert trace[..|trace|] == trace;
      forall id ensures CountOf(Bucket(), id) == CountOf(old(Bucket()), id) + Hits(View(Recorded, trace), id) {
        CountedAddsHits(old(Bucket()), View(Recorded, trace), id);
      }
    }
  }
}
