// Next-fit packing of whole files into groups of at most a bound of mutants.
module GroupMutants {
  import opened FileIds

  datatype Packing = Packing(groups: seq<seq<Id>>, current: seq<Id>, currentSize: nat)

  function PackFile(bound: int, packing: Packing, ids: seq<Id>): Packing {
    if packing.current == [] || packing.currentSize + |ids| <= bound then
      packing.(current := packing.current + ids, currentSize := packing.currentSize + |ids|)
    else
      Packing(packing.groups + [packing.current], ids, |ids|)
  }

  function PackAll(bound: int, batches: seq<seq<Id>>): Packing {
    if batches == [] then Packing([], [], 0)
    else PackFile(bound, PackAll(bound, batches[..|batches| - 1]), batches[|batches| - 1])
  }

  function ClosePacking(packing: Packing): seq<seq<Id>> {
    if packing.current == [] then packing.groups else packing.groups + [packing.current]
  }

  function PackBatches(bound: int, batches: seq<seq<Id>>): seq<seq<Id>> {
    ClosePacking(PackAll(bound, batches))
  }

  function Groups(bound: int, mutants: seq<FileMutant>): seq<seq<Id>> {
    PackBatches(bound, IdLists(FileIdsOf(mutants)))
  }

  // ---- What next-fit promises: each group is a run of whole files ----

  ghost predicate Whole(bound: int, group: seq<Id>, run: seq<seq<Id>>) {
    run != [] && group == Concat(run) && (|group| > bound ==> |run| == 1)
  }

  // A group is closed only when the next run's first file does not fit.
  ghost predicate Overflows(bound: int, group: seq<Id>, next: seq<seq<Id>>) {
    next != [] && |group| + |next[0]| > bound
  }

  ghost predicate NextFit(bound: int, batches: seq<seq<Id>>, groups: seq<seq<Id>>, runs: seq<seq<seq<Id>>>) {
    && |runs| == |groups| && Concat(runs) == batches
    && (forall i :: 0 <= i < |groups| ==> Whole(bound, groups[i], runs[i]))
    && (forall i :: 0 <= i < |groups| - 1 ==> Overflows(bound, groups[i], runs[i + 1]))
  }

  lemma {:induction false} RunGrows(run: seq<seq<Id>>, ids: seq<Id>)
    ensures Concat(run + [ids]) == Concat(run) + ids
  {
    ConcatMore(run, ids);
  }

  lemma LastRunGrows(
      bound: int, batches: seq<seq<Id>>, groups: seq<seq<Id>>, runs: seq<seq<seq<Id>>>, ids: seq<Id>)
    returns (next: seq<seq<seq<Id>>>)
    requires NextFit(bound, batches, groups, runs) && groups != []
    requires |groups[|groups| - 1]| + |ids| <= bound
    ensures NextFit(bound, batches + [ids], groups[..|groups| - 1] + [groups[|groups| - 1] + ids], next)
  {
    var n := |groups|;
    var earlier, run := runs[..n - 1], runs[n - 1];
    assert runs == earlier + [run];
    ConcatMore(earlier, run);
    next := earlier + [run + [ids]];
    ConcatMore(earlier, run + [ids]);
    RunGrows(run, ids);
    assert batches + [ids] == Concat(earlier) + (run + [ids]);
  }

  lemma RunStarts(
      bound: int, batches: seq<seq<Id>>, groups: seq<seq<Id>>, runs: seq<seq<seq<Id>>>, ids: seq<Id>)
    returns (next: seq<seq<seq<Id>>>)
    requires NextFit(bound, batches, groups, runs) && groups != []
    requires |groups[|groups| - 1]| + |ids| > bound
    ensures NextFit(bound, batches + [ids], groups + [ids], next)
  {
    next := runs + [[ids]];
    ConcatMore(runs, [ids]);
    assert Concat([ids]) == ids;
  }

  // Packing one more file either lengthens the last run or starts one.
  lemma PackStep(
      bound: int, batches: seq<seq<Id>>, groups: seq<seq<Id>>, runs: seq<seq<seq<Id>>>, ids: seq<Id>, fits: bool)
    returns (next: seq<seq<seq<Id>>>)
    requires NextFit(bound, batches, groups, runs) && groups != []
    requires fits == (|groups[|groups| - 1]| + |ids| <= bound)
    ensures
      var last := groups[|groups| - 1];
      NextFit(bound, batches + [ids], if fits then groups[..|groups| - 1] + [last + ids] else groups + [ids], next)
  {
    if fits {
      next := LastRunGrows(bound, batches, groups, runs, ids);
    } else {
      next := RunStarts(bound, batches, groups, runs, ids);
    }
  }

  ghost predicate NonEmpty(batches: seq<seq<Id>>) {
    forall i :: 0 <= i < |batches| ==> batches[i] != []
  }

  lemma FirstPacked(bound: int, ids: seq<Id>)
    requires ids != []
    ensures NextFit(bound, [ids], PackBatches(bound, [ids]), [[ids]])
  {
    assert PackAll(bound, [ids][..0]) == Packing([], [], 0);
    assert PackAll(bound, [ids]).current == ids;
    ConcatMore([], ids);
    ConcatMore([], [ids]);
    assert [] + [ids] == [ids] && [] + [[ids]] == [[ids]];
  }

  // The packing's bookkeeping: a file already packed keeps the current group non-empty and its size exact.
  lemma {:induction false} SizesAreExact(bound: int, batches: seq<seq<Id>>)
    requires NonEmpty(batches)
    ensures PackAll(bound, batches).currentSize == |PackAll(bound, batches).current|
    ensures batches != [] ==> PackAll(bound, batches).current != []
  {
    if batches != [] {
      SizesAreExact(bound, batches[..|batches| - 1]);
    }
  }

  lemma PackedOneMore(bound: int, front: seq<seq<Id>>, ids: seq<Id>)
    requires NonEmpty(front + [ids]) && front != []
    ensures
      var groups := PackBatches(bound, front);
      && groups != []
      && PackBatches(bound, front + [ids])
         == if |groups[|groups| - 1]| + |ids| <= bound then groups[..|groups| - 1] + [groups[|groups| - 1] + ids]
            else groups + [ids]
  {
    SizesAreExact(bound, front) by {
      assert forall i :: 0 <= i < |front| ==> front[i] == (front + [ids])[i];
    }
    assert ids == (front + [ids])[|front|];
    assert (front + [ids])[..|front|] == front;
    assert PackBatches(bound, front)[..|PackBatches(bound, front)| - 1] == PackAll(bound, front).groups;
  }

  lemma {:induction false} PackingIsNextFit(bound: int, batches: seq<seq<Id>>) returns (runs: seq<seq<seq<Id>>>)
    requires NonEmpty(batches)
    ensures NextFit(bound, batches, PackBatches(bound, batches), runs)
  {
    if batches == [] {
      runs := [];
    } else if |batches| == 1 {
      FirstPacked(bound, batches[0]);
      assert batches == [batches[0]];
      runs := [[batches[0]]];
    } else {
      var front, ids := batches[..|batches| - 1], batches[|batches| - 1];
      assert batches == front + [ids];
      runs := PackingIsNextFit(bound, front);
      var groups := PackBatches(bound, front);
      PackedOneMore(bound, front, ids);
      runs := PackStep(bound, front, groups, runs, ids, |groups[|groups| - 1]| + |ids| <= bound);
    }
  }

  lemma {:induction false} RunsConcat(groups: seq<seq<Id>>, runs: seq<seq<seq<Id>>>)
    requires |runs| == |groups| && forall i :: 0 <= i < |groups| ==> groups[i] == Concat(runs[i])
    ensures Concat(groups) == Concat(Concat(runs))
  {
    if groups != [] {
      RunsConcat(groups[1..], runs[1..]);
      ConcatSplits(runs[0], Concat(runs[1..]));
    }
  }

  /** For every list of mutants and every bound there is a division of the files, in order and none split, into the
      groups: a group above the bound is one file, and a group ends only where the next file would not fit. */
  lemma GroupsAreNextFit(bound: int, mutants: seq<FileMutant>)
    ensures exists runs :: NextFit(bound, IdLists(FileIdsOf(mutants)), Groups(bound, mutants), runs)
    ensures Concat(Groups(bound, mutants)) == Concat(IdLists(FileIdsOf(mutants)))
  {
    FileIdsAreExact(mutants);
    var runs := PackingIsNextFit(bound, IdLists(FileIdsOf(mutants)));
    RunsConcat(Groups(bound, mutants), runs);
  }

  // ---- How many groups ----

  ghost predicate PairsOverflow(bound: int, groups: seq<seq<Id>>) {
    forall i :: 0 <= i < |groups| - 1 ==> |groups[i]| + |groups[i + 1]| > bound
  }

  lemma {:induction false} PairsFill(bound: nat, groups: seq<seq<Id>>)
    requires PairsOverflow(bound, groups)
    ensures bound * (|groups| / 2) <= |Concat(groups)|
    ensures |groups| >= 2 ==> bound * (|groups| / 2) < |Concat(groups)|
  {
    if |groups| >= 2 {
      var rest := groups[2..];
      PairsFill(bound, rest);
      assert Concat(groups) == groups[0] + (groups[1] + Concat(rest)) by {
        assert groups[1..][1..] == rest;
      }
      assert |groups[0]| + |groups[1]| > bound;
      assert |groups| / 2 == |rest| / 2 + 1;
      assert bound * (|rest| / 2 + 1) == bound * (|rest| / 2) + bound;
    }
  }

  lemma {:induction false} LongerThanPart(run: seq<seq<Id>>)
    requires run != []
    ensures |Concat(run)| >= |run[0]|
  {
  }

  /** Two neighbouring groups never fit into one, so more than half of the bound is used on average. */
  lemma GroupsAreFew(bound: nat, mutants: seq<FileMutant>)
    ensures PairsOverflow(bound, Groups(bound, mutants))
    ensures |Groups(bound, mutants)| >= 2 ==> bound * (|Groups(bound, mutants)| / 2) < |mutants|
  {
    var batches, groups := IdLists(FileIdsOf(mutants)), Groups(bound, mutants);
    GroupsAreNextFit(bound, mutants);
    var runs :| NextFit(bound, batches, groups, runs);
    forall i | 0 <= i < |groups| - 1 ensures |groups[i]| + |groups[i + 1]| > bound {
      assert Overflows(bound, groups[i], runs[i + 1]) && Whole(bound, groups[i + 1], runs[i + 1]);
      LongerThanPart(runs[i + 1]);
    }
    PairsFill(bound, groups);
    GroupingConservesIds(mutants);
    IdsCount(mutants);
    assert |Concat(batches)| == |multiset(Concat(batches))|;
  }

  lemma {:induction false} IdsCount(mutants: seq<FileMutant>)
    ensures |IdsOf(mutants)| == |mutants| == |multiset(IdsOf(mutants))|
  {
    if mutants != [] {
      IdsCount(mutants[..|mutants| - 1]);
    }
  }
}
