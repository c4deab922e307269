// Rounds of type checking: mutants of different files share a round, and those that may not share one go alone.
module CheckRounds {
  import opened FileIds
  import opened Wrappers

  datatype Candidate = Candidate(id: Id, fileName: string, eligible: bool)

  datatype CheckRound = Solo(id: Id) | Shared(ids: seq<Id>)

  function RoundOfLayer(layer: seq<Id>): CheckRound
    requires layer != []
  {
    if |layer| == 1 then Solo(layer[0]) else Shared(layer)
  }

  function Column(files: seq<FileIds>, layer: nat): seq<Id> {
    if files == [] then []
    else
      var rest := Column(files[1..], layer);
      if layer < |files[0].ids| then [files[0].ids[layer]] + rest else rest
  }

  function LayerAt(files: seq<FileIds>, layer: nat): Option<seq<Id>> {
    if Column(files, layer) == [] then None else Some(Column(files, layer))
  }

  function Max(a: int, b: int): int {
    if a < b then b else a
  }

  function LayerCountOf(files: seq<FileIds>): nat {
    if files == [] then 0 else Max(LayerCountOf(files[..|files| - 1]), |files[|files| - 1].ids|)
  }

  // An inclusive range; one that would be empty still holds its start.
  function Range(start: nat, end: int): seq<nat> {
    if start <= end then seq(end - start + 1, i requires 0 <= i => start + i) else [start]
  }

  function RoundsOf(files: seq<FileIds>, layers: seq<nat>): seq<CheckRound> {
    if layers == [] then []
    else
      match LayerAt(files, layers[0])
      case None => RoundsOf(files, layers[1..])
      case Some(layer) => [RoundOfLayer(layer)] + RoundsOf(files, layers[1..])
  }

  function LayerRounds(files: seq<FileIds>): seq<CheckRound> {
    RoundsOf(files, Range(0, LayerCountOf(files) - 1))
  }

  function IneligibleSolos(candidates: seq<Candidate>): seq<CheckRound> {
    if candidates == [] then []
    else (if candidates[0].eligible then [] else [Solo(candidates[0].id)]) + IneligibleSolos(candidates[1..])
  }

  function Eligible(candidates: seq<Candidate>): seq<FileMutant> {
    if candidates == [] then []
    else
      (if candidates[0].eligible then [FileMutant(candidates[0].fileName, candidates[0].id)] else [])
      + Eligible(candidates[1..])
  }

  function PlanRounds(candidates: seq<Candidate>): seq<CheckRound> {
    IneligibleSolos(candidates) + LayerRounds(FileIdsOf(Eligible(candidates)))
  }

  // ---- Rounds as lists of ids ----

  function Ids(round: CheckRound): seq<Id> {
    match round case Solo(id) => [id] case Shared(ids) => ids
  }

  function Schedule(rounds: seq<CheckRound>): (schedule: seq<seq<Id>>)
    ensures |schedule| == |rounds|
  {
    if rounds == [] then [] else [Ids(rounds[0])] + Schedule(rounds[1..])
  }

  function Columns(files: seq<FileIds>, count: nat): (columns: seq<seq<Id>>)
    ensures |columns| == count
  {
    if count == 0 then [] else Columns(files, count - 1) + [Column(files, count - 1)]
  }

  lemma {:induction false} ScheduleAt(rounds: seq<CheckRound>, i: nat)
    requires i < |rounds|
    ensures Schedule(rounds)[i] == Ids(rounds[i])
  {
    if i > 0 {
      ScheduleAt(rounds[1..], i - 1);
    }
  }

  lemma {:induction false} ColumnAt(files: seq<FileIds>, count: nat, layer: nat)
    requires layer < count
    ensures Columns(files, count)[layer] == Column(files, layer)
  {
    if layer < count - 1 {
      ColumnAt(files, count - 1, layer);
    }
  }

  lemma {:induction false} ScheduleSplits(a: seq<CheckRound>, b: seq<CheckRound>)
    ensures Schedule(a + b) == Schedule(a) + Schedule(b)
  {
    if a == [] {
      assert a + b == b;
    } else {
      assert (a + b)[0] == a[0] && (a + b)[1..] == a[1..] + b;
      ScheduleSplits(a[1..], b);
      assert Schedule(a) == [Ids(a[0])] + Schedule(a[1..]);
    }
  }

  lemma {:induction false} LayerCountBounds(files: seq<FileIds>)
    ensures forall file <- files :: |file.ids| <= LayerCountOf(files)
    ensures LayerCountOf(files) > 0 ==> exists file <- files :: |file.ids| == LayerCountOf(files)
  {
    if files != [] {
      LayerCountBounds(files[..|files| - 1]);
      assert files == files[..|files| - 1] + [files[|files| - 1]];
    }
  }

  lemma {:induction false} ColumnHolds(files: seq<FileIds>, layer: nat, id: Id)
    ensures id in Column(files, layer) <==> exists file <- files :: layer < |file.ids| && file.ids[layer] == id
  {
    if files != [] {
      ColumnHolds(files[1..], layer, id);
      assert files == [files[0]] + files[1..];
    }
  }

  lemma {:induction false} RoundsAreColumns(files: seq<FileIds>, layers: seq<nat>)
    requires forall i :: 0 <= i < |layers| ==> Column(files, layers[i]) != []
    ensures |RoundsOf(files, layers)| == |layers|
    ensures forall i :: 0 <= i < |layers| ==> RoundsOf(files, layers)[i] == RoundOfLayer(Column(files, layers[i]))
  {
    if layers != [] {
      RoundsAreColumns(files, layers[1..]);
    }
  }

  lemma {:induction false} LayersAreColumns(files: seq<FileIds>)
    ensures Schedule(LayerRounds(files)) == Columns(files, LayerCountOf(files))
    ensures forall layer :: 0 <= layer < LayerCountOf(files) ==> Column(files, layer) != []
  {
    var count := LayerCountOf(files);
    LayerCountBounds(files);
    if count == 0 {
      ColumnsEnd(files, 0);
      assert Range(0, -1) == [0];
      assert RoundsOf(files, [0]) == [];
    } else {
      var file :| file in files && |file.ids| == count;
      forall layer | 0 <= layer < count ensures Column(files, layer) != [] {
        ColumnHolds(files, layer, file.ids[layer]);
      }
      RoundsAreColumns(files, Range(0, count - 1));
      forall layer | 0 <= layer < count ensures Schedule(LayerRounds(files))[layer] == Columns(files, count)[layer] {
        ScheduleAt(LayerRounds(files), layer);
        ColumnAt(files, count, layer);
      }
    }
  }

  lemma {:induction false} ColumnsEnd(files: seq<FileIds>, layer: nat)
    requires forall file <- files :: |file.ids| <= layer
    ensures Column(files, layer) == []
  {
    if files != [] {
      ColumnsEnd(files[1..], layer);
    }
  }

  // ---- Conservation ----

  function Prefix(ids: seq<Id>, count: nat): seq<Id> {
    if count < |ids| then ids[..count] else ids
  }

  function Taken(files: seq<FileIds>, count: nat): seq<seq<Id>> {
    seq(|files|, i requires 0 <= i < |files| => Prefix(files[i].ids, count))
  }

  lemma LongerPrefix(ids: seq<Id>, count: nat)
    ensures multiset(Prefix(ids, count + 1))
      == multiset(Prefix(ids, count)) + if count < |ids| then multiset{ids[count]} else multiset{}
  {
    if count < |ids| {
      assert ids[..count + 1] == ids[..count] + [ids[count]];
      assert count + 1 == |ids| ==> ids[..count + 1] == ids;
    }
  }

  lemma {:induction false} OneMoreLayer(files: seq<FileIds>, count: nat)
    ensures multiset(Concat(Taken(files, count + 1)))
      == multiset(Concat(Taken(files, count))) + multiset(Column(files, count))
  {
    if files != [] {
      OneMoreLayer(files[1..], count);
      FirstTaken(files, count);
      FirstTaken(files, count + 1);
      LongerPrefix(files[0].ids, count);
    }
  }

  lemma FirstTaken(files: seq<FileIds>, count: nat)
    requires files != []
    ensures multiset(Concat(Taken(files, count)))
      == multiset(Prefix(files[0].ids, count)) + multiset(Concat(Taken(files[1..], count)))
  {
    assert Taken(files, count)[1..] == Taken(files[1..], count);
  }

  lemma {:induction false} TakenNone(files: seq<FileIds>)
    ensures Concat(Taken(files, 0)) == []
  {
    if files != [] {
      TakenNone(files[1..]);
      assert Taken(files, 0)[1..] == Taken(files[1..], 0);
    }
  }

  lemma {:induction false} LayersConserve(files: seq<FileIds>, count: nat)
    ensures multiset(Concat(Columns(files, count))) == multiset(Concat(Taken(files, count)))
  {
    if count == 0 {
      TakenNone(files);
    } else {
      LayersConserve(files, count - 1);
      OneMoreLayer(files, count - 1);
      var last := Column(files, count - 1);
      ConcatMore(Columns(files, count - 1), last);
    }
  }

  // ---- The order of the rounds ----

  lemma {:induction false} SolosInParts(a: seq<Candidate>, b: seq<Candidate>)
    ensures IneligibleSolos(a + b) == IneligibleSolos(a) + IneligibleSolos(b)
  {
    if a == [] {
      assert a + b == b;
    } else {
      assert (a + b)[0] == a[0] && (a + b)[1..] == a[1..] + b;
      SolosInParts(a[1..], b);
    }
  }

  lemma {:induction false} SolosInOrder(before: seq<Candidate>, candidate: Candidate, after: seq<Candidate>)
    ensures IneligibleSolos([]) == []
    ensures IneligibleSolos(before + ([candidate] + after)) ==
      IneligibleSolos(before) + ((if candidate.eligible then [] else [Solo(candidate.id)]) + IneligibleSolos(after))
  {
    SolosInParts(before, [candidate] + after);
    assert ([candidate] + after)[1..] == after;
  }

  lemma {:induction false} ColumnInParts(a: seq<FileIds>, b: seq<FileIds>, layer: nat)
    ensures Column(a + b, layer) == Column(a, layer) + Column(b, layer)
  {
    if a == [] {
      assert a + b == b;
    } else {
      assert (a + b)[0] == a[0] && (a + b)[1..] == a[1..] + b;
      ColumnInParts(a[1..], b, layer);
    }
  }

  lemma {:induction false} ColumnInOrder(before: seq<FileIds>, file: FileIds, after: seq<FileIds>, layer: nat)
    ensures Column([], layer) == []
    ensures Column(before + ([file] + after), layer)
      == Column(before, layer) + ((if layer < |file.ids| then [file.ids[layer]] else []) + Column(after, layer))
  {
    ColumnInParts(before, [file] + after, layer);
    assert ([file] + after)[1..] == after;
  }

  lemma {:induction false} LayerIsColumn(files: seq<FileIds>, k: nat)
    ensures |LayerRounds(files)| == LayerCountOf(files)
    ensures k < LayerCountOf(files) ==> Ids(LayerRounds(files)[k]) == Column(files, k)
  {
    LayersAreColumns(files);
    if k < LayerCountOf(files) {
      ScheduleAt(LayerRounds(files), k);
      ColumnAt(files, LayerCountOf(files), k);
    }
  }

  lemma {:induction false} InPart(solos: seq<CheckRound>, files: seq<FileIds>, i: nat)
    requires i < |solos + LayerRounds(files)|
    ensures
      if i < |solos| then (solos + LayerRounds(files))[i] == solos[i]
      else
        i - |solos| < LayerCountOf(files) && Ids((solos + LayerRounds(files))[i]) == Column(files, i - |solos|)
  {
    if i >= |solos| {
      LayerIsColumn(files, i - |solos|);
    }
  }

  /** The rounds: first each ineligible candidate alone, in order, then for each number k as many as the fullest file
      has eligible ones, the k-th eligible mutants of the files in the order the files are first seen. */
  lemma {:induction false} RoundsInOrder(candidates: seq<Candidate>, i: nat)
    requires i < |PlanRounds(candidates)|
    ensures
      var solos, files := IneligibleSolos(candidates), FileIdsOf(Eligible(candidates));
      if i < |solos| then PlanRounds(candidates)[i] == solos[i]
      else i - |solos| < LayerCountOf(files) && Ids(PlanRounds(candidates)[i]) == Column(files, i - |solos|)
  {
    InPart(IneligibleSolos(candidates), FileIdsOf(Eligible(candidates)), i);
  }

  function CandidateIds(candidates: seq<Candidate>): (ids: seq<Id>)
    ensures |ids| == |candidates| && forall i :: 0 <= i < |ids| ==> ids[i] == candidates[i].id
  {
    if candidates == [] then [] else [candidates[0].id] + CandidateIds(candidates[1..])
  }

  lemma {:induction false} IdsOfSplits(a: seq<FileMutant>, b: seq<FileMutant>)
    ensures IdsOf(a + b) == IdsOf(a) + IdsOf(b)
  {
    if b == [] {
      assert a + b == a;
    } else {
      var front, last := b[..|b| - 1], b[|b| - 1];
      IdsOfSplits(a, front);
      assert (a + b)[..|a + b| - 1] == a + front && (a + b)[|a + b| - 1] == last;
      assert IdsOf(b) == IdsOf(front) + [last.id];
    }
  }

  lemma {:induction false} SolosAndEligible(candidates: seq<Candidate>)
    ensures multiset(Concat(Schedule(IneligibleSolos(candidates)))) + multiset(IdsOf(Eligible(candidates)))
      == multiset(CandidateIds(candidates))
  {
    if candidates != [] {
      SolosAndEligible(candidates[1..]);
      FirstSolo(candidates);
      FirstEligible(candidates);
    }
  }

  lemma {:induction false} FirstSolo(candidates: seq<Candidate>)
    requires candidates != []
    ensures Concat(Schedule(IneligibleSolos(candidates)))
      == (if candidates[0].eligible then [] else [candidates[0].id])
        + Concat(Schedule(IneligibleSolos(candidates[1..])))
  {
    var rest := IneligibleSolos(candidates[1..]);
    if candidates[0].eligible {
      assert IneligibleSolos(candidates) == rest;
    } else {
      assert Schedule(IneligibleSolos(candidates)) == [[candidates[0].id]] + Schedule(rest);
    }
  }

  lemma {:induction false} FirstEligible(candidates: seq<Candidate>)
    requires candidates != []
    ensures IdsOf(Eligible(candidates))
      == (if candidates[0].eligible then [candidates[0].id] else []) + IdsOf(Eligible(candidates[1..]))
  {
    var first, rest := candidates[0], Eligible(candidates[1..]);
    if first.eligible {
      IdsOfSplits([FileMutant(first.fileName, first.id)], rest);
      assert IdsOf([FileMutant(first.fileName, first.id)]) == [first.id];
    } else {
      assert Eligible(candidates) == rest;
    }
  }

  lemma {:induction false} LayersConserveIds(mutants: seq<FileMutant>)
    ensures multiset(Concat(Schedule(LayerRounds(FileIdsOf(mutants))))) == multiset(IdsOf(mutants))
  {
    var files := FileIdsOf(mutants);
    var count := LayerCountOf(files);
    LayersAreColumns(files);
    LayersConserve(files, count);
    AllTaken(files);
    GroupingConservesIds(mutants);
  }

  lemma {:induction false} AllTaken(files: seq<FileIds>)
    ensures Taken(files, LayerCountOf(files)) == IdLists(files)
  {
    LayerCountBounds(files);
    forall i | 0 <= i < |files| ensures Prefix(files[i].ids, LayerCountOf(files)) == files[i].ids {
      assert files[i] in files;
    }
  }

  /** The rounds hold exactly the candidates' ids, each as often as it was given. */
  lemma {:induction false} RoundsConserveIds(candidates: seq<Candidate>)
    ensures multiset(Concat(Schedule(PlanRounds(candidates)))) == multiset(CandidateIds(candidates))
  {
    var solos, layers := IneligibleSolos(candidates), LayerRounds(FileIdsOf(Eligible(candidates)));
    LayersConserveIds(Eligible(candidates));
    SolosAndEligible(candidates);
    ScheduleSplits(solos, layers);
    ConcatSplits(Schedule(solos), Schedule(layers));
  }

  // ---- The rules of a schedule ----

  ghost predicate DistinctIds(candidates: seq<Candidate>) {
    forall a <- candidates, b <- candidates :: a.id == b.id ==> a == b
  }

  predicate MayShare(a: Candidate, b: Candidate) {
    a.eligible && b.eligible && a.fileName != b.fileName
  }

  ghost predicate Legal(candidates: seq<Candidate>, round: seq<Id>) {
    forall a <- candidates, b <- candidates :: a != b && a.id in round && b.id in round ==> MayShare(a, b)
  }

  predicate Held(schedule: seq<seq<Id>>, id: Id) {
    exists round <- schedule :: id in round
  }

  ghost predicate ObeysRules(candidates: seq<Candidate>, schedule: seq<seq<Id>>) {
    && (forall c <- candidates :: Held(schedule, c.id))
    && (forall round <- schedule :: Legal(candidates, round))
  }

  lemma {:induction false} ConcatHolds(schedule: seq<seq<Id>>, id: Id)
    ensures id in Concat(schedule) <==> Held(schedule, id)
  {
    if schedule != [] {
      ConcatHolds(schedule[1..], id);
      assert schedule == [schedule[0]] + schedule[1..];
    }
  }

  lemma {:induction false} IdsInAre(mutants: seq<FileMutant>, file: string, id: Id)
    ensures id in IdsIn(mutants, file) <==> FileMutant(file, id) in mutants
  {
    if mutants != [] {
      IdsInAre(mutants[..|mutants| - 1], file, id);
      assert mutants == mutants[..|mutants| - 1] + [mutants[|mutants| - 1]];
    }
  }

  lemma {:induction false} EligibleAre(candidates: seq<Candidate>, mutant: FileMutant)
    ensures mutant in Eligible(candidates) <==> Candidate(mutant.id, mutant.fileName, true) in candidates
  {
    if candidates != [] {
      EligibleAre(candidates[1..], mutant);
      assert candidates == [candidates[0]] + candidates[1..];
    }
  }

  lemma {:induction false} SolosAre(candidates: seq<Candidate>)
    ensures forall round <- IneligibleSolos(candidates) :: round.Solo?
    ensures forall c <- candidates :: !c.eligible ==> Solo(c.id) in IneligibleSolos(candidates)
  {
    if candidates != [] {
      SolosAre(candidates[1..]);
    }
  }

  // What a layer holds of a candidate's id is that candidate, eligible, at the layer's place in its file.
  lemma LayerHolds(candidates: seq<Candidate>, layer: nat, c: Candidate)
    returns (i: nat)
    requires DistinctIds(candidates) && c in candidates
    requires c.id in Column(FileIdsOf(Eligible(candidates)), layer)
    ensures
      var files := FileIdsOf(Eligible(candidates));
      i < |files| && layer < |files[i].ids| && files[i].ids[layer] == c.id && files[i].fileName == c.fileName
        && c.eligible
  {
    var mutants := Eligible(candidates);
    var files := FileIdsOf(mutants);
    FileIdsAreExact(mutants);
    ColumnHolds(files, layer, c.id);
    i :| 0 <= i < |files| && layer < |files[i].ids| && files[i].ids[layer] == c.id;
    assert files[i].ids[layer] in files[i].ids;
    IdsInAre(mutants, files[i].fileName, c.id);
    EligibleAre(candidates, FileMutant(files[i].fileName, c.id));
  }

  lemma {:induction false} LayersAreLegal(candidates: seq<Candidate>, layer: nat)
    requires DistinctIds(candidates)
    ensures Legal(candidates, Column(FileIdsOf(Eligible(candidates)), layer))
  {
    var files := FileIdsOf(Eligible(candidates));
    FileIdsAreExact(Eligible(candidates));
    FirstSeenAreTheFiles(Eligible(candidates));
    forall a <- candidates, b <- candidates | a != b && a.id in Column(files, layer) && b.id in Column(files, layer)
      ensures MayShare(a, b)
    {
      var i := LayerHolds(candidates, layer, a);
      var j := LayerHolds(candidates, layer, b);
    }
  }

  lemma PlanHoldsAll(candidates: seq<Candidate>, c: Candidate)
    requires c in candidates
    ensures Held(Schedule(PlanRounds(candidates)), c.id)
  {
    RoundsConserveIds(candidates);
    assert c.id in CandidateIds(candidates);
    assert c.id in multiset(Concat(Schedule(PlanRounds(candidates))));
    ConcatHolds(Schedule(PlanRounds(candidates)), c.id);
  }

  lemma PlannedRoundIsLegal(candidates: seq<Candidate>, i: nat)
    requires DistinctIds(candidates) && i < |PlanRounds(candidates)|
    ensures Legal(candidates, Ids(PlanRounds(candidates)[i]))
  {
    var solos, files := IneligibleSolos(candidates), FileIdsOf(Eligible(candidates));
    if i < |solos| {
      SolosAre(candidates);
      assert solos[i].Solo?;
    } else {
      LayersAreColumns(files);
      ScheduleAt(LayerRounds(files), i - |solos|);
      ColumnAt(files, LayerCountOf(files), i - |solos|);
      LayersAreLegal(candidates, i - |solos|);
    }
  }

  /** A shared round holds at least two mutants. */
  lemma SharedRoundsHoldTwo(candidates: seq<Candidate>, i: nat)
    requires i < |PlanRounds(candidates)| && PlanRounds(candidates)[i].Shared?
    ensures |PlanRounds(candidates)[i].ids| >= 2
  {
    var solos, files := IneligibleSolos(candidates), FileIdsOf(Eligible(candidates));
    SolosAre(candidates);
    assert forall k :: 0 <= k < |solos| ==> solos[k].Solo?;
    RoundsOfLayers(files, Range(0, LayerCountOf(files) - 1), i - |solos|);
  }

  lemma {:induction false} RoundsOfLayers(files: seq<FileIds>, layers: seq<nat>, i: nat)
    requires i < |RoundsOf(files, layers)|
    ensures exists layer :: layer != [] && RoundsOf(files, layers)[i] == RoundOfLayer(layer)
  {
    if LayerAt(files, layers[0]).None? {
      RoundsOfLayers(files, layers[1..], i);
    } else if i > 0 {
      RoundsOfLayers(files, layers[1..], i - 1);
    }
  }

  /** The planned rounds obey the rules: every candidate is held, an ineligible one alone, and no round holds two
      mutants of one file. */
  lemma PlanObeysRules(candidates: seq<Candidate>)
    requires DistinctIds(candidates)
    ensures ObeysRules(candidates, Schedule(PlanRounds(candidates)))
  {
    forall c <- candidates ensures Held(Schedule(PlanRounds(candidates)), c.id) {
      PlanHoldsAll(candidates, c);
    }
    forall i | 0 <= i < |PlanRounds(candidates)| ensures Legal(candidates, Schedule(PlanRounds(candidates))[i]) {
      PlannedRoundIsLegal(candidates, i);
      ScheduleAt(PlanRounds(candidates), i);
    }
  }

  // ---- The number of rounds ----

  function CountIneligible(candidates: seq<Candidate>): nat {
    if candidates == [] then 0 else (if candidates[0].eligible then 0 else 1) + CountIneligible(candidates[1..])
  }

  // The largest number of eligible mutants in one file.
  function LargestFile(mutants: seq<FileMutant>, files: seq<string>): nat {
    if files == [] then 0
    else Max(LargestFile(mutants, files[..|files| - 1]), |IdsIn(mutants, files[|files| - 1])|)
  }

  lemma {:induction false} SolosCount(candidates: seq<Candidate>)
    ensures |IneligibleSolos(candidates)| == CountIneligible(candidates)
  {
    if candidates != [] {
      SolosCount(candidates[1..]);
    }
  }

  lemma {:induction false} LayerCountIsLargest(mutants: seq<FileMutant>, names: seq<string>, files: seq<FileIds>)
    requires |names| == |files|
    requires forall i :: 0 <= i < |files| ==> files[i] == FileIds(names[i], IdsIn(mutants, names[i]))
    ensures LayerCountOf(files) == LargestFile(mutants, names)
  {
    if files != [] {
      LayerCountIsLargest(mutants, names[..|names| - 1], files[..|files| - 1]);
    }
  }

  /** There is one round for each ineligible candidate and as many more as the fullest file has eligible ones. */
  lemma {:induction false} RoundCount(candidates: seq<Candidate>)
    ensures |PlanRounds(candidates)|
      == CountIneligible(candidates) + LargestFile(Eligible(candidates), FirstSeen(Eligible(candidates)))
  {
    var files := FileIdsOf(Eligible(candidates));
    SolosCount(candidates);
    LayersAreColumns(files);
    FileIdsAreExact(Eligible(candidates));
    LayerCountIsLargest(Eligible(candidates), FirstSeen(Eligible(candidates)), files);
  }

  // Candidates no two of which may share a round.
  ghost predicate Conflicting(chosen: seq<Candidate>) {
    forall i, j :: 0 <= i < j < |chosen| ==> chosen[i] != chosen[j] && !MayShare(chosen[i], chosen[j])
  }

  lemma {:induction false} ConflictsNeedRounds(
      candidates: seq<Candidate>, chosen: seq<Candidate>, schedule: seq<seq<Id>>)
    requires Conflicting(chosen) && forall c <- chosen :: c in candidates && Held(schedule, c.id)
    requires forall round <- schedule :: Legal(candidates, round)
    ensures |chosen| <= |schedule|
  {
    if chosen != [] {
      var c := chosen[0];
      assert c in candidates && Held(schedule, c.id);
      var k :| 0 <= k < |schedule| && c.id in schedule[k];
      var rest := schedule[..k] + schedule[k + 1..];
      forall d <- chosen[1..] ensures Held(rest, d.id) {
        var j :| 1 <= j < |chosen| && chosen[j] == d;
        assert d in candidates && c in candidates && schedule[k] in schedule;
        assert d.id !in schedule[k];
        var round :| round in schedule && d.id in round;
        assert round in rest;
      }
      ConflictsNeedRounds(candidates, chosen[1..], rest);
    }
  }

  // The ineligible candidates and those of one file, in input order.
  function Blocking(candidates: seq<Candidate>, file: string): seq<Candidate> {
    if candidates == [] then []
    else
      (if !candidates[0].eligible || candidates[0].fileName == file then [candidates[0]] else [])
      + Blocking(candidates[1..], file)
  }

  lemma {:induction false} IdsInSplits(a: seq<FileMutant>, b: seq<FileMutant>, file: string)
    ensures IdsIn(a + b, file) == IdsIn(a, file) + IdsIn(b, file)
  {
    if b == [] {
      assert a + b == a;
    } else {
      IdsInSplits(a, b[..|b| - 1], file);
      assert (a + b)[..|a + b| - 1] == a + b[..|b| - 1];
    }
  }

  lemma {:induction false} BlockingCount(candidates: seq<Candidate>, file: string)
    ensures |Blocking(candidates, file)| == CountIneligible(candidates) + |IdsIn(Eligible(candidates), file)|
    ensures forall c <- Blocking(candidates, file) :: c in candidates && (!c.eligible || c.fileName == file)
  {
    if candidates != [] {
      BlockingCount(candidates[1..], file);
      var first, rest := candidates[0], Eligible(candidates[1..]);
      if first.eligible {
        IdsInSplits([FileMutant(first.fileName, first.id)], rest, file);
        assert |IdsIn([FileMutant(first.fileName, first.id)], file)| == if first.fileName == file then 1 else 0;
      } else {
        assert Eligible(candidates) == rest;
      }
    }
  }

  // Distinct as candidates of a list with distinct ids, each listed once.
  ghost predicate NoRepeats(candidates: seq<Candidate>) {
    forall i, j :: 0 <= i < j < |candidates| ==> candidates[i].id != candidates[j].id
  }

  lemma {:induction false} BlockingNoRepeats(candidates: seq<Candidate>, file: string)
    requires NoRepeats(candidates)
    ensures NoRepeats(Blocking(candidates, file))
  {
    if candidates != [] {
      BlockingNoRepeats(candidates[1..], file);
      BlockingCount(candidates[1..], file);
      var rest := Blocking(candidates[1..], file);
      assert forall i :: 0 <= i < |rest| ==> rest[i] in candidates[1..];
    }
  }

  lemma {:induction false} FullestFile(mutants: seq<FileMutant>, files: seq<string>) returns (file: string)
    ensures |IdsIn(mutants, file)| >= LargestFile(mutants, files)
  {
    if files == [] {
      file := "";
    } else {
      file := FullestFile(mutants, files[..|files| - 1]);
      if |IdsIn(mutants, file)| < |IdsIn(mutants, files[|files| - 1])| {
        file := files[|files| - 1];
      }
    }
  }

  /** No schedule that obeys the rules has fewer rounds than the plan. */
  lemma PlanIsOptimal(candidates: seq<Candidate>, schedule: seq<seq<Id>>)
    requires NoRepeats(candidates) && ObeysRules(candidates, schedule)
    ensures |PlanRounds(candidates)| <= |schedule|
  {
    var mutants := Eligible(candidates);
    var file := FullestFile(mutants, FirstSeen(mutants));
    RoundCount(candidates);
    BlockingCount(candidates, file);
    BlockingNoRepeats(candidates, file);
    ConflictsNeedRounds(candidates, Blocking(candidates, file), schedule);
  }
}
