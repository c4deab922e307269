// Mutant ids grouped by file: files in first-seen order, each with its ids in input order.
module FileIds {
  type Id = string

  datatype FileMutant = FileMutant(fileName: string, id: Id)

  datatype FileIds = FileIds(fileName: string, ids: seq<Id>)

  datatype Grouping = Grouping(files: seq<string>, idsByFile: map<string, seq<Id>>)

  function Adding(grouping: Grouping, mutant: FileMutant): Grouping {
    if mutant.fileName in grouping.idsByFile then
      grouping.(idsByFile := grouping.idsByFile[mutant.fileName := grouping.idsByFile[mutant.fileName] + [mutant.id]])
    else
      Grouping(grouping.files + [mutant.fileName], grouping.idsByFile[mutant.fileName := [mutant.id]])
  }

  function GroupingOf(mutants: seq<FileMutant>): Grouping {
    if mutants == [] then Grouping([], map[]) else Adding(GroupingOf(mutants[..|mutants| - 1]), mutants[|mutants| - 1])
  }

  function Listed(files: seq<string>, idsByFile: map<string, seq<Id>>): seq<FileIds> {
    if files == [] then []
    else
      var rest := Listed(files[1..], idsByFile);
      if files[0] in idsByFile then [FileIds(files[0], idsByFile[files[0]])] + rest else rest
  }

  function FileIdsOf(mutants: seq<FileMutant>): seq<FileIds> {
    var grouping := GroupingOf(mutants);
    Listed(grouping.files, grouping.idsByFile)
  }

  // ---- What the grouping means ----

  function IdsIn(mutants: seq<FileMutant>, file: string): seq<Id> {
    if mutants == [] then []
    else
      var front, last := IdsIn(mutants[..|mutants| - 1], file), mutants[|mutants| - 1];
      if last.fileName == file then front + [last.id] else front
  }

  function FirstSeen(mutants: seq<FileMutant>): seq<string> {
    if mutants == [] then []
    else
      var front, last := FirstSeen(mutants[..|mutants| - 1]), mutants[|mutants| - 1];
      if last.fileName in front then front else front + [last.fileName]
  }

  function IdsOf(mutants: seq<FileMutant>): seq<Id> {
    if mutants == [] then [] else IdsOf(mutants[..|mutants| - 1]) + [mutants[|mutants| - 1].id]
  }

  function Concat<T>(parts: seq<seq<T>>): seq<T> {
    if parts == [] then [] else parts[0] + Concat(parts[1..])
  }

  function IdLists(files: seq<FileIds>): (lists: seq<seq<Id>>)
    ensures |lists| == |files| && forall i :: 0 <= i < |files| ==> lists[i] == files[i].ids
  {
    seq(|files|, i requires 0 <= i < |files| => files[i].ids)
  }

  lemma {:induction false} GroupingIsExact(mutants: seq<FileMutant>)
    ensures GroupingOf(mutants).files == FirstSeen(mutants)
    ensures forall file :: file in GroupingOf(mutants).idsByFile <==> file in FirstSeen(mutants)
    ensures forall file <- FirstSeen(mutants) :: GroupingOf(mutants).idsByFile[file] == IdsIn(mutants, file) != []
    ensures forall file :: file !in FirstSeen(mutants) ==> IdsIn(mutants, file) == []
  {
    if mutants != [] {
      GroupingIsExact(mutants[..|mutants| - 1]);
    }
  }

  lemma {:induction false} ListedAt(files: seq<string>, idsByFile: map<string, seq<Id>>)
    requires forall file <- files :: file in idsByFile
    ensures |Listed(files, idsByFile)| == |files|
    ensures forall i :: 0 <= i < |files| ==> Listed(files, idsByFile)[i] == FileIds(files[i], idsByFile[files[i]])
  {
    if files != [] {
      ListedAt(files[1..], idsByFile);
    }
  }

  lemma {:induction false} FirstSeenAreTheFiles(mutants: seq<FileMutant>)
    ensures forall i, j :: 0 <= i < j < |FirstSeen(mutants)| ==> FirstSeen(mutants)[i] != FirstSeen(mutants)[j]
    ensures forall file :: file in FirstSeen(mutants) <==> exists m <- mutants :: m.fileName == file
  {
    if mutants != [] {
      var front, last := mutants[..|mutants| - 1], mutants[|mutants| - 1];
      assert mutants == front + [last];
      FirstSeenAreTheFiles(front);
    }
  }

  /** Each file that has mutants is listed once, in first-seen order, with exactly its ids in input order. */
  lemma {:induction false} FileIdsAreExact(mutants: seq<FileMutant>)
    ensures |FileIdsOf(mutants)| == |FirstSeen(mutants)|
    ensures forall i :: 0 <= i < |FirstSeen(mutants)| ==>
      FileIdsOf(mutants)[i] == FileIds(FirstSeen(mutants)[i], IdsIn(mutants, FirstSeen(mutants)[i]))
      && FileIdsOf(mutants)[i].ids != []
  {
    GroupingIsExact(mutants);
    ListedAt(GroupingOf(mutants).files, GroupingOf(mutants).idsByFile);
  }

  // ---- Conservation ----

  function ListsOf(mutants: seq<FileMutant>, files: seq<string>): seq<seq<Id>> {
    seq(|files|, i requires 0 <= i < |files| => IdsIn(mutants, files[i]))
  }

  lemma {:induction false} ConcatSplits<T>(a: seq<seq<T>>, b: seq<seq<T>>)
    ensures Concat(a + b) == Concat(a) + Concat(b)
  {
    if a == [] {
      assert a + b == b;
    } else {
      assert (a + b)[1..] == a[1..] + b;
      ConcatSplits(a[1..], b);
    }
  }

  lemma {:induction false} ConcatMore<T>(parts: seq<seq<T>>, last: seq<T>)
    ensures Concat(parts + [last]) == Concat(parts) + last
    ensures multiset(Concat(parts + [last])) == multiset(Concat(parts)) + multiset(last)
  {
    ConcatSplits(parts, [last]);
    assert Concat([last]) == last;
  }

  lemma {:induction false} OneMoreId(front: seq<FileMutant>, last: FileMutant, files: seq<string>)
    requires forall i, j :: 0 <= i < j < |files| ==> files[i] != files[j]
    ensures multiset(Concat(ListsOf(front + [last], files)))
      == multiset(Concat(ListsOf(front, files))) + if last.fileName in files then multiset{last.id} else multiset{}
  {
    assert (front + [last])[..|front|] == front;
    if files != [] {
      OneMoreId(front, last, files[1..]);
      FirstList(front, files);
      FirstList(front + [last], files);
    }
  }

  lemma {:induction false} FirstList(mutants: seq<FileMutant>, files: seq<string>)
    requires files != []
    ensures multiset(Concat(ListsOf(mutants, files)))
      == multiset(IdsIn(mutants, files[0])) + multiset(Concat(ListsOf(mutants, files[1..])))
  {
    assert ListsOf(mutants, files) == [IdsIn(mutants, files[0])] + ListsOf(mutants, files[1..]);
  }

  // A file seen for the first time has no ids before.
  lemma {:induction false} NewFileHasNone(front: seq<FileMutant>, last: FileMutant)
    requires last.fileName !in FirstSeen(front) && FirstSeen(front + [last]) == FirstSeen(front) + [last.fileName]
    ensures Concat(ListsOf(front, FirstSeen(front + [last]))) == Concat(ListsOf(front, FirstSeen(front)))
  {
    GroupingIsExact(front);
    assert ListsOf(front, FirstSeen(front + [last])) == ListsOf(front, FirstSeen(front)) + [[]];
    ConcatSplits(ListsOf(front, FirstSeen(front)), [[]]);
    assert Concat<Id>([[]]) == [];
  }

  lemma {:induction false} ListsConserve(mutants: seq<FileMutant>)
    ensures multiset(Concat(ListsOf(mutants, FirstSeen(mutants)))) == multiset(IdsOf(mutants))
  {
    if mutants != [] {
      var front, last := mutants[..|mutants| - 1], mutants[|mutants| - 1];
      assert mutants == front + [last];
      ListsConserve(front);
      FirstSeenAreTheFiles(mutants);
      OneMoreId(front, last, FirstSeen(mutants));
      if last.fileName !in FirstSeen(front) {
        NewFileHasNone(front, last);
      }
    }
  }

  /** Grouping neither loses nor repeats an id. */
  lemma {:induction false} GroupingConservesIds(mutants: seq<FileMutant>)
    ensures multiset(Concat(IdLists(FileIdsOf(mutants)))) == multiset(IdsOf(mutants))
  {
    FileIdsAreExact(mutants);
    ListsConserve(mutants);
    assert IdLists(FileIdsOf(mutants)) == ListsOf(mutants, FirstSeen(mutants));
  }
}
