// The files a mutation can change the checking of: the mutated ones and all that import them, directly or not.
module AffectedFiles {
  import opened FiniteSets
  import opened Paths

  datatype FileImports = FileImports(fileName: string, imports: seq<string>)

  type Dependents = map<string, set<string>>

  datatype Affected = MutatedFile(fileName: string) | DependentFile(fileName: string)

  function DependentsOfFile(dependents: Dependents, fileName: string): set<string> {
    if fileName in dependents then dependents[fileName] else {}
  }

  function AddDependent(dependents: Dependents, fileName: string, imports: seq<string>): Dependents {
    if imports == [] then dependents
    else
      var before := AddDependent(dependents, fileName, imports[..|imports| - 1]);
      var imported := imports[|imports| - 1];
      before[imported := DependentsOfFile(before, imported) + {fileName}]
  }

  function DependentsOf(files: seq<FileImports>): Dependents {
    if files == [] then map[]
    else AddDependent(DependentsOf(files[..|files| - 1]), files[|files| - 1].fileName, files[|files| - 1].imports)
  }

  function Grown(dependents: Dependents, affected: set<string>): set<string> {
    affected + set fileName, dependent | fileName in affected && dependent in DependentsOfFile(dependents, fileName) ::
      dependent
  }

  function AllDependents(dependents: Dependents): set<string> {
    set fileName, dependent | fileName in dependents && dependent in dependents[fileName] :: dependent
  }

  function CloseOverDependents(dependents: Dependents, affected: set<string>): set<string>
    decreases AllDependents(dependents) - affected
  {
    var grown := Grown(dependents, affected);
    if |grown| == |affected| then grown
    else
      assert grown - affected != {} by { LargerHasMore(affected, grown); }
      CloseOverDependents(dependents, grown)
  }

  function TraceAffectedFiles(files: seq<FileImports>, mutatedFileNames: set<string>): set<Affected> {
    set fileName | fileName in CloseOverDependents(DependentsOf(files), mutatedFileNames) ::
      if fileName in mutatedFileNames then MutatedFile(fileName) else DependentFile(fileName)
  }

  // ---- Exactness ----

  predicate Imports(files: seq<FileImports>, importer: string, imported: string) {
    exists file <- files :: file.fileName == importer && imported in file.imports
  }

  function ImportEdge(files: seq<FileImports>): Edge {
    (importer, imported) => Imports(files, importer, imported)
  }

  lemma {:induction false} AddedDependents(
      dependents: Dependents, fileName: string, imports: seq<string>, a: string, b: string)
    ensures a in DependentsOfFile(AddDependent(dependents, fileName, imports), b)
      <==> a in DependentsOfFile(dependents, b) || (a == fileName && b in imports)
  {
    if imports != [] {
      AddedDependents(dependents, fileName, imports[..|imports| - 1], a, b);
      assert imports == imports[..|imports| - 1] + [imports[|imports| - 1]];
    }
  }

  /** The dependents of a file are exactly the files that import it. */
  lemma {:induction false} DependentsAreImporters(files: seq<FileImports>, a: string, b: string)
    ensures a in DependentsOfFile(DependentsOf(files), b) <==> Imports(files, a, b)
  {
    if files != [] {
      var front, last := files[..|files| - 1], files[|files| - 1];
      assert files == front + [last];
      DependentsAreImporters(front, a, b);
      AddedDependents(DependentsOf(front), last.fileName, last.imports, a, b);
    }
  }

  ghost predicate ClosedOver(dependents: Dependents, members: set<string>) {
    forall f, d :: f in members && d in DependentsOfFile(dependents, f) ==> d in members
  }

  lemma {:induction false} ClosureIsLeast(dependents: Dependents, affected: set<string>)
    ensures affected <= CloseOverDependents(dependents, affected)
    ensures ClosedOver(dependents, CloseOverDependents(dependents, affected))
    ensures forall members :: affected <= members && ClosedOver(dependents, members) ==>
      CloseOverDependents(dependents, affected) <= members
    decreases AllDependents(dependents) - affected
  {
    var grown := Grown(dependents, affected);
    if |grown| == |affected| {
      SameSize(affected, grown);
    } else {
      LargerHasMore(affected, grown);
      ClosureIsLeast(dependents, grown);
    }
  }

  ghost predicate ReachesOne(files: seq<FileImports>, targets: set<string>, fileName: string) {
    exists s <- targets :: Reaches(ImportEdge(files), fileName, s)
  }

  lemma {:induction false} DependentReaches(files: seq<FileImports>, mutated: set<string>, f: string, d: string)
    requires ReachesOne(files, mutated, f) && d in DependentsOfFile(DependentsOf(files), f)
    ensures ReachesOne(files, mutated, d)
  {
    var s :| s in mutated && Reaches(ImportEdge(files), f, s);
    DependentsAreImporters(files, d, f);
    StepFirst(ImportEdge(files), d, f, s);
  }

  lemma {:induction false} ClosureReaches(
      files: seq<FileImports>, mutated: set<string>, affected: set<string>, fileName: string)
    requires forall f <- affected :: ReachesOne(files, mutated, f)
    requires fileName in CloseOverDependents(DependentsOf(files), affected)
    ensures ReachesOne(files, mutated, fileName)
    decreases AllDependents(DependentsOf(files)) - affected
  {
    var grown := Grown(DependentsOf(files), affected);
    forall d <- grown ensures ReachesOne(files, mutated, d) {
      if d !in affected {
        var f :| f in affected && d in DependentsOfFile(DependentsOf(files), f);
        DependentReaches(files, mutated, f, d);
      }
    }
    if |grown| != |affected| {
      LargerHasMore(affected, grown);
      ClosureReaches(files, mutated, grown, fileName);
    }
  }

  lemma {:induction false} ReachingIsClosed(files: seq<FileImports>, mutated: set<string>, fileName: string, s: string)
    requires s in mutated && Reaches(ImportEdge(files), fileName, s)
    ensures fileName in CloseOverDependents(DependentsOf(files), mutated)
  {
    var dependents, edge := DependentsOf(files), ImportEdge(files);
    var closure := CloseOverDependents(dependents, mutated);
    ClosureIsLeast(dependents, mutated);
    forall a, b | edge(a, b) && b in closure ensures a in closure {
      DependentsAreImporters(files, a, b);
    }
    var path :| Leads(edge, path, fileName, s);
    BackwardClosed(edge, closure, path);
  }

  /** The closure holds exactly the files that some path of imports leads from to a mutated file, cycles included. */
  lemma {:induction false} ClosureIsExact(files: seq<FileImports>, mutated: set<string>, fileName: string)
    ensures fileName in CloseOverDependents(DependentsOf(files), mutated) <==> ReachesOne(files, mutated, fileName)
  {
    if fileName in CloseOverDependents(DependentsOf(files), mutated) {
      forall f <- mutated ensures ReachesOne(files, mutated, f) {
        Stays(ImportEdge(files), f);
      }
      ClosureReaches(files, mutated, mutated, fileName);
    }
    if ReachesOne(files, mutated, fileName) {
      var s :| s in mutated && Reaches(ImportEdge(files), fileName, s);
      ReachingIsClosed(files, mutated, fileName, s);
    }
  }

  lemma {:induction false} Reported(files: seq<FileImports>, mutated: set<string>, fileName: string)
    ensures MutatedFile(fileName) in TraceAffectedFiles(files, mutated)
      <==> fileName in mutated && fileName in CloseOverDependents(DependentsOf(files), mutated)
    ensures DependentFile(fileName) in TraceAffectedFiles(files, mutated)
      <==> fileName !in mutated && fileName in CloseOverDependents(DependentsOf(files), mutated)
  {
  }

  /** A file is reported as mutated exactly when it is one of those files, and as a dependent exactly when it is
      not but imports lead from it to one. */
  lemma AffectedAreImporters(files: seq<FileImports>, mutated: set<string>, fileName: string)
    ensures MutatedFile(fileName) in TraceAffectedFiles(files, mutated) <==> fileName in mutated
    ensures DependentFile(fileName) in TraceAffectedFiles(files, mutated)
      <==> fileName !in mutated && ReachesOne(files, mutated, fileName)
  {
    Reported(files, mutated, fileName);
    ClosureIsExact(files, mutated, fileName);
    ClosureIsLeast(DependentsOf(files), mutated);
  }
}
