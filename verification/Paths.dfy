// Paths along the edges of a graph over names.
module Paths {
  type Edge = (string, string) -> bool

  ghost predicate IsPath(edge: Edge, path: seq<string>) {
    path != [] && forall i :: 0 <= i < |path| - 1 ==> edge(path[i], path[i + 1])
  }

  ghost predicate Leads(edge: Edge, path: seq<string>, from: string, to: string) {
    IsPath(edge, path) && path[0] == from && path[|path| - 1] == to
  }

  // A path of any length, also of none.
  ghost predicate Reaches(edge: Edge, from: string, to: string) {
    exists path :: Leads(edge, path, from, to)
  }

  // A path of at least one edge.
  ghost predicate ReachesOnward(edge: Edge, from: string, to: string) {
    exists path :: Leads(edge, path, from, to) && |path| >= 2
  }

  lemma Stays(edge: Edge, from: string)
    ensures Reaches(edge, from, from)
  {
    assert Leads(edge, [from], from, from);
  }

  lemma StepFirst(edge: Edge, from: string, next: string, to: string)
    requires edge(from, next) && Reaches(edge, next, to)
    ensures Reaches(edge, from, to) && ReachesOnward(edge, from, to)
  {
    var path :| Leads(edge, path, next, to);
    assert Leads(edge, [from] + path, from, to) && |[from] + path| >= 2;
  }

  lemma OnwardHasFirst(edge: Edge, from: string, to: string) returns (next: string)
    requires ReachesOnward(edge, from, to)
    ensures edge(from, next) && Reaches(edge, next, to)
  {
    var path :| Leads(edge, path, from, to) && |path| >= 2;
    next := path[1];
    assert Leads(edge, path[1..], next, to);
  }

  lemma {:induction false} BackwardClosed(edge: Edge, members: set<string>, path: seq<string>)
    requires IsPath(edge, path) && path[|path| - 1] in members
    requires forall a, b :: edge(a, b) && b in members ==> a in members
    ensures path[0] in members
  {
    if |path| > 1 {
      BackwardClosed(edge, members, path[1..]);
      assert edge(path[0], path[1]);
    }
  }

  lemma {:induction false} ForwardClosed(edge: Edge, members: set<string>, path: seq<string>)
    requires IsPath(edge, path) && path[0] in members
    requires forall a, b :: edge(a, b) && a in members ==> b in members
    ensures path[|path| - 1] in members
  {
    if |path| > 1 {
      assert edge(path[0], path[1]);
      ForwardClosed(edge, members, path[1..]);
    }
  }
}
