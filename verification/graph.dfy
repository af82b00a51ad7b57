/**
 Reachability in a finite graph of names. The worklist loops of the cutter are proved against it,
 so it is stated by paths, apart from any algorithm.
 */
module Reachability {
  type Graph = map<string, set<string>>

  function Successors(g: Graph, name: string): set<string> {
    if name in g then g[name] else {}
  }

  ghost predicate IsPath(g: Graph, path: seq<string>) {
    |path| > 0 && forall i :: 0 <= i < |path| - 1 ==> path[i + 1] in Successors(g, path[i])
  }

  ghost predicate Reachable(g: Graph, roots: set<string>, name: string) {
    exists path :: IsPath(g, path) && path[0] in roots && path[|path| - 1] == name
  }

  ghost predicate Closed(g: Graph, names: set<string>) {
    forall name :: name in names ==> Successors(g, name) <= names
  }

  lemma RootReachable(g: Graph, roots: set<string>, name: string)
    requires name in roots
    ensures Reachable(g, roots, name)
  {
    assert IsPath(g, [name]) && [name][0] in roots;
  }

  lemma ReachableStep(g: Graph, roots: set<string>, from: string, to: string)
    requires Reachable(g, roots, from) && to in Successors(g, from)
    ensures Reachable(g, roots, to)
  {
    var path :| IsPath(g, path) && path[0] in roots && path[|path| - 1] == from;
    var longer := path + [to];
    forall i | 0 <= i < |longer| - 1 ensures longer[i + 1] in Successors(g, longer[i]) {
      if i < |path| - 1 { assert path[i + 1] in Successors(g, path[i]); }
    }
    assert IsPath(g, longer) && longer[0] in roots && longer[|longer| - 1] == to;
  }

  // Reachability is least: every closed set that holds the roots holds what they reach.
  lemma ReachableIsLeast(g: Graph, roots: set<string>, names: set<string>, name: string)
    requires roots <= names && Closed(g, names)
    requires Reachable(g, roots, name)
    ensures name in names
  {
    var path :| IsPath(g, path) && path[0] in roots && path[|path| - 1] == name;
    PathStaysInside(g, names, path, |path| - 1);
  }

  lemma {:induction false} PathStaysInside(g: Graph, names: set<string>, path: seq<string>, i: nat)
    requires Closed(g, names) && IsPath(g, path) && path[0] in names && i < |path|
    ensures path[i] in names
  {
    if i > 0 {
      PathStaysInside(g, names, path, i - 1);
      assert path[i - 1 + 1] in Successors(g, path[i - 1]);
    }
  }

  // What a successor reaches, the node reaches.
  lemma ReachableThrough(g: Graph, from: string, next: string, to: string)
    requires next in Successors(g, from) && Reachable(g, {next}, to)
    ensures Reachable(g, {from}, to)
  {
    var path :| IsPath(g, path) && path[0] in {next} && path[|path| - 1] == to;
    var longer := [from] + path;
    forall i | 0 <= i < |longer| - 1 ensures longer[i + 1] in Successors(g, longer[i]) {
      if i > 0 { assert path[i - 1 + 1] in Successors(g, path[i - 1]); }
    }
    assert IsPath(g, longer) && longer[0] in {from} && longer[|longer| - 1] == to;
  }

  // Two graphs that agree wherever the first one reaches, reach the same names.
  lemma AgreeingGraphsReachAlike(g: Graph, h: Graph, roots: set<string>, name: string)
    requires forall n :: Reachable(g, roots, n) ==> Successors(g, n) == Successors(h, n)
    ensures Reachable(g, roots, name) <==> Reachable(h, roots, name)
  {
    if Reachable(g, roots, name) {
      var path :| IsPath(g, path) && path[0] in roots && path[|path| - 1] == name;
      forall i | 0 <= i < |path| - 1 ensures path[i + 1] in Successors(h, path[i]) {
        PrefixReachable(g, roots, path, i);
      }
      assert IsPath(h, path);
    }
    if Reachable(h, roots, name) {
      var path :| IsPath(h, path) && path[0] in roots && path[|path| - 1] == name;
      FollowPath(g, h, roots, path, |path| - 1);
    }
  }

  lemma PrefixReachable(g: Graph, roots: set<string>, path: seq<string>, i: nat)
    requires IsPath(g, path) && path[0] in roots && i < |path|
    ensures Reachable(g, roots, path[i])
  {
    var front := path[..i + 1];
    forall j | 0 <= j < |front| - 1 ensures front[j + 1] in Successors(g, front[j]) {
      assert path[j + 1] in Successors(g, path[j]);
    }
    assert IsPath(g, front) && front[0] in roots && front[|front| - 1] == path[i];
  }

  lemma {:induction false} FollowPath(g: Graph, h: Graph, roots: set<string>, path: seq<string>, i: nat)
    requires forall n :: Reachable(g, roots, n) ==> Successors(g, n) == Successors(h, n)
    requires IsPath(h, path) && path[0] in roots && i < |path|
    ensures Reachable(g, roots, path[i])
  {
    if i == 0 {
      RootReachable(g, roots, path[0]);
    } else {
      FollowPath(g, h, roots, path, i - 1);
      assert path[i - 1 + 1] in Successors(h, path[i - 1]);
      ReachableStep(g, roots, path[i - 1], path[i]);
    }
  }
}
