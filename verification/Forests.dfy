/** Branches by their parent: a forest whose trees hang off main. */
module Forests {
  import opened Graphs

  type Parents = map<string, string>

  const MAIN := "main"

  /** A chain of parents that ends at a child of main. */
  ghost predicate RootPath(parents: Parents, path: seq<string>) {
    && |path| > 0
    && (forall i :: 0 <= i < |path| ==> path[i] in parents)
    && (forall i :: 0 <= i < |path| - 1 ==> parents[path[i]] == path[i + 1])
    && parents[path[|path| - 1]] == MAIN
  }

  ghost predicate Rooted(parents: Parents, b: string) {
    exists path :: RootPath(parents, path) && path[0] == b
  }

  /** Every branch reaches main by following parents, and main is no branch itself. */
  ghost predicate Forest(parents: Parents) {
    MAIN !in parents && forall b :: b in parents ==> Rooted(parents, b)
  }

  lemma Grow(parents: Parents, b: string, from: string)
    requires Forest(parents) && b !in parents && b != MAIN && (from == MAIN || from in parents)
    ensures Forest(parents[b := from])
  {
    var more := parents[b := from];
    forall c | c in more ensures Rooted(more, c) {
      if c != b {
        var path :| RootPath(parents, path) && path[0] == c;
        assert RootPath(more, path);
      } else if from == MAIN {
        assert RootPath(more, [b]);
      } else {
        var path :| RootPath(parents, path) && path[0] == from;
        assert RootPath(more, [b] + path);
      }
    }
  }

  /** A branch without children can go. */
  lemma Prune(parents: Parents, b: string)
    requires Forest(parents) && forall c :: c in parents ==> parents[c] != b
    ensures Forest(parents - {b})
  {
    var less := parents - {b};
    forall c | c in less ensures Rooted(less, c) {
      var path :| RootPath(parents, path) && path[0] == c;
      forall i | 0 <= i < |path| ensures path[i] != b {
        if i > 0 { assert parents[path[i - 1]] == path[i]; }
      }
      assert RootPath(less, path);
    }
  }

  function AsEdges(parents: Parents): Edges {
    map b | b in parents :: [parents[b]]
  }

  lemma {:induction false} StaysOnCycle(parents: Parents, cycle: seq<string>, path: seq<string>, k: nat)
    requires IsCycle(AsEdges(parents), cycle) && RootPath(parents, path) && path[0] == cycle[0] && k < |path|
    ensures path[k] in cycle[..|cycle| - 1]
  {
    if k > 0 {
      StaysOnCycle(parents, cycle, path, k - 1);
      var j :| 0 <= j < |cycle| - 1 && cycle[j] == path[k - 1];
      assert Edge(AsEdges(parents), cycle[j], cycle[j + 1]);
      assert path[k] == cycle[j + 1];
      assert path[k] == cycle[..|cycle| - 1][if j + 1 < |cycle| - 1 then j + 1 else 0];
    } else {
      assert path[0] == cycle[..|cycle| - 1][0];
    }
  }

  lemma OnCycle(parents: Parents, cycle: seq<string>, i: nat)
    requires IsCycle(AsEdges(parents), cycle) && i < |cycle| - 1
    ensures cycle[i] in parents
  {
    assert Edge(AsEdges(parents), cycle[i], cycle[i + 1]);
  }

  /** A forest has no cycle of parents. */
  lemma ForestIsAcyclic(parents: Parents)
    requires Forest(parents)
    ensures Acyclic(AsEdges(parents))
  {
    if cycle :| IsCycle(AsEdges(parents), cycle) {
      assert Edge(AsEdges(parents), cycle[0], cycle[1]);
      var path :| RootPath(parents, path) && path[0] == cycle[0];
      StaysOnCycle(parents, cycle, path, |path| - 1);
      var j :| 0 <= j < |cycle| - 1 && cycle[j] == path[|path| - 1];
      assert Edge(AsEdges(parents), cycle[j], cycle[j + 1]);
      var next := if j + 1 < |cycle| - 1 then j + 1 else 0;
      assert cycle[next] == MAIN;
      OnCycle(parents, cycle, next);
    }
  }
}
