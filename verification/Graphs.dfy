/** Directed graphs given by adjacency lists, and the reachability facts the checkers are measured against. */
module Graphs {

  /** Every node lists the nodes it points to; an edge may lead to a node that lists nothing. */
  type Edges = map<string, seq<string>>

  predicate Edge(edges: Edges, a: string, b: string) {
    a in edges && b in edges[a]
  }

  ghost predicate IsPath(edges: Edges, p: seq<string>) {
    |p| > 0 && forall i :: 0 <= i < |p| - 1 ==> Edge(edges, p[i], p[i + 1])
  }

  ghost predicate IsCycle(edges: Edges, p: seq<string>) {
    |p| > 1 && IsPath(edges, p) && p[0] == p[|p| - 1]
  }

  ghost predicate Acyclic(edges: Edges) {
    forall p :: !IsCycle(edges, p)
  }

  predicate Distinct<T(==)>(s: seq<T>) {
    forall i, j :: 0 <= i < j < |s| ==> s[i] != s[j]
  }

  /** `order` is closed under the edges and lists the targets of a node before the node. */
  ghost predicate Ordered(edges: Edges, order: seq<string>) {
    forall i, x :: 0 <= i < |order| && Edge(edges, order[i], x) ==> x in order[..i]
  }

  lemma {:induction false} PathDescends(edges: Edges, order: seq<string>, p: seq<string>, i: nat)
    requires Ordered(edges, order) && i < |order|
    requires IsPath(edges, p) && |p| > 1 && p[0] == order[i]
    ensures p[|p| - 1] in order[..i]
  {
    assert Edge(edges, p[0], p[1]);
    assert p[1] in order[..i];
    if |p| > 2 {
      var j :| 0 <= j < i && order[j] == p[1];
      var q := p[1..];
      assert IsPath(edges, q) by {
        forall k | 0 <= k < |q| - 1 ensures Edge(edges, q[k], q[k + 1]) {
          assert Edge(edges, p[k + 1], p[k + 2]);
        }
      }
      PathDescends(edges, order, q, j);
    }
  }

  lemma {:induction false} FirstIndex(s: seq<string>, x: string) returns (i: nat)
    requires x in s
    ensures i < |s| && s[i] == x && x !in s[..i]
  {
    if s[0] == x {
      i := 0;
    } else {
      var j := FirstIndex(s[1..], x);
      i := j + 1;
      assert s[..i] == [s[0]] + s[1..][..j];
    }
  }

  /** An order that lists every node with outgoing edges rules cycles out. */
  lemma OrderedIsAcyclic(edges: Edges, order: seq<string>)
    requires Ordered(edges, order)
    requires forall a :: a in edges ==> a in order
    ensures Acyclic(edges)
  {
    forall p ensures !IsCycle(edges, p) {
      if IsCycle(edges, p) {
        assert Edge(edges, p[0], p[1]);
        var i := FirstIndex(order, p[0]);
        PathDescends(edges, order, p, i);
      }
    }
  }

  lemma {:induction false} Pigeonhole(p: seq<string>, r: set<string>) returns (i: nat, j: nat)
    requires forall x :: x in p ==> x in r
    requires |p| > |r|
    ensures i < j < |p| && p[i] == p[j]
  {
    var last := p[|p| - 1];
    var front := p[..|p| - 1];
    if last in front {
      i :| 0 <= i < |front| && front[i] == last;
      j := |p| - 1;
    } else {
      assert last in r;
      forall x | x in front ensures x in r - {last} { assert x in p; }
      i, j := Pigeonhole(front, r - {last});
    }
  }

  ghost predicate HasSuccessorIn(edges: Edges, r: set<string>, a: string) {
    exists b :: b in r && Edge(edges, a, b)
  }

  /** Walking inside a set in which every node has a successor never gets stuck. */
  lemma {:induction false} WalkInside(edges: Edges, r: set<string>, n: nat) returns (p: seq<string>)
    requires r != {}
    requires forall a :: a in r ==> HasSuccessorIn(edges, r, a)
    ensures |p| == n + 1 && IsPath(edges, p)
    ensures forall x :: x in p ==> x in r
  {
    if n == 0 {
      var a :| a in r;
      p := [a];
    } else {
      var q := WalkInside(edges, r, n - 1);
      var last := q[|q| - 1];
      assert HasSuccessorIn(edges, r, last);
      var b :| b in r && Edge(edges, last, b);
      p := q + [b];
    }
  }

  /** A nonempty finite set in which every node has a successor contains a cycle. */
  lemma NoExitIsCyclic(edges: Edges, r: set<string>)
    requires r != {}
    requires forall a :: a in r ==> HasSuccessorIn(edges, r, a)
    ensures !Acyclic(edges)
  {
    var p := WalkInside(edges, r, |r|);
    var i, j := Pigeonhole(p, r);
    var c := p[i..j + 1];
    assert IsPath(edges, c) by {
      forall k | 0 <= k < |c| - 1 ensures Edge(edges, c[k], c[k + 1]) {
        assert Edge(edges, p[i + k], p[i + k + 1]);
      }
    }
    assert IsCycle(edges, c);
  }
}
