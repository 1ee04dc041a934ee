/** Kahn's ordering of a pipeline graph, proved exact: an order exists iff every input is known and no cycle exists. */
module TopologicalOrder {
  import opened Json
  import opened Graphs

  function Nodes(sources: set<string>, dependencies: Edges): set<string> {
    sources + dependencies.Keys
  }

  predicate InputsKnown(sources: set<string>, dependencies: Edges) {
    forall s, x :: s in dependencies && x in dependencies[s] ==> x in Nodes(sources, dependencies)
  }

  /** Lists each node exactly once, after all of its inputs. */
  ghost predicate IsListing(sources: set<string>, dependencies: Edges, order: seq<string>) {
    && Distinct(order)
    && (forall n :: n in order <==> n in Nodes(sources, dependencies))
    && Ordered(dependencies, order)
  }

  /** The list a map holds for a node, empty for a node the map does not mention. */
  function Row(m: Edges, n: string): seq<string> {
    if n in m then m[n] else []
  }

  ghost function Times(s: seq<string>, x: string): nat {
    multiset(s)[x]
  }

  /** How many entries of `inputs` are still outside `done`, counting repetitions. */
  ghost function Outside(inputs: seq<string>, done: set<string>): nat {
    if inputs == [] then 0
    else Outside(inputs[1..], done) + if inputs[0] in done then 0 else 1
  }

  lemma {:induction false} OutsideNothing(inputs: seq<string>)
    ensures Outside(inputs, {}) == |inputs|
  {
    if inputs != [] { OutsideNothing(inputs[1..]); }
  }

  lemma {:induction false} OutsideZero(inputs: seq<string>, done: set<string>)
    ensures Outside(inputs, done) == 0 <==> forall x :: x in inputs ==> x in done
  {
    if inputs != [] {
      OutsideZero(inputs[1..], done);
      assert inputs == [inputs[0]] + inputs[1..];
    }
  }

  lemma {:induction false} OutsideInsert(inputs: seq<string>, done: set<string>, x: string)
    requires x !in done
    ensures Outside(inputs, done) == Outside(inputs, done + {x}) + Times(inputs, x)
  {
    if inputs != [] {
      OutsideInsert(inputs[1..], done, x);
      assert inputs == [inputs[0]] + inputs[1..];
    }
  }

  lemma TimesAppend(s: seq<string>, y: string, x: string)
    ensures Times(s + [y], x) == Times(s, x) + if x == y then 1 else 0
  {
  }

  lemma TimesPositive(s: seq<string>, x: string)
    ensures Times(s, x) > 0 <==> x in s
  {
  }

  /** The edges turned around: `downstream[x]` repeats a step once per time the step lists `x`. */
  ghost predicate Transposed(dependencies: Edges, downstream: Edges) {
    forall s, x :: Times(Row(downstream, x), s) == Times(Row(dependencies, s), x)
  }

  /** Adds one step's inputs to the transposed edges. */
  method AddStep(step: string, inputs: seq<string>, indegree: map<string, nat>, downstream: Edges)
    returns (indegree': map<string, nat>, downstream': Edges)
    requires step in indegree
    ensures indegree' == indegree[step := indegree[step] + |inputs|]
    ensures forall s, x :: Times(Row(downstream', x), s) ==
                           Times(Row(downstream, x), s) + (if s == step then Times(inputs, x) else 0)
  {
    indegree', downstream' := indegree, downstream;
    assert forall x :: Times(inputs[..0], x) == 0;
    for i := 0 to |inputs|
      invariant indegree' == indegree[step := indegree[step] + i]
      invariant forall s, x :: Times(Row(downstream', x), s) ==
                               Times(Row(downstream, x), s) + (if s == step then Times(inputs[..i], x) else 0)
    {
      var input := inputs[i];
      ghost var before := downstream';
      downstream' := downstream'[input := Row(downstream', input) + [step]];
      indegree' := indegree'[step := indegree'[step] + 1];
      assert inputs[..i + 1] == inputs[..i] + [input];
      forall s, x
        ensures Times(Row(downstream', x), s) ==
                Times(Row(downstream, x), s) + (if s == step then Times(inputs[..i + 1], x) else 0)
      {
        TimesAppend(inputs[..i], input, x);
        TimesAppend(Row(before, input), step, s);
        assert Times(Row(before, x), s) ==
               Times(Row(downstream, x), s) + (if s == step then Times(inputs[..i], x) else 0);
        assert x != input ==> Row(downstream', x) == Row(before, x);
      }
    }
    assert inputs[..|inputs|] == inputs;
  }

  method BuildIndex(sources: set<string>, dependencies: Edges)
    returns (indegree: map<string, nat>, downstream: Edges)
    ensures indegree.Keys == Nodes(sources, dependencies)
    ensures forall n :: n in indegree ==> indegree[n] == |Row(dependencies, n)|
    ensures Transposed(dependencies, downstream)
  {
    indegree := map n | n in sources + dependencies.Keys :: 0;
    downstream := map[];
    var rest := dependencies.Keys;
    while rest != {}
      invariant rest <= dependencies.Keys
      invariant indegree.Keys == Nodes(sources, dependencies)
      invariant forall n :: n in indegree ==> indegree[n] == if n in rest then 0 else |Row(dependencies, n)|
      invariant forall s, x :: Times(Row(downstream, x), s) ==
                               (if s in rest then 0 else Times(Row(dependencies, s), x))
      decreases rest
    {
      var step :| step in rest;
      indegree, downstream := AddStep(step, dependencies[step], indegree, downstream);
      rest := rest - {step};
    }
  }

  ghost function Elements(s: seq<string>): set<string> {
    set x | x in s
  }

  /** What the main loop knows: exactly the nodes without a pending input are listed or ready, each once. */
  ghost predicate Progress(dependencies: Edges, order: seq<string>, ready: seq<string>, indegree: map<string, nat>) {
    && Ordered(dependencies, order)
    && (forall n :: Times(order, n) + Times(ready, n) == if n in indegree && indegree[n] == 0 then 1 else 0)
  }

  /** A degree is the number of inputs not yet done plus the releases still `waiting` to be applied. */
  ghost predicate Counted(dependencies: Edges, done: set<string>, waiting: seq<string>, indegree: map<string, nat>) {
    forall n :: n in indegree ==> indegree[n] == Outside(Row(dependencies, n), done) + Times(waiting, n)
  }

  method InitialReady(indegree: map<string, nat>) returns (ready: seq<string>)
    ensures forall n :: Times(ready, n) == if n in indegree && indegree[n] == 0 then 1 else 0
  {
    ready := [];
    var rest := indegree.Keys;
    while rest != {}
      invariant rest <= indegree.Keys
      invariant forall n :: Times(ready, n) == if n in indegree && indegree[n] == 0 && n !in rest then 1 else 0
      decreases rest
    {
      var n :| n in rest;
      if indegree[n] == 0 {
        ready := ready + [n];
      }
      rest := rest - {n};
    }
  }

  lemma AppendListed(dependencies: Edges, order: seq<string>, node: string)
    requires Ordered(dependencies, order)
    requires forall x :: x in Row(dependencies, node) ==> x in order
    ensures Ordered(dependencies, order + [node])
  {
    var all := order + [node];
    forall i, x | 0 <= i < |all| && Edge(dependencies, all[i], x) ensures x in all[..i] {
      if i < |order| {
        assert Edge(dependencies, order[i], x);
        assert all[..i] == order[..i];
      } else {
        assert all[..i] == order;
      }
    }
  }

  /** Moving a ready node to the list turns its releases into waiting ones. */
  lemma BeginVisit(dependencies: Edges, downstream: Edges, order: seq<string>, node: string, ready: seq<string>,
                   indegree: map<string, nat>)
    requires Transposed(dependencies, downstream)
    requires Progress(dependencies, order, [node] + ready, indegree)
    requires Counted(dependencies, Elements(order), [], indegree)
    ensures node in indegree && node !in order && Elements(order + [node]) == Elements(order) + {node}
    ensures forall c :: c in Row(downstream, node) ==> c in dependencies
    ensures Progress(dependencies, order + [node], ready, indegree)
    ensures Counted(dependencies, Elements(order + [node]), Row(downstream, node), indegree)
  {
    assert Times([node] + ready, node) > 0;
    TimesPositive(order, node);
    assert Elements(order + [node]) == Elements(order) + {node};
    forall n | n in indegree
      ensures indegree[n] == Outside(Row(dependencies, n), Elements(order + [node])) + Times(Row(downstream, node), n)
    {
      OutsideInsert(Row(dependencies, n), Elements(order), node);
    }
    OutsideZero(Row(dependencies, node), Elements(order));
    AppendListed(dependencies, order, node);
    forall c | c in Row(downstream, node) ensures c in dependencies {
      ConsumersAreSteps(dependencies, downstream, node, c);
    }
    forall n ensures Times(order + [node], n) + Times(ready, n) == Times(order, n) + Times([node] + ready, n) {}
  }

  /** Applies one waiting release. */
  method Release(ghost dependencies: Edges, ghost order: seq<string>, ready: seq<string>, child: string,
                 ghost waiting: seq<string>, indegree: map<string, nat>)
    returns (ready': seq<string>, indegree': map<string, nat>)
    requires child in indegree
    requires Progress(dependencies, order, ready, indegree)
    requires Counted(dependencies, Elements(order), [child] + waiting, indegree)
    ensures indegree'.Keys == indegree.Keys
    ensures Progress(dependencies, order, ready', indegree')
    ensures Counted(dependencies, Elements(order), waiting, indegree')
  {
    ready' := ready;
    assert Times([child] + waiting, child) > 0;
    indegree' := indegree[child := indegree[child] - 1];
    if indegree'[child] == 0 {
      ready' := ready' + [child];
    }
    forall n | n in indegree ensures Times([child] + waiting, n) == Times(waiting, n) + if n == child then 1 else 0 {}
  }

  lemma ConsumersAreSteps(dependencies: Edges, downstream: Edges, node: string, child: string)
    requires Transposed(dependencies, downstream) && child in Row(downstream, node)
    ensures child in dependencies
  {
    TimesPositive(Row(downstream, node), child);
    assert Times(Row(downstream, node), child) == Times(Row(dependencies, child), node);
    TimesPositive(Row(dependencies, child), node);
  }

  lemma Uncons(s: seq<string>)
    requires s != []
    ensures s == [s[0]] + s[1..]
  {
  }

  /** Releases every consumer of the node listed last. */
  method ReleaseAll(ghost dependencies: Edges, ghost listed: seq<string>, children: seq<string>,
                    ready: seq<string>, indegree: map<string, nat>)
    returns (ready': seq<string>, indegree': map<string, nat>)
    requires forall c :: c in children ==> c in indegree
    requires Progress(dependencies, listed, ready, indegree)
    requires Counted(dependencies, Elements(listed), children, indegree)
    ensures indegree'.Keys == indegree.Keys
    ensures Progress(dependencies, listed, ready', indegree')
    ensures Counted(dependencies, Elements(listed), [], indegree')
  {
    ready', indegree' := ready, indegree;
    var waiting := children;
    while waiting != []
      invariant forall c :: c in waiting ==> c in indegree'
      invariant indegree'.Keys == indegree.Keys
      invariant Progress(dependencies, listed, ready', indegree')
      invariant Counted(dependencies, Elements(listed), waiting, indegree')
    {
      Uncons(waiting);
      ready', indegree' := Release(dependencies, listed, ready', waiting[0], waiting[1..], indegree');
      waiting := waiting[1..];
    }
  }

  lemma {:induction false} OnceIsDistinct(s: seq<string>)
    requires forall n :: Times(s, n) <= 1
    ensures Distinct(s) && |Elements(s)| == |s|
  {
    if s == [] {
      assert Elements(s) == {};
    } else {
      assert s == [s[0]] + s[1..];
      forall n ensures Times(s, n) == Times(s[1..], n) + if n == s[0] then 1 else 0 {}
      OnceIsDistinct(s[1..]);
      TimesPositive(s[1..], s[0]);
      assert Elements(s) == {s[0]} + Elements(s[1..]);
    }
  }

  lemma SameSize(a: set<string>, b: set<string>)
    requires a <= b && |a| == |b|
    ensures a == b
  {
    assert b == a + (b - a);
  }

  lemma Leftover(a: set<string>, b: set<string>)
    requires a <= b && |a| != |b|
    ensures b - a != {}
  {
    assert b == a + (b - a);
  }

  /** When nothing is ready, the list is complete exactly for a known, acyclic graph. */
  lemma Exhausted(sources: set<string>, dependencies: Edges, order: seq<string>, indegree: map<string, nat>)
    requires indegree.Keys == Nodes(sources, dependencies)
    requires Progress(dependencies, order, [], indegree)
    requires Counted(dependencies, Elements(order), [], indegree)
    ensures |order| == |indegree| <==> InputsKnown(sources, dependencies) && Acyclic(dependencies)
    ensures |order| == |indegree| ==> IsListing(sources, dependencies, order)
  {
    forall n ensures n in order <==> n in indegree && indegree[n] == 0 { TimesPositive(order, n); }
    forall n ensures Times(order, n) <= 1 { assert Times([], n) == 0; }
    OnceIsDistinct(order);
    assert Elements(order) <= indegree.Keys;
    if |order| == |indegree| {
      SameSize(Elements(order), indegree.Keys);
      forall s, x | s in dependencies && x in dependencies[s] ensures x in Nodes(sources, dependencies) {
        OutsideZero(Row(dependencies, s), Elements(order));
      }
      OrderedIsAcyclic(dependencies, order);
    } else if InputsKnown(sources, dependencies) {
      var stuck := indegree.Keys - Elements(order);
      Leftover(Elements(order), indegree.Keys);
      forall a | a in stuck ensures HasSuccessorIn(dependencies, stuck, a) {
        OutsideZero(Row(dependencies, a), Elements(order));
        var b :| b in Row(dependencies, a) && b !in Elements(order);
        assert Edge(dependencies, a, b) && b in stuck;
      }
      NoExitIsCyclic(dependencies, stuck);
    }
  }

  method Order(sources: set<string>, dependencies: Edges) returns (r: Option<seq<string>>)
    ensures r.Some? <==> InputsKnown(sources, dependencies) && Acyclic(dependencies)
    ensures r.Some? ==> IsListing(sources, dependencies, r.value)
  {
    var indegree, downstream := BuildIndex(sources, dependencies);
    var ready := InitialReady(indegree);
    var order := [];
    assert Counted(dependencies, Elements(order), [], indegree) by {
      assert Elements(order) == {};
      forall n | n in indegree ensures indegree[n] == Outside(Row(dependencies, n), {}) {
        OutsideNothing(Row(dependencies, n));
      }
    }
    while ready != []
      invariant indegree.Keys == Nodes(sources, dependencies)
      invariant Progress(dependencies, order, ready, indegree)
      invariant Counted(dependencies, Elements(order), [], indegree)
      decreases indegree.Keys - Elements(order)
    {
      var node := ready[0];
      Uncons(ready);
      BeginVisit(dependencies, downstream, order, node, ready[1..], indegree);
      ready, indegree := ReleaseAll(dependencies, order + [node], Row(downstream, node), ready[1..], indegree);
      order := order + [node];
    }
    Exhausted(sources, dependencies, order, indegree);
    r := if |order| == |indegree| then Some(order) else None;
  }
}
