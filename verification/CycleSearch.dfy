/** The iterative three-colour depth-first search that rejects inheritance and ownership cycles. */
module CycleSearch {
  import opened Json
  import opened Graphs

  datatype Colour = Grey | Black

  /** A node being explored and how many of its edges have been taken. */
  datatype Frame = Frame(id: string, taken: nat)

  function Targets(edges: Edges, n: string): seq<string> {
    if n in edges then edges[n] else []
  }

  ghost function Universe(edges: Edges): set<string> {
    edges.Keys + set a, b | a in edges && b in edges[a] :: b
  }

  ghost function Top(stack: seq<Frame>): Frame
    requires stack != []
  {
    stack[|stack| - 1]
  }

  ghost function Rest(stack: seq<Frame>): seq<Frame>
    requires stack != []
  {
    stack[..|stack| - 1]
  }

  /** Edges still to be taken, plus one visit per frame to close it. */
  ghost function Remaining(edges: Edges, stack: seq<Frame>): nat {
    if stack == [] then 0
    else
      var open := |Targets(edges, Top(stack).id)| - Top(stack).taken;
      Remaining(edges, Rest(stack)) + 1 + if open > 0 then open else 0
  }

  ghost function OnStack(stack: seq<Frame>): set<string> {
    if stack == [] then {} else OnStack(Rest(stack)) + {Top(stack).id}
  }

  /** The first `upTo` edges of node `n` lead to finished nodes. */
  ghost predicate Explored(edges: Edges, n: string, upTo: int, finished: seq<string>) {
    forall j :: 0 <= j < upTo && j < |Targets(edges, n)| ==> Targets(edges, n)[j] in finished
  }

  /** The frames form a path without repetition; what a frame left before its current edge is finished. */
  ghost predicate Trail(edges: Edges, stack: seq<Frame>, finished: seq<string>) {
    stack == [] || (
      && Top(stack).id !in OnStack(Rest(stack))
      && Trail(edges, Rest(stack), finished)
      && (Rest(stack) != [] ==>
            var f := Top(Rest(stack));
            && 0 < f.taken <= |Targets(edges, f.id)|
            && Targets(edges, f.id)[f.taken - 1] == Top(stack).id
            && Explored(edges, f.id, f.taken - 1, finished)))
  }

  /** Grey nodes are exactly the stack and black ones exactly the finished list, which puts targets first. */
  ghost predicate Coloured(edges: Edges, stack: seq<Frame>, state: map<string, Colour>, finished: seq<string>) {
    && (forall n :: n in state && state[n].Grey? <==> n in OnStack(stack))
    && (forall n :: n in state && state[n].Black? <==> n in finished)
    && Ordered(edges, finished)
    && state.Keys <= Universe(edges)
  }

  ghost predicate Searching(edges: Edges, stack: seq<Frame>, state: map<string, Colour>, finished: seq<string>) {
    && Coloured(edges, stack, state, finished)
    && Trail(edges, stack, finished)
    && (stack != [] ==> Explored(edges, Top(stack).id, Top(stack).taken, finished))
  }

  ghost predicate LiesOnCycle(edges: Edges, n: string) {
    exists p :: IsCycle(edges, p) && p[0] == n
  }

  /** Every node on the stack has a path to the top. */
  lemma {:induction false} PathToTop(edges: Edges, stack: seq<Frame>, finished: seq<string>, n: string) returns (p: seq<string>)
    requires Trail(edges, stack, finished) && n in OnStack(stack)
    ensures IsPath(edges, p) && p[0] == n && p[|p| - 1] == Top(stack).id
  {
    if n == Top(stack).id {
      p := [n];
    } else {
      var q := PathToTop(edges, Rest(stack), finished, n);
      assert Edge(edges, Top(Rest(stack)).id, Top(stack).id);
      p := q + [Top(stack).id];
    }
  }

  /** An edge from the top of the stack back to a grey node closes a cycle. */
  lemma BackEdge(edges: Edges, stack: seq<Frame>, state: map<string, Colour>, finished: seq<string>, next: string)
    requires Searching(edges, stack, state, finished) && stack != []
    requires next in Targets(edges, Top(stack).id) && next in state && state[next].Grey?
    ensures LiesOnCycle(edges, next)
  {
    var p := PathToTop(edges, stack, finished, next);
    assert Edge(edges, Top(stack).id, next);
    assert IsCycle(edges, p + [next]);
  }

  lemma {:induction false} TrailGrows(edges: Edges, stack: seq<Frame>, finished: seq<string>, n: string)
    requires Trail(edges, stack, finished)
    ensures Trail(edges, stack, finished + [n])
  {
    if stack != [] { TrailGrows(edges, Rest(stack), finished, n); }
  }

  lemma FinishedGrows(edges: Edges, finished: seq<string>, n: string)
    requires Ordered(edges, finished) && Explored(edges, n, |Targets(edges, n)|, finished)
    ensures Ordered(edges, finished + [n])
  {
    var after := finished + [n];
    forall i, x | 0 <= i < |after| && Edge(edges, after[i], x) ensures x in after[..i] {
      if i < |finished| {
        assert Edge(edges, finished[i], x);
        assert after[..i] == finished[..i];
      } else {
        assert after[..i] == finished;
        var j :| 0 <= j < |Targets(edges, n)| && Targets(edges, n)[j] == x;
      }
    }
  }

  /** A frame without edges left becomes black. */
  lemma Close(edges: Edges, stack: seq<Frame>, state: map<string, Colour>, finished: seq<string>)
    requires Searching(edges, stack, state, finished) && stack != []
    requires Top(stack).taken >= |Targets(edges, Top(stack).id)|
    ensures Searching(edges, Rest(stack), state[Top(stack).id := Black], finished + [Top(stack).id])
    ensures Top(stack).id in state
    ensures Remaining(edges, Rest(stack)) < Remaining(edges, stack)
  {
    var n := Top(stack).id;
    FinishedGrows(edges, finished, n);
    TrailGrows(edges, Rest(stack), finished, n);
    assert n in state;
    if Rest(stack) != [] {
      var f := Top(Rest(stack));
      forall j | 0 <= j < f.taken && j < |Targets(edges, f.id)| ensures Targets(edges, f.id)[j] in finished + [n] {
        if j == f.taken - 1 { assert Targets(edges, f.id)[j] == n; }
      }
    }
  }

  ghost function Moved(stack: seq<Frame>): seq<Frame>
    requires stack != []
  {
    Rest(stack) + [Frame(Top(stack).id, Top(stack).taken + 1)]
  }

  lemma MovedSame(edges: Edges, stack: seq<Frame>, finished: seq<string>)
    requires stack != []
    ensures Rest(Moved(stack)) == Rest(stack) && Top(Moved(stack)) == Frame(Top(stack).id, Top(stack).taken + 1)
    ensures OnStack(Moved(stack)) == OnStack(stack)
    ensures Trail(edges, Moved(stack), finished) <==> Trail(edges, stack, finished)
  {
    assert Rest(Moved(stack)) == Rest(stack);
  }

  /** Taking an edge to a finished node only moves on. */
  lemma Advance(edges: Edges, stack: seq<Frame>, state: map<string, Colour>, finished: seq<string>)
    requires Searching(edges, stack, state, finished) && stack != []
    requires Top(stack).taken < |Targets(edges, Top(stack).id)|
    requires var next := Targets(edges, Top(stack).id)[Top(stack).taken]; next in state && state[next].Black?
    ensures Searching(edges, Moved(stack), state, finished)
    ensures Remaining(edges, Moved(stack)) < Remaining(edges, stack)
  {
    MovedSame(edges, stack, finished);
  }

  /** Taking an edge to an unseen node makes it grey. */
  lemma Descend(edges: Edges, stack: seq<Frame>, state: map<string, Colour>, finished: seq<string>, next: string)
    requires Searching(edges, stack, state, finished) && stack != []
    requires Top(stack).taken < |Targets(edges, Top(stack).id)|
    requires next == Targets(edges, Top(stack).id)[Top(stack).taken] && next !in state
    ensures next in Universe(edges)
    ensures Searching(edges, Moved(stack) + [Frame(next, 0)], state[next := Grey], finished)
  {
    MovedSame(edges, stack, finished);
    var deeper := Moved(stack) + [Frame(next, 0)];
    assert Rest(deeper) == Moved(stack);
    assert next in edges[Top(stack).id];
  }

  lemma Begin(edges: Edges, start: string, state: map<string, Colour>, finished: seq<string>)
    requires start in edges && Searching(edges, [], state, finished) && start !in state
    ensures Searching(edges, [Frame(start, 0)], state[start := Grey], finished)
  {
    assert Rest([Frame(start, 0)]) == [];
  }

  lemma AllBlack(edges: Edges, state: map<string, Colour>, finished: seq<string>)
    requires Searching(edges, [], state, finished)
    ensures forall n :: n in state <==> n in finished
  {
  }

  /** Explores everything below one node. */
  method Search(edges: Edges, start: string, state: map<string, Colour>, ghost finished: seq<string>)
    returns (cycle: Option<string>, state': map<string, Colour>, ghost finished': seq<string>)
    requires start in edges && Searching(edges, [], state, finished) && start !in state
    ensures cycle.Some? ==> LiesOnCycle(edges, cycle.value)
    ensures cycle.None? ==> Searching(edges, [], state', finished') && start in finished' && finished <= finished'
  {
    hide Searching, Universe, Remaining;
    state', finished' := state[start := Grey], finished;
    var pending := [Frame(start, 0)];
    Begin(edges, start, state, finished);
    while pending != []
      invariant Searching(edges, pending, state', finished')
      invariant finished <= finished' && start in state'
      decreases Universe(edges) - state'.Keys, Remaining(edges, pending)
    {
      var top := pending[|pending| - 1];
      var targets := Targets(edges, top.id);
      ghost var unseen := Universe(edges) - state'.Keys;
      if top.taken >= |targets| {
        Close(edges, pending, state', finished');
        state' := state'[top.id := Black];
        finished' := finished' + [top.id];
        pending := pending[..|pending| - 1];
        assert Universe(edges) - state'.Keys == unseen;
      } else {
        var next := targets[top.taken];
        if next in state' && state'[next].Grey? {
          BackEdge(edges, pending, state', finished', next);
          return Some(next), state', finished';
        } else if next in state' {
          Advance(edges, pending, state', finished');
          pending := pending[..|pending| - 1] + [Frame(top.id, top.taken + 1)];
        } else {
          Descend(edges, pending, state', finished', next);
          pending := pending[..|pending| - 1] + [Frame(top.id, top.taken + 1)] + [Frame(next, 0)];
          state' := state'[next := Grey];
          assert Universe(edges) - state'.Keys == unseen - {next};
        }
      }
    }
    AllBlack(edges, state', finished');
    cycle := None;
  }

  /** Reports a node exactly when the graph has a cycle, and that node lies on one. */
  method FindCycle(ids: seq<string>, edges: Edges) returns (cycle: Option<string>)
    requires forall n :: n in ids <==> n in edges
    ensures cycle.None? <==> Acyclic(edges)
    ensures cycle.Some? ==> LiesOnCycle(edges, cycle.value)
  {
    var state: map<string, Colour> := map[];
    ghost var finished: seq<string> := [];
    for i := 0 to |ids|
      invariant Searching(edges, [], state, finished)
      invariant forall j :: 0 <= j < i ==> ids[j] in finished
    {
      assert ids[i] in ids;
      if ids[i] in state && state[ids[i]].Black? {
        continue;
      }
      assert OnStack([]) == {};
      cycle, state, finished := Search(edges, ids[i], state, finished);
      if cycle.Some? {
        return;
      }
    }
    OrderedIsAcyclic(edges, finished);
    cycle := None;
  }
}
