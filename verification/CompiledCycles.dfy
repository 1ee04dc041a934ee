/** Exactly when a compiled graph has a cycle. */
module CompiledCycles {
  import opened Json
  import opened Graphs
  import opened Pipelines
  import opened Flow
  import opened Occurrences
  import opened Traces
  import opened Composition
  import opened CompiledGraph

  /** The step lists a name that was drawn by a block below the root's transfer `v`. */
  ghost predicate LeadsBack(lib: Library, root: Occurrence, tr: Trace, s: Step, a: Address, v: string) {
    IsBlock(lib, root, a) && |a| > 1 && NameOf(tr.names, a) in s.inputs && a[0] == v
  }

  /** Root step `u` waits for `v`: it lists `v`, or a drawn name that leads back to the transfer `v`. */
  ghost predicate Waits(lib: Library, root: Occurrence, tr: Trace, u: string, v: string) {
    exists s :: s in root.pipeline.steps && s.id == u && (v in s.inputs || exists a :: LeadsBack(lib, root, tr, s, a, v))
  }

  ghost predicate WaitPath(lib: Library, root: Occurrence, tr: Trace, w: seq<string>) {
    |w| > 0 && forall i :: 0 <= i < |w| - 1 ==> Waits(lib, root, tr, w[i], w[i + 1])
  }

  /** Some root step waits for itself. */
  ghost predicate Deadlock(lib: Library, root: Occurrence, tr: Trace) {
    exists w :: WaitPath(lib, root, tr, w) && |w| > 1 && w[0] == w[|w| - 1]
  }

  // ---- from compiled cycles to the root ------------------------------------

  /** An edge between blocks either stays below one root step or is a wait between root steps. */
  lemma EdgeProjects(lib: Library, root: Occurrence, tr: Trace, b: Address, a: Address)
    requires root.entry.None? && Feeding(lib, root, tr, b, a) && IsBlock(lib, root, a) && IsBlock(lib, root, b)
    ensures (Draws(lib, root, b, a) && a[0] == b[0]) || Waits(lib, root, tr, b[0], a[0])
  {
    hide Kept, FindStep;
    if Invented(lib, root, tr, b, a) {
      assert Front(b) == [];
      var s := Authored(lib, root, b);
      assert s.id == b[0];
      assert LeadsBack(lib, root, tr, s, a, a[0]);
    } else if Front(a) == Front(b) {
      if |a| > 1 {
        assert Front(a)[0] == a[0] && Front(b)[0] == b[0];
      } else {
        assert Front(a) == [] && Front(b) == [];
        var s := Authored(lib, root, b);
        assert s.id == b[0] && Last(a) == a[0];
      }
    }
  }

  lemma {:induction false} PathProjects(lib: Library, root: Occurrence, tr: Trace, path: seq<Address>) returns (w: seq<string>)
    requires root.entry.None? && FeedPath(lib, root, tr, path)
    requires forall i :: 0 <= i < |path| ==> path[i] != [] && IsBlock(lib, root, path[i])
    ensures WaitPath(lib, root, tr, w) && w[0] == path[0][0] && w[|w| - 1] == path[|path| - 1][0]
    ensures |w| == 1 ==> DrawPath(lib, root, path)
  {
    hide Draws, Invented, OccurrenceAt, Kept, Waits;
    if |path| == 1 {
      w := [path[0][0]];
    } else {
      var front, a, b := path[..|path| - 1], path[|path| - 1], path[|path| - 2];
      assert FeedPath(lib, root, tr, front) by {
        forall i | 0 <= i < |front| - 1 ensures Feeding(lib, root, tr, front[i], front[i + 1]) {
          assert Feeding(lib, root, tr, path[i], path[i + 1]);
        }
      }
      w := PathProjects(lib, root, tr, front);
      assert Feeding(lib, root, tr, path[|path| - 2], path[|path| - 1]);
      EdgeProjects(lib, root, tr, b, a);
      if Draws(lib, root, b, a) && a[0] == b[0] {
        if |w| == 1 {
          forall i | 0 <= i < |path| - 1 ensures Draws(lib, root, path[i], path[i + 1]) {
            if i < |front| - 1 { assert Draws(lib, root, front[i], front[i + 1]); }
          }
        }
      } else {
        w := w + [a[0]];
      }
    }
  }

  lemma CycleDeadlocks(lib: Library, root: Occurrence, out: Pipeline, tr: Trace, q: seq<string>)
    requires Preserves(lib, root, out, tr) && IsCycle(Dependencies(out.steps), q)
    ensures Deadlock(lib, root, tr)
  {
    hide Traced, EntryNamed, Draws, Invented, Waits, Dependencies, FeedPath;
    var path := AddressWalk(lib, root, out, tr, q, |q| - 1);
    BlockNamesInjective(lib, root, out, tr, path[0], path[|path| - 1]);
    var w := PathProjects(lib, root, tr, path);
    if |w| == 1 {
      AddressesAcyclic(lib, root, out, tr, path);
    }
  }

  // ---- from the root to compiled cycles ------------------------------------

  lemma OutEdge(lib: Library, root: Occurrence, out: Pipeline, tr: Trace, b: Address, a: Address)
    requires Preserves(lib, root, out, tr) && Feeding(lib, root, tr, b, a) && IsBlock(lib, root, a) && IsBlock(lib, root, b)
    ensures Edge(Dependencies(out.steps), NameOf(tr.names, b), NameOf(tr.names, a))
  {
    hide Preserves, Draws, Invented, IsBlock, Dependencies;
    var i := IndexOf(lib, root, out, tr, a);
    var j := IndexOf(lib, root, out, tr, b);
    StepAt(lib, root, out, tr, i);
    StepAt(lib, root, out, tr, j);
    EdgeExact(lib, root, out, tr, i, j);
    CompiledInputs(lib, root, out, tr, j);
  }

  lemma PathGrows(edges: Edges, p: seq<string>, x: string)
    requires IsPath(edges, p) && Edge(edges, p[|p| - 1], x)
    ensures IsPath(edges, p + [x])
  {
  }

  lemma PathJoins(edges: Edges, p: seq<string>, q: seq<string>)
    requires IsPath(edges, p) && IsPath(edges, q) && p[|p| - 1] == q[0]
    ensures IsPath(edges, p + q[1..])
  {
    var r := p + q[1..];
    forall i | 0 <= i < |r| - 1 ensures Edge(edges, r[i], r[i + 1]) {
      if i < |p| - 1 { assert Edge(edges, p[i], p[i + 1]); }
      else { assert Edge(edges, q[i - |p| + 1], q[i - |p| + 2]); }
    }
  }

  lemma FlowStep(lib: Library, root: Occurrence, out: Pipeline, tr: Trace, a: Address, x: string)
    requires Preserves(lib, root, out, tr) && IsBlock(lib, root, a) && |a| > 1
    requires Holder(lib, root, a).entry.Some? && Feeds(Holder(lib, root, a).pipeline.steps, x, Last(a))
    requires Reached(Holder(lib, root, a).pipeline.steps, Holder(lib, root, a).entry.value, x)
    ensures x == Holder(lib, root, a).entry.value ==> Draws(lib, root, a, Front(a)) && IsBlock(lib, root, Front(a))
    ensures x != Holder(lib, root, a).entry.value ==>
      && IsBlock(lib, root, Front(a) + [x]) && Draws(lib, root, a, Front(a) + [x])
      && Holder(lib, root, Front(a) + [x]) == Holder(lib, root, a)
  {
    hide Preserves, Reached;
    var o := Holder(lib, root, a);
    HolderSound(lib, root, out, tr, a);
    var s :| s in o.pipeline.steps && s.id == Last(a) && !Scheduled(s) && x in s.inputs;
    DistinctNodes(o);
    UniqueStep(o.pipeline, s);
    assert Authored(lib, root, a) == s;
    if x == o.entry.value {
      OnlyTransfersLink(lib, root, Front(a));
    } else {
      ReachedIsKnown(o.pipeline, o.entry.value, x);
      var t :| t in o.pipeline.steps && t.id == x;
      UniqueStep(o.pipeline, t);
      assert Kept(o, x);
      SiblingBlock(lib, root, a, x);
    }
  }

  /** Walking against the flow inside its occurrence, a linked block gets back to the transfer that leads there. */
  lemma {:induction false} ClimbOne(lib: Library, root: Occurrence, out: Pipeline, tr: Trace, a: Address, flow: seq<string>)
    returns (p: seq<string>)
    requires Preserves(lib, root, out, tr) && IsBlock(lib, root, a) && |a| > 1 && Holder(lib, root, a).entry.Some?
    requires FlowPath(Holder(lib, root, a).pipeline.steps, Holder(lib, root, a).entry.value, flow) && flow[|flow| - 1] == Last(a)
    ensures IsBlock(lib, root, Front(a)) && IsPath(Dependencies(out.steps), p) && |p| > 1
    ensures p[0] == NameOf(tr.names, a) && p[|p| - 1] == NameOf(tr.names, Front(a))
    decreases |flow|
  {
    hide Preserves, Draws, Invented, Kept, OccurrenceAt, FindStep, Dependencies, Feeds;
    var o := Holder(lib, root, a);
    var selected := o.entry.value;
    OnlyTransfersLink(lib, root, Front(a));
    if |flow| == 1 {
      EntryIsNoBlock(lib, root, out, tr, a);
    } else {
      var x, before := flow[|flow| - 2], flow[..|flow| - 1];
      assert FlowPath(o.pipeline.steps, selected, before);
      assert Feeds(o.pipeline.steps, flow[|flow| - 2], flow[|flow| - 1]);
      assert Reached(o.pipeline.steps, selected, x);
      FlowStep(lib, root, out, tr, a, x);
      if x == selected {
        OutEdge(lib, root, out, tr, a, Front(a));
        p := [NameOf(tr.names, a), NameOf(tr.names, Front(a))];
      } else {
        var b := Front(a) + [x];
        assert Front(b) == Front(a) && Last(b) == x;
        OutEdge(lib, root, out, tr, a, b);
        var rest := ClimbOne(lib, root, out, tr, b, before);
        p := [NameOf(tr.names, a)] + rest;
        FirstEdge(Dependencies(out.steps), NameOf(tr.names, a), rest);
      }
    }
  }

  lemma FirstEdge(edges: Edges, x: string, p: seq<string>)
    requires IsPath(edges, p) && Edge(edges, x, p[0])
    ensures IsPath(edges, [x] + p)
  {
    var r := [x] + p;
    forall i | 0 <= i < |r| - 1 ensures Edge(edges, r[i], r[i + 1]) {
      if i > 0 { assert Edge(edges, p[i - 1], p[i]); }
    }
  }

  lemma EntryIsNoBlock(lib: Library, root: Occurrence, out: Pipeline, tr: Trace, a: Address)
    requires Preserves(lib, root, out, tr) && IsBlock(lib, root, a)
    ensures Holder(lib, root, a).entry != Some(Last(a))
  {
    hide Preserves;
    HolderSound(lib, root, out, tr, a);
    BlockKept(lib, root, a);
  }

  lemma LinkedHasEntry(lib: Library, root: Occurrence, a: Address)
    requires IsBlock(lib, root, a) && |a| > 1
    ensures Holder(lib, root, a).entry.Some?
    ensures Reached(Holder(lib, root, a).pipeline.steps, Holder(lib, root, a).entry.value, Last(a))
  {
    hide Reached;
    EntryBelow(lib, root, Front(a));
  }

  lemma {:induction false} EntryBelow(lib: Library, occ: Occurrence, at: Address)
    requires at != [] && OccurrenceAt(lib, occ, at).Some?
    ensures OccurrenceAt(lib, occ, at).value.entry.Some?
    decreases |at|
  {
    hide Kept;
    var child := Linked(lib, occ, at[0]).value;
    if |at| > 1 {
      EntryBelow(lib, child, at[1..]);
    }
  }

  /** Every linked block waits, through compiled steps, for the root transfer it lies behind. */
  lemma {:induction false} Climb(lib: Library, root: Occurrence, out: Pipeline, tr: Trace, a: Address) returns (p: seq<string>)
    requires Preserves(lib, root, out, tr) && IsBlock(lib, root, a)
    ensures IsPath(Dependencies(out.steps), p) && p[0] == NameOf(tr.names, a) && p[|p| - 1] == a[0]
    decreases |a|
  {
    hide Preserves, Dependencies, OccurrenceAt, Kept, FindStep;
    if |a| == 1 {
      NamesDomain(lib, root, out, tr, a);
      p := [a[0]];
    } else {
      LinkedHasEntry(lib, root, a);
      var o := Holder(lib, root, a);
      var flow :| FlowPath(o.pipeline.steps, o.entry.value, flow) && flow[|flow| - 1] == Last(a);
      var first := ClimbOne(lib, root, out, tr, a, flow);
      var rest := Climb(lib, root, out, tr, Front(a));
      PathJoins(Dependencies(out.steps), first, rest);
      p := first + rest[1..];
    }
  }

  /** A wait between root steps is a path between compiled steps. */
  lemma WaitIsPath(lib: Library, root: Occurrence, out: Pipeline, tr: Trace, u: string, v: string) returns (p: seq<string>)
    requires Preserves(lib, root, out, tr) && Waits(lib, root, tr, u, v) && IsBlock(lib, root, [v])
    ensures IsPath(Dependencies(out.steps), p) && |p| > 1 && p[0] == u && p[|p| - 1] == v
  {
    hide Preserves, Dependencies, OccurrenceAt, FindStep;
    var s :| s in root.pipeline.steps && s.id == u && (v in s.inputs || exists a :: LeadsBack(lib, root, tr, s, a, v));
    RootStep(lib, root, out, tr, s);
    NamesDomain(lib, root, out, tr, [u]);
    NamesDomain(lib, root, out, tr, [v]);
    if v in s.inputs {
      assert Front([v]) == [] && Front([u]) == [];
      assert Draws(lib, root, [u], [v]);
      OutEdge(lib, root, out, tr, [u], [v]);
      p := [u, v];
    } else {
      var a :| LeadsBack(lib, root, tr, s, a, v);
      assert Invented(lib, root, tr, [u], a);
      OutEdge(lib, root, out, tr, [u], a);
      var rest := Climb(lib, root, out, tr, a);
      FirstEdge(Dependencies(out.steps), u, rest);
      p := [u] + rest;
    }
  }

  lemma RootStep(lib: Library, root: Occurrence, out: Pipeline, tr: Trace, s: Step)
    requires Preserves(lib, root, out, tr) && s in root.pipeline.steps
    ensures IsBlock(lib, root, [s.id]) && Authored(lib, root, [s.id]) == s && Holder(lib, root, [s.id]) == root
  {
    hide Traced, EntryNamed;
    RootSound(lib, root, out, tr);
    RootDistinct(root);
    UniqueStep(root.pipeline, s);
    BlockHere(lib, root, s.id);
    assert Front([s.id]) == [];
  }

  lemma WaitsFromStep(lib: Library, root: Occurrence, out: Pipeline, tr: Trace, u: string, v: string)
    requires Preserves(lib, root, out, tr) && Waits(lib, root, tr, u, v)
    ensures IsBlock(lib, root, [u])
  {
    hide Preserves;
    var s :| s in root.pipeline.steps && s.id == u;
    RootStep(lib, root, out, tr, s);
  }

  lemma {:induction false} WaitsArePaths(lib: Library, root: Occurrence, out: Pipeline, tr: Trace, w: seq<string>) returns (p: seq<string>)
    requires Preserves(lib, root, out, tr) && WaitPath(lib, root, tr, w)
    requires forall i :: 0 <= i < |w| ==> IsBlock(lib, root, [w[i]])
    ensures IsPath(Dependencies(out.steps), p) && p[0] == w[0] && p[|p| - 1] == w[|w| - 1]
    ensures |w| > 1 ==> |p| > 1
  {
    hide Preserves, Dependencies, Waits, IsBlock;
    if |w| == 1 {
      p := [w[0]];
    } else {
      var front := w[..|w| - 1];
      assert WaitPath(lib, root, tr, front) by {
        forall i | 0 <= i < |front| - 1 ensures Waits(lib, root, tr, front[i], front[i + 1]) {
          assert Waits(lib, root, tr, w[i], w[i + 1]);
        }
      }
      p := WaitsArePaths(lib, root, out, tr, front);
      assert Waits(lib, root, tr, w[|w| - 2], w[|w| - 1]);
      assert IsBlock(lib, root, [w[|w| - 1]]);
      var last := WaitIsPath(lib, root, out, tr, w[|w| - 2], w[|w| - 1]);
      PathJoins(Dependencies(out.steps), p, last);
      p := p + last[1..];
    }
  }

  /** The compiled graph is acyclic exactly if no root step waits for itself, drawn names leading back to their transfers. */
  lemma CompiledAcyclicIff(lib: Library, root: Occurrence, out: Pipeline, tr: Trace)
    requires Preserves(lib, root, out, tr)
    ensures Acyclic(Dependencies(out.steps)) <==> !Deadlock(lib, root, tr)
  {
    hide Preserves, Dependencies, Waits, IsBlock;
    if Deadlock(lib, root, tr) {
      var w :| WaitPath(lib, root, tr, w) && |w| > 1 && w[0] == w[|w| - 1];
      forall i | 0 <= i < |w| ensures IsBlock(lib, root, [w[i]]) {
        var k := if i == |w| - 1 then 0 else i;
        assert Waits(lib, root, tr, w[k], w[k + 1]);
        WaitsFromStep(lib, root, out, tr, w[k], w[k + 1]);
      }
      var p := WaitsArePaths(lib, root, out, tr, w);
      assert IsCycle(Dependencies(out.steps), p);
    }
    forall q | IsCycle(Dependencies(out.steps), q) ensures Deadlock(lib, root, tr) {
      CycleDeadlocks(lib, root, out, tr, q);
    }
  }
}
