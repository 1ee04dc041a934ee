/** The part of a linked pipeline that one selected source drives. */
module Flow {
  import opened Json
  import opened Graphs
  import opened Pipelines
  import T = TopologicalOrder

  /** An arrival at `a` triggers step `b`. */
  ghost predicate Feeds(steps: seq<Step>, a: string, b: string) {
    exists s :: s in steps && s.id == b && !Scheduled(s) && a in s.inputs
  }

  ghost predicate FlowPath(steps: seq<Step>, selected: string, path: seq<string>) {
    && |path| > 0 && path[0] == selected
    && forall i :: 0 <= i < |path| - 1 ==> Feeds(steps, path[i], path[i + 1])
  }

  ghost predicate Reached(steps: seq<Step>, selected: string, n: string) {
    exists path :: FlowPath(steps, selected, path) && path[|path| - 1] == n
  }

  /** Contains the selected source and every step some member triggers. */
  ghost predicate FlowClosed(steps: seq<Step>, selected: string, s: set<string>) {
    && selected in s
    && forall a, b :: a in s && Feeds(steps, a, b) ==> b in s
  }

  lemma ReachedExtends(steps: seq<Step>, selected: string, a: string, b: string)
    requires Reached(steps, selected, a) && Feeds(steps, a, b)
    ensures Reached(steps, selected, b)
  {
    var path :| FlowPath(steps, selected, path) && path[|path| - 1] == a;
    var longer := path + [b];
    assert FlowPath(steps, selected, longer) && longer[|longer| - 1] == b;
  }

  lemma ReachedSelf(steps: seq<Step>, selected: string)
    ensures Reached(steps, selected, selected)
  {
    assert FlowPath(steps, selected, [selected]);
  }

  /** Whatever is reached is the selected source itself or was triggered by something reached. */
  lemma ReachedBy(steps: seq<Step>, selected: string, n: string)
    requires Reached(steps, selected, n)
    ensures n == selected || exists a :: Reached(steps, selected, a) && Feeds(steps, a, n)
  {
    var path :| FlowPath(steps, selected, path) && path[|path| - 1] == n;
    if |path| > 1 {
      var front := path[..|path| - 1];
      assert FlowPath(steps, selected, front);
      assert Reached(steps, selected, front[|front| - 1]);
      assert Feeds(steps, path[|path| - 2], path[|path| - 1]);
    }
  }

  lemma {:induction false} PathStaysInside(steps: seq<Step>, selected: string, s: set<string>, path: seq<string>)
    requires FlowClosed(steps, selected, s) && FlowPath(steps, selected, path)
    ensures path[|path| - 1] in s
  {
    if |path| > 1 {
      var front := path[..|path| - 1];
      assert FlowPath(steps, selected, front);
      PathStaysInside(steps, selected, s, front);
      assert Feeds(steps, path[|path| - 2], path[|path| - 1]);
    }
  }

  /** The reached names are the least set closed under triggering. */
  lemma ReachedIsLeast(steps: seq<Step>, selected: string, s: set<string>, n: string)
    requires FlowClosed(steps, selected, s) && Reached(steps, selected, n)
    ensures n in s
  {
    var path :| FlowPath(steps, selected, path) && path[|path| - 1] == n;
    PathStaysInside(steps, selected, s, path);
  }

  /** A step with more than one input would wait for data the transfer does not deliver. */
  ghost predicate Join(steps: seq<Step>, selected: string, s: Step) {
    s in steps && Reached(steps, selected, s.id) && |s.inputs| != 1
  }

  lemma StepReached(p: Pipeline, selected: string, s: Step)
    requires Structured(p) && s in p.steps && selected in SourceIds(p)
    ensures Reached(p.steps, selected, s.id) <==>
            !Scheduled(s) && exists x :: x in s.inputs && Reached(p.steps, selected, x)
  {
    UniqueStep(p, s);
    if Reached(p.steps, selected, s.id) {
      ReachedBy(p.steps, selected, s.id);
      var a :| Reached(p.steps, selected, a) && Feeds(p.steps, a, s.id);
      var u :| u in p.steps && u.id == s.id && !Scheduled(u) && a in u.inputs;
      UniqueStep(p, u);
    }
    if !Scheduled(s) && exists x :: x in s.inputs && Reached(p.steps, selected, x) {
      var x :| x in s.inputs && Reached(p.steps, selected, x);
      assert Feeds(p.steps, x, s.id);
      ReachedExtends(p.steps, selected, x, s.id);
    }
  }

  /** Only the selected source and steps are ever reached. */
  lemma ReachedIsKnown(p: Pipeline, selected: string, n: string)
    requires Reached(p.steps, selected, n)
    ensures n == selected || n in StepIds(p)
  {
    ReachedBy(p.steps, selected, n);
  }

  /** One pass over a processing order finds everything reached, or the first implicit join. */
  method ReachableFrom(p: Pipeline, selected: string, order: seq<string>) returns (r: Option<set<string>>)
    requires Structured(p) && selected in SourceIds(p)
    requires T.IsListing(SourceIds(p), Dependencies(p.steps), order)
    ensures r.None? <==> exists s :: Join(p.steps, selected, s)
    ensures r.Some? ==> forall n :: n in r.value <==> Reached(p.steps, selected, n)
  {
    var reachable := {selected};
    ReachedSelf(p.steps, selected);
    for k := 0 to |order|
      invariant selected in reachable
      invariant forall n :: n in reachable ==> Reached(p.steps, selected, n)
      invariant forall n :: n in order[..k] && Reached(p.steps, selected, n) ==> n in reachable
      invariant forall s :: s in p.steps && s.id in order[..k] ==> !Join(p.steps, selected, s)
    {
      var id := order[k];
      assert order[..k + 1] == order[..k] + [id];
      var found := FindStep(p.steps, id);
      if found.None? {
        if Reached(p.steps, selected, id) {
          ReachedIsKnown(p, selected, id);
        }
      } else {
        var s := found.value;
        StepReached(p, selected, s);
        InputsSettled(p, selected, order, k, s, reachable);
        if !Scheduled(s) && exists x :: x in s.inputs && x in reachable {
          if |s.inputs| != 1 {
            assert Join(p.steps, selected, s);
            return None;
          }
          reachable := reachable + {id};
        }
        forall u | u in p.steps && u.id == id ensures u == s { UniqueStep(p, u); }
      }
    }
    assert order[..|order|] == order;
    forall n | Reached(p.steps, selected, n) ensures n in reachable {
      ReachedIsKnown(p, selected, n);
    }
    forall s | s in p.steps ensures !Join(p.steps, selected, s) {
      assert s.id in Dependencies(p.steps);
      assert s.id in order;
    }
    return Some(reachable);
  }

  /** When a step is visited, the pass has already settled which of its inputs are reached. */
  lemma InputsSettled(p: Pipeline, selected: string, order: seq<string>, k: nat, s: Step, reachable: set<string>)
    requires Structured(p) && T.IsListing(SourceIds(p), Dependencies(p.steps), order)
    requires k < |order| && s in p.steps && order[k] == s.id
    requires forall n :: n in reachable ==> Reached(p.steps, selected, n)
    requires forall n :: n in order[..k] && Reached(p.steps, selected, n) ==> n in reachable
    ensures forall x :: x in s.inputs ==> (x in reachable <==> Reached(p.steps, selected, x))
  {
    UniqueStep(p, s);
    forall x | x in s.inputs ensures x in reachable <==> Reached(p.steps, selected, x) {
      assert Edge(Dependencies(p.steps), order[k], x);
      assert x in order[..k];
    }
  }
}
