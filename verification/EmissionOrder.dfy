/** The order of a composition: the steps of a pipeline as authored, each transfer followed by what it links. */
module EmissionOrder {
  import opened Json
  import opened Graphs
  import opened Pipelines
  import opened Occurrences
  import opened Traces

  /** Where a step stands in its pipeline. */
  function Position(steps: seq<Step>, id: string): (k: nat)
    ensures k <= |steps| && (k < |steps| ==> steps[k].id == id)
    ensures forall j :: 0 <= j < k ==> steps[j].id != id
  {
    if steps == [] || steps[0].id == id then 0 else 1 + Position(steps[1..], id)
  }

  /** Block `a` comes before block `b`: it is a transfer on the way to `b`, or stands before it where their ways part. */
  ghost predicate Precedes(lib: Library, occ: Occurrence, a: Address, b: Address)
    decreases |a|
  {
    if b == [] then false
    else if a == [] then true
    else if a[0] == b[0] then
      Linked(lib, occ, a[0]).Some? && Precedes(lib, Linked(lib, occ, a[0]).value, a[1..], b[1..])
    else Position(occ.pipeline.steps, a[0]) < Position(occ.pipeline.steps, b[0])
  }

  ghost predicate InOrder(lib: Library, occ: Occurrence, blocks: seq<Address>) {
    forall i, j :: 0 <= i < j < |blocks| ==> Precedes(lib, occ, blocks[i], blocks[j])
  }

  /** All these blocks belong to steps before the `k`-th. */
  ghost predicate Earlier(occ: Occurrence, k: nat, blocks: seq<Address>) {
    forall a :: a in blocks ==> a != [] && Position(occ.pipeline.steps, a[0]) < k
  }

  lemma NextInOrder(lib: Library, occ: Occurrence, k: nat, blocks: seq<Address>, t: string)
    requires InOrder(lib, occ, blocks) && Earlier(occ, k, blocks) && Position(occ.pipeline.steps, t) == k
    ensures InOrder(lib, occ, blocks + [[t]])
  {
    var all := blocks + [[t]];
    forall i, j | 0 <= i < j < |all| ensures Precedes(lib, occ, all[i], all[j]) {
      if j == |blocks| { assert blocks[i] in blocks; }
    }
  }

  lemma BelowInOrder(lib: Library, occ: Occurrence, k: nat, blocks: seq<Address>, t: string, child: Occurrence, below: seq<Address>)
    requires InOrder(lib, occ, blocks) && Earlier(occ, k, blocks) && Position(occ.pipeline.steps, t) == k
    requires Linked(lib, occ, t) == Some(child) && InOrder(lib, child, below) && forall x :: x in below ==> x != []
    ensures InOrder(lib, occ, blocks + [[t]] + Under(t, below))
  {
    hide Linked;
    NextInOrder(lib, occ, k, blocks, t);
    var head := blocks + [[t]];
    var all := head + Under(t, below);
    forall i, j | 0 <= i < j < |all| ensures Precedes(lib, occ, all[i], all[j]) {
      if j < |head| {
        assert all[i] == head[i] && all[j] == head[j];
      } else {
        var y := below[j - |head|];
        assert y in below && all[j] == [t] + y && ([t] + y)[1..] == y;
        if i < |blocks| {
          assert all[i] == blocks[i] && blocks[i] in blocks;
        } else if i == |blocks| {
          assert all[i] == [t] && [t][1..] == [];
        } else {
          var x := below[i - |head|];
          assert all[i] == [t] + x && ([t] + x)[1..] == x;
          assert Precedes(lib, child, below[i - |head|], below[j - |head|]);
        }
      }
    }
  }

  lemma PositionAt(p: Pipeline, k: nat)
    requires Distinct(NodeIds(p)) && k < |p.steps|
    ensures Position(p.steps, p.steps[k].id) == k
  {
    var j := Position(p.steps, p.steps[k].id);
    if j < k { DistinctSteps(p, j, k); }
  }

  /** What was emitted for the first `k` steps is earlier than the next one. */
  lemma EmittedEarlier(lib: Library, occ: Occurrence, k: nat, done: set<string>, blocks: seq<Address>)
    requires Distinct(NodeIds(occ.pipeline)) && k <= |occ.pipeline.steps| && Listed(lib, occ, done, blocks)
    requires forall id :: id in done ==> exists j :: 0 <= j < k && occ.pipeline.steps[j].id == id
    ensures Earlier(occ, k, blocks)
  {
    hide Distinct;
    forall a | a in blocks ensures a != [] && Position(occ.pipeline.steps, a[0]) < k {
      assert Emitted(lib, occ, done, a);
      var j :| 0 <= j < k && occ.pipeline.steps[j].id == a[0];
      PositionAt(occ.pipeline, j);
    }
  }

  /** The order is total on different blocks and never goes both ways. */
  lemma {:induction false} NeverBoth(lib: Library, occ: Occurrence, a: Address, b: Address)
    requires Precedes(lib, occ, a, b)
    ensures !Precedes(lib, occ, b, a)
    decreases |a|
  {
    hide Linked;
    if a != [] && a[0] == b[0] {
      NeverBoth(lib, Linked(lib, occ, a[0]).value, a[1..], b[1..]);
    }
  }
}
