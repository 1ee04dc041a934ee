/** Bounded expansion of linked pipelines into one flat graph, proved to be the address graph up to renaming. */
module Composition {
  import opened Json
  import opened Graphs
  import opened Text
  import opened Pipelines
  import opened Flow
  import opened Occurrences
  import opened Traces
  import opened EmissionOrder
  import T = TopologicalOrder

  datatype Failure =
    | CrossPipelineCycle
    | InvalidReferences
    | TooManyTransfers
    | InvalidStructure
    | TooManyBlocks
    | InputUnavailable
    | StatefulJoin
    | UnknownStep
    | UnknownDependency
    | UnknownBranchDestination
    | ReferenceMissing
    | RevisionUnavailable

  /** A pipeline entered through a source, and the name of the transfer that feeds that source. */
  datatype Entry = Entry(selected: string, transfer: string)

  ghost predicate Covers(lib: Library, p: Pipeline) {
    forall r :: r in PinnedReferences(p) ==> (r.pipelineId, r.revisionId) in lib
  }

  /** Every revision in the library finds its own references in the library. */
  ghost predicate ReferenceClosed(lib: Library) {
    forall k :: k in lib ==> Covers(lib, lib[k])
  }

  /** The lookups that can only fail for a graph the earlier checks refuse. */
  predicate Internal(f: Failure) {
    f.UnknownStep? || f.UnknownDependency? || f.UnknownBranchDestination? || f.ReferenceMissing?
  }

  // ---- naming one occurrence -----------------------------------------------

  function NameIn(names: map<string, string>, x: string): string {
    if x in names then names[x] else ""
  }

  /** The id that an address of length at most one stands for inside an occurrence. */
  function IdAt(occ: Occurrence, a: Address): string {
    if a != [] then a[0] else if occ.entry.Some? then occ.entry.value else ""
  }

  lemma FeederHere(occ: Occurrence, x: string)
    ensures Feeder(occ, [], x) == if occ.entry == Some(x) then [] else [x]
    ensures IdAt(occ, Feeder(occ, [], x)) == x
  {
    assert [] + [x] == [x];
  }

  /** The names of an occurrence's own blocks and entry, by address. */
  ghost function Lift(occ: Occurrence, names: map<string, string>): Names {
    map a | a in (set x | x in names :: Feeder(occ, [], x)) :: NameIn(names, IdAt(occ, a))
  }

  lemma LiftAt(occ: Occurrence, names: map<string, string>, x: string)
    requires x in names
    ensures Feeder(occ, [], x) in Lift(occ, names) && Lift(occ, names)[Feeder(occ, [], x)] == names[x]
  {
    FeederHere(occ, x);
  }

  function Singles(ids: seq<string>): (r: seq<Address>)
    ensures |r| == |ids| && forall i :: 0 <= i < |ids| ==> r[i] == [ids[i]]
  {
    seq(|ids|, i requires 0 <= i < |ids| => [ids[i]])
  }

  /** Steps and sources of one occurrence never share a name. */
  ghost predicate Separate(occ: Occurrence) {
    forall x :: Kept(occ, x) ==> x !in SourceIds(occ.pipeline) && occ.entry != Some(x)
  }

  /** What naming guarantees: exactly the local names, root ids unchanged, linked ids drawn in order. */
  ghost predicate NamesAssigned(occ: Occurrence, names: map<string, string>, drawn: seq<string>, first: nat) {
    && (forall x :: x in names <==> Local(occ, x))
    && (occ.entry.None? ==> drawn == [] && forall x :: x in names ==> names[x] == x)
    && (occ.entry.Some? ==> forall x :: x in drawn <==> Kept(occ, x))
    && Distinct(drawn)
    && (forall j :: 0 <= j < |drawn| ==> NameIn(names, drawn[j]) == LinkedName(first + 1 + j))
  }

  lemma InitialNames(lib: Library, occ: Occurrence, names: map<string, string>)
    requires Separate(occ)
    requires forall x :: x in names <==> Local(occ, x)
    ensures NamesOk(lib, occ, {}, Lift(occ, names))
  {
    var lifted := Lift(occ, names);
    forall a ensures a in lifted <==> Named(lib, occ, {}, a) {
      if a in lifted {
        var x :| x in names && a == Feeder(occ, [], x);
        assert Local(occ, x);
        FeederHere(occ, x);
      }
      if Named(lib, occ, {}, a) {
        var x := if a == [] then occ.entry.value else a[0];
        assert a != [] ==> a == [x];
        assert Local(occ, x);
        FeederHere(occ, x);
        LiftAt(occ, names, x);
      }
    }
  }

  lemma InitialNumbers(lib: Library, occ: Occurrence, names: map<string, string>, drawn: seq<string>, first: nat)
    requires Separate(occ) && NamesAssigned(occ, names, drawn, first)
    ensures NumberedOk(lib, occ, {}, Lift(occ, names), Singles(drawn), first)
  {
    var numbered := Singles(drawn);
    forall a ensures a in numbered <==> Fresh(lib, occ, {}, a) {
      if a in numbered {
        var j :| 0 <= j < |drawn| && numbered[j] == a;
        assert drawn[j] in drawn;
        BlockHere(lib, occ, drawn[j]);
      }
      if Fresh(lib, occ, {}, a) {
        assert a == [a[0]];
        BlockHere(lib, occ, a[0]);
        var j :| 0 <= j < |drawn| && drawn[j] == a[0];
        assert numbered[j] == a;
      }
    }
    forall j | 0 <= j < |numbered| ensures NameOf(Lift(occ, names), numbered[j]) == LinkedName(first + 1 + j) {
      var x := drawn[j];
      assert x in drawn && Kept(occ, x) && Local(occ, x);
      LiftAt(occ, names, x);
      assert Feeder(occ, [], x) == [x];
    }
  }

  lemma InitialOccurrences(lib: Library, occ: Occurrence, forbidden: set<string>)
    requires Sound(occ) && occ.pipelineId !in forbidden
    ensures OccurrencesOk(lib, occ, {}, [[]], forbidden)
  {
    var here: seq<Address> := [[]];
    assert here[0] == [];
    forall at ensures at in here <==> Opened(lib, occ, {}, at) {}
    assert SoundAt(lib, occ, [], forbidden);
  }

  lemma InitialTrace(lib: Library, occ: Occurrence, names: map<string, string>, drawn: seq<string>, first: nat,
                     forbidden: set<string>)
    requires Sound(occ) && Separate(occ) && occ.pipelineId !in forbidden
    requires NamesAssigned(occ, names, drawn, first)
    ensures Traced(lib, occ, {}, Trace(Lift(occ, names), [], [], Singles(drawn), [[]]), first, forbidden)
  {
    InitialNames(lib, occ, names);
    InitialNumbers(lib, occ, names, drawn, first);
    InitialOccurrences(lib, occ, forbidden);
  }

  lemma SoundSeparates(occ: Occurrence)
    requires Sound(occ)
    ensures Separate(occ)
  {
    forall x | Kept(occ, x) ensures x !in SourceIds(occ.pipeline) && occ.entry != Some(x) {
      KeptStep(occ, x);
    }
  }

  function Ids(steps: seq<Step>): set<string> {
    set s | s in steps :: s.id
  }

  /** Root sources keep their ids; a linked pipeline sees its selected source under the transfer's name. */
  function SourceNames(ids: set<string>, entry: Option<Entry>): map<string, string> {
    map x | x in ids && (entry.None? || entry.value.selected == x) :: if entry.Some? then entry.value.transfer else x
  }

  method NameSources(p: Pipeline, entry: Option<Entry>) returns (names: map<string, string>)
    ensures names == SourceNames(SourceIds(p), entry)
  {
    names := map[];
    for i := 0 to |p.sources|
      invariant names == SourceNames(set s | s in p.sources[..i] :: s.id, entry)
    {
      var id := p.sources[i].id;
      assert p.sources[..i + 1] == p.sources[..i] + [p.sources[i]];
      assert (set s | s in p.sources[..i + 1] :: s.id) == (set s | s in p.sources[..i] :: s.id) + {id};
      if entry.Some? {
        if id == entry.value.selected {
          names := names[id := entry.value.transfer];
        }
      } else {
        names := names[id := id];
      }
    }
    assert p.sources[..|p.sources|] == p.sources;
  }

  lemma NamesComplete(occ: Occurrence, entry: Option<Entry>, kept: set<string>, names: map<string, string>)
    requires occ.entry == if entry.Some? then Some(entry.value.selected) else None
    requires occ.entry.Some? ==> occ.entry.value in SourceIds(occ.pipeline)
    requires forall x :: Kept(occ, x) <==> x in kept * StepIds(occ.pipeline)
    requires names.Keys == SourceNames(SourceIds(occ.pipeline), entry).Keys + kept * StepIds(occ.pipeline)
    ensures forall x :: x in names <==> Local(occ, x)
  {
  }

  // ---- renaming one step ---------------------------------------------------

  function AllIn(names: map<string, string>, ids: seq<string>): seq<string> {
    seq(|ids|, i requires 0 <= i < |ids| => NameIn(names, ids[i]))
  }

  function BranchesIn(names: map<string, string>, branches: map<string, seq<string>>): map<string, seq<string>> {
    map branch | branch in branches :: AllIn(names, branches[branch])
  }

  /** Every name the step mentions is known. */
  predicate Mentioned(names: map<string, string>, s: Step) {
    && s.id in names
    && (forall x :: x in s.inputs ==> x in names)
    && (s.branches.Some? ==>
          forall branch, t :: branch in s.branches.value && t in s.branches.value[branch] ==> t in names)
  }

  method RenameAll(names: map<string, string>, ids: seq<string>) returns (r: Option<seq<string>>)
    ensures r.Some? <==> forall x :: x in ids ==> x in names
    ensures r.Some? ==> r.value == AllIn(names, ids)
  {
    var renamed := [];
    for i := 0 to |ids|
      invariant forall j :: 0 <= j < i ==> ids[j] in names
      invariant |renamed| == i && forall j :: 0 <= j < i ==> renamed[j] == NameIn(names, ids[j])
    {
      if ids[i] !in names {
        return None;
      }
      renamed := renamed + [names[ids[i]]];
    }
    assert renamed == AllIn(names, ids);
    return Some(renamed);
  }

  method RenameBranches(names: map<string, string>, branches: map<string, seq<string>>)
    returns (r: Option<map<string, seq<string>>>)
    ensures r.Some? <==> forall branch, t :: branch in branches && t in branches[branch] ==> t in names
    ensures r.Some? ==> r.value == BranchesIn(names, branches)
  {
    var renamed := map[];
    var rest := branches.Keys;
    while rest != {}
      invariant rest <= branches.Keys && renamed.Keys == branches.Keys - rest
      invariant forall branch :: branch in renamed ==> renamed[branch] == AllIn(names, branches[branch])
      invariant forall branch, t :: branch in renamed && t in branches[branch] ==> t in names
      decreases rest
    {
      var branch :| branch in rest;
      var targets := RenameAll(names, branches[branch]);
      if targets.None? {
        return None;
      }
      renamed := renamed[branch := targets.value];
      rest := rest - {branch};
    }
    assert renamed == BranchesIn(names, branches);
    return Some(renamed);
  }

  method Rename(names: map<string, string>, s: Step, pipelineId: string, revisionId: string, linked: bool)
    returns (r: Result<Step, Failure>)
    ensures Mentioned(names, s) <==> r.Ok?
    ensures r.Ok? ==> r.value == Step(names[s.id], AllIn(names, s.inputs),
      if s.branches.None? then None else Some(BranchesIn(names, s.branches.value)), s.routing,
      if linked then s.settings.(origin := Some(OriginObject(pipelineId, revisionId, s.id))) else s.settings)
  {
    if s.id !in names {
      return Err(UnknownStep);
    }
    var inputs := RenameAll(names, s.inputs);
    if inputs.None? {
      return Err(UnknownDependency);
    }
    var expanded := s.(id := names[s.id], inputs := inputs.value);
    if linked {
      expanded := expanded.(settings := expanded.settings.(origin := Some(OriginObject(pipelineId, revisionId, s.id))));
    }
    if expanded.branches.Some? {
      var branches := RenameBranches(names, expanded.branches.value);
      if branches.None? {
        return Err(UnknownBranchDestination);
      }
      expanded := expanded.(branches := Some(branches.value));
    }
    return Ok(expanded);
  }

  lemma LocalMentions(occ: Occurrence, names: map<string, string>, s: Step)
    requires Sound(occ) && s in occ.pipeline.steps && Kept(occ, s.id)
    requires forall x :: x in names <==> Local(occ, x)
    ensures Mentioned(names, s)
  {
    forall x | x in s.inputs ensures x in names { LocalInput(occ, s, x); }
    if s.branches.Some? {
      forall branch, t | branch in s.branches.value && t in s.branches.value[branch] ensures t in names {
        LocalTarget(occ, s, branch, t);
      }
    }
  }

  /** Renaming by the occurrence's own names and by address agree on a step whose mentions agree. */
  lemma CompiledHere(occ: Occurrence, names: map<string, string>, more: Names, s: Step)
    requires NameOf(more, [] + [s.id]) == NameIn(names, s.id)
    requires forall x :: x in s.inputs ==> NameOf(more, Feeder(occ, [], x)) == NameIn(names, x)
    requires s.branches.Some? ==> forall branch, t :: branch in s.branches.value && t in s.branches.value[branch] ==>
      NameOf(more, [] + [t]) == NameIn(names, t)
    ensures CompiledStep(occ, [], s, more) == LocallyRenamed(occ, names, s)
  {
    assert AllIn(names, s.inputs) == RenamedInputs(occ, [], s.inputs, more);
    if s.branches.Some? {
      forall branch | branch in s.branches.value
        ensures AllIn(names, s.branches.value[branch]) == RenamedTargets([], s.branches.value[branch], more)
      {
      }
      assert BranchesIn(names, s.branches.value) == RenamedBranches([], s.branches.value, more);
    }
  }

  function LocallyRenamed(occ: Occurrence, names: map<string, string>, s: Step): Step {
    Step(NameIn(names, s.id), AllIn(names, s.inputs),
         if s.branches.None? then None else Some(BranchesIn(names, s.branches.value)), s.routing, CompiledSettings(occ, s))
  }

  lemma RendersHere(lib: Library, occ: Occurrence, more: Names, s: Step)
    requires Kept(occ, s.id) && FindStep(occ.pipeline.steps, s.id) == Some(s) && Resolved(occ, [], s, more)
    ensures Renders(lib, occ, more, [s.id], CompiledStep(occ, [], s, more))
  {
    BlockHere(lib, occ, s.id);
    assert Front([s.id]) == [];
  }

  /** The step an expansion emits is the block at its address, renamed. */
  lemma LocalRenders(lib: Library, occ: Occurrence, names: map<string, string>, more: Names, s: Step)
    requires Sound(occ) && Separate(occ) && s in occ.pipeline.steps && Kept(occ, s.id)
    requires forall x :: x in names <==> Local(occ, x)
    requires Extends(Lift(occ, names), more)
    ensures Renders(lib, occ, more, [s.id], LocallyRenamed(occ, names, s))
  {
    hide Renders, Resolved, CompiledStep, LocallyRenamed, Local, Kept, Extends, Separate;
    UniqueStep(occ.pipeline, s);
    StepResolves(occ, names, more, s);
    CompiledHere(occ, names, more, s);
    RendersHere(lib, occ, more, s);
  }

  lemma StepResolves(occ: Occurrence, names: map<string, string>, more: Names, s: Step)
    requires Sound(occ) && Separate(occ) && s in occ.pipeline.steps && Kept(occ, s.id)
    requires forall x :: x in names <==> Local(occ, x)
    requires Extends(Lift(occ, names), more)
    ensures Resolved(occ, [], s, more)
    ensures NameOf(more, [] + [s.id]) == NameIn(names, s.id)
    ensures forall x :: x in s.inputs ==> NameOf(more, Feeder(occ, [], x)) == NameIn(names, x)
    ensures s.branches.Some? ==> forall branch, t :: branch in s.branches.value && t in s.branches.value[branch] ==>
      NameOf(more, [] + [t]) == NameIn(names, t)
  {
    forall x | Local(occ, x) ensures Feeder(occ, [], x) in more && more[Feeder(occ, [], x)] == names[x] {
      LiftAt(occ, names, x);
    }
    forall x | Kept(occ, x) ensures [] + [x] in more && more[[] + [x]] == names[x] {
      assert Local(occ, x);
      assert [] + [x] == Feeder(occ, [], x);
    }
    forall x | x in s.inputs ensures Local(occ, x) { LocalInput(occ, s, x); }
    if s.branches.Some? {
      forall branch, t | branch in s.branches.value && t in s.branches.value[branch] ensures Kept(occ, t) {
        LocalTarget(occ, s, branch, t);
      }
    }
  }

  // ---- the state of an expansion, by value ---------------------------------

  datatype Counters = Counters(active: set<string>, steps: seq<Step>, blocks: nat, transfers: nat, nextId: nat)

  /**
   What appending one occurrence achieves: the emitted steps are exactly the blocks of the address graph below it, each
   once, in order and under the names of `tr`, and the budgets grow by what the occurrences below it cost.
   */
  ghost predicate Appended(lib: Library, occ: Occurrence, before: Counters, after: Counters, tr: Trace) {
    && occ.pipelineId !in before.active && after.active == before.active
    && after.steps == before.steps + tr.steps
    && InOrder(lib, occ, tr.blocks)
    && Traced(lib, occ, StepIds(occ.pipeline), tr, before.nextId, before.active)
    && after.nextId == before.nextId + |tr.numbered|
    && after.blocks == before.blocks + Total(lib, occ, BlockBudget, tr.occurrences)
    && after.transfers == before.transfers + Total(lib, occ, TransferBudget, tr.occurrences)
    && after.blocks <= MAX_BLOCKS && after.transfers <= MAX_TRANSFERS
    && |tr.blocks| <= Total(lib, occ, BlockBudget, tr.occurrences)
    && |tr.occurrences| <= 1 + Total(lib, occ, TransferBudget, tr.occurrences)
  }

  ghost function PinnedBefore(p: Pipeline, k: nat): nat
    requires k <= |p.steps|
  {
    |PinnedIn(Blocks(p)[..|p.sources| + k])|
  }

  /** The same halfway: the first `k` steps of the occurrence have been expanded. */
  ghost predicate Along(lib: Library, occ: Occurrence, k: nat, before: Counters, now: Counters, tr: Trace) {
    && k <= |occ.pipeline.steps|
    && occ.pipelineId !in before.active && now.active == before.active + {occ.pipelineId}
    && now.steps == before.steps + tr.steps
    && InOrder(lib, occ, tr.blocks)
    && Traced(lib, occ, Ids(occ.pipeline.steps[..k]), tr, before.nextId, before.active)
    && now.nextId == before.nextId + |tr.numbered|
    && now.blocks == before.blocks + Total(lib, occ, BlockBudget, tr.occurrences)
    && now.transfers == before.transfers + Total(lib, occ, TransferBudget, tr.occurrences)
    && now.transfers >= before.transfers + |PinnedReferences(occ.pipeline)|
    && now.blocks <= MAX_BLOCKS && now.transfers <= MAX_TRANSFERS
    && |tr.blocks| + Weight(BlockBudget, occ.pipeline) <= k + Total(lib, occ, BlockBudget, tr.occurrences)
    && |tr.occurrences| + |PinnedReferences(occ.pipeline)| <=
       1 + Total(lib, occ, TransferBudget, tr.occurrences) + PinnedBefore(occ.pipeline, k)
  }

  lemma NextStep(p: Pipeline, k: nat)
    requires Distinct(NodeIds(p)) && k < |p.steps|
    ensures Ids(p.steps[..k + 1]) == Ids(p.steps[..k]) + {p.steps[k].id}
    ensures p.steps[k].id !in Ids(p.steps[..k])
  {
    assert p.steps[..k + 1] == p.steps[..k] + [p.steps[k]];
    forall s | s in p.steps[..k] ensures s.id != p.steps[k].id {
      var j :| 0 <= j < k && p.steps[j] == s;
      if s.id == p.steps[k].id { DistinctSteps(p, j, k); }
    }
  }

  lemma NextPinned(p: Pipeline, k: nat)
    requires k < |p.steps|
    ensures PinnedBefore(p, k + 1) == PinnedBefore(p, k) +
      if Transfer(p.steps[k]) && p.steps[k].settings.reference.Pinned? then 1 else 0
  {
    var n := |p.sources| + k;
    assert Blocks(p)[..n + 1][..n] == Blocks(p)[..n];
    assert Blocks(p)[n] == Block(p.steps[k].id, p.steps[k].settings);
  }

  lemma InitialTotal(lib: Library, occ: Occurrence, b: Budget)
    ensures Total(lib, occ, b, [[]]) == Weight(b, occ.pipeline)
  {
    var here: seq<Address> := [[]];
    assert here[..0] == [];
    assert Total(lib, occ, b, here) == Total(lib, occ, b, here[..0]) + Charge(lib, occ, b, here[0]);
  }

  lemma AlongStart(lib: Library, occ: Occurrence, names: map<string, string>, drawn: seq<string>, before: Counters, now: Counters)
    requires Sound(occ) && Separate(occ) && NamesAssigned(occ, names, drawn, before.nextId)
    requires occ.pipelineId !in before.active && now.active == before.active + {occ.pipelineId}
    requires now.steps == before.steps && now.nextId == before.nextId + |drawn|
    requires now.blocks == before.blocks + Weight(BlockBudget, occ.pipeline) <= MAX_BLOCKS
    requires now.transfers == before.transfers + Weight(TransferBudget, occ.pipeline) <= MAX_TRANSFERS
    ensures Along(lib, occ, 0, before, now, Trace(Lift(occ, names), [], [], Singles(drawn), [[]]))
  {
    InitialTrace(lib, occ, names, drawn, before.nextId, before.active);
    InitialTotal(lib, occ, BlockBudget);
    InitialTotal(lib, occ, TransferBudget);
    assert Ids(occ.pipeline.steps[..0]) == {};
  }

  lemma AlongDropped(lib: Library, occ: Occurrence, k: nat, before: Counters, now: Counters, tr: Trace)
    requires Along(lib, occ, k, before, now, tr) && k < |occ.pipeline.steps|
    requires Distinct(NodeIds(occ.pipeline)) && !Kept(occ, occ.pipeline.steps[k].id)
    ensures Along(lib, occ, k + 1, before, now, tr)
  {
    var p := occ.pipeline;
    NextStep(p, k);
    NextPinned(p, k);
    GrowDropped(lib, occ, Ids(p.steps[..k]), tr, before.nextId, before.active, p.steps[k].id);
  }

  lemma AlongPlain(lib: Library, occ: Occurrence, k: nat, before: Counters, now: Counters, tr: Trace, s: Step)
    requires Along(lib, occ, k, before, now, tr) && k < |occ.pipeline.steps|
    requires Distinct(NodeIds(occ.pipeline)) && Kept(occ, occ.pipeline.steps[k].id) && !Transfer(occ.pipeline.steps[k])
    requires Renders(lib, occ, tr.names, [occ.pipeline.steps[k].id], s)
    ensures Along(lib, occ, k + 1, before, now.(steps := now.steps + [s]), Emit(tr, occ.pipeline.steps[k].id, s))
  {
    var p := occ.pipeline;
    NextStep(p, k);
    NextPinned(p, k);
    UniqueStep(p, p.steps[k]);
    GrowPlain(lib, occ, Ids(p.steps[..k]), tr, before.nextId, before.active, p.steps[k].id, s);
    SoFarEarlier(lib, occ, k, before, now, tr);
    NextInOrder(lib, occ, k, tr.blocks, p.steps[k].id);
  }

  lemma SoFarEarlier(lib: Library, occ: Occurrence, k: nat, before: Counters, now: Counters, tr: Trace)
    requires Along(lib, occ, k, before, now, tr) && k < |occ.pipeline.steps| && Distinct(NodeIds(occ.pipeline))
    ensures Earlier(occ, k, tr.blocks) && Position(occ.pipeline.steps, occ.pipeline.steps[k].id) == k
  {
    hide NamesOk, NumberedOk, OccurrencesOk, AllRender, Distinct, NodeIds, InOrder, Total;
    var steps := occ.pipeline.steps;
    forall id | id in Ids(steps[..k]) ensures exists j :: 0 <= j < k && steps[j].id == id {
      var s :| s in steps[..k] && s.id == id;
      var j :| 0 <= j < k && steps[j] == s;
    }
    EmittedEarlier(lib, occ, k, Ids(steps[..k]), tr.blocks);
    PositionAt(occ.pipeline, k);
  }

  lemma NoEmptyBlock(lib: Library, occ: Occurrence, before: Counters, after: Counters, tr: Trace)
    requires Appended(lib, occ, before, after, tr)
    ensures forall x :: x in tr.blocks ==> x != []
  {
    hide NamesOk, NumberedOk, OccurrencesOk, AllRender, InOrder, Total;
    forall x | x in tr.blocks ensures x != [] { assert Emitted(lib, occ, StepIds(occ.pipeline), x); }
  }

  lemma TotalJoined(lib: Library, occ: Occurrence, b: Budget, t: string, child: Occurrence, ats: seq<Address>, below: seq<Address>)
    requires Linked(lib, occ, t) == Some(child)
    ensures Total(lib, occ, b, ats + Under(t, below)) == Total(lib, occ, b, ats) + Total(lib, child, b, below)
  {
    TotalConcat(lib, occ, b, ats, Under(t, below));
    TotalUnder(lib, occ, b, t, below);
  }

  lemma AlongLinked(lib: Library, occ: Occurrence, k: nat, before: Counters, now: Counters, tr: Trace, t: string, s: Step,
                    child: Occurrence, after: Counters, below: Trace, more: Names)
    requires Along(lib, occ, k, before, now, tr) && k < |occ.pipeline.steps|
    requires Distinct(NodeIds(occ.pipeline)) && Transfer(occ.pipeline.steps[k]) && t == occ.pipeline.steps[k].id
    requires occ.pipeline.steps[k].settings.reference.Pinned?
    requires Linked(lib, occ, t) == Some(child) && Renders(lib, occ, tr.names, [t], s)
    requires Appended(lib, child, now.(steps := now.steps + [s]), after, below)
    requires NameOf(below.names, []) == NameOf(tr.names, [t])
    requires more == tr.names + Graft(t, below.names)
    ensures Along(lib, occ, k + 1, before, after, Joined(tr, t, s, below, more))
    ensures Extends(tr.names, more)
  {
    hide Traced, NamesOk, BlocksOk, NumberedOk, OccurrencesOk, Renders, Extends, Linked, Total, Distinct, Ids, PinnedBefore,
      NodeIds, PinnedReferences, PinnedIn, StepIds, Under, NameOf, Graft, InOrder;
    var p := occ.pipeline;
    var mid := now.(steps := now.steps + [s]);
    assert mid.nextId == before.nextId + |tr.numbered| && mid.active == before.active + {occ.pipelineId};
    assert Traced(lib, child, StepIds(child.pipeline), below, before.nextId + |tr.numbered|, before.active + {occ.pipelineId});
    NextStep(p, k);
    NextPinned(p, k);
    GrowLinked(lib, occ, Ids(p.steps[..k]), tr, before.nextId, before.active, t, s, child, below, more);
    SoFarEarlier(lib, occ, k, before, now, tr);
    NoEmptyBlock(lib, child, mid, after, below);
    BelowInOrder(lib, occ, k, tr.blocks, t, child, below.blocks);
    TotalJoined(lib, occ, BlockBudget, t, child, tr.occurrences, below.occurrences);
    TotalJoined(lib, occ, TransferBudget, t, child, tr.occurrences, below.occurrences);
  }

  lemma AllSteps(p: Pipeline)
    ensures Ids(p.steps[..|p.steps|]) == StepIds(p) && PinnedBefore(p, |p.steps|) == |PinnedReferences(p)|
    ensures Weight(BlockBudget, p) == |p.sources| + |p.steps|
  {
    assert p.steps[..|p.steps|] == p.steps;
    assert Blocks(p)[..|p.sources| + |p.steps|] == Blocks(p);
  }

  lemma AlongEnd(lib: Library, occ: Occurrence, before: Counters, now: Counters, tr: Trace)
    requires Along(lib, occ, |occ.pipeline.steps|, before, now, tr)
    ensures Appended(lib, occ, before, now.(active := now.active - {occ.pipelineId}), tr)
  {
    hide Traced, Total, Weight;
    AllSteps(occ.pipeline);
  }

  // ---- the expansion as a function -----------------------------------------

  /** The checks and charges on entering an occurrence, in their order. */
  ghost function Entered(occ: Occurrence, c: Counters): Result<Counters, Failure> {
    var p := occ.pipeline;
    if occ.pipelineId in c.active then Err(CrossPipelineCycle)
    else if !Admissible(p) then Err(InvalidReferences)
    else if c.transfers + Weight(TransferBudget, p) > MAX_TRANSFERS then Err(TooManyTransfers)
    else if !Structured(p) then Err(InvalidStructure)
    else if c.blocks + Weight(BlockBudget, p) > MAX_BLOCKS then Err(TooManyBlocks)
    else if occ.entry.Some? && occ.entry.value !in SourceIds(p) then Err(InputUnavailable)
    else if occ.entry.Some? && (exists s :: Join(p.steps, occ.entry.value, s)) then Err(StatefulJoin)
    else Ok(c.(active := c.active + {occ.pipelineId}, transfers := c.transfers + Weight(TransferBudget, p),
               blocks := c.blocks + Weight(BlockBudget, p)))
  }

  lemma EnteredSound(occ: Occurrence, c: Counters)
    requires Entered(occ, c).Ok?
    ensures Sound(occ)
  {
  }

  ghost function KeptIds(occ: Occurrence): set<string> {
    set x | x in StepIds(occ.pipeline) && Kept(occ, x)
  }

  /** Names the kept steps in order; those of a linked pipeline draw the next reserved name. */
  function Numbered(steps: seq<Step>, linked: bool, kept: set<string>, names: map<string, string>, next: nat)
    : (map<string, string>, nat)
  {
    if steps == [] then (names, next)
    else
      var front := Numbered(steps[..|steps| - 1], linked, kept, names, next);
      var id := steps[|steps| - 1].id;
      if id !in kept then front
      else if linked then (front.0[id := LinkedName(front.1 + 1)], front.1 + 1)
      else (front.0[id := id], front.1)
  }

  /** The names inside an occurrence whose entry is fed by the block called `transfer`, and the last number drawn. */
  ghost function LocalNames(occ: Occurrence, transfer: string, next: nat): (map<string, string>, nat) {
    Numbered(occ.pipeline.steps, occ.entry.Some?, KeptIds(occ),
             SourceNames(SourceIds(occ.pipeline), if occ.entry.Some? then Some(Entry(occ.entry.value, transfer)) else None), next)
  }

  /** Emits one occurrence and, recursively, everything it links. */
  ghost function Expanded(lib: Library, occ: Occurrence, transfer: string, c: Counters): (r: Result<Counters, Failure>)
    requires c.transfers <= MAX_TRANSFERS
    ensures r.Ok? ==> c.transfers <= r.value.transfers <= MAX_TRANSFERS
    decreases MAX_TRANSFERS - c.transfers, 2, 0
  {
    var entered := Entered(occ, c);
    if entered.Err? then entered
    else
      EnteredSound(occ, c);
      var named := LocalNames(occ, transfer, c.nextId);
      var r := StepsExpanded(lib, occ, named.0, |occ.pipeline.steps|, entered.value.(nextId := named.1), MAX_TRANSFERS - c.transfers);
      if r.Err? then r else Ok(r.value.(active := r.value.active - {occ.pipelineId}))
  }

  /** Emits the first `k` steps of an occurrence. */
  ghost function StepsExpanded(lib: Library, occ: Occurrence, names: map<string, string>, k: nat, c: Counters, left: nat)
    : (r: Result<Counters, Failure>)
    requires Sound(occ) && k <= |occ.pipeline.steps| && c.transfers <= MAX_TRANSFERS
    requires MAX_TRANSFERS - c.transfers + |PinnedReferences(occ.pipeline)| <= left
    ensures r.Ok? ==> c.transfers <= r.value.transfers <= MAX_TRANSFERS
    decreases left, 1, k
  {
    if k == 0 then Ok(c)
    else
      var r := StepsExpanded(lib, occ, names, k - 1, c, left);
      if r.Err? then r else StepExpanded(lib, occ, names, k - 1, r.value, left)
  }

  /** Emits step `k`, and behind a transfer the pipeline it links. */
  ghost function StepExpanded(lib: Library, occ: Occurrence, names: map<string, string>, k: nat, c: Counters, left: nat)
    : (r: Result<Counters, Failure>)
    requires Sound(occ) && k < |occ.pipeline.steps| && c.transfers <= MAX_TRANSFERS
    requires MAX_TRANSFERS - c.transfers + |PinnedReferences(occ.pipeline)| <= left
    ensures r.Ok? ==> c.transfers <= r.value.transfers <= MAX_TRANSFERS
    decreases left, 0, 0
  {
    var s := occ.pipeline.steps[k];
    if !Kept(occ, s.id) then Ok(c)
    else
      var out := LocallyRenamed(occ, names, s);
      var emitted := c.(steps := c.steps + [out]);
      if !Transfer(s) then Ok(emitted)
      else
        TransferPinned(occ.pipeline, s);
        var child := Behind(lib, s.settings.reference.reference);
        if child.None? then Err(RevisionUnavailable) else Expanded(lib, child.value, out.id, emitted)
  }

  /** The occurrence a reference opens. */
  function Behind(lib: Library, r: Reference): Option<Occurrence> {
    if (r.pipelineId, r.revisionId) !in lib then None
    else Some(Occurrence(r.pipelineId, r.revisionId, lib[(r.pipelineId, r.revisionId)], Some(r.inputSource)))
  }

  // ---- what the expansion emits --------------------------------------------

  /** What naming the steps guarantees: the kept ids and no others, and consecutive numbers for those that drew one. */
  ghost predicate NumberedAs(steps: seq<Step>, linked: bool, kept: set<string>, names: map<string, string>, next: nat,
                             all: map<string, string>, last: nat, drawn: seq<string>) {
    && all.Keys == names.Keys + kept * Ids(steps)
    && (forall x :: x in names ==> all[x] == names[x])
    && (!linked ==> drawn == [] && forall x :: x in all && x !in names ==> all[x] == x)
    && (linked ==> forall x :: x in drawn <==> x in kept * Ids(steps))
    && Distinct(drawn) && last == next + |drawn|
    && forall j :: 0 <= j < |drawn| ==> NameIn(all, drawn[j]) == LinkedName(next + 1 + j)
  }

  lemma NumberedStep(steps: seq<Step>, s: Step, linked: bool, kept: set<string>, names: map<string, string>, next: nat,
                     all: map<string, string>, last: nat, drawn: seq<string>)
    requires NumberedAs(steps, linked, kept, names, next, all, last, drawn) && s.id !in Ids(steps) && s.id !in names
    ensures s.id !in kept ==> NumberedAs(steps + [s], linked, kept, names, next, all, last, drawn)
    ensures s.id in kept && !linked ==> NumberedAs(steps + [s], linked, kept, names, next, all[s.id := s.id], last, drawn)
    ensures s.id in kept && linked ==>
      NumberedAs(steps + [s], linked, kept, names, next, all[s.id := LinkedName(last + 1)], last + 1, drawn + [s.id])
  {
    hide LinkedName;
    assert Ids(steps + [s]) == Ids(steps) + {s.id};
  }

  lemma {:induction false} NumberedMore(steps: seq<Step>, linked: bool, kept: set<string>, names: map<string, string>, next: nat)
    returns (drawn: seq<string>)
    requires forall i, j :: 0 <= i < j < |steps| ==> steps[i].id != steps[j].id
    requires forall s :: s in steps ==> s.id !in names
    ensures NumberedAs(steps, linked, kept, names, next, Numbered(steps, linked, kept, names, next).0,
                       Numbered(steps, linked, kept, names, next).1, drawn)
  {
    drawn := [];
    if steps != [] {
      hide NumberedAs, LinkedName;
      var front, s := steps[..|steps| - 1], steps[|steps| - 1];
      drawn := NumberedMore(front, linked, kept, names, next);
      assert steps == front + [s];
      var before := Numbered(front, linked, kept, names, next);
      NumberedStep(front, s, linked, kept, names, next, before.0, before.1, drawn);
      if s.id in kept && linked {
        drawn := drawn + [s.id];
      }
    }
  }

  lemma LocalNamesAssigned(occ: Occurrence, transfer: string, next: nat) returns (drawn: seq<string>)
    requires Sound(occ)
    ensures NamesAssigned(occ, LocalNames(occ, transfer, next).0, drawn, next)
    ensures LocalNames(occ, transfer, next).1 == next + |drawn|
    ensures occ.entry.Some? ==> NameIn(LocalNames(occ, transfer, next).0, occ.entry.value) == transfer
  {
    hide Kept, Sound, Numbered, Local, Distinct, LinkedName;
    var p := occ.pipeline;
    var entry := if occ.entry.Some? then Some(Entry(occ.entry.value, transfer)) else None;
    var sources := SourceNames(SourceIds(p), entry);
    StepsApart(occ);
    drawn := NumberedMore(p.steps, occ.entry.Some?, KeptIds(occ), sources, next);
    NamesComplete(occ, entry, KeptIds(occ), LocalNames(occ, transfer, next).0);
  }

  lemma StepsApart(occ: Occurrence)
    requires Sound(occ)
    ensures forall i, j :: 0 <= i < j < |occ.pipeline.steps| ==> occ.pipeline.steps[i].id != occ.pipeline.steps[j].id
    ensures forall s :: s in occ.pipeline.steps ==> s.id !in SourceIds(occ.pipeline)
    ensures forall x :: Kept(occ, x) <==> x in KeptIds(occ)
    ensures occ.entry.Some? ==> occ.entry.value in SourceIds(occ.pipeline)
  {
    hide Kept;
    var p := occ.pipeline;
    forall i, j | 0 <= i < j < |p.steps| ensures p.steps[i].id != p.steps[j].id {
      if p.steps[i].id == p.steps[j].id { DistinctSteps(p, i, j); }
    }
    forall s | s in p.steps ensures s.id !in SourceIds(p) { UniqueStep(p, s); }
    forall x ensures Kept(occ, x) <==> x in KeptIds(occ) { KeptStep(occ, x); }
  }

  /** What a successful expansion emitted is the address graph below the occurrence. */
  lemma {:induction false} ExpandedTrace(lib: Library, occ: Occurrence, transfer: string, c: Counters) returns (tr: Trace)
    requires c.transfers <= MAX_TRANSFERS && Expanded(lib, occ, transfer, c).Ok?
    ensures Appended(lib, occ, c, Expanded(lib, occ, transfer, c).value, tr)
    ensures EntryNamed(occ, transfer, tr.names)
    decreases MAX_TRANSFERS - c.transfers, 2, 0
  {
    hide Traced, Along, Appended, Sound, Kept, Local, NamesAssigned, Extends, Separate, EntryNamed, LocalNames, StepsExpanded;
    var entered := Entered(occ, c).value;
    EnteredSound(occ, c);
    SoundSeparates(occ);
    var named := LocalNames(occ, transfer, c.nextId);
    var drawn := LocalNamesAssigned(occ, transfer, c.nextId);
    var start := entered.(nextId := named.1);
    var n := |occ.pipeline.steps|;
    AlongStart(lib, occ, named.0, drawn, c, start);
    tr := StepsTrace(lib, occ, named.0, drawn, n, c, start, MAX_TRANSFERS - c.transfers);
    var end := StepsExpanded(lib, occ, named.0, n, start, MAX_TRANSFERS - c.transfers).value;
    EntryNames(occ, transfer, named.0, drawn, c.nextId, tr.names);
    AlongEnd(lib, occ, c, end, tr);
  }

  lemma {:induction false} StepsTrace(lib: Library, occ: Occurrence, names: map<string, string>, drawn: seq<string>, k: nat,
                                      before: Counters, c: Counters, left: nat) returns (tr: Trace)
    requires Sound(occ) && Separate(occ) && NamesAssigned(occ, names, drawn, before.nextId)
    requires k <= |occ.pipeline.steps| && c.transfers <= MAX_TRANSFERS
    requires before.transfers <= MAX_TRANSFERS && left == MAX_TRANSFERS - before.transfers
    requires MAX_TRANSFERS - c.transfers + |PinnedReferences(occ.pipeline)| <= left
    requires Along(lib, occ, 0, before, c, Trace(Lift(occ, names), [], [], Singles(drawn), [[]]))
    requires StepsExpanded(lib, occ, names, k, c, left).Ok?
    ensures Along(lib, occ, k, before, StepsExpanded(lib, occ, names, k, c, left).value, tr)
    ensures Extends(Lift(occ, names), tr.names)
    decreases left, 1, k
  {
    hide Traced, Along, Sound, Kept, Local, Extends, Separate, StepExpanded;
    if k == 0 {
      tr := Trace(Lift(occ, names), [], [], Singles(drawn), [[]]);
      ExtendsReflexive(Lift(occ, names));
    } else {
      tr := StepsTrace(lib, occ, names, drawn, k - 1, before, c, left);
      var now := StepsExpanded(lib, occ, names, k - 1, c, left).value;
      tr := StepTrace(lib, occ, names, k - 1, before, now, tr, left);
    }
  }

  lemma {:induction false} StepTrace(lib: Library, occ: Occurrence, names: map<string, string>, k: nat,
                                     before: Counters, now: Counters, trace: Trace, left: nat) returns (tr: Trace)
    requires Sound(occ) && Separate(occ) && (forall x :: x in names <==> Local(occ, x))
    requires k < |occ.pipeline.steps| && now.transfers <= MAX_TRANSFERS
    requires before.transfers <= MAX_TRANSFERS && left == MAX_TRANSFERS - before.transfers
    requires MAX_TRANSFERS - now.transfers + |PinnedReferences(occ.pipeline)| <= left
    requires Along(lib, occ, k, before, now, trace) && Extends(Lift(occ, names), trace.names)
    requires StepExpanded(lib, occ, names, k, now, left).Ok?
    ensures Along(lib, occ, k + 1, before, StepExpanded(lib, occ, names, k, now, left).value, tr)
    ensures Extends(Lift(occ, names), tr.names)
    decreases left, 0, 0
  {
    hide Traced, Along, Appended, Renders, Extends, Separate, Linked, Sound, Kept, Local, Distinct, Expanded, EntryNamed, LocallyRenamed;
    tr := trace;
    DistinctNodes(occ);
    var s := occ.pipeline.steps[k];
    if !Kept(occ, s.id) {
      AlongDropped(lib, occ, k, before, now, tr);
      return;
    }
    var out := LocallyRenamed(occ, names, s);
    LocalRenders(lib, occ, names, tr.names, s);
    if !Transfer(s) {
      AlongPlain(lib, occ, k, before, now, tr, out);
      tr := Emit(tr, s.id, out);
      return;
    }
    BudgetLeft(lib, occ, k, before, now, tr);
    var child := Behind(lib, s.settings.reference.reference).value;
    var mid := now.(steps := now.steps + [out]);
    var below := ExpandedTrace(lib, child, out.id, mid);
    LinkedTo(lib, occ, s, child);
    LocalMentions(occ, names, s);
    NamedHere(occ, names, tr.names, s.id);
    BelowNamed(occ, names, s, child, below.names);
    var more := tr.names + Graft(s.id, below.names);
    AlongLinked(lib, occ, k, before, now, tr, s.id, out, child, Expanded(lib, child, out.id, mid).value, below, more);
    ExtendsTransitive(Lift(occ, names), tr.names, more);
    tr := Joined(tr, s.id, out, below, more);
  }

  lemma BelowNamed(occ: Occurrence, names: map<string, string>, s: Step, child: Occurrence, below: Names)
    requires child.entry.Some? && EntryNamed(child, LocallyRenamed(occ, names, s).id, below)
    ensures NameOf(below, []) == NameIn(names, s.id)
  {
  }

  // ---- the expansion -------------------------------------------------------

  class Expansion {
    const definitions: Library
    var active: set<string>
    var steps: seq<Step>
    var blocks: nat
    var transfers: nat
    var nextId: nat

    constructor (definitions: Library)
      ensures this.definitions == definitions
      ensures active == {} && steps == [] && blocks == 0 && transfers == 0 && nextId == 0
    {
      this.definitions := definitions;
      active, steps, blocks, transfers, nextId := {}, [], 0, 0, 0;
    }

    ghost function Now(): Counters
      reads this
    {
      Counters(active, steps, blocks, transfers, nextId)
    }

    /** Enters an occurrence: the checks and charges that precede naming. */
    method Admit(occ: Occurrence) returns (failure: Option<Failure>, kept: set<string>)
      requires transfers <= MAX_TRANSFERS
      modifies this`active, this`transfers, this`blocks
      ensures Outcome(failure, Now()) == Entered(occ, old(Now()))
      ensures failure.None? ==> kept == KeptIds(occ)
    {
      hide Admissible, Structured, PinnedReferences, Reached, Join, KeptIds, T.IsListing, Dependencies;
      var p := occ.pipeline;
      kept := {};
      if occ.pipelineId in active {
        return Some(CrossPipelineCycle), kept;
      }
      active := active + {occ.pipelineId};
      var references := References(p);
      if references.None? {
        return Some(InvalidReferences), kept;
      }
      transfers := transfers + |references.value|;
      if transfers > MAX_TRANSFERS {
        return Some(TooManyTransfers), kept;
      }
      var order := ValidateStructure(p);
      if order.None? {
        return Some(InvalidStructure), kept;
      }
      blocks := blocks + |p.sources| + |p.steps|;
      if blocks > MAX_BLOCKS {
        return Some(TooManyBlocks), kept;
      }
      if occ.entry.Some? {
        if occ.entry.value !in SourceIds(p) {
          return Some(InputUnavailable), kept;
        }
        var reachable := ReachableFrom(p, occ.entry.value, order.value);
        if reachable.None? {
          return Some(StatefulJoin), kept;
        }
        kept := set s | s in p.steps && s.id in reachable.value :: s.id;
        KeptByEntry(occ, reachable.value);
      } else {
        kept := StepIds(p);
        KeptByRoot(occ);
      }
      return None, kept;
    }

    /** Names the kept steps; those of a linked pipeline draw fresh names. */
    method NameSteps(steps: seq<Step>, linked: bool, kept: set<string>, sources: map<string, string>)
      returns (names: map<string, string>)
      modifies this`nextId
      ensures (names, nextId) == Numbered(steps, linked, kept, sources, old(nextId))
    {
      names := sources;
      for i := 0 to |steps|
        invariant (names, nextId) == Numbered(steps[..i], linked, kept, sources, old(nextId))
      {
        var id := steps[i].id;
        assert steps[..i + 1][..i] == steps[..i];
        if id in kept {
          if linked {
            nextId := nextId + 1;
            names := names[id := LinkedName(nextId)];
          } else {
            names := names[id := id];
          }
        }
      }
      assert steps[..|steps|] == steps;
    }

    /** Emits one occurrence and, recursively, everything it links. */
    method Append(occ: Occurrence, transfer: string) returns (failure: Option<Failure>)
      requires transfers <= MAX_TRANSFERS
      modifies this
      ensures Outcome(failure, Now()) == Expanded(definitions, occ, transfer, old(Now()))
      decreases MAX_TRANSFERS - transfers, 1
    {
      hide Entered, KeptIds, StepExpanded, Sound, Admissible, Kept, Local, Numbered;
      ghost var before := Now();
      var refused, kept := Admit(occ);
      if refused.Some? {
        return refused;
      }
      EnteredSound(occ, before);
      EnteredCounts(occ, before);
      var sources := NameSources(occ.pipeline, if occ.entry.Some? then Some(Entry(occ.entry.value, transfer)) else None);
      var names := NameSteps(occ.pipeline.steps, occ.entry.Some?, kept, sources);
      ghost var start := Now();
      ghost var left := MAX_TRANSFERS - before.transfers;
      ghost var drawn := LocalNamesAssigned(occ, transfer, before.nextId);
      for k := 0 to |occ.pipeline.steps|
        invariant start.transfers <= transfers <= MAX_TRANSFERS
        invariant Ok(Now()) == StepsExpanded(definitions, occ, names, k, start, left)
      {
        failure := Emit(occ, names, kept, k, left);
        if failure.Some? {
          StepsFail(definitions, occ, names, k + 1, |occ.pipeline.steps|, start, left);
          return;
        }
      }
      active := active - {occ.pipelineId};
      return None;
    }

    /** Emits step `k` of an occurrence, and behind a transfer the pipeline it links. */
    method Emit(occ: Occurrence, names: map<string, string>, kept: set<string>, k: nat, ghost left: nat)
      returns (failure: Option<Failure>)
      requires Sound(occ) && kept == KeptIds(occ) && forall x :: x in names <==> Local(occ, x)
      requires k < |occ.pipeline.steps| && transfers <= MAX_TRANSFERS
      requires MAX_TRANSFERS - transfers + |PinnedReferences(occ.pipeline)| <= left
      modifies this
      ensures Outcome(failure, Now()) == StepExpanded(definitions, occ, names, k, old(Now()), left)
      decreases left, 0
    {
      hide Sound, Kept, Local, Expanded, PinnedReferences;
      var s := occ.pipeline.steps[k];
      if s.id !in kept {
        return None;
      }
      LocalMentions(occ, names, s);
      var renamed := Rename(names, s, occ.pipelineId, occ.revisionId, occ.entry.Some?);
      var expanded;
      match renamed {
        case Err(refused) => return Some(refused);
        case Ok(step) => expanded := step;
      }
      if !Transfer(s) {
        steps := steps + [expanded];
        return None;
      }
      PinnedTransfer(occ, s);
      if !s.settings.reference.Pinned? {
        return Some(ReferenceMissing);
      }
      var reference := s.settings.reference.reference;
      expanded := expanded.(settings := expanded.settings.(kind := "forward", reference := NoReference));
      steps := steps + [expanded];
      var child := Behind(definitions, reference);
      if child.None? {
        return Some(RevisionUnavailable);
      }
      assert expanded == LocallyRenamed(occ, names, s);
      failure := Append(child.value, expanded.id);
    }
  }

  lemma KeptByEntry(occ: Occurrence, reachable: set<string>)
    requires occ.entry.Some? && forall n :: n in reachable <==> Reached(occ.pipeline.steps, occ.entry.value, n)
    ensures (set s | s in occ.pipeline.steps && s.id in reachable :: s.id) == KeptIds(occ)
  {
  }

  lemma KeptByRoot(occ: Occurrence)
    requires occ.entry.None?
    ensures StepIds(occ.pipeline) == KeptIds(occ)
  {
  }

  function Outcome(failure: Option<Failure>, c: Counters): Result<Counters, Failure> {
    if failure.Some? then Err(failure.value) else Ok(c)
  }

  lemma EnteredCounts(occ: Occurrence, c: Counters)
    requires Entered(occ, c).Ok?
    ensures Entered(occ, c).value.transfers == c.transfers + |PinnedReferences(occ.pipeline)| <= MAX_TRANSFERS
    ensures Entered(occ, c).value.nextId == c.nextId
  {
  }

  lemma PinnedTransfer(occ: Occurrence, s: Step)
    requires Sound(occ) && s in occ.pipeline.steps && Transfer(s)
    ensures s.settings.reference.Pinned? && |PinnedReferences(occ.pipeline)| > 0
  {
    TransferPinned(occ.pipeline, s);
  }

  /** A failing step decides the outcome of the whole loop. */
  lemma {:induction false} StepsFail(lib: Library, occ: Occurrence, names: map<string, string>, k: nat, n: nat, c: Counters, left: nat)
    requires Sound(occ) && k <= n <= |occ.pipeline.steps| && c.transfers <= MAX_TRANSFERS
    requires MAX_TRANSFERS - c.transfers + |PinnedReferences(occ.pipeline)| <= left
    requires StepsExpanded(lib, occ, names, k, c, left).Err?
    ensures StepsExpanded(lib, occ, names, n, c, left) == StepsExpanded(lib, occ, names, k, c, left)
  {
    hide Sound, StepExpanded, PinnedReferences;
    if k < n {
      StepsFail(lib, occ, names, k, n - 1, c, left);
    }
  }

  /** The lookups inside the expansion never fail; over a closed library, neither does finding a revision. */
  lemma {:induction false} ExpandedFailures(lib: Library, occ: Occurrence, transfer: string, c: Counters)
    requires c.transfers <= MAX_TRANSFERS && Expanded(lib, occ, transfer, c).Err?
    ensures !Internal(Expanded(lib, occ, transfer, c).error)
    ensures ReferenceClosed(lib) && Covers(lib, occ.pipeline) ==> !Expanded(lib, occ, transfer, c).error.RevisionUnavailable?
    decreases MAX_TRANSFERS - c.transfers, 2, 0
  {
    hide StepsExpanded, ReferenceClosed, Covers, LocalNames, Sound;
    if Entered(occ, c).Ok? {
      EnteredSound(occ, c);
      var named := LocalNames(occ, transfer, c.nextId);
      StepsFailures(lib, occ, named.0, |occ.pipeline.steps|, Entered(occ, c).value.(nextId := named.1), MAX_TRANSFERS - c.transfers);
    }
  }

  lemma {:induction false} StepsFailures(lib: Library, occ: Occurrence, names: map<string, string>, k: nat, c: Counters, left: nat)
    requires Sound(occ) && k <= |occ.pipeline.steps| && c.transfers <= MAX_TRANSFERS
    requires MAX_TRANSFERS - c.transfers + |PinnedReferences(occ.pipeline)| <= left
    requires StepsExpanded(lib, occ, names, k, c, left).Err?
    ensures !Internal(StepsExpanded(lib, occ, names, k, c, left).error)
    ensures ReferenceClosed(lib) && Covers(lib, occ.pipeline) ==> !StepsExpanded(lib, occ, names, k, c, left).error.RevisionUnavailable?
    decreases left, 1, k
  {
    hide ReferenceClosed, Covers, Sound, PinnedReferences, Expanded;
    var front := StepsExpanded(lib, occ, names, k - 1, c, left);
    if front.Err? {
      StepsFailures(lib, occ, names, k - 1, c, left);
    } else {
      var s := occ.pipeline.steps[k - 1];
      if Kept(occ, s.id) && Transfer(s) {
        var reference := TransferReference(occ, s);
        CoversReference(lib, occ.pipeline, reference);
        var child := Behind(lib, reference);
        if child.Some? {
          ClosedChild(lib, reference);
          var out := LocallyRenamed(occ, names, s);
          ExpandedFailures(lib, child.value, out.id, front.value.(steps := front.value.steps + [out]));
        }
      }
    }
  }

  lemma TransferReference(occ: Occurrence, s: Step) returns (r: Reference)
    requires Sound(occ) && s in occ.pipeline.steps && Transfer(s)
    ensures s.settings.reference == Pinned(r) && r in PinnedReferences(occ.pipeline) && |PinnedReferences(occ.pipeline)| > 0
  {
    TransferPinned(occ.pipeline, s);
    r := s.settings.reference.reference;
  }

  lemma CoversReference(lib: Library, p: Pipeline, r: Reference)
    requires r in PinnedReferences(p)
    ensures Covers(lib, p) ==> Behind(lib, r).Some?
  {
  }

  lemma ClosedChild(lib: Library, r: Reference)
    requires Behind(lib, r).Some?
    ensures ReferenceClosed(lib) ==> Covers(lib, Behind(lib, r).value.pipeline)
  {
  }

  lemma DistinctNodes(occ: Occurrence)
    requires Sound(occ)
    ensures Distinct(NodeIds(occ.pipeline))
  {
  }

  lemma BudgetLeft(lib: Library, occ: Occurrence, k: nat, before: Counters, now: Counters, tr: Trace)
    requires Sound(occ) && k < |occ.pipeline.steps| && Along(lib, occ, k, before, now, tr) && Transfer(occ.pipeline.steps[k])
    ensures before.transfers < now.transfers <= MAX_TRANSFERS
    ensures occ.pipeline.steps[k].settings.reference.Pinned?
    ensures occ.pipeline.steps[k].settings.reference.reference in PinnedReferences(occ.pipeline)
  {
    hide Traced, Structured;
    TransferPinned(occ.pipeline, occ.pipeline.steps[k]);
  }

  lemma LinkedTo(lib: Library, occ: Occurrence, s: Step, behind: Occurrence)
    requires Sound(occ) && s in occ.pipeline.steps && Kept(occ, s.id) && Transfer(s) && s.settings.reference.Pinned?
    requires var r := s.settings.reference.reference;
             && (r.pipelineId, r.revisionId) in lib
             && behind == Occurrence(r.pipelineId, r.revisionId, lib[(r.pipelineId, r.revisionId)], Some(r.inputSource))
    ensures Linked(lib, occ, s.id) == Some(behind)
  {
    UniqueStep(occ.pipeline, s);
  }

  lemma NamedHere(occ: Occurrence, names: map<string, string>, more: Names, id: string)
    requires Separate(occ) && Kept(occ, id) && id in names && Extends(Lift(occ, names), more)
    ensures NameOf(more, [id]) == names[id]
  {
    LiftAt(occ, names, id);
    FeederHere(occ, id);
  }

  lemma ExtendsReflexive(a: Names)
    ensures Extends(a, a)
  {
  }

  lemma ExtendsTransitive(a: Names, b: Names, c: Names)
    requires Extends(a, b) && Extends(b, c)
    ensures Extends(a, c)
  {
  }

  /** A linked occurrence is entered under the transfer's name; the root keeps its authored names. */
  ghost predicate EntryNamed(occ: Occurrence, transfer: string, names: Names) {
    && (occ.entry.Some? ==> NameOf(names, []) == transfer)
    && (occ.entry.None? ==> forall x :: Local(occ, x) ==> NameOf(names, [x]) == x)
  }

  lemma EntryNames(occ: Occurrence, transfer: string, names: map<string, string>, drawn: seq<string>, first: nat, more: Names)
    requires NamesAssigned(occ, names, drawn, first) && Extends(Lift(occ, names), more)
    requires occ.entry.Some? ==> NameIn(names, occ.entry.value) == transfer
    ensures EntryNamed(occ, transfer, more)
  {
    forall x | x in names ensures NameOf(more, Feeder(occ, [], x)) == names[x] {
      LiftAt(occ, names, x);
    }
    if occ.entry.Some? {
      assert Local(occ, occ.entry.value);
      FeederHere(occ, occ.entry.value);
    } else {
      forall x | Local(occ, x) ensures NameOf(more, [x]) == x {
        FeederHere(occ, x);
      }
    }
  }
}
