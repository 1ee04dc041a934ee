/** Authored pipelines, the references they pin and the structural checks every pipeline passes. */
module Pipelines {
  import opened Json
  import opened Graphs
  import opened Text
  import T = TopologicalOrder

  /** Sources and steps of every embedded occurrence together. */
  const MAX_BLOCKS := 256
  /** Cross-pipeline transfers of one composition. */
  const MAX_TRANSFERS := 3

  /** The immutable input a transfer selects: a pipeline, one revision of it and one of its sources. */
  datatype Reference = Reference(pipelineId: string, revisionId: string, inputSource: string)

  datatype ReferenceField = NoReference | MalformedReference | Pinned(reference: Reference)

  /** Fields that sources and steps share.  `payload` is the rest of the authored object, carried unchanged. */
  datatype Settings = Settings(
    kind: string,
    reference: ReferenceField,
    capability: Option<Value>,
    model: Option<Value>,
    trigger: Option<Value>,
    merge: Option<Value>,
    origin: Option<Value>,
    payload: Value)

  /** A source may carry a `step` field of its own, which then hides its `id` from `references`. */
  datatype Source = Source(id: string, step: Option<string>, settings: Settings)

  datatype Step = Step(
    id: string,
    inputs: seq<string>,
    branches: Option<map<string, seq<string>>>,
    routing: Option<string>,
    settings: Settings)

  datatype Pipeline = Pipeline(sources: seq<Source>, steps: seq<Step>)

  predicate Transfer(s: Step) {
    s.settings.kind == "pipeline"
  }

  /** Started by a clock or by hand, never by the arrival of an input. */
  predicate Scheduled(s: Step) {
    s.settings.trigger == Some(Str("cron")) || s.settings.trigger == Some(Str("on_demand"))
  }

  function SourceIds(p: Pipeline): set<string> {
    set s | s in p.sources :: s.id
  }

  function StepIds(p: Pipeline): set<string> {
    set s | s in p.steps :: s.id
  }

  function NodeIds(p: Pipeline): (ids: seq<string>)
    ensures |ids| == |p.sources| + |p.steps|
  {
    seq(|p.sources|, i requires 0 <= i < |p.sources| => p.sources[i].id)
    + seq(|p.steps|, i requires 0 <= i < |p.steps| => p.steps[i].id)
  }

  function FindStep(steps: seq<Step>, id: string): (r: Option<Step>)
    ensures r.Some? ==> r.value in steps && r.value.id == id
    ensures r.None? <==> forall s :: s in steps ==> s.id != id
  {
    if steps == [] then None
    else if steps[0].id == id then Some(steps[0])
    else FindStep(steps[1..], id)
  }

  // ---- references ----------------------------------------------------------

  datatype Block = Block(name: string, settings: Settings)

  /** The blocks in reading order, under the identifier `references` reads for each of them. */
  function Blocks(p: Pipeline): (blocks: seq<Block>)
    ensures |blocks| == |p.sources| + |p.steps|
  {
    seq(|p.sources|, i requires 0 <= i < |p.sources| =>
      Block(if p.sources[i].step.Some? then p.sources[i].step.value else p.sources[i].id, p.sources[i].settings))
    + seq(|p.steps|, i requires 0 <= i < |p.steps| => Block(p.steps[i].id, p.steps[i].settings))
  }

  predicate Consumed(steps: seq<Step>, name: string) {
    exists s :: s in steps && name in s.inputs
  }

  predicate ValidReference(r: Reference) {
    ValidName(r.pipelineId) && ValidRevision(r.revisionId) && ValidName(r.inputSource)
  }

  predicate BlockAdmissible(steps: seq<Step>, b: Block) {
    && !StartsWith(b.name, "__linked_")
    && Missing(b.settings.origin)
    && if b.settings.kind == "pipeline" then
         && Missing(b.settings.capability)
         && Missing(b.settings.model)
         && b.settings.reference.Pinned?
         && ValidReference(b.settings.reference.reference)
         && (b.settings.trigger.None? || b.settings.trigger == Some(Str("manual")))
         && !Consumed(steps, b.name)
       else
         && b.settings.reference.NoReference?
         && (b.settings.kind != "forward" || b.settings.merge == Some(Str("union")))
  }

  /** The references the transfer blocks pin, in reading order. */
  function PinnedIn(blocks: seq<Block>): (refs: seq<Reference>)
    ensures |refs| <= |blocks|
  {
    if blocks == [] then []
    else
      var rest := PinnedIn(blocks[..|blocks| - 1]);
      var s := blocks[|blocks| - 1].settings;
      if s.kind == "pipeline" && s.reference.Pinned? then rest + [s.reference.reference] else rest
  }

  function PinnedReferences(p: Pipeline): seq<Reference> {
    PinnedIn(Blocks(p))
  }

  ghost predicate Admissible(p: Pipeline) {
    && |p.sources| + |p.steps| <= MAX_BLOCKS
    && (forall b :: b in Blocks(p) ==> BlockAdmissible(p.steps, b))
    && |PinnedReferences(p)| <= MAX_TRANSFERS
  }

  lemma {:induction false} PinnedGrows(blocks: seq<Block>, n: nat)
    requires n <= |blocks|
    ensures |PinnedIn(blocks[..n])| <= |PinnedIn(blocks)|
  {
    if n < |blocks| {
      var front := blocks[..|blocks| - 1];
      assert front[..n] == blocks[..n];
      PinnedGrows(front, n);
    } else {
      assert blocks[..n] == blocks;
    }
  }

  lemma PinnedNone()
    ensures PinnedIn([]) == []
  {
  }

  lemma AdmissiblePins(steps: seq<Step>, b: Block)
    ensures BlockAdmissible(steps, b) && b.settings.kind == "pipeline" ==> b.settings.reference.Pinned?
  {
  }

  lemma PinnedNext(blocks: seq<Block>, i: nat)
    requires i < |blocks|
    ensures PinnedIn(blocks[..i + 1]) == PinnedIn(blocks[..i]) +
      if blocks[i].settings.kind == "pipeline" && blocks[i].settings.reference.Pinned? then [blocks[i].settings.reference.reference] else []
  {
    assert blocks[..i + 1][..i] == blocks[..i];
  }

  /** Reads the pinned references, refusing reserved fields and transfers that are not terminal. */
  method References(p: Pipeline) returns (r: Option<seq<Reference>>)
    ensures r.Some? <==> Admissible(p)
    ensures r.Some? ==> r.value == PinnedReferences(p)
  {
    hide Blocks, PinnedIn, BlockAdmissible;
    if |p.sources| + |p.steps| > MAX_BLOCKS {
      return None;
    }
    var blocks := Blocks(p);
    var result := [];
    PinnedNone();
    for i := 0 to |blocks|
      invariant forall j :: 0 <= j < i ==> BlockAdmissible(p.steps, blocks[j])
      invariant result == PinnedIn(blocks[..i]) && |result| <= MAX_TRANSFERS
    {
      PinnedNext(blocks, i);
      AdmissiblePins(p.steps, blocks[i]);
      if !BlockAdmissible(p.steps, blocks[i]) {
        assert blocks[i] in blocks;
        return None;
      }
      if blocks[i].settings.kind == "pipeline" {
        result := result + [blocks[i].settings.reference.reference];
        if |result| > MAX_TRANSFERS {
          PinnedGrows(blocks, i + 1);
          return None;
        }
      }
    }
    assert blocks[..|blocks|] == blocks;
    return Some(result);
  }

  lemma {:induction false} PinnedContains(blocks: seq<Block>, b: Block)
    requires b in blocks && b.settings.kind == "pipeline" && b.settings.reference.Pinned?
    ensures b.settings.reference.reference in PinnedIn(blocks)
  {
    var front := blocks[..|blocks| - 1];
    assert blocks == front + [blocks[|blocks| - 1]];
    if b != blocks[|blocks| - 1] {
      PinnedContains(front, b);
    }
  }

  /** An admissible pipeline pins a reference for each of its transfer steps. */
  lemma TransferPinned(p: Pipeline, s: Step)
    requires Admissible(p) && s in p.steps && Transfer(s)
    ensures s.settings.reference.Pinned?
    ensures s.settings.reference.reference in PinnedReferences(p)
    ensures !Consumed(p.steps, s.id)
  {
    var i :| 0 <= i < |p.steps| && p.steps[i] == s;
    var b := Block(s.id, s.settings);
    assert Blocks(p)[|p.sources| + i] == b;
    assert b in Blocks(p);
    PinnedContains(Blocks(p), b);
  }

  lemma StepNotReserved(p: Pipeline, s: Step)
    requires Admissible(p) && s in p.steps
    ensures !StartsWith(s.id, "__linked_")
  {
    var i :| 0 <= i < |p.steps| && p.steps[i] == s;
    assert Blocks(p)[|p.sources| + i] == Block(s.id, s.settings);
    assert Block(s.id, s.settings) in Blocks(p);
  }

  // ---- routes --------------------------------------------------------------

  predicate LabelOk(name: string) {
    !Blank(name) && ByteLength(name) <= 128
  }

  ghost function Destinations(branches: map<string, seq<string>>): set<string> {
    set branch, t | branch in branches && t in branches[branch] :: t
  }

  /** The steps an arrival at block `id` triggers directly. */
  ghost function Consumers(steps: seq<Step>, id: string): set<string> {
    set s | s in steps && !Scheduled(s) && id in s.inputs :: s.id
  }

  ghost predicate RouteOk(steps: seq<Step>, s: Step) {
    if s.settings.kind != "route" then
      s.branches.None? || s.branches.value == map[]
    else
      && (s.routing == Some("regex") || s.routing == Some("slm") || s.routing == Some("metadata"))
      && Missing(s.settings.capability)
      && s.branches.Some?
      && 0 < |s.branches.value| <= 32
      && (forall branch :: branch in s.branches.value ==>
            LabelOk(branch) && s.branches.value[branch] != [] && Distinct(s.branches.value[branch]))
      && Destinations(s.branches.value) == Consumers(steps, s.id)
  }

  ghost predicate RoutesOk(steps: seq<Step>) {
    forall s :: s in steps ==> RouteOk(steps, s)
  }

  method UniqueTargets(targets: seq<string>) returns (ok: bool, unique: set<string>)
    ensures ok <==> Distinct(targets)
    ensures ok ==> unique == set t | t in targets
  {
    unique := {};
    for i := 0 to |targets|
      invariant Distinct(targets[..i])
      invariant unique == set t | t in targets[..i]
    {
      assert targets[..i + 1] == targets[..i] + [targets[i]];
      if targets[i] in unique {
        assert targets[i] in targets[..i];
        return false, unique;
      }
      unique := unique + {targets[i]};
    }
    assert targets[..|targets|] == targets;
    ok := true;
  }

  method RouteDestinations(branches: map<string, seq<string>>) returns (ok: bool, destinations: set<string>)
    ensures ok <==> forall branch :: branch in branches ==>
      LabelOk(branch) && branches[branch] != [] && Distinct(branches[branch])
    ensures ok ==> destinations == Destinations(branches)
  {
    destinations := {};
    var rest := branches.Keys;
    while rest != {}
      invariant rest <= branches.Keys
      invariant forall branch :: branch in branches && branch !in rest ==>
        LabelOk(branch) && branches[branch] != [] && Distinct(branches[branch])
      invariant destinations == set branch, t | branch in branches && branch !in rest && t in branches[branch] :: t
      decreases rest
    {
      var branch :| branch in rest;
      if !LabelOk(branch) || branches[branch] == [] {
        return false, destinations;
      }
      var distinct, targets := UniqueTargets(branches[branch]);
      if !distinct {
        return false, destinations;
      }
      destinations := destinations + targets;
      rest := rest - {branch};
    }
    ok := true;
  }

  method ValidateRoute(steps: seq<Step>, s: Step) returns (ok: bool)
    ensures ok <==> RouteOk(steps, s)
  {
    if s.settings.kind != "route" {
      return s.branches.None? || s.branches.value == map[];
    }
    if s.routing != Some("regex") && s.routing != Some("slm") && s.routing != Some("metadata") {
      return false;
    }
    if !Missing(s.settings.capability) || s.branches.None? || |s.branches.value| == 0 || |s.branches.value| > 32 {
      return false;
    }
    var labelled, destinations := RouteDestinations(s.branches.value);
    if !labelled {
      return false;
    }
    var children := {};
    for i := 0 to |steps|
      invariant children == Consumers(steps[..i], s.id)
    {
      assert steps[..i + 1] == steps[..i] + [steps[i]];
      if !Scheduled(steps[i]) && s.id in steps[i].inputs {
        children := children + {steps[i].id};
      }
    }
    assert steps[..|steps|] == steps;
    return destinations == children;
  }

  method ValidateBranchRoutes(steps: seq<Step>) returns (ok: bool)
    ensures ok <==> RoutesOk(steps)
  {
    for i := 0 to |steps|
      invariant forall j :: 0 <= j < i ==> RouteOk(steps, steps[j])
    {
      var valid := ValidateRoute(steps, steps[i]);
      if !valid {
        assert steps[i] in steps;
        return false;
      }
    }
    return true;
  }

  // ---- structure -----------------------------------------------------------

  predicate KnownKind(kind: string) {
    kind in {"inference", "resolve", "sink", "dbt", "causal", "algorithm", "route", "pipeline", "forward", "filter"}
  }

  predicate StepOk(s: Step) {
    && s.id != ""
    && KnownKind(s.settings.kind)
    && (s.settings.kind == "inference" ==> AsStr(s.settings.model).Some? || AsStr(s.settings.capability).Some?)
  }

  /** The inputs of every step; a later step replaces an earlier one of the same name. */
  function Dependencies(steps: seq<Step>): (d: Edges)
    ensures forall id :: id in d <==> exists s :: s in steps && s.id == id
  {
    if steps == [] then map[]
    else
      var last := steps[|steps| - 1];
      Dependencies(steps[..|steps| - 1])[last.id := last.inputs]
  }

  lemma {:induction false} DependenciesOf(steps: seq<Step>, i: nat)
    requires i < |steps|
    requires forall j :: i < j < |steps| ==> steps[j].id != steps[i].id
    ensures steps[i].id in Dependencies(steps) && Dependencies(steps)[steps[i].id] == steps[i].inputs
  {
    if i < |steps| - 1 {
      DependenciesOf(steps[..|steps| - 1], i);
    }
  }

  /** What `validate_pipeline_structure` accepts. */
  ghost predicate Structured(p: Pipeline) {
    && (forall s :: s in p.sources ==> s.id != "")
    && (forall s :: s in p.steps ==> StepOk(s))
    && Distinct(NodeIds(p))
    && RoutesOk(p.steps)
    && T.InputsKnown(SourceIds(p), Dependencies(p.steps))
    && Acyclic(Dependencies(p.steps))
  }

  /** The dependencies of the steps, and whether every step is well-formed on its own. */
  method CollectSteps(steps: seq<Step>) returns (ok: bool, dependencies: Edges)
    ensures ok <==> forall s :: s in steps ==> StepOk(s)
    ensures dependencies == Dependencies(steps)
  {
    hide StepOk;
    ok, dependencies := true, map[];
    for i := 0 to |steps|
      invariant dependencies == Dependencies(steps[..i])
      invariant ok <==> forall j :: 0 <= j < i ==> StepOk(steps[j])
    {
      ok := ok && StepOk(steps[i]);
      assert steps[..i + 1][..i] == steps[..i];
      dependencies := dependencies[steps[i].id := steps[i].inputs];
    }
    assert steps[..|steps|] == steps;
  }

  /** Validates the graph structure and returns a processing order. */
  method ValidateStructure(p: Pipeline) returns (r: Option<seq<string>>)
    ensures r.Some? <==> Structured(p)
    ensures r.Some? ==> T.IsListing(SourceIds(p), Dependencies(p.steps), r.value)
  {
    hide StepOk, RoutesOk, Acyclic, Distinct, NodeIds, Dependencies, T.IsListing, T.InputsKnown;
    var unique, nodes := UniqueTargets(NodeIds(p));
    var named := true;
    for i := 0 to |p.sources|
      invariant named <==> forall j :: 0 <= j < i ==> p.sources[j].id != ""
    {
      named := named && p.sources[i].id != "";
    }
    var valid, dependencies := CollectSteps(p.steps);
    var routes := ValidateBranchRoutes(p.steps);
    var order := T.Order(SourceIds(p), dependencies);
    if unique && named && valid && routes {
      r := order;
    } else {
      r := None;
    }
  }

  lemma DistinctSteps(p: Pipeline, i: nat, j: nat)
    requires Distinct(NodeIds(p)) && i < |p.steps| && j < |p.steps| && p.steps[i].id == p.steps[j].id
    ensures i == j
  {
    assert NodeIds(p)[|p.sources| + i] == p.steps[i].id && NodeIds(p)[|p.sources| + j] == p.steps[j].id;
  }

  /** Steps of a structured pipeline are determined by their ids, which no source shares. */
  lemma UniqueStep(p: Pipeline, s: Step)
    requires Distinct(NodeIds(p)) && s in p.steps
    ensures FindStep(p.steps, s.id) == Some(s)
    ensures s.id !in SourceIds(p)
    ensures s.id in Dependencies(p.steps) && Dependencies(p.steps)[s.id] == s.inputs
  {
    var found := FindStep(p.steps, s.id).value;
    var i :| 0 <= i < |p.steps| && p.steps[i] == s;
    var j :| 0 <= j < |p.steps| && p.steps[j] == found;
    DistinctSteps(p, i, j);
    forall k | 0 <= k < |p.sources| ensures p.sources[k].id != s.id {
      assert NodeIds(p)[k] == p.sources[k].id && NodeIds(p)[|p.sources| + i] == s.id;
    }
    forall k | i < k < |p.steps| ensures p.steps[k].id != s.id {
      if p.steps[k].id == s.id { DistinctSteps(p, i, k); }
    }
    DependenciesOf(p.steps, i);
  }
}
