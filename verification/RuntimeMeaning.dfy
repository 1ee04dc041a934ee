/** What reading, resolving and running a pinned pipeline mean, in terms of the stored documents. */
module RuntimeMeaning {
  import opened Json
  import opened Text
  import opened Pipelines
  import opened PipelineDocuments
  import opened Patches
  import opened Snapshots
  import opened Gathering
  import opened CompiledGraph
  import P = PipelineAuthoring
  import O = OntologyDocuments

  // ---- documents -----------------------------------------------------------

  /** The shared settings of a block are the fields of its object. */
  predicate ReadsSettings(v: Value, s: Settings) {
    && s.kind == (if AsStr(Field(v, "type")).Some? then AsStr(Field(v, "type")).value else "")
    && s.capability == Field(v, "capability_id") && s.model == Field(v, "model") && s.origin == Field(v, "origin")
    && s.trigger == Get(Field(v, "params"), "trigger") && s.merge == Get(Field(v, "params"), "merge") && s.payload == v
    && (s.reference.NoReference? <==> Missing(Field(v, "pipeline_ref")))
    && (s.reference.Pinned? ==>
          && Get(Field(v, "pipeline_ref"), "pipeline_id") == Some(Str(s.reference.reference.pipelineId))
          && Get(Field(v, "pipeline_ref"), "revision_id") == Some(Str(s.reference.reference.revisionId))
          && Get(Field(v, "pipeline_ref"), "input_source") == Some(Str(s.reference.reference.inputSource)))
  }

  lemma TwoDown(v: Value, a: string, b: string)
    ensures At(Some(v), [a, b]) == Get(Field(v, a), b)
  {
    var p := [a, b];
    assert p[1..] == [b] && [b][1..] == [];
    assert At(Some(v), p) == At(Get(Some(v), a), p[1..]);
    assert At(Get(Some(v), a), [b]) == At(Get(Get(Some(v), a), b), [b][1..]);
  }

  lemma SettingsRead(v: Value)
    ensures ReadsSettings(v, ReadSettings(v))
  {
    hide At;
    TwoDown(v, "params", "trigger");
    TwoDown(v, "params", "merge");
  }

  /** Every block of a readable document is read from its own fields, in order. */
  lemma ReadingMeans(v: Value, p: Pipeline)
    requires ReadPipeline(v) == Some(p)
    ensures |p.sources| == |Sources(v)| && |p.steps| == |Steps(v)|
    ensures forall i :: 0 <= i < |p.sources| ==>
      && Field(Sources(v)[i], "id") == Some(Str(p.sources[i].id)) && ReadsSettings(Sources(v)[i], p.sources[i].settings)
      && Field(Sources(v)[i], "step") == (if p.sources[i].step.Some? then Some(Str(p.sources[i].step.value)) else None)
    ensures forall i :: 0 <= i < |p.steps| ==>
      && Field(Steps(v)[i], "step") == Some(Str(p.steps[i].id)) && ReadsSettings(Steps(v)[i], p.steps[i].settings)
      && p.steps[i].routing == AsStr(Field(Steps(v)[i], "routing"))
      && ListsStrings(Field(Steps(v)[i], "input_from"), p.steps[i].inputs)
      && (p.steps[i].branches.Some? <==> IsObject(Field(Steps(v)[i], "branches")))
      && (p.steps[i].branches.Some? ==>
            && p.steps[i].branches.value.Keys == Keys(Field(Steps(v)[i], "branches"))
            && forall branch :: branch in p.steps[i].branches.value ==>
                 ListsStrings(Get(Field(Steps(v)[i], "branches"), branch), p.steps[i].branches.value[branch]))
  {
    hide ReadSettings, ReadsSettings;
    forall i | 0 <= i < |p.sources|
      ensures ReadsSettings(Sources(v)[i], p.sources[i].settings) && ReadSource(Sources(v)[i]) == Some(p.sources[i])
    {
      assert Sources(v)[i] in Sources(v);
      SettingsRead(Sources(v)[i]);
    }
    forall i | 0 <= i < |p.steps|
      ensures ReadsSettings(Steps(v)[i], p.steps[i].settings) && ReadStep(Steps(v)[i]) == Some(p.steps[i])
    {
      assert Steps(v)[i] in Steps(v);
      SettingsRead(Steps(v)[i]);
    }
  }

  /** The value is an array of exactly these strings. */
  predicate ListsStrings(v: Option<Value>, strings: seq<string>) {
    && v.Some? && v.value.Arr? && |v.value.items| == |strings|
    && forall i :: 0 <= i < |strings| ==> v.value.items[i] == Str(strings[i])
  }

  // ---- ontology dependencies -----------------------------------------------

  /** The binding of one block of a pipeline. */
  function BindingOf(state: TenantState, pipeline: string, block: string): Option<Binding> {
    if (pipeline, block) in state.bindings then Some(state.bindings[(pipeline, block)]) else None
  }

  lemma BoundMeans(state: TenantState, pipeline: string, block: string)
    ensures block in Bound(state, pipeline) <==> BindingOf(state, pipeline, block).Some?
    ensures block in Bound(state, pipeline) ==> Bound(state, pipeline)[block] == BindingOf(state, pipeline, block).value.ontology
  {
    if (pipeline, block) in state.bindings {
      assert (pipeline, block).0 == pipeline && (pipeline, block).1 == block;
    }
  }

  /** What a step says about ontologies is met by its binding. */
  ghost predicate StepBound(state: TenantState, pipeline: string, step: Value) {
    var binding := BindingOf(state, pipeline, TextOr(Field(step, "step"), ""));
    && (Field(step, "ontology_required") == Some(Bool(true)) ==> binding.Some?)
    && (forall o :: Get(Field(step, "params"), "ontology_id") == Some(Str(o)) ==> binding.Some? && binding.value.ontology == o)
  }

  /**
   A pipeline's dependencies are met exactly if its graph is valid, each step that requires or names an ontology is bound,
   to that one if it names one, and every binding of the pipeline is to an ontology in production.
   */
  lemma DependenciesMean(state: TenantState, pipeline: string)
    ensures DependenciesOk(state, pipeline) <==>
      && pipeline in state.pipelines
      && ReadPipeline(state.pipelines[pipeline].definition).Some?
      && Structured(ReadPipeline(state.pipelines[pipeline].definition).value)
      && (forall x :: x in Steps(state.pipelines[pipeline].definition) ==> StepBound(state, pipeline, x))
      && (forall k :: k in state.bindings && k.0 == pipeline ==>
            var o := state.bindings[k].ontology;
            o in state.ontologies && state.ontologies[o].publication.Some? &&
            state.ontologies[o].publication.value.lifecycle == Production)
  {
    hide ReadPipeline, Structured, At, Steps, Bound;
    if pipeline in state.pipelines {
      var v, bound := state.pipelines[pipeline].definition, Bound(state, pipeline);
      forall x | x in Steps(v) ensures StepRequirement(x, bound) <==> StepBound(state, pipeline, x) {
        TwoDown(x, "params", "ontology_id");
        BoundMeans(state, pipeline, TextOr(Field(x, "step"), ""));
      }
    }
  }

  /** The requirement of one step, as the check makes it. */
  predicate StepRequirement(x: Value, bound: map<string, string>) {
    var id := TextOr(Field(x, "step"), "");
    && (Field(x, "ontology_required") == Some(Bool(true)) ==> id in bound)
    && (AsStr(At(Some(x), ["params", "ontology_id"])).Some? ==>
          id in bound && bound[id] == AsStr(At(Some(x), ["params", "ontology_id"])).value)
  }

  // ---- resolving and running -----------------------------------------------

  /** The revision holds this pipeline, and it is not deleted. */
  ghost predicate Holds(log: Log, id: string, revision: string, state: TenantState, definition: Value) {
    && (exists i :: 0 <= i < |log| && log[i] == Entry(revision, state))
    && id in state.pipelines && !state.pipelines[id].deleted && state.pipelines[id].definition == definition
  }

  lemma HoldsOnce(log: Log, id: string, revision: string, state: TenantState, definition: Value)
    requires WellFormed(log)
    ensures Holds(log, id, revision, state, definition) <==>
      Load(log, revision) == Some(state) && Alive(Some(state), id).Some? && Alive(Some(state), id).value.definition == definition
  {
    if i :| 0 <= i < |log| && log[i] == Entry(revision, state) { LoadAt(log, i); }
  }

  /** A reference resolves exactly to a readable, admissible pipeline that is alive at the pinned revision. */
  lemma ResolveMeans(log: Log, key: (string, string), strict: bool, p: Pipeline)
    requires WellFormed(log)
    ensures Resolve(log, key, strict) == Some(p) <==>
      exists state, v :: Holds(log, key.0, key.1, state, v) && ReadPipeline(v) == Some(p) && Admissible(p) &&
                         (strict ==> DependenciesOk(state, key.0))
  {
    hide WellFormed, DependenciesOk, Admissible, Holds, ReadPipeline;
    forall state, v ensures Holds(log, key.0, key.1, state, v) <==>
      Load(log, key.1) == Some(state) && Alive(Some(state), key.0).Some? && Alive(Some(state), key.0).value.definition == v {
      HoldsOnce(log, key.0, key.1, state, v);
    }
    if Resolve(log, key, strict) == Some(p) {
      var state := Load(log, key.1).value;
      assert Holds(log, key.0, key.1, state, state.pipelines[key.0].definition);
    }
  }

  /** A revision runs exactly what its stored definition composes to, if it is alive there and its dependencies are met. */
  lemma RuntimeMeans(log: Log, id: string, revision: string, c: CompiledPipeline)
    requires WellFormed(log)
    ensures Runtime(log, id, revision) == Some(c) <==>
      exists state, v :: Holds(log, id, revision, state, v) && DependenciesOk(state, id) && Composes(log, id, revision, v, true, c)
  {
    hide DependenciesOk, Composes, Holds;
    forall state, v ensures Holds(log, id, revision, state, v) <==>
      Load(log, revision) == Some(state) && Alive(Some(state), id).Some? && Alive(Some(state), id).value.definition == v {
      HoldsOnce(log, id, revision, state, v);
    }
    if Runtime(log, id, revision) == Some(c) {
      var state := Load(log, revision).value;
      assert Holds(log, id, revision, state, state.pipelines[id].definition);
    }
    if state, v :| Holds(log, id, revision, state, v) && DependenciesOk(state, id) && Composes(log, id, revision, v, true, c) {
      ComposedIs(log, id, revision, v, true, c);
      var i :| 0 <= i < |log| && log[i].revision == revision;
    }
  }

  // ---- bindings ------------------------------------------------------------

  /** A binding is accepted exactly if its ontology is in production at a stored valid revision that has what it selects. */
  lemma BindingMeans(log: Log, state: TenantState, b: Binding)
    requires WellFormed(log)
    ensures P.BindingOk(log, state, b) <==>
      && P.ValidIdentity(b.ontology) && b.ontology in state.ontologies
      && state.ontologies[b.ontology].publication.Some? && state.ontologies[b.ontology].publication.value.lifecycle == Production
      && exists i :: SelectsFrom(log, i, state.ontologies[b.ontology].publication.value.revision, b)
  {
    hide P.ValidIdentity, O.ValidDocument, P.SelectorOk, Selects, Load;
    if Published(state, b.ontology) {
      var revision := state.ontologies[b.ontology].publication.value.revision;
      forall i | 0 <= i < |log| && log[i].revision == revision ensures Load(log, revision) == Some(log[i].state) { LoadAt(log, i); }
      if P.OntologyAt(log, b.ontology, revision).Some? {
        var i :| 0 <= i < |log| && log[i] == Entry(revision, Load(log, revision).value);
        SelectorMeans(log[i].state.ontologies[b.ontology].ontology, b);
        if P.BindingOk(log, state, b) { assert SelectsFrom(log, i, revision, b); }
      }
      if i :| SelectsFrom(log, i, revision, b) {
        SelectorMeans(log[i].state.ontologies[b.ontology].ontology, b);
      }
    }
  }

  /** The revision stores a valid ontology that has every resource the binding names, and the kinds it names exist. */
  ghost predicate SelectsFrom(log: Log, i: int, revision: string, b: Binding) {
    && 0 <= i < |log| && log[i].revision == revision && b.ontology in log[i].state.ontologies
    && O.ValidDocument(log[i].state.ontologies[b.ontology].ontology)
    && Selects(log[i].state.ontologies[b.ontology].ontology, b)
  }

  ghost predicate Selects(v: Value, b: Binding) {
    && (forall id :: id in b.ids ==> exists x :: x in O.ItemsOf(v) && Field(x, "resource_id") == Some(Str(id)))
    && (forall kind :: kind in b.kinds ==> kind in {"object_type", "event_type", "property", "link_type", "action", "function"})
    && (b.ids != [] || b.kinds != [])
  }

  lemma SelectorMeans(v: Value, b: Binding)
    ensures P.SelectorOk(v, b.ids, b.kinds) <==> Selects(v, b)
  {
    forall x: Value, id: string ensures AsStr(Field(x, "resource_id")) == Some(id) <==> Field(x, "resource_id") == Some(Str(id)) {}
  }
}
