/** The Registry service of one tenant: commands that load the head, edit it and commit it as a new revision. */
module Service {
  import opened Json
  import opened Text
  import opened Pipelines
  import opened PipelineDocuments
  import opened Snapshots
  import opened Gathering
  import opened Registry
  import opened CompiledGraph
  import P = PipelineAuthoring
  import O = OntologyAuthoring
  import D = DefinitionMerging
  import M = OntologyMerging
  import opened Forests
  import OntologyDocuments
  import RunProperties
  import E = PipelineEffects
  import OE = OntologyEffects

  /** Nothing but pipeline `id` changed. */
  ghost predicate OnlyPipeline(before: TenantState, after: TenantState, id: string) {
    && after.ontologies == before.ontologies && after.bindings == before.bindings
    && id in after.pipelines && after.pipelines == before.pipelines[id := after.pipelines[id]]
  }

  /** Nothing but ontology `id` changed, and its record is chained to the revision before. */
  ghost predicate OnlyOntology(before: TenantState, after: TenantState, id: string) {
    && after.pipelines == before.pipelines && after.bindings == before.bindings
    && id in after.ontologies && after.ontologies == before.ontologies[id := after.ontologies[id]]
  }

  /** One revision was added, and whatever was ever in production runs as it did. */
  ghost predicate Grown(before: Log, after: Log, revision: string) {
    && before != [] && |after| == |before| + 1 && before <= after && Head(after).revision == revision
    && forall id, at :: RunProperties.EverPublished(before, id, at) ==> Runtime(after, id, at) == Runtime(before, id, at)
  }

  lemma StillRuns(before: Log, after: Log, revision: string)
    requires Reachable(before) && Reachable(after) && |after| == |before| + 1 && before <= after && Head(after).revision == revision
    ensures Grown(before, after, revision)
  {
    hide Reachable, Runtime;
    forall id, at | RunProperties.EverPublished(before, id, at) ensures Runtime(after, id, at) == Runtime(before, id, at) {
      RunProperties.PublishedRunsForever(before, after, id, at);
    }
  }

  /** A production pointer in the head runs. */
  lemma PointerRuns(log: Log, id: string, at: string)
    requires Reachable(log) && RunProperties.PublishedIn(Head(log).state, id, at)
    ensures Runtime(log, id, at).Some?
  {
    hide Reachable, Runtime;
    assert RunProperties.PublishedIn(log[|log| - 1].state, id, at);
    RunProperties.PublishedRuns(log, id, at);
  }

  lemma PointerStillRuns(before: Log, after: Log, revision: string, id: string, at: string)
    requires Reachable(before) && Grown(before, after, revision) && RunProperties.PublishedIn(Head(before).state, id, at)
    ensures Runtime(after, id, at).Some?
  {
    hide Reachable, Runtime;
    assert RunProperties.PublishedIn(before[|before| - 1].state, id, at);
    PointerRuns(before, id, at);
  }

  /** A publication in the head resolves to the content it recorded. */
  lemma PublicationResolves(log: Log, id: string)
    requires Reachable(log) && id in Head(log).state.ontologies && Head(log).state.ontologies[id].publication.Some?
    ensures var p := Head(log).state.ontologies[id].publication.value;
      P.OntologyAt(log, id, p.revision).Some? && p.hash == Digest(P.OntologyAt(log, id, p.revision).value.ontology)
  {
    hide Reachable, P.OntologyAt, O.OriginsOk, O.DocumentsOk, Forest, WellFormed, Follows, PipelinesOk;
    RunsKeep(log);
    assert StateOk(log, log[|log| - 1].state);
    assert O.RecordOk(log, id, log[|log| - 1].state.ontologies[id]);
  }

  /** What a successful pipeline command did in a run, and what any answer of it means. */
  lemma PipelineAnswered(log: Log, input: P.Input, command: P.Command, preview: P.Preview)
    requires Reachable(log) && (P.Admitted(log, input, command).None? ==> P.PreviewFits(P.Opened(Head(log).state, input), command, preview))
    ensures var r := P.Authored(log, input, command, preview);
      && (r.Ok? ==> E.Did(log, input, command, r.value) && E.MaySend(log, input, command) &&
                    E.Demands(log, input, command, P.Opened(Head(log).state, input), r.value.pipelines[input.id]))
      && (r.Err? ==> E.Means(log, input, command, P.Opened(Head(log).state, input), preview, r.error))
  {
    hide Reachable, P.Authored, P.PreviewFits, P.Admitted, E.Did, E.Demands, E.Means, E.MaySend, P.RecordOk;
    E.AdmittedMeans(log, input, command, preview);
    E.AuthoredAnswers(log, input, command, preview);
    if P.Authored(log, input, command, preview).Ok? {
      if input.id in Head(log).state.pipelines {
        RunProperties.CurrentRecord(log, input.id);
        RunProperties.RecordBranches(log, input.id, Head(log).state.pipelines[input.id]);
      }
      E.AuthoredDid(log, input, command, preview);
      DidThere(log, input, command, P.Authored(log, input, command, preview).value);
    }
  }

  lemma DidThere(log: Log, input: P.Input, command: P.Command, after: TenantState)
    requires log != [] && E.Did(log, input, command, after)
    ensures input.id in after.pipelines && after.pipelines[input.id].authoring.enabled
  {
    hide E.Effect, E.BindsOnly, E.Opens;
  }

  lemma AdmittedThere(log: Log, input: O.Input, command: O.Command)
    requires log != [] && O.Admitted(log, input, command).None?
    ensures input.id in Head(log).state.ontologies
  {
  }

  /** The same for ontology commands. */
  lemma OntologyAnswered(log: Log, input: O.Input, command: O.Command, outcome: O.Outcome)
    requires Reachable(log) && (O.Authored(log, input, command, outcome).Ok? ==> Honest(log, AuthorOntologyCall(input, command, outcome)))
    ensures var r := O.Authored(log, input, command, outcome);
      && (r.Ok? ==> OE.MaySend(log, input, command) && OE.Did(log, input, command, r.value) &&
                    OE.Demands(log, input, command, Head(log).state.ontologies[input.id]))
      && (r.Err? ==>
            || OE.MeansEarly(log, input, command, r.error)
            || (OE.MaySend(log, input, command) && OE.Means(log, input, command, Head(log).state.ontologies[input.id], outcome, r.error)))
  {
    hide Reachable, O.Authored, O.OutcomeFits, OE.Did, OE.Demands, OE.Means, OE.MeansEarly, Forest, O.DocumentsOk, O.OriginsOk, O.PublicationOk;
    OE.AuthoredAnswers(log, input, command, outcome);
    if O.Authored(log, input, command, outcome).Ok? {
      RunProperties.CurrentOntology(log, input.id);
      OE.AuthoredDid(log, input, command, outcome);
    }
  }

  lemma AuthoredOrigin(log: Log, input: O.Input, command: O.Command, outcome: O.Outcome)
    requires Reachable(log) && O.Authored(log, input, command, outcome).Ok? && Honest(log, AuthorOntologyCall(input, command, outcome))
    ensures input.id in Head(log).state.ontologies && input.id in O.Authored(log, input, command, outcome).value.ontologies
    ensures O.Origin(O.Authored(log, input, command, outcome).value.ontologies[input.id].ontology) ==
            O.Origin(Head(log).state.ontologies[input.id].ontology)
  {
    hide Reachable, O.RecordOk, O.Authored, O.OutcomeFits, O.Origin, Follows, PipelinesOk;
    RunsKeep(log);
    AuthorOntologyShape(log, input, command, outcome);
    assert StateOk(log, log[|log| - 1].state);
    O.AuthoredKeeps(log, input, command, outcome);
  }

  class TenantRegistry {
    var log: Log

    ghost predicate Valid()
      reads this
    {
      Reachable(log)
    }

    constructor (revision: string)
      requires ValidRevision(revision)
      ensures Valid() && log == [Entry(revision, Empty)]
    {
      log := [Entry(revision, Empty)];
    }

    /** Appends a revision; the store picks an unused id. */
    method Commit(state: TenantState, revision: string, ghost call: Call)
      requires Valid() && Unused(log, revision) && Honest(log, call) && After(log, call) == Some(state)
      modifies this
      ensures Valid() && log == old(log) + [Entry(revision, state)]
      ensures Grown(old(log), log, revision)
    {
      hide After, Honest, Unused, Reachable, Grown;
      var next := log + [Entry(revision, state)];
      Extended(log, next);
      StillRuns(log, next, revision);
      log := next;
    }

    // ---- reading -------------------------------------------------------------

    /** Loads an ontology pinned at a revision, and validates it again. */
    method LoadOntology(id: string, revision: string) returns (r: Option<OntologyRecord>)
      ensures r == P.OntologyAt(log, id, revision)
    {
      if !ValidRevision(revision) {
        return None;
      }
      var state := Load(log, revision);
      if state.None? || id !in state.value.ontologies {
        return None;
      }
      var record := state.value.ontologies[id];
      var valid := OntologyDocuments.ValidateDocument(record.ontology);
      return if valid then Some(record) else None;
    }

    method CheckBinding(state: TenantState, binding: Binding) returns (ok: bool)
      ensures ok <==> P.BindingOk(log, state, binding)
    {
      if !P.ValidIdentity(binding.ontology) || !Published(state, binding.ontology) {
        return false;
      }
      var ontology := LoadOntology(binding.ontology, state.ontologies[binding.ontology].publication.value.revision);
      ok := ontology.Some? && P.SelectorOk(ontology.value.ontology, binding.ids, binding.kinds);
    }

    /** The pipeline pinned at a revision, compiled for execution. */
    method RuntimePipeline(id: string, revision: string) returns (r: Option<CompiledPipeline>)
      ensures r == Runtime(log, id, revision)
    {
      hide Composed, DependenciesOk;
      if !ValidRevision(revision) {
        return None;
      }
      var state := Load(log, revision);
      if state.None? {
        return None;
      }
      var ready := ValidateDependencies(state.value, id);
      if !ready || Alive(state, id).None? {
        return None;
      }
      var compiled := Compose(log, id, revision, Alive(state, id).value.definition, true);
      return if compiled.Ok? then Some(compiled.value) else None;
    }

    // ---- pipeline workspace --------------------------------------------------

    method Approve(id: string, record: PipelineRecord) returns (r: Result<PipelineRecord, P.Refusal>)
      requires log != []
      ensures r == P.Approved(log, id, record)
    {
      hide Composed, Executable, Structured;
      var definition := record.definition;
      if !Executable(definition) || ReadPipeline(definition).None? {
        return Err(P.NotExecutable);
      }
      var order := ValidateStructure(ReadPipeline(definition).value);
      if order.None? {
        return Err(P.NotExecutable);
      }
      if Sources(definition) == [] {
        return Err(P.SourceRequired);
      }
      var compiled := Compose(log, id, Head(log).revision, definition, false);
      if compiled.Err? {
        return Err(P.CompositionRefused);
      }
      return Ok(record.(authoring := record.authoring.(approval := Some(Digest(definition)))));
    }

    method Publish(id: string, record: PipelineRecord) returns (r: Result<PipelineRecord, P.Refusal>)
      requires log != []
      ensures r == P.Released(log, id, record)
    {
      hide Composed;
      var review := record.authoring.approval;
      if review.None? {
        return Err(P.ApprovalRequired);
      }
      if review.value != Digest(record.definition) {
        return Err(P.ApprovalStale);
      }
      var compiled := Compose(log, id, Head(log).revision, record.definition, true);
      if compiled.Err? {
        return Err(P.CompositionRefused);
      }
      return Ok(record.(authoring := record.authoring.(release := Some(Release(Head(log).revision, review.value)))));
    }

    method Deploy(id: string, record: PipelineRecord) returns (r: Result<PipelineRecord, P.Refusal>)
      ensures r == P.Deployed(log, id, record)
    {
      hide Composed, Runtime;
      if record.authoring.release.None? {
        return Err(P.PublicationRequired);
      }
      var release := record.authoring.release.value;
      var pinned := Alive(Load(log, release.revision), id);
      if pinned.None? {
        return Err(P.Unavailable);
      }
      if release.hash != Digest(pinned.value.definition) {
        return Err(P.PublicationInvalid);
      }
      var compiled := Compose(log, id, release.revision, pinned.value.definition, true);
      if compiled.Err? {
        return Err(P.CompositionRefused);
      }
      var running := RuntimePipeline(id, release.revision);
      if running.None? {
        return Err(P.RuntimeRefused);
      }
      return Ok(record.(published := Some(release.revision)));
    }

    method Merge(record: PipelineRecord, proposal: string, resolutions: P.PipelineMerging.Resolutions)
      returns (r: Result<PipelineRecord, P.Refusal>, ghost preview: P.Preview)
      requires log != []
      ensures r == P.Merged(record, proposal, preview, Head(log).revision)
      ensures P.PreviewFits(record, P.Merge(proposal, resolutions), preview)
    {
      hide P.PipelineMerging.Merge, P.PipelineMerging.Conflicts, P.PipelineMerging.TooDeep, D.ReportsAre, D.Normalizes, D.Normal, Draft;
      preview := Err(D.NotNormal);
      var pinned := P.Pinned(record, proposal);
      if pinned.Err? {
        return Err(pinned.error), preview;
      }
      var source := pinned.value;
      var outcome := D.MergeDefinitions(source.base, record.definition, source.definition, resolutions);
      preview := outcome;
      if outcome.Err? {
        return Err(P.MergeRefused(outcome.error)), preview;
      }
      if outcome.value.conflicts != [] {
        return Err(P.Unresolved), preview;
      }
      var merged := outcome.value.definition;
      if !Draft(merged) {
        return Err(P.InvalidDraft), preview;
      }
      var name := AsStr(Field(merged, "name"));
      if name.None? {
        return Err(P.NameMismatch), preview;
      }
      var a := record.authoring;
      if proposal !in a.branches {
        return Err(P.BranchUnavailable), preview;
      }
      var branch := a.branches[proposal].(definition := merged, base := merged, baseRevision := Head(log).revision);
      a := a.(approval := None, proposals := a.proposals - {proposal}, branches := a.branches[proposal := branch]);
      return Ok(record.(definition := merged, name := name.value, authoring := a)), preview;
    }

    method Bind(state: TenantState, input: P.Input, record: PipelineRecord, block: string, ontology: string)
      returns (r: Result<P.Edit, P.Refusal>)
      ensures r == P.BoundTo(log, state, input, record, block, ontology)
    {
      hide P.BindingOk, Draft;
      if input.definition != record.definition {
        return Err(P.BindingReplaces);
      }
      var binding := P.DraftBinding(input.id, block, ontology);
      var valid := CheckBinding(state, binding);
      if !valid {
        return Err(P.BindingRefused);
      }
      var marked := MarkRequired(record.definition, block);
      if marked.None? {
        return Err(P.BlockUnavailable);
      }
      if !Draft(marked.value) {
        return Err(P.InvalidDraft);
      }
      var edited := record.(definition := marked.value, authoring := record.authoring.(approval := None));
      return Ok(P.Edit(edited, state.bindings[(input.id, block) := binding]));
    }

    /** One command applied to a managed record. */
    method Edit(state: TenantState, input: P.Input, record: PipelineRecord, command: P.Command)
      returns (r: Result<P.Edit, P.Refusal>, ghost preview: P.Preview)
      requires log != []
      ensures r == P.Edited(log, state, input, record, command, preview)
      ensures P.PreviewFits(record, command, preview)
    {
      hide P.Saved, P.Deleted, P.Forked, P.Proposed, P.Merged, P.Approved, P.Released, P.Deployed, P.BoundTo, P.IsPreview, P.Pinned;
      preview := Err(D.NotNormal);
      var edited: Result<PipelineRecord, P.Refusal>;
      match command {
        case BindOntology(block, ontology) =>
          r := Bind(state, input, record, block, ontology);
          return;
        case SaveDraft(branch) => edited := P.Saved(record, branch, input);
        case DeleteBranch(leaf) => edited := P.Deleted(record, leaf);
        case CreateBranch(name, from) => edited := P.Forked(record, name, from, Head(log).revision);
        case ProposeMerge(source) => edited := P.Proposed(record, source);
        case Merge(proposal, resolutions) => edited, preview := Merge(record, proposal, resolutions);
        case Approve => edited := Approve(input.id, record);
        case Publish => edited := Publish(input.id, record);
        case Deploy => edited := Deploy(input.id, record);
      }
      r := P.OnRecord(edited, state.bindings);
    }

    /** Runs one authoring command and commits the workspace; a refused command changes nothing. */
    method AuthorPipeline(input: P.Input, command: P.Command, revision: string)
      returns (r: Result<PipelineRecord, P.Refusal>, ghost preview: P.Preview)
      requires Valid() && Unused(log, revision)
      modifies this
      ensures Valid()
      ensures P.Admitted(old(log), input, command).None? ==> Honest(old(log), AuthorPipelineCall(input, command, preview))
      ensures var next := P.Authored(old(log), input, command, preview);
        && (r.Ok? <==> next.Ok?) && (r.Err? ==> r.error == next.error && log == old(log))
        && (r.Ok? ==> log == old(log) + [Entry(revision, next.value)])
      ensures r.Ok? ==> Grown(old(log), log, revision)
      ensures r.Ok? ==> input.id in Head(log).state.pipelines && r.value == Head(log).state.pipelines[input.id] && r.value.authoring.enabled
      ensures r.Ok? ==> E.MaySend(old(log), input, command) && E.Did(old(log), input, command, Head(log).state)
      ensures r.Ok? ==> E.Demands(old(log), input, command, P.Opened(Head(old(log)).state, input), r.value)
      ensures r.Err? ==> E.Means(old(log), input, command, P.Opened(Head(old(log)).state, input), preview, r.error)
      ensures r.Ok? && r.value.published.Some? ==> Runtime(log, input.id, r.value.published.value).Some?
      ensures r != Err(P.ApprovalStale) && r != Err(P.PublicationInvalid)
      ensures command.Merge? ==> r != Err(P.BranchUnavailable)
    {
      hide Reachable, P.Edited, P.Admitted, P.PreviewFits, Unused, Grown, E.Did, E.Demands, E.Means, E.MaySend;
      var state, head := Head(log).state, Head(log).revision;
      var record := P.Opened(state, input);
      preview := Err(D.NotNormal);
      var refused := P.Admitted(log, input, command);
      if refused.Some? {
        RunProperties.UnreachableRefusals(log, input, command, preview);
        PipelineAnswered(log, input, command, preview);
        return Err(refused.value), preview;
      }
      var edited;
      edited, preview := Edit(state, input, record, command);
      RunProperties.UnreachableRefusals(log, input, command, preview);
      PipelineAnswered(log, input, command, preview);
      if edited.Err? {
        return Err(edited.error), preview;
      }
      record := edited.value.record.(previous := if input.createOnly then None else Some(head));
      state := state.(pipelines := state.pipelines[input.id := record], bindings := edited.value.bindings);
      DidThere(log, input, command, state);
      Commit(state, revision, AuthorPipelineCall(input, command, preview));
      if record.published.Some? { PointerRuns(log, input.id, record.published.value); }
      return Ok(record), preview;
    }

    // ---- pipelines outside the workspace -------------------------------------

    method PutPipeline(input: P.Input, revision: string) returns (r: Result<PipelineRecord, P.Refusal>)
      requires Valid() && Unused(log, revision)
      modifies this
      ensures Valid()
      ensures var next := Registry.PutPipeline(old(log), input);
        && (r.Ok? <==> next.Ok?) && (r.Err? ==> r.error == next.error && log == old(log))
        && (r.Ok? ==> log == old(log) + [Entry(revision, next.value)])
      ensures r.Ok? <==>
        var head, state := Head(old(log)).revision, Head(old(log)).state;
        && P.ValidIdentity(input.id) && (input.createOnly <==> input.id !in state.pipelines)
        && (input.expected == Some(head) || (input.expected.None? && input.createOnly))
        && (input.id in state.pipelines ==> !state.pipelines[input.id].authoring.enabled)
        && ReadPipeline(input.definition).Some? && Structured(ReadPipeline(input.definition).value)
        && Composed(old(log), input.id, head, input.definition, false).Some?
      ensures r.Ok? ==>
        && r.value.name == input.name && r.value.authoring == NoAuthoring
        && r.value.previous == if input.createOnly then None else Some(Head(old(log)).revision)
      ensures r.Ok? ==> Grown(old(log), log, revision) && OnlyPipeline(Head(old(log)).state, Head(log).state, input.id)
      ensures r.Ok? ==> r.value == Head(log).state.pipelines[input.id] && r.value.definition == input.definition && !r.value.deleted
      ensures r.Ok? && input.id in Head(old(log)).state.pipelines ==>
        r.value.published == Head(old(log)).state.pipelines[input.id].published
    {
      hide Reachable, Composed, P.ValidIdentity, Structured, Unused;
      var state, head := Head(log).state, Head(log).revision;
      if !P.ValidIdentity(input.id) {
        return Err(P.InvalidIdentity);
      }
      var exists_ := input.id in state.pipelines;
      if input.createOnly && exists_ {
        return Err(P.AlreadyExists);
      }
      if !input.createOnly && !exists_ {
        return Err(P.Unavailable);
      }
      if (input.expected.Some? && input.expected.value != head) || (input.expected.None? && !input.createOnly) {
        return Err(P.HeadChanged);
      }
      if exists_ && state.pipelines[input.id].authoring.enabled {
        return Err(P.Managed);
      }
      var p := ReadPipeline(input.definition);
      if p.None? {
        return Err(P.InvalidStructure);
      }
      var order := ValidateStructure(p.value);
      if order.None? {
        return Err(P.InvalidStructure);
      }
      var compiled := Compose(log, input.id, head, input.definition, false);
      if compiled.Err? {
        return Err(P.CompositionRefused);
      }
      var published := if exists_ then state.pipelines[input.id].published else None;
      var record := PipelineRecord(NoAuthoring, if exists_ then Some(head) else None, input.name, published, input.definition, false);
      state := state.(pipelines := state.pipelines[input.id := record]);
      Commit(state, revision, PutPipelineCall(input));
      return Ok(record);
    }

    method PublishPipeline(id: string, at: string, revision: string) returns (r: Result<PipelineRecord, P.Refusal>)
      requires Valid() && Unused(log, revision)
      modifies this
      ensures Valid()
      ensures var next := Registry.PublishPipeline(old(log), id, at);
        && (r.Ok? <==> next.Ok?) && (r.Err? ==> r.error == next.error && log == old(log))
        && (r.Ok? ==> log == old(log) + [Entry(revision, next.value)])
      ensures r.Ok? <==>
        var state := Head(old(log)).state;
        && P.ValidIdentity(id) && ValidRevision(at) && at == Head(old(log)).revision
        && id in state.pipelines && !state.pipelines[id].deleted && !state.pipelines[id].authoring.enabled
        && DependenciesOk(state, id) && Composed(old(log), id, at, state.pipelines[id].definition, true).Some?
      ensures r.Ok? ==> var was := Head(old(log)).state.pipelines[id];
        && r.value.definition == was.definition && r.value.name == was.name && r.value.authoring == was.authoring
        && r.value.previous == Some(at) && !r.value.deleted
      ensures r.Ok? ==> Grown(old(log), log, revision) && OnlyPipeline(Head(old(log)).state, Head(log).state, id)
      ensures r.Ok? ==> r.value == Head(log).state.pipelines[id] && r.value.published == Some(at) && Runtime(log, id, at).Some?
    {
      hide Reachable, Composed, P.ValidIdentity, DependenciesOk, Unused;
      if !P.ValidIdentity(id) || !ValidRevision(at) {
        return Err(P.InvalidIdentity);
      }
      var pinned := Load(log, at);
      var candidate := Alive(pinned, id);
      if candidate.None? {
        return Err(P.Unavailable);
      }
      if candidate.value.authoring.enabled {
        return Err(P.Managed);
      }
      var ready := ValidateDependencies(pinned.value, id);
      if !ready {
        return Err(P.BindingRefused);
      }
      var compiled := Compose(log, id, at, candidate.value.definition, true);
      if compiled.Err? {
        return Err(P.CompositionRefused);
      }
      if Head(log).revision != at {
        return Err(P.HeadChanged);
      }
      var state := Head(log).state;
      if id !in state.pipelines {
        return Err(P.Unavailable);
      }
      var record := state.pipelines[id].(published := Some(at), previous := Some(at));
      state := state.(pipelines := state.pipelines[id := record]);
      Commit(state, revision, PublishPipelineCall(id, at));
      PointerRuns(log, id, at);
      return Ok(record);
    }

    /** Hides a pipeline and takes it out of production; what it had in production still runs at its revision. */
    method DeletePipeline(id: string, expected: string, revision: string) returns (r: Result<PipelineRecord, P.Refusal>)
      requires Valid() && Unused(log, revision)
      modifies this
      ensures Valid()
      ensures r.Ok? <==> P.ValidIdentity(id) && Head(old(log)).revision == expected && id in Head(old(log)).state.pipelines
      ensures r.Err? ==> log == old(log)
      ensures r.Ok? ==> Grown(old(log), log, revision) && OnlyPipeline(Head(old(log)).state, Head(log).state, id)
      ensures r.Ok? ==> r.value == Head(log).state.pipelines[id]
      ensures r.Ok? ==> Alive(Some(Head(log).state), id).None? && forall at :: !RunProperties.PublishedIn(Head(log).state, id, at)
      ensures r.Ok? ==> var before := Head(old(log)).state.pipelines[id];
        && r.value.definition == before.definition && r.value.authoring == before.authoring
        && (before.published.Some? ==> Runtime(log, id, before.published.value).Some?)
    {
      hide Reachable, P.ValidIdentity, Unused, Grown, Runtime;
      var state := Head(log).state;
      if !P.ValidIdentity(id) {
        return Err(P.InvalidIdentity);
      }
      if Head(log).revision != expected {
        return Err(P.HeadChanged);
      }
      if id !in state.pipelines {
        return Err(P.Unavailable);
      }
      ghost var was := state.pipelines[id].published;
      var record := state.pipelines[id].(deleted := true, published := None);
      state := state.(pipelines := state.pipelines[id := record]);
      ghost var before := log;
      Commit(state, revision, DeletePipelineCall(id, expected));
      if was.Some? { PointerStillRuns(before, log, revision, id, was.value); }
      return Ok(record);
    }

    method PutBinding(binding: Binding, expected: string, revision: string) returns (r: Result<Binding, P.Refusal>)
      requires Valid() && Unused(log, revision)
      modifies this
      ensures Valid()
      ensures var next := Registry.PutBinding(old(log), binding, expected);
        && (r.Ok? <==> next.Ok?) && (r.Err? ==> r.error == next.error && log == old(log))
        && (r.Ok? ==> log == old(log) + [Entry(revision, next.value)])
      ensures r.Ok? <==>
        var state := Head(old(log)).state;
        && P.ValidIdentity(binding.pipeline) && P.ValidIdentity(binding.block) && expected == Head(old(log)).revision
        && binding.pipeline in state.pipelines
        && (exists x :: x in Steps(state.pipelines[binding.pipeline].definition) && AsStr(Field(x, "step")) == Some(binding.block))
        && P.BindingOk(old(log), state, binding)
      ensures r.Ok? ==> Grown(old(log), log, revision) && r.value == binding
      ensures r.Ok? ==> var before, after := Head(old(log)).state, Head(log).state;
        && after.pipelines == before.pipelines && after.ontologies == before.ontologies
        && after.bindings == before.bindings[(binding.pipeline, binding.block) := binding]
        && binding.ontology in after.ontologies && !after.ontologies[binding.ontology].authoring.deleted
    {
      hide Reachable, P.ValidIdentity, P.BindingOk, Unused, Grown, Steps;
      var state := Head(log).state;
      if !P.ValidIdentity(binding.pipeline) || !P.ValidIdentity(binding.block) {
        return Err(P.InvalidIdentity);
      }
      if Head(log).revision != expected {
        return Err(P.HeadChanged);
      }
      if binding.pipeline !in state.pipelines {
        return Err(P.Unavailable);
      }
      if !HasStep(state.pipelines[binding.pipeline].definition, binding.block) {
        return Err(P.BlockUnavailable);
      }
      var valid := CheckBinding(state, binding);
      if !valid {
        return Err(P.BindingRefused);
      }
      state := state.(bindings := state.bindings[(binding.pipeline, binding.block) := binding]);
      Commit(state, revision, PutBindingCall(binding, expected));
      RunProperties.BoundOntologiesLive(log, |log| - 1, (binding.pipeline, binding.block));
      return Ok(binding);
    }

    // ---- ontologies ----------------------------------------------------------

    method SaveBranch(record: OntologyRecord, branch: string, input: O.Input) returns (r: Result<OntologyRecord, O.Refusal>)
      ensures r == O.Saved(record, branch, input)
    {
      hide OntologyDocuments.ValidDocument;
      if !ValidName(branch) {
        return Err(O.InvalidBranch);
      }
      if Blank(input.displayName) || ByteLength(input.displayName) > 256 {
        return Err(O.InvalidName);
      }
      var valid := OntologyDocuments.ValidateDocument(input.document);
      if !valid {
        return Err(O.InvalidOntology);
      }
      if O.Origin(record.ontology) != O.Origin(input.document) {
        return Err(O.OriginImmutable);
      }
      if branch == MAIN {
        return Ok(record.(ontology := input.document, displayName := input.displayName));
      }
      var a := record.authoring;
      if branch !in a.branches {
        return Err(O.BranchUnavailable);
      }
      var selected := a.branches[branch].(definition := input.document, displayName := input.displayName);
      return Ok(record.(authoring := a.(branches := a.branches[branch := selected])));
    }

    method MergeBranch(record: OntologyRecord, branch: string) returns (r: Result<OntologyRecord, O.Refusal>, ghost outcome: O.Outcome)
      requires log != []
      ensures r == O.MergedBranch(record, branch, outcome, Head(log).revision)
      ensures O.OutcomeFits(record, O.Merge(branch), outcome)
    {
      hide OntologyDocuments.ValidDocument, M.MergedView, M.ViewConflicts;
      outcome := Err(M.InvalidVersion);
      var checked := O.MergeSource(record, branch);
      if checked.Err? {
        return Err(checked.error), outcome;
      }
      var source := checked.value;
      var target, title := O.Target(record, source.parent).0, O.Target(record, source.parent).1;
      var merge := MergeVersions(source.base, target, source.definition);
      outcome := merge;
      if merge.Err? {
        return Err(O.MergeRefused(merge.error)), outcome;
      }
      if merge.value.conflicts != [] {
        return Err(O.MergeConflicts), outcome;
      }
      if merge.value.ontology.None? {
        return Err(O.MergeUnavailable), outcome;
      }
      var merged := merge.value.ontology.value;
      var name := if title == source.baseDisplayName then source.displayName else title;
      var a := record.authoring;
      source := source.(base := source.definition, baseDisplayName := source.displayName, baseRevision := Head(log).revision);
      a := a.(branches := a.branches[branch := source]);
      if source.parent == MAIN {
        return Ok(record.(ontology := merged, displayName := name, authoring := a)), outcome;
      }
      var parent := a.branches[source.parent].(definition := merged, displayName := name);
      return Ok(record.(authoring := a.(branches := a.branches[source.parent := parent]))), outcome;
    }

    method MergeVersions(base: Value, left: Value, right: Value) returns (r: O.Outcome)
      ensures O.IsMerge(base, left, right, r)
    {
      r := M.MergeOntology(base, left, right);
      if OntologyDocuments.ValidDocument(base) && OntologyDocuments.ValidDocument(left) && OntologyDocuments.ValidDocument(right) {
        OntologyDocuments.ValidIsKeyable(base);
        OntologyDocuments.ValidIsKeyable(left);
        OntologyDocuments.ValidIsKeyable(right);
      }
    }

    /** One workspace command applied to a record. */
    method EditOntology(state: TenantState, input: O.Input, record: OntologyRecord, command: O.Command)
      returns (edited: Result<OntologyRecord, O.Refusal>, ghost outcome: O.Outcome)
      requires log != []
      ensures edited == O.Edited(state, input, record, command, outcome, Head(log).revision)
      ensures O.OutcomeFits(record, command, outcome)
    {
      hide O.Forked, O.Saved, O.Removed, O.Hidden, O.Restored, O.MergedBranch, O.IsMerge, O.MergeSource;
      outcome := Err(M.InvalidVersion);
      match command {
        case CreateBranch(name, from) => edited := O.Forked(record, name, from, Head(log).revision);
        case SaveDraft(branch) => edited := SaveBranch(record, branch, input);
        case Merge(source) => edited, outcome := MergeBranch(record, source);
        case DeleteBranch(leaf) => edited := O.Removed(record, leaf);
        case Delete => edited := O.Hidden(record, input.id, state.ontologies - {input.id}, state.bindings);
        case Restore => edited := O.Restored(record);
      }
    }

    /** Runs one workspace command on an ontology and commits it. */
    method AuthorOntology(input: O.Input, command: O.Command, revision: string)
      returns (r: Result<OntologyRecord, O.Refusal>, ghost outcome: O.Outcome)
      requires Valid() && Unused(log, revision)
      modifies this
      ensures Valid()
      ensures r.Ok? ==> Honest(old(log), AuthorOntologyCall(input, command, outcome))
      ensures var next := O.Authored(old(log), input, command, outcome);
        && (r.Ok? <==> next.Ok?) && (r.Err? ==> r.error == next.error && log == old(log))
        && (r.Ok? ==> log == old(log) + [Entry(revision, next.value)])
      ensures r.Ok? ==> Grown(old(log), log, revision) && OnlyOntology(Head(old(log)).state, Head(log).state, input.id)
      ensures r.Ok? ==> r.value == Head(log).state.ontologies[input.id] && r.value.authoring.previous == Some(Head(old(log)).revision)
      ensures r.Ok? ==>
        && OE.MaySend(old(log), input, command) && OE.Did(old(log), input, command, Head(log).state)
        && OE.Demands(old(log), input, command, Head(old(log)).state.ontologies[input.id])
      ensures r.Err? ==>
        || OE.MeansEarly(old(log), input, command, r.error)
        || (OE.MaySend(old(log), input, command) &&
            OE.Means(old(log), input, command, Head(old(log)).state.ontologies[input.id], outcome, r.error))
      ensures r.Ok? ==>
        && input.id in Head(old(log)).state.ontologies
        && O.Origin(r.value.ontology) == O.Origin(Head(old(log)).state.ontologies[input.id].ontology)
    {
      hide Reachable, Unused, Grown, O.Origin, O.Edited, O.OutcomeFits, O.Admitted, OE.Did, OE.Demands, OE.Means, OE.MeansEarly, OE.MaySend;
      outcome := Err(M.InvalidVersion);
      var refused := O.Admitted(log, input, command);
      if refused.Some? {
        OntologyAnswered(log, input, command, outcome);
        return Err(refused.value), outcome;
      }
      AdmittedThere(log, input, command);
      var state, head := Head(log).state, Head(log).revision;
      var record := state.ontologies[input.id];
      var affected := O.Affected(record, command);
      var edited;
      edited, outcome := EditOntology(state, input, record, command);
      OntologyAnswered(log, input, command, outcome);
      if edited.Err? {
        return Err(edited.error), outcome;
      }
      record := O.Touched(edited.value, Some(head), affected, O.Operation(command));
      AuthoredOrigin(log, input, command, outcome);
      Commit(O.WithOntology(state, input.id, record), revision, AuthorOntologyCall(input, command, outcome));
      return Ok(record), outcome;
    }

    method PutOntology(input: O.Input, revision: string) returns (r: Result<OntologyRecord, O.Refusal>)
      requires Valid() && Unused(log, revision)
      modifies this
      ensures Valid()
      ensures var next := O.Put(old(log), input);
        && (r.Ok? <==> next.Ok?) && (r.Err? ==> r.error == next.error && log == old(log))
        && (r.Ok? ==> log == old(log) + [Entry(revision, next.value)])
      ensures r.Ok? <==>
        var head, state := Head(old(log)).revision, Head(old(log)).state;
        && P.ValidIdentity(input.id) && input.displayName != "" && OntologyDocuments.ValidDocument(input.document)
        && (input.createOnly <==> input.id !in state.ontologies)
        && (input.expected == Some(head) || (input.expected.None? && input.createOnly))
        && (input.id in state.ontologies ==>
              var was := state.ontologies[input.id];
              && !was.authoring.deleted
              && (Field(was.ontology, "plugin_origin").Some? ==>
                    Field(input.document, "plugin_origin") == Field(was.ontology, "plugin_origin")))
      ensures r.Ok? ==>
        && r.value.displayName == input.displayName && !r.value.authoring.deleted
        && r.value.authoring.lastOperation == "save_draft" && r.value.authoring.lastBranch == "main"
        && r.value.authoring.previous == (if input.createOnly then None else Some(Head(old(log)).revision))
        && (input.createOnly ==> r.value.authoring.branches == map[] && r.value.publication.None?)
      ensures r.Ok? ==> Grown(old(log), log, revision) && OnlyOntology(Head(old(log)).state, Head(log).state, input.id)
      ensures r.Ok? ==> r.value == Head(log).state.ontologies[input.id] && r.value.ontology == input.document
      ensures r.Ok? && input.id in Head(old(log)).state.ontologies ==>
        r.value.authoring.branches == Head(old(log)).state.ontologies[input.id].authoring.branches &&
        r.value.publication == Head(old(log)).state.ontologies[input.id].publication
    {
      hide Reachable, Unused, P.ValidIdentity, OntologyDocuments.ValidDocument;
      if !P.ValidIdentity(input.id) {
        return Err(O.InvalidIdentity);
      }
      if input.displayName == "" {
        return Err(O.InvalidName);
      }
      var valid := OntologyDocuments.ValidateDocument(input.document);
      if !valid {
        return Err(O.InvalidOntology);
      }
      var state, head := Head(log).state, Head(log).revision;
      if input.createOnly && input.id in state.ontologies {
        return Err(O.AlreadyExists);
      }
      if !input.createOnly && input.id !in state.ontologies {
        return Err(O.Unavailable);
      }
      if input.expected.Some? && input.expected.value != head {
        return Err(O.HeadChanged);
      }
      if input.expected.None? && !input.createOnly {
        return Err(O.ExpectedRequired);
      }
      var record := OntologyRecord(NoBranches, input.displayName, input.document, None);
      var previous := None;
      if !input.createOnly {
        var existing := state.ontologies[input.id];
        if existing.authoring.deleted {
          return Err(O.DeletedAlready);
        }
        if O.Origin(existing.ontology).Some? && O.Origin(input.document) != O.Origin(existing.ontology) {
          return Err(O.OriginImmutable);
        }
        record := existing.(displayName := input.displayName, ontology := input.document);
        previous := Some(head);
      }
      record := O.Touched(record, previous, MAIN, "save_draft");
      Commit(O.WithOntology(state, input.id, record), revision, PutOntologyCall(input));
      return Ok(record);
    }

    method PublishOntology(id: string, title: string, publicationId: string, at: string, createOnly: bool, revision: string)
      returns (r: Result<Publication, O.Refusal>)
      requires Valid() && Unused(log, revision)
      modifies this
      ensures Valid()
      ensures var next := O.PublishedAt(old(log), id, title, publicationId, at, createOnly);
        && (r.Ok? <==> next.Ok?) && (r.Err? ==> r.error == next.error && log == old(log))
        && (r.Ok? ==> log == old(log) + [Entry(revision, next.value)])
      ensures r.Ok? <==>
        var state := Head(old(log)).state;
        && P.ValidIdentity(id) && P.ValidIdentity(publicationId) && id in state.ontologies && !state.ontologies[id].authoring.deleted
        && P.OntologyAt(old(log), id, at).Some? && !P.OntologyAt(old(log), id, at).value.authoring.deleted
        && (createOnly ==> state.ontologies[id].publication.None?)
      ensures r.Ok? ==> var was, now := Head(old(log)).state.ontologies[id], Head(log).state.ontologies[id];
        && r.value.id == publicationId && r.value.lifecycle.Production? && now.displayName == title
        && now.ontology == was.ontology && now.authoring.branches == was.authoring.branches && !now.authoring.deleted
        && now.authoring.lastOperation == "publish" && now.authoring.lastBranch == "main"
        && now.authoring.previous == Some(Head(old(log)).revision)
      ensures r.Ok? ==> Grown(old(log), log, revision) && OnlyOntology(Head(old(log)).state, Head(log).state, id)
      ensures r.Ok? ==> Head(log).state.ontologies[id].publication == Some(r.value) && Published(Head(log).state, id)
      ensures r.Ok? ==>
        && r.value.revision == at && P.OntologyAt(log, id, at).Some?
        && r.value.hash == Digest(P.OntologyAt(log, id, at).value.ontology)
    {
      hide Reachable, Unused, P.ValidIdentity, P.OntologyAt;
      if !P.ValidIdentity(id) || !P.ValidIdentity(publicationId) {
        return Err(O.InvalidIdentity);
      }
      var pinned := LoadOntology(id, at);
      var state, head := Head(log).state, Head(log).revision;
      if pinned.None? || id !in state.ontologies {
        return Err(O.Unavailable);
      }
      var record := state.ontologies[id];
      if createOnly && record.publication.Some? {
        return Err(O.AlreadyPublished);
      }
      if record.authoring.deleted || pinned.value.authoring.deleted {
        return Err(O.DeletedAlready);
      }
      var publication := Publication(publicationId, at, Production, Digest(pinned.value.ontology));
      record := record.(displayName := title, publication := Some(publication));
      record := O.Touched(record, Some(head), MAIN, "publish");
      Commit(O.WithOntology(state, id, record), revision, PublishOntologyCall(id, title, publicationId, at, createOnly));
      PublicationResolves(log, id);
      return Ok(publication);
    }

    /** Ends a publication: nothing can be bound to the ontology any more, while the retired revision stays readable. */
    method RetireOntology(id: string, publicationId: string, at: string, revision: string) returns (r: Result<Publication, O.Refusal>)
      requires Valid() && Unused(log, revision)
      modifies this
      ensures Valid()
      ensures r.Ok? <==>
        && P.ValidIdentity(id) && Published(Head(old(log)).state, id)
        && Head(old(log)).state.ontologies[id].publication.value.id == publicationId
        && Head(old(log)).state.ontologies[id].publication.value.revision == at
      ensures r.Err? ==> log == old(log)
      ensures r.Ok? ==> Grown(old(log), log, revision) && OnlyOntology(Head(old(log)).state, Head(log).state, id)
      ensures r.Ok? ==> Head(log).state.ontologies[id].publication == Some(r.value) && !Published(Head(log).state, id)
      ensures r.Ok? ==> forall b: Binding :: b.ontology == id ==> !P.BindingOk(log, Head(log).state, b)
      ensures r.Ok? ==> P.OntologyAt(log, id, at).Some? && r.value.hash == Digest(P.OntologyAt(log, id, at).value.ontology)
      ensures r.Ok? ==> Head(log).state.ontologies[id].ontology == Head(old(log)).state.ontologies[id].ontology
      ensures r.Ok? ==> var was, now := Head(old(log)).state.ontologies[id], Head(log).state.ontologies[id];
        && r.value.id == publicationId && r.value.revision == at && r.value.lifecycle.Retired?
        && now.displayName == was.displayName && now.authoring.branches == was.authoring.branches
        && now.authoring.deleted == was.authoring.deleted
        && now.authoring.lastOperation == "retire" && now.authoring.lastBranch == "main"
        && now.authoring.previous == Some(Head(old(log)).revision)
    {
      hide Reachable, Unused, Grown, P.OntologyAt, P.ValidIdentity;
      var state, head := Head(log).state, Head(log).revision;
      if !P.ValidIdentity(id) {
        return Err(O.InvalidIdentity);
      }
      if id !in state.ontologies {
        return Err(O.Unavailable);
      }
      var record := state.ontologies[id];
      if record.publication.None? {
        return Err(O.PublicationUnavailable);
      }
      var publication := record.publication.value;
      if publication.id != publicationId || publication.revision != at || !publication.lifecycle.Production? {
        return Err(O.PublicationChanged);
      }
      publication := publication.(lifecycle := Retired);
      record := O.Touched(record.(publication := Some(publication)), Some(head), MAIN, "retire");
      Commit(O.WithOntology(state, id, record), revision, RetireOntologyCall(id, publicationId, at));
      PublicationResolves(log, id);
      return Ok(publication);
    }
  }
}
