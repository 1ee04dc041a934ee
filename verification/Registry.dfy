/** Every run of Registry commands on one tenant, and what holds in each state it reaches. */
module Registry {
  import opened Json
  import opened Text
  import opened Pipelines
  import opened PipelineDocuments
  import opened Snapshots
  import opened Gathering
  import P = PipelineAuthoring
  import O = OntologyAuthoring
  import F = Forests

  // ---- commands outside the workspaces -------------------------------------

  /** Creates or replaces an unmanaged pipeline. */
  ghost function PutPipeline(log: Log, input: P.Input): Result<TenantState, P.Refusal>
    requires log != []
  {
    var state, head := Head(log).state, Head(log).revision;
    var exists_ := input.id in state.pipelines;
    var p := ReadPipeline(input.definition);
    if !P.ValidIdentity(input.id) then Err(P.InvalidIdentity)
    else if input.createOnly && exists_ then Err(P.AlreadyExists)
    else if !input.createOnly && !exists_ then Err(P.Unavailable)
    else if input.expected.Some? && input.expected.value != head then Err(P.HeadChanged)
    else if input.expected.None? && !input.createOnly then Err(P.HeadChanged)
    else if exists_ && state.pipelines[input.id].authoring.enabled then Err(P.Managed)
    else if p.None? || !Structured(p.value) then Err(P.InvalidStructure)
    else if Composed(log, input.id, head, input.definition, false).None? then Err(P.CompositionRefused)
    else
      var published := if exists_ then state.pipelines[input.id].published else None;
      var record := PipelineRecord(NoAuthoring, if exists_ then Some(head) else None, input.name, published, input.definition, false);
      Ok(state.(pipelines := state.pipelines[input.id := record]))
  }

  /** Points production at the head, where the pipeline is unmanaged and valid. */
  ghost function PublishPipeline(log: Log, id: string, revision: string): Result<TenantState, P.Refusal>
    requires log != []
  {
    var pinned := Load(log, revision);
    if !P.ValidIdentity(id) || !ValidRevision(revision) then Err(P.InvalidIdentity)
    else if Alive(pinned, id).None? then Err(P.Unavailable)
    else if Alive(pinned, id).value.authoring.enabled then Err(P.Managed)
    else if !DependenciesOk(pinned.value, id) then Err(P.BindingRefused)
    else if Composed(log, id, revision, Alive(pinned, id).value.definition, true).None? then Err(P.CompositionRefused)
    else if Head(log).revision != revision then Err(P.HeadChanged)
    else
      var state := Head(log).state;
      if id !in state.pipelines then Err(P.Unavailable)
      else
        var record := state.pipelines[id].(published := Some(revision), previous := Some(revision));
        Ok(state.(pipelines := state.pipelines[id := record]))
  }

  /** Hides a pipeline and clears its production pointer. */
  function DeletePipeline(log: Log, id: string, expected: string): Result<TenantState, P.Refusal>
    requires log != []
  {
    var state := Head(log).state;
    if !P.ValidIdentity(id) then Err(P.InvalidIdentity)
    else if Head(log).revision != expected then Err(P.HeadChanged)
    else if id !in state.pipelines then Err(P.Unavailable)
    else Ok(state.(pipelines := state.pipelines[id := state.pipelines[id].(deleted := true, published := None)]))
  }

  ghost function PutBinding(log: Log, binding: Binding, expected: string): Result<TenantState, P.Refusal>
    requires log != []
  {
    var state := Head(log).state;
    if !P.ValidIdentity(binding.pipeline) || !P.ValidIdentity(binding.block) then Err(P.InvalidIdentity)
    else if Head(log).revision != expected then Err(P.HeadChanged)
    else if binding.pipeline !in state.pipelines then Err(P.Unavailable)
    else if !HasStep(state.pipelines[binding.pipeline].definition, binding.block) then Err(P.BlockUnavailable)
    else if !P.BindingOk(log, state, binding) then Err(P.BindingRefused)
    else Ok(state.(bindings := state.bindings[(binding.pipeline, binding.block) := binding]))
  }

  // ---- runs ----------------------------------------------------------------

  /** A successful call; merges carry what the merge procedures returned. */
  datatype Call =
    | PutPipelineCall(put: P.Input)
    | PublishPipelineCall(pipeline: string, at: string)
    | DeletePipelineCall(doomed: string, expected: string)
    | AuthorPipelineCall(edit: P.Input, command: P.Command, preview: P.Preview)
    | PutBindingCall(binding: Binding, when: string)
    | PutOntologyCall(document: O.Input)
    | AuthorOntologyCall(change: O.Input, order: O.Command, outcome: O.Outcome)
    | PublishOntologyCall(ontology: string, title: string, publication: string, pinned: string, first: bool)
    | RetireOntologyCall(retired: string, active: string, from: string)

  ghost function AsOption<E>(r: Result<TenantState, E>): Option<TenantState> {
    if r.Ok? then Some(r.value) else None
  }

  ghost function After(log: Log, call: Call): Option<TenantState>
    requires log != []
  {
    match call
    case PutPipelineCall(input) => AsOption(PutPipeline(log, input))
    case PublishPipelineCall(id, revision) => AsOption(PublishPipeline(log, id, revision))
    case DeletePipelineCall(id, expected) => AsOption(DeletePipeline(log, id, expected))
    case AuthorPipelineCall(input, command, preview) => AsOption(P.Authored(log, input, command, preview))
    case PutBindingCall(binding, expected) => AsOption(PutBinding(log, binding, expected))
    case PutOntologyCall(input) => AsOption(O.Put(log, input))
    case AuthorOntologyCall(input, command, outcome) => AsOption(O.Authored(log, input, command, outcome))
    case PublishOntologyCall(id, title, publication, revision, first) =>
      AsOption(O.PublishedAt(log, id, title, publication, revision, first))
    case RetireOntologyCall(id, publication, revision) => AsOption(O.RetiredAt(log, id, publication, revision))
  }

  /** The merge results a call carries are results the merge procedures can return. */
  ghost predicate Honest(log: Log, call: Call)
    requires log != []
  {
    match call
    case AuthorPipelineCall(input, command, preview) => P.PreviewFits(P.Opened(Head(log).state, input), command, preview)
    case AuthorOntologyCall(input, command, outcome) =>
      input.id in Head(log).state.ontologies ==> O.OutcomeFits(Head(log).state.ontologies[input.id], command, outcome)
    case _ => true
  }

  ghost predicate Step(log: Log, next: Log) {
    && log != [] && |next| == |log| + 1 && log <= next
    && Unused(log, Head(next).revision)
    && exists call :: Honest(log, call) && After(log, call) == Some(Head(next).state)
  }

  /** The logs of all runs that start with an empty tenant. */
  ghost predicate Reachable(log: Log)
    ensures Reachable(log) ==> log != []
    decreases |log|
  {
    if |log| <= 1 then |log| == 1 && log[0].state == Empty && ValidRevision(log[0].revision)
    else Reachable(log[..|log| - 1]) && Step(log[..|log| - 1], log)
  }

  // ---- the invariant -------------------------------------------------------

  ghost predicate PipelinesOk(log: Log, state: TenantState) {
    forall id :: id in state.pipelines ==> P.RecordOk(log, id, state.pipelines[id])
  }

  ghost predicate OntologiesOk(log: Log, state: TenantState) {
    forall id :: id in state.ontologies ==> O.RecordOk(log, id, state.ontologies[id])
  }

  /** The ontology is there, not deleted, and has been published. */
  predicate Bindable(state: TenantState, ontology: string) {
    && ontology in state.ontologies && !state.ontologies[ontology].authoring.deleted
    && state.ontologies[ontology].publication.Some?
  }

  /** Whatever a block is bound to stays that way. */
  ghost predicate BindingsOk(state: TenantState) {
    forall k :: k in state.bindings ==> Bindable(state, state.bindings[k].ontology)
  }

  ghost predicate StateOk(log: Log, state: TenantState) {
    PipelinesOk(log, state) && OntologiesOk(log, state) && BindingsOk(state)
  }

  /** How one ontology moves from one revision to the next: untouched, created, or changed and chained to the revision before. */
  ghost predicate Moves(before: Entry, after: TenantState, id: string) {
    if id in before.state.ontologies then
      && id in after.ontologies
      && (O.Origin(before.state.ontologies[id].ontology).Some? ==>
            O.Origin(after.ontologies[id].ontology) == O.Origin(before.state.ontologies[id].ontology))
      && (after.ontologies[id] == before.state.ontologies[id] ||
          after.ontologies[id].authoring.previous == Some(before.revision))
    else
      id in after.ontologies ==> after.ontologies[id].authoring.previous == None
  }

  ghost predicate Follows(before: Entry, after: TenantState) {
    forall id :: Moves(before, after, id)
  }

  ghost predicate Invariant(log: Log) {
    && WellFormed(log)
    && (forall i :: 0 <= i < |log| ==> StateOk(log, log[i].state))
    && (forall i :: 0 < i < |log| ==> Follows(log[i - 1], log[i].state))
  }

  lemma StateStable(log: Log, more: Log, state: TenantState)
    requires WellFormed(more) && log <= more && StateOk(log, state)
    ensures StateOk(more, state)
  {
    hide P.RecordOk, O.RecordOk, WellFormed;
    forall id | id in state.pipelines ensures P.RecordOk(more, id, state.pipelines[id]) {
      P.RecordStable(log, more, id, state.pipelines[id]);
    }
    forall id | id in state.ontologies ensures O.RecordOk(more, id, state.ontologies[id]) {
      O.RecordStable(log, more, id, state.ontologies[id]);
    }
  }

  // ---- one call ------------------------------------------------------------

  lemma OtherPipelines(log: Log, state: TenantState, after: TenantState, id: string)
    requires PipelinesOk(log, state) && id in after.pipelines && P.RecordOk(log, id, after.pipelines[id])
    requires after.pipelines == state.pipelines[id := after.pipelines[id]]
    ensures PipelinesOk(log, after)
  {
    hide P.RecordOk;
  }

  lemma OntologiesUntouched(log: Log, before: Entry, after: TenantState)
    requires OntologiesOk(log, before.state) && after.ontologies == before.state.ontologies
    ensures OntologiesOk(log, after) && Follows(before, after)
  {
    hide O.RecordOk;
  }

  lemma OneOntology(log: Log, before: Entry, after: TenantState, id: string)
    requires OntologiesOk(log, before.state) && id in after.ontologies && O.RecordOk(log, id, after.ontologies[id])
    requires after.ontologies == before.state.ontologies[id := after.ontologies[id]]
    requires Moves(before, after, id)
    ensures OntologiesOk(log, after) && Follows(before, after)
  {
    hide O.RecordOk;
    forall other ensures Moves(before, after, other) {
      if other != id {}
    }
  }

  lemma PutPipelineKeeps(log: Log, input: P.Input)
    requires WellFormed(log) && StateOk(log, Head(log).state) && PutPipeline(log, input).Ok?
    ensures var after := PutPipeline(log, input).value; StateOk(log, after) && Follows(Head(log), after)
  {
    hide O.RecordOk, Composed, P.PointerOk, P.ReleaseOk, F.Forest, Structured, P.ValidIdentity;
    var state, after := Head(log).state, PutPipeline(log, input).value;
    P.EmptyForest();
    if input.id in state.pipelines {
      assert P.RecordOk(log, input.id, state.pipelines[input.id]);
    }
    assert P.RecordOk(log, input.id, after.pipelines[input.id]);
    OtherPipelines(log, state, after, input.id);
    OntologiesUntouched(log, Head(log), after);
  }

  lemma PublishPipelineKeeps(log: Log, id: string, revision: string)
    requires WellFormed(log) && StateOk(log, Head(log).state) && PublishPipeline(log, id, revision).Ok?
    ensures var after := PublishPipeline(log, id, revision).value; StateOk(log, after) && Follows(Head(log), after)
  {
    hide O.RecordOk, Composed, P.ReleaseOk, P.BranchesOk, DependenciesOk, P.ValidIdentity;
    var state, after := Head(log).state, PublishPipeline(log, id, revision).value;
    LoadAt(log, |log| - 1);
    assert P.RecordOk(log, id, state.pipelines[id]);
    assert P.PointerOk(log, id, revision);
    assert P.RecordOk(log, id, after.pipelines[id]);
    OtherPipelines(log, state, after, id);
    OntologiesUntouched(log, Head(log), after);
  }

  lemma DeletePipelineKeeps(log: Log, id: string, expected: string)
    requires WellFormed(log) && StateOk(log, Head(log).state) && DeletePipeline(log, id, expected).Ok?
    ensures var after := DeletePipeline(log, id, expected).value; StateOk(log, after) && Follows(Head(log), after)
  {
    hide O.RecordOk, P.PointerOk, P.ReleaseOk, P.BranchesOk, P.ValidIdentity;
    var state, after := Head(log).state, DeletePipeline(log, id, expected).value;
    assert P.RecordOk(log, id, state.pipelines[id]);
    assert P.RecordOk(log, id, after.pipelines[id]);
    OtherPipelines(log, state, after, id);
    OntologiesUntouched(log, Head(log), after);
  }

  /** A published ontology is not deleted, so binding to it is safe. */
  lemma PublishedIsLive(log: Log, state: TenantState, ontology: string)
    requires OntologiesOk(log, state) && Published(state, ontology)
    ensures Bindable(state, ontology)
  {
    assert O.RecordOk(log, ontology, state.ontologies[ontology]);
  }

  lemma PutBindingKeeps(log: Log, binding: Binding, expected: string)
    requires WellFormed(log) && StateOk(log, Head(log).state) && PutBinding(log, binding, expected).Ok?
    ensures var after := PutBinding(log, binding, expected).value; StateOk(log, after) && Follows(Head(log), after)
  {
    hide O.RecordOk, P.RecordOk, P.ValidIdentity, HasStep;
    var state, after := Head(log).state, PutBinding(log, binding, expected).value;
    PublishedIsLive(log, state, binding.ontology);
    OntologiesUntouched(log, Head(log), after);
  }

  lemma AuthoredShape(log: Log, input: P.Input, command: P.Command, preview: P.Preview)
    requires log != [] && P.Authored(log, input, command, preview).Ok?
    ensures var state, after := Head(log).state, P.Authored(log, input, command, preview).value;
      && after.ontologies == state.ontologies
      && input.id in after.pipelines && after.pipelines == state.pipelines[input.id := after.pipelines[input.id]]
      && (forall k :: k in after.bindings ==>
            (k in state.bindings && after.bindings[k] == state.bindings[k]) || Published(state, after.bindings[k].ontology))
  {
    hide Composed, Runtime, Draft, Executable, P.Saved, P.Deleted, P.Forked, P.Proposed, P.Merged, P.Approved, P.Released, P.Deployed, P.SelectorOk, P.OntologyAt;
  }

  lemma AuthorPipelineKeeps(log: Log, input: P.Input, command: P.Command, preview: P.Preview)
    requires WellFormed(log) && StateOk(log, Head(log).state) && P.Authored(log, input, command, preview).Ok?
    ensures var after := P.Authored(log, input, command, preview).value; StateOk(log, after) && Follows(Head(log), after)
  {
    hide O.RecordOk, P.RecordOk, P.Authored, Published;
    var state, after := Head(log).state, P.Authored(log, input, command, preview).value;
    AuthoredShape(log, input, command, preview);
    P.AuthoredKeeps(log, input, command, preview);
    OtherPipelines(log, state, after, input.id);
    OntologiesUntouched(log, Head(log), after);
    forall k | k in after.bindings ensures Bindable(after, after.bindings[k].ontology) {
      if Published(state, after.bindings[k].ontology) {
        PublishedIsLive(log, state, after.bindings[k].ontology);
      }
    }
  }

  lemma PutOntologyKeeps(log: Log, input: O.Input)
    requires WellFormed(log) && StateOk(log, Head(log).state) && O.Put(log, input).Ok?
    ensures var after := O.Put(log, input).value; StateOk(log, after) && Follows(Head(log), after)
  {
    hide O.RecordOk, P.RecordOk, O.Origin, P.ValidIdentity;
    var after := O.Put(log, input).value;
    O.PutKeeps(log, input);
    OneOntology(log, Head(log), after, input.id);
  }

  /** Hiding an ontology is refused while a binding uses it. */
  lemma AuthorOntologyShape(log: Log, input: O.Input, command: O.Command, outcome: O.Outcome)
    requires log != [] && O.Authored(log, input, command, outcome).Ok?
    ensures var state, after := Head(log).state, O.Authored(log, input, command, outcome).value;
      && after.pipelines == state.pipelines && after.bindings == state.bindings
      && input.id in state.ontologies && input.id in after.ontologies
      && after.ontologies == state.ontologies[input.id := after.ontologies[input.id]]
      && after.ontologies[input.id].authoring.previous == Some(Head(log).revision)
      && (Bindable(state, input.id) ==>
            Bindable(after, input.id) || forall k :: k in state.bindings ==> state.bindings[k].ontology != input.id)
  {
    hide P.ValidIdentity, O.Origin;
  }

  lemma AuthorOntologyKeeps(log: Log, input: O.Input, command: O.Command, outcome: O.Outcome)
    requires WellFormed(log) && StateOk(log, Head(log).state) && O.Authored(log, input, command, outcome).Ok?
    requires Honest(log, AuthorOntologyCall(input, command, outcome))
    ensures var after := O.Authored(log, input, command, outcome).value; StateOk(log, after) && Follows(Head(log), after)
  {
    hide O.RecordOk, P.RecordOk, O.Authored, O.OutcomeFits, O.Origin;
    var after := O.Authored(log, input, command, outcome).value;
    AuthorOntologyShape(log, input, command, outcome);
    O.AuthoredKeeps(log, input, command, outcome);
    OneOntology(log, Head(log), after, input.id);
  }

  lemma PublishOntologyKeeps(log: Log, id: string, title: string, publication: string, revision: string, first: bool)
    requires WellFormed(log) && StateOk(log, Head(log).state) && O.PublishedAt(log, id, title, publication, revision, first).Ok?
    ensures var after := O.PublishedAt(log, id, title, publication, revision, first).value;
            StateOk(log, after) && Follows(Head(log), after)
  {
    hide O.RecordOk, P.RecordOk, O.Origin, P.ValidIdentity, P.OntologyAt;
    var after := O.PublishedAt(log, id, title, publication, revision, first).value;
    O.PublishedKeeps(log, id, title, publication, revision, first);
    OneOntology(log, Head(log), after, id);
  }

  lemma RetireOntologyKeeps(log: Log, id: string, publication: string, revision: string)
    requires WellFormed(log) && StateOk(log, Head(log).state) && O.RetiredAt(log, id, publication, revision).Ok?
    ensures var after := O.RetiredAt(log, id, publication, revision).value; StateOk(log, after) && Follows(Head(log), after)
  {
    hide O.RecordOk, P.RecordOk, O.Origin, P.ValidIdentity;
    var after := O.RetiredAt(log, id, publication, revision).value;
    O.RetiredKeeps(log, id, publication, revision);
    OneOntology(log, Head(log), after, id);
  }

  /** Every call keeps the state as promised. */
  lemma CallKeeps(log: Log, call: Call)
    requires WellFormed(log) && StateOk(log, Head(log).state) && Honest(log, call) && After(log, call).Some?
    ensures StateOk(log, After(log, call).value) && Follows(Head(log), After(log, call).value)
  {
    hide StateOk, Follows, PutPipeline, PublishPipeline, DeletePipeline, PutBinding, P.Authored, O.Put, O.Authored, O.PublishedAt, O.RetiredAt, Honest;
    match call
    case PutPipelineCall(input) => PutPipelineKeeps(log, input);
    case PublishPipelineCall(id, revision) => PublishPipelineKeeps(log, id, revision);
    case DeletePipelineCall(id, expected) => DeletePipelineKeeps(log, id, expected);
    case AuthorPipelineCall(input, command, preview) => AuthorPipelineKeeps(log, input, command, preview);
    case PutBindingCall(binding, expected) => PutBindingKeeps(log, binding, expected);
    case PutOntologyCall(input) => PutOntologyKeeps(log, input);
    case AuthorOntologyCall(input, command, outcome) => AuthorOntologyKeeps(log, input, command, outcome);
    case PublishOntologyCall(id, title, publication, revision, first) =>
      PublishOntologyKeeps(log, id, title, publication, revision, first);
    case RetireOntologyCall(id, publication, revision) => RetireOntologyKeeps(log, id, publication, revision);
  }

  // ---- every run -----------------------------------------------------------

  lemma InvariantGrows(log: Log, more: Log)
    requires Invariant(log) && |more| == |log| + 1 && log <= more && WellFormed(more)
    requires StateOk(log, Head(more).state) && Follows(Head(log), Head(more).state)
    ensures Invariant(more)
  {
    hide StateOk, Follows, WellFormed;
    forall i | 0 <= i < |more| ensures StateOk(more, more[i].state) {
      if i < |log| { assert more[i] == log[i]; }
      StateStable(log, more, more[i].state);
    }
    forall i | 0 < i < |more| ensures Follows(more[i - 1], more[i].state) {
      assert more[i - 1] == log[i - 1];
      if i < |log| { assert more[i] == log[i]; }
    }
  }

  lemma InitialOk(log: Log)
    requires |log| == 1 && log[0].state == Empty && ValidRevision(log[0].revision)
    ensures Invariant(log)
  {
  }

  lemma StepGrows(log: Log, more: Log)
    requires WellFormed(log) && Step(log, more)
    ensures WellFormed(more) && more == log + [Head(more)]
  {
    hide After, Honest;
    assert more == log + [Head(more)];
    Committed(log, Head(more).revision, Head(more).state);
  }

  /** The invariant holds in every state of every run. */
  lemma {:induction false} RunsKeep(log: Log)
    requires Reachable(log)
    ensures Invariant(log)
    decreases |log|
  {
    hide StateOk, Follows, WellFormed;
    if |log| == 1 {
      InitialOk(log);
    } else {
      var front := log[..|log| - 1];
      RunsKeep(front);
      StepGrows(front, log);
      var call :| Honest(front, call) && After(front, call) == Some(Head(log).state);
      assert StateOk(front, front[|front| - 1].state);
      CallKeeps(front, call);
      InvariantGrows(front, log);
    }
  }

  /** A successful call extends the run. */
  lemma Extended(log: Log, next: Log)
    requires Reachable(log) && |next| == |log| + 1 && log <= next && Unused(log, Head(next).revision)
    requires exists call :: Honest(log, call) && After(log, call) == Some(Head(next).state)
    ensures Reachable(next)
  {
    hide After, Honest, Unused;
    assert next[..|next| - 1] == log;
  }

  /** Runs have the earlier states of the run behind them. */
  lemma {:induction false} EarlierReachable(log: Log, n: nat)
    requires Reachable(log) && 1 <= n <= |log|
    ensures Reachable(log[..n])
    decreases |log|
  {
    hide Step;
    if n == |log| {
      assert log[..n] == log;
    } else {
      var front := log[..|log| - 1];
      EarlierReachable(front, n);
      assert front[..n] == log[..n];
    }
  }
}
