/** The promises that hold over every run of the Registry. */
module RunProperties {
  import opened Json
  import opened Pipelines
  import opened PipelineDocuments
  import opened Snapshots
  import opened Gathering
  import opened Registry
  import opened CompiledGraph
  import P = PipelineAuthoring
  import O = OntologyAuthoring
  import F = Forests
  import G = Graphs

  // ---- production pointers -------------------------------------------------

  /** `revision` is or was the production pointer of a pipeline at some point of the run. */
  ghost predicate EverPublished(log: Log, id: string, revision: string) {
    exists i :: 0 <= i < |log| && PublishedIn(log[i].state, id, revision)
  }

  ghost predicate PublishedIn(state: TenantState, id: string, revision: string) {
    id in state.pipelines && state.pipelines[id].published == Some(revision)
  }

  lemma PublishedRuns(log: Log, id: string, revision: string)
    requires Reachable(log) && EverPublished(log, id, revision)
    ensures P.PointerOk(log, id, revision)
  {
    hide Reachable, P.PointerOk, P.BranchesOk, P.ReleaseOk, P.ReviewOk, Follows, OntologiesOk, WellFormed;
    RunsKeep(log);
    var i :| 0 <= i < |log| && PublishedIn(log[i].state, id, revision);
    assert StateOk(log, log[i].state);
    assert P.RecordOk(log, id, log[i].state.pipelines[id]);
  }

  /** Whatever was in production runs in every later state of the run, and runs as the same compiled pipeline. */
  lemma PublishedRunsForever(log: Log, more: Log, id: string, revision: string)
    requires Reachable(log) && Reachable(more) && log <= more && EverPublished(log, id, revision)
    ensures Runtime(log, id, revision).Some?
    ensures Runtime(more, id, revision) == Runtime(log, id, revision)
  {
    hide Reachable, Runtime, StateOk, Follows;
    PublishedRuns(log, id, revision);
    RunsKeep(more);
    RuntimeStable(log, more, id, revision);
  }

  /** What was compiled when the pointer was set is what every later state runs. */
  lemma PointerIsWhatWasChecked(log: Log, more: Log, id: string)
    requires Reachable(log) && Reachable(more) && log <= more
    requires PublishPipeline(log, id, Head(log).revision).Ok?
    ensures var record := Head(log).state.pipelines[id];
      && id in Head(log).state.pipelines
      && Composed(log, id, Head(log).revision, record.definition, true).Some?
      && Runtime(more, id, Head(log).revision) == Composed(log, id, Head(log).revision, record.definition, true)
  {
    hide Reachable, Composed, StateOk, Follows, DependenciesOk;
    RunsKeep(log);
    RunsKeep(more);
    LoadAt(log, |log| - 1);
    RuntimeStable(log, more, id, Head(log).revision);
  }

  /**
   A deployment moves the pointer to the release of the record it found, wherever the pointer was before, and what every
   later state runs is what was compiled for that release.
   */
  lemma DeploymentIsWhatWasChecked(log: Log, more: Log, input: P.Input, preview: P.Preview)
    requires Reachable(log) && Reachable(more) && log <= more
    requires P.Authored(log, input, P.Deploy, preview).Ok?
    ensures var state, after := Head(log).state, P.Authored(log, input, P.Deploy, preview).value;
      && input.id in state.pipelines && state.pipelines[input.id].authoring.release.Some?
      && var at := state.pipelines[input.id].authoring.release.value.revision;
         var pinned := Alive(Load(log, at), input.id);
         && input.id in after.pipelines && after.pipelines[input.id].published == Some(at)
         && pinned.Some? && Composed(log, input.id, at, pinned.value.definition, true).Some?
         && Runtime(more, input.id, at) == Composed(log, input.id, at, pinned.value.definition, true)
  {
    hide Reachable, Composed, StateOk, Follows, DependenciesOk;
    RunsKeep(more);
    var at := P.Opened(Head(log).state, input).authoring.release.value.revision;
    RuntimeStable(log, more, input.id, at);
  }

  /** A second release replaces the first: publishing and then deploying always puts the newly published revision in production. */
  lemma SecondReleaseReplaces(log: Log, mid: Log, publish: P.Input, deploy: P.Input, preview: P.Preview)
    requires Reachable(log) && Reachable(mid) && |mid| == |log| + 1 && log <= mid && publish.id == deploy.id
    requires P.Authored(log, publish, P.Publish, preview) == Ok(Head(mid).state)
    requires P.Authored(mid, deploy, P.Deploy, preview).Ok?
    ensures var after := P.Authored(mid, deploy, P.Deploy, preview).value;
      deploy.id in after.pipelines && after.pipelines[deploy.id].published == Some(Head(log).revision)
  {
    hide Reachable, Composed, Runtime, StateOk, Follows;
    DeploymentIsWhatWasChecked(mid, mid, deploy, preview);
  }

  /** Every state of a run is fine already with respect to the revisions before it. */
  lemma EachStepKeeps(log: Log, j: nat)
    requires Reachable(log) && 0 < j < |log|
    ensures Reachable(log[..j]) && StateOk(log[..j], log[j].state)
  {
    hide StateOk, Follows, Honest, After, WellFormed;
    EarlierReachable(log, j);
    EarlierReachable(log, j + 1);
    var before, now := log[..j], log[..j + 1];
    assert now[..|now| - 1] == before;
    RunsKeep(before);
    var call :| Honest(before, call) && After(before, call) == Some(Head(now).state);
    assert StateOk(before, before[|before| - 1].state);
    CallKeeps(before, call);
  }

  /**
   A pointer at a revision where the pipeline was already managed, which only deploying sets, is the release of an
   earlier state, and that release was approved.
   */
  lemma DeployedWasReleased(log: Log, j: nat, id: string, revision: string) returns (i: nat)
    requires Reachable(log) && j < |log| && PublishedIn(log[j].state, id, revision)
    requires Alive(Load(log, revision), id).Some? && Alive(Load(log, revision), id).value.authoring.enabled
    ensures i < j && P.ReleasedIn(log[i].state, id, revision)
    ensures P.ReleaseOk(log, id, log[i].state.pipelines[id].authoring.release.value)
  {
    hide Reachable, Runtime, P.ReleaseOk, P.BranchesOk, P.ReviewOk, OntologiesOk, Follows;
    RunsKeep(log);
    assert j > 0;
    EachStepKeeps(log, j);
    var before := log[..j];
    assert P.RecordOk(before, id, log[j].state.pipelines[id]);
    P.RuntimeLoads(before, id, revision);
    LoadStable(before, log, revision);
    i :| 0 <= i < |before| && P.ReleasedIn(before[i].state, id, revision);
    assert before[i] == log[i];
    ReleasesWereApproved(log, i, id);
  }

  // ---- approval, release and deployment ------------------------------------

  lemma CurrentRecord(log: Log, id: string)
    requires Reachable(log) && id in Head(log).state.pipelines
    ensures WellFormed(log) && P.RecordOk(log, id, Head(log).state.pipelines[id])
  {
    hide Reachable, P.RecordOk, Follows, OntologiesOk, WellFormed;
    RunsKeep(log);
    assert StateOk(log, log[|log| - 1].state);
  }

  /** A present approval is of the current main definition, whatever was saved, merged or bound before. */
  lemma ApprovalsAreCurrent(log: Log, i: nat, id: string)
    requires Reachable(log) && i < |log| && id in log[i].state.pipelines && log[i].state.pipelines[id].authoring.approval.Some?
    ensures log[i].state.pipelines[id].authoring.approval == Some(Digest(log[i].state.pipelines[id].definition))
  {
    hide Reachable, P.PointerOk, P.BranchesOk, P.ReleaseOk, Follows, OntologiesOk, WellFormed;
    RunsKeep(log);
    assert StateOk(log, log[i].state);
    assert P.RecordOk(log, id, log[i].state.pipelines[id]);
  }

  /** A release pins a revision of the run that stores the released content together with its approval. */
  lemma ReleasesWereApproved(log: Log, i: nat, id: string)
    requires Reachable(log) && i < |log| && id in log[i].state.pipelines && log[i].state.pipelines[id].authoring.release.Some?
    ensures P.ReleaseOk(log, id, log[i].state.pipelines[id].authoring.release.value)
  {
    hide Reachable, P.PointerOk, P.BranchesOk, P.ReviewOk, P.ReleaseOk, Follows, OntologiesOk, WellFormed;
    RunsKeep(log);
    assert StateOk(log, log[i].state);
    assert P.RecordOk(log, id, log[i].state.pipelines[id]);
  }

  lemma OpenedOk(log: Log, input: P.Input)
    requires Reachable(log) && input.id in Head(log).state.pipelines
    ensures WellFormed(log) && P.RecordOk(log, input.id, P.Opened(Head(log).state, input))
  {
    hide Reachable, P.PointerOk, P.ReleaseOk, F.Forest;
    CurrentRecord(log, input.id);
  }

  /** No run meets the check for a stale approval. */
  lemma NoStaleApproval(log: Log, input: P.Input, preview: P.Preview)
    requires Reachable(log)
    ensures P.Authored(log, input, P.Publish, preview) != Err(P.ApprovalStale)
  {
    hide Reachable, Composed, P.ReleaseOk, P.PointerOk, P.BranchesOk;
    if input.id in Head(log).state.pipelines {
      OpenedOk(log, input);
      P.NeverStale(log, input.id, P.Opened(Head(log).state, input));
    }
  }

  /** No run meets the check for an invalid publication, nor a released revision that is gone or no longer composes. */
  lemma NoInvalidPublication(log: Log, input: P.Input, preview: P.Preview)
    requires Reachable(log) && P.Admitted(log, input, P.Deploy).None?
    ensures var r := P.Authored(log, input, P.Deploy, preview);
      r.Err? ==> r.error == P.PublicationRequired || r.error == P.RuntimeRefused
  {
    hide Reachable, P.RecordOk, Composed, Runtime, P.Deployed;
    OpenedOk(log, input);
    var record := P.Opened(Head(log).state, input);
    if record.authoring.release.Some? {
      P.DeployFailsOnlyOnBindings(log, input.id, record);
    } else {
      NoRelease(log, input.id, record);
    }
  }

  lemma NoRelease(log: Log, id: string, record: PipelineRecord)
    requires record.authoring.release.None?
    ensures P.Deployed(log, id, record) == Err(P.PublicationRequired)
  {
  }

  /** A merge in a run always finds the branch its proposal names. */
  lemma NoLostBranch(log: Log, input: P.Input, proposal: string, resolutions: map<string, P.PipelineMerging.Choice>, preview: P.Preview)
    requires Reachable(log)
    ensures P.Authored(log, input, P.Merge(proposal, resolutions), preview) != Err(P.BranchUnavailable)
  {
    hide Reachable, P.RecordOk, P.Merged;
    if input.id in Head(log).state.pipelines {
      OpenedOk(log, input);
      RecordBranches(log, input.id, P.Opened(Head(log).state, input));
      P.ProposalsFindTheirBranch(P.Opened(Head(log).state, input), proposal, preview, Head(log).revision);
    }
  }

  /** The refusals no command of any run ever returns. */
  lemma UnreachableRefusals(log: Log, input: P.Input, command: P.Command, preview: P.Preview)
    requires Reachable(log)
    ensures P.Authored(log, input, command, preview) != Err(P.ApprovalStale)
    ensures P.Authored(log, input, command, preview) != Err(P.PublicationInvalid)
    ensures command.Merge? ==> P.Authored(log, input, command, preview) != Err(P.BranchUnavailable)
  {
    hide Reachable, Composed, Runtime, Draft, Executable, P.BindingOk, P.Pinned;
    if command.Publish? {
      NoStaleApproval(log, input, preview);
    } else if command.Deploy? {
      if P.Admitted(log, input, P.Deploy).None? {
        NoInvalidPublication(log, input, preview);
      }
    } else if command.Merge? {
      NoLostBranch(log, input, command.proposal, command.resolutions, preview);
      PinnedRefusals(P.Opened(Head(log).state, input), command.proposal);
    }
  }

  lemma PinnedRefusals(record: PipelineRecord, proposal: string)
    ensures P.Pinned(record, proposal) != Err(P.ApprovalStale) && P.Pinned(record, proposal) != Err(P.PublicationInvalid)
  {
  }

  lemma RecordBranches(log: Log, id: string, record: PipelineRecord)
    requires P.RecordOk(log, id, record)
    ensures P.BranchesOk(record.authoring)
  {
  }

  // ---- branches ------------------------------------------------------------

  /** Pipeline branches form a forest rooted at main, and proposals are filed under their own existing source branch. */
  lemma PipelineBranches(log: Log, i: nat, id: string)
    requires Reachable(log) && i < |log| && id in log[i].state.pipelines
    ensures P.BranchesOk(log[i].state.pipelines[id].authoring)
    ensures G.Acyclic(F.AsEdges(P.ParentsOf(log[i].state.pipelines[id].authoring.branches)))
  {
    hide Reachable, P.PointerOk, P.ReviewOk, P.ReleaseOk, Follows, OntologiesOk, WellFormed, F.Forest;
    RunsKeep(log);
    assert StateOk(log, log[i].state);
    assert P.RecordOk(log, id, log[i].state.pipelines[id]);
    F.ForestIsAcyclic(P.ParentsOf(log[i].state.pipelines[id].authoring.branches));
  }

  /** So do ontology branches. */
  lemma OntologyBranches(log: Log, i: nat, id: string)
    requires Reachable(log) && i < |log| && id in log[i].state.ontologies
    ensures F.Forest(O.ParentsOf(log[i].state.ontologies[id].authoring.branches))
    ensures G.Acyclic(F.AsEdges(O.ParentsOf(log[i].state.ontologies[id].authoring.branches)))
  {
    hide Reachable, O.OriginsOk, O.DocumentsOk, O.PublicationOk, Follows, PipelinesOk, WellFormed, F.Forest;
    RunsKeep(log);
    assert StateOk(log, log[i].state);
    assert O.RecordOk(log, id, log[i].state.ontologies[id]);
    F.ForestIsAcyclic(O.ParentsOf(log[i].state.ontologies[id].authoring.branches));
  }

  // ---- ontologies ----------------------------------------------------------

  /** Ontologies are never lost, and a plugin origin, once recorded on main, is in every later revision. */
  lemma {:induction false} OriginImmutable(log: Log, i: nat, j: nat, id: string)
    requires Reachable(log) && i <= j < |log| && id in log[i].state.ontologies
    ensures id in log[j].state.ontologies
    ensures O.Origin(log[i].state.ontologies[id].ontology).Some? ==>
      O.Origin(log[j].state.ontologies[id].ontology) == O.Origin(log[i].state.ontologies[id].ontology)
    decreases j
  {
    hide Reachable, StateOk, WellFormed, O.Origin;
    if i < j {
      OriginImmutable(log, i, j - 1, id);
      RunsKeep(log);
      assert Follows(log[j - 1], log[j].state);
      assert Moves(log[j - 1], log[j].state, id);
    }
  }

  /** A bound ontology is never deleted, has a publication, and that still resolves to the content it recorded. */
  lemma BoundOntologiesLive(log: Log, i: nat, k: (string, string))
    requires Reachable(log) && i < |log| && k in log[i].state.bindings
    ensures log[i].state.bindings[k].ontology in log[i].state.ontologies
    ensures !log[i].state.ontologies[log[i].state.bindings[k].ontology].authoring.deleted
    ensures log[i].state.ontologies[log[i].state.bindings[k].ontology].publication.Some?
    ensures O.PublicationOk(log, log[i].state.bindings[k].ontology, log[i].state.ontologies[log[i].state.bindings[k].ontology])
  {
    hide Reachable, O.OriginsOk, O.DocumentsOk, O.PublicationOk, Follows, PipelinesOk, WellFormed, F.Forest;
    RunsKeep(log);
    assert StateOk(log, log[i].state);
    assert O.RecordOk(log, log[i].state.bindings[k].ontology, log[i].state.ontologies[log[i].state.bindings[k].ontology]);
  }

  /** A branch merge in a run never misses its parent or a valid version. */
  lemma NoLostOntologyVersion(log: Log, input: O.Input, branch: string, outcome: O.Outcome)
    requires Reachable(log) && Honest(log, AuthorOntologyCall(input, O.Merge(branch), outcome))
    ensures var r := O.Authored(log, input, O.Merge(branch), outcome);
      r.Err? ==> r.error != O.ParentUnavailable && r.error != O.MergeUnavailable &&
                 (r.error.MergeRefused? ==>
                    r.error == O.MergeRefused(O.OntologyMerging.InvalidMerge) && input.id in Head(log).state.ontologies &&
                    O.Irreconcilable(Head(log).state.ontologies[input.id], branch))
  {
    hide Reachable, O.RecordOk, O.OutcomeFits, O.MergedBranch, O.Authored, O.Irreconcilable;
    MergeRefusal(log, input, branch, outcome);
    if input.id in Head(log).state.ontologies {
      CurrentOntology(log, input.id);
      O.MergeFindsItsVersions(log, input.id, Head(log).state.ontologies[input.id], branch, outcome, Head(log).revision);
    }
  }

  lemma CurrentOntology(log: Log, id: string)
    requires Reachable(log) && id in Head(log).state.ontologies
    ensures O.RecordOk(log, id, Head(log).state.ontologies[id])
  {
    hide Reachable, O.RecordOk, Follows, PipelinesOk, WellFormed;
    RunsKeep(log);
    assert StateOk(log, log[|log| - 1].state);
  }

  /** Beyond the checks every command makes, a merge is refused for the reasons of the merge itself. */
  lemma MergeRefusal(log: Log, input: O.Input, branch: string, outcome: O.Outcome)
    requires log != []
    ensures var r := O.Authored(log, input, O.Merge(branch), outcome);
      r.Err? && (r.error == O.ParentUnavailable || r.error == O.MergeUnavailable || r.error.MergeRefused?) ==>
        input.id in Head(log).state.ontologies &&
        O.MergedBranch(Head(log).state.ontologies[input.id], branch, outcome, Head(log).revision) == Err(r.error)
  {
    hide O.MergedBranch;
  }
}
