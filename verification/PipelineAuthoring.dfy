/** The commands of the pipeline workspace and what they keep true of a pipeline record. */
module PipelineAuthoring {
  import opened Json
  import opened Text
  import opened Pipelines
  import opened PipelineDocuments
  import opened PipelineMerging
  import opened DefinitionMerging
  import opened Snapshots
  import opened Gathering
  import opened Forests
  import O = OntologyDocuments
  import R = Ontologies

  datatype Command =
    | SaveDraft(branch: string)
    | BindOntology(block: string, ontology: string)
    | CreateBranch(name: string, from: string)
    | DeleteBranch(leaf: string)
    | ProposeMerge(source: string)
    | Merge(proposal: string, resolutions: Resolutions)
    | Approve
    | Publish
    | Deploy

  datatype Input = Input(id: string, name: string, definition: Value, expected: Option<string>, createOnly: bool)

  datatype Refusal =
    | InvalidIdentity
    | OnlyMainCreates
    | HeadChanged
    | AlreadyExists
    | Unavailable
    | Managed
    | InvalidDraft
    | NameMismatch
    | InvalidBranch
    | BranchUnavailable
    | BranchHasChildren
    | BranchHasProposal
    | BranchExists
    | ProposalLimit
    | ProposalUnavailable
    | ProposalChanged
    | MergeRefused(error: MergeError)
    | Unresolved
    | NotExecutable
    | SourceRequired
    | CompositionRefused
    | ApprovalRequired
    | ApprovalStale
    | PublicationRequired
    | PublicationInvalid
    | RuntimeRefused
    | BindingReplaces
    | BindingRefused
    | BlockUnavailable
    | InvalidStructure

  const MAX_BRANCHES := 32

  // ---- bindings ------------------------------------------------------------

  predicate ValidIdentity(s: string) {
    && 0 < ByteLength(s) <= 128
    && forall i :: 0 <= i < |s| ==> AsciiAlphanumeric(s[i]) || s[i] in {'_', '-', '.', ':'}
  }

  /** An ontology pinned at a revision, if it is there and valid. */
  ghost function OntologyAt(log: Log, id: string, revision: string): Option<OntologyRecord> {
    var state := Load(log, revision);
    if !ValidRevision(revision) || state.None? || id !in state.value.ontologies || !O.ValidDocument(state.value.ontologies[id].ontology)
    then None
    else Some(state.value.ontologies[id])
  }

  predicate ResourceIds(v: Value, ids: seq<string>) {
    forall id :: id in ids ==> exists x :: x in O.ItemsOf(v) && AsStr(Field(x, "resource_id")) == Some(id)
  }

  /** A selector names existing resources and known kinds, and at least one of either. */
  predicate SelectorOk(v: Value, ids: seq<string>, kinds: seq<string>) {
    ResourceIds(v, ids) && (forall k :: k in kinds ==> R.KnownKind(k)) && (ids != [] || kinds != [])
  }

  /** A binding selects from the production revision of a published ontology. */
  ghost predicate BindingOk(log: Log, state: TenantState, b: Binding) {
    && ValidIdentity(b.ontology)
    && Published(state, b.ontology)
    && var at := OntologyAt(log, b.ontology, state.ontologies[b.ontology].publication.value.revision);
       at.Some? && SelectorOk(at.value.ontology, b.ids, b.kinds)
  }

  function DraftBinding(pipeline: string, block: string, ontology: string): Binding {
    Binding(pipeline, block, ontology, [], ["object_type", "event_type", "property", "link_type"], true)
  }

  // ---- what each command makes of a record ---------------------------------

  /** What an edit changes: the record, and the tenant's bindings. */
  datatype Edit = Edit(record: PipelineRecord, bindings: map<(string, string), Binding>)

  type Preview = Result<MergePreview, MergeError>

  /** What the merge procedure promises of its outcome. */
  ghost predicate IsPreview(base: Value, target: Value, source: Value, resolutions: Resolutions, preview: Preview) {
    && (preview == Err(NotNormal) <==> !(Normalizes(base) && Normalizes(target) && Normalizes(source)))
    && (preview == Err(TooManyResolutions) <==>
          Normalizes(base) && Normalizes(target) && Normalizes(source) && |resolutions| > 256)
    && (preview.Err? ==> preview.error.NotNormal? || preview.error.TooManyResolutions? || preview.error.DepthExceeded?)
    && (preview == Err(DepthExceeded) <==>
          Normalizes(base) && Normalizes(target) && Normalizes(source) && |resolutions| <= 256 &&
          TooDeep(Some(Normal(base)), Some(Normal(target)), Some(Normal(source)), 0))
    && (preview.Ok? ==>
          && Normalizes(preview.value.definition)
          && Some(Normal(preview.value.definition)) ==
             PipelineMerging.Merge([], Some(Normal(base)), Some(Normal(target)), Some(Normal(source)), resolutions)
          && ReportsAre(preview.value.conflicts,
                        Conflicts([], Some(Normal(base)), Some(Normal(target)), Some(Normal(source)), resolutions)))
  }

  /** What the merge procedure was asked, if the command is a merge. */
  ghost predicate PreviewFits(record: PipelineRecord, command: Command, preview: Preview) {
    command.Merge? && Pinned(record, command.proposal).Ok? ==>
      var source := Pinned(record, command.proposal).value;
      IsPreview(source.base, record.definition, source.definition, command.resolutions, preview)
  }

  function Saved(record: PipelineRecord, branch: string, input: Input): Result<PipelineRecord, Refusal> {
    var a := record.authoring;
    if !Draft(input.definition) then Err(InvalidDraft)
    else if AsStr(Field(input.definition, "name")) != Some(input.name) then Err(NameMismatch)
    else if branch == MAIN then
      Ok(record.(definition := input.definition, name := input.name, authoring := a.(approval := None)))
    else if branch !in a.branches then Err(BranchUnavailable)
    else Ok(record.(authoring := a.(branches := a.branches[branch := a.branches[branch].(definition := input.definition)])))
  }

  function Deleted(record: PipelineRecord, leaf: string): Result<PipelineRecord, Refusal> {
    var a := record.authoring;
    if !ValidName(leaf) || leaf == MAIN then Err(InvalidBranch)
    else if leaf !in a.branches then Err(BranchUnavailable)
    else if exists b :: b in a.branches && a.branches[b].parent == Some(leaf) then Err(BranchHasChildren)
    else if exists p :: p in a.proposals && a.proposals[p].sourceBranch == leaf then Err(BranchHasProposal)
    else Ok(record.(authoring := a.(branches := a.branches - {leaf})))
  }

  function Forked(record: PipelineRecord, name: string, from: string, head: string): Result<PipelineRecord, Refusal> {
    var a := record.authoring;
    if !ValidName(name) || name == MAIN then Err(InvalidBranch)
    else if |a.branches| >= MAX_BRANCHES || name in a.branches then Err(BranchExists)
    else if from == MAIN then
      Ok(record.(authoring := a.(branches := a.branches[name := Branch(Some(from), record.definition, record.definition, head)])))
    else if from !in a.branches then Err(BranchUnavailable)
    else
      Ok(record.(authoring := a.(branches := a.branches[name := a.branches[from].(parent := Some(from))])))
  }

  function Proposed(record: PipelineRecord, source: string): Result<PipelineRecord, Refusal> {
    var a := record.authoring;
    if source !in a.branches then Err(BranchUnavailable)
    else if |a.proposals| >= MAX_BRANCHES && source !in a.proposals then Err(ProposalLimit)
    else
      var proposal := Proposal(source, Digest(a.branches[source].definition), Digest(record.definition));
      Ok(record.(authoring := a.(proposals := a.proposals[source := proposal])))
  }

  /** The proposal still names an existing branch, and neither side has moved. */
  function Pinned(record: PipelineRecord, proposal: string): Result<Branch, Refusal> {
    var a := record.authoring;
    if proposal !in a.proposals then Err(ProposalUnavailable)
    else
      var p := a.proposals[proposal];
      if p.sourceBranch !in a.branches then Err(BranchUnavailable)
      else
        var source := a.branches[p.sourceBranch];
        if p.sourceHash != Digest(source.definition) || p.targetHash != Digest(record.definition) then Err(ProposalChanged)
        else Ok(source)
  }

  function Merged(record: PipelineRecord, proposal: string, preview: Preview, head: string): Result<PipelineRecord, Refusal> {
    var a := record.authoring;
    var source := Pinned(record, proposal);
    if source.Err? then Err(source.error)
    else if preview.Err? then Err(MergeRefused(preview.error))
    else if preview.value.conflicts != [] then Err(Unresolved)
    else
      var merged := preview.value.definition;
      var name := AsStr(Field(merged, "name"));
      if !Draft(merged) then Err(InvalidDraft)
      else if name.None? then Err(NameMismatch)
      else if proposal !in a.branches then Err(BranchUnavailable)
      else
        var branch := a.branches[proposal].(definition := merged, base := merged, baseRevision := head);
        Ok(record.(definition := merged, name := name.value,
                   authoring := a.(approval := None, proposals := a.proposals - {proposal}, branches := a.branches[proposal := branch])))
  }

  ghost function Approved(log: Log, id: string, record: PipelineRecord): Result<PipelineRecord, Refusal>
    requires log != []
  {
    var d := record.definition;
    if !Executable(d) || ReadPipeline(d).None? || !Structured(ReadPipeline(d).value) then Err(NotExecutable)
    else if Sources(d) == [] then Err(SourceRequired)
    else if Composed(log, id, Head(log).revision, d, false).None? then Err(CompositionRefused)
    else Ok(record.(authoring := record.authoring.(approval := Some(Digest(d)))))
  }

  ghost function Released(log: Log, id: string, record: PipelineRecord): Result<PipelineRecord, Refusal>
    requires log != []
  {
    var review := record.authoring.approval;
    if review.None? then Err(ApprovalRequired)
    else if review.value != Digest(record.definition) then Err(ApprovalStale)
    else if Composed(log, id, Head(log).revision, record.definition, true).None? then Err(CompositionRefused)
    else Ok(record.(authoring := record.authoring.(release := Some(Release(Head(log).revision, review.value)))))
  }

  ghost function Deployed(log: Log, id: string, record: PipelineRecord): Result<PipelineRecord, Refusal> {
    var release := record.authoring.release;
    if release.None? then Err(PublicationRequired)
    else
      var pinned := Alive(Load(log, release.value.revision), id);
      if pinned.None? then Err(Unavailable)
      else if release.value.hash != Digest(pinned.value.definition) then Err(PublicationInvalid)
      else if Composed(log, id, release.value.revision, pinned.value.definition, true).None? then Err(CompositionRefused)
      else if Runtime(log, id, release.value.revision).None? then Err(RuntimeRefused)
      else Ok(record.(published := Some(release.value.revision)))
  }

  ghost function BoundTo(log: Log, state: TenantState, input: Input, record: PipelineRecord, block: string, ontology: string)
    : Result<Edit, Refusal>
  {
    var binding := DraftBinding(input.id, block, ontology);
    var marked := MarkRequired(record.definition, block);
    if input.definition != record.definition then Err(BindingReplaces)
    else if !BindingOk(log, state, binding) then Err(BindingRefused)
    else if marked.None? then Err(BlockUnavailable)
    else if !Draft(marked.value) then Err(InvalidDraft)
    else Ok(Edit(record.(definition := marked.value, authoring := record.authoring.(approval := None)),
                 state.bindings[(input.id, block) := binding]))
  }

  function OnRecord(r: Result<PipelineRecord, Refusal>, bindings: map<(string, string), Binding>): Result<Edit, Refusal> {
    match r
    case Ok(record) => Ok(Edit(record, bindings))
    case Err(e) => Err(e)
  }

  /** One command applied to a managed record. */
  ghost function Edited(log: Log, state: TenantState, input: Input, record: PipelineRecord, command: Command, preview: Preview)
    : Result<Edit, Refusal>
    requires log != []
  {
    match command
    case BindOntology(block, ontology) => BoundTo(log, state, input, record, block, ontology)
    case SaveDraft(branch) => OnRecord(Saved(record, branch, input), state.bindings)
    case DeleteBranch(leaf) => OnRecord(Deleted(record, leaf), state.bindings)
    case CreateBranch(name, from) => OnRecord(Forked(record, name, from, Head(log).revision), state.bindings)
    case ProposeMerge(source) => OnRecord(Proposed(record, source), state.bindings)
    case Merge(proposal, _) => OnRecord(Merged(record, proposal, preview, Head(log).revision), state.bindings)
    case Approve => OnRecord(Approved(log, input.id, record), state.bindings)
    case Publish => OnRecord(Released(log, input.id, record), state.bindings)
    case Deploy => OnRecord(Deployed(log, input.id, record), state.bindings)
  }

  /** The record a command starts from: the current one, or an empty one for a creation; managed from now on. */
  function Opened(state: TenantState, input: Input): PipelineRecord {
    var record := if input.id in state.pipelines then state.pipelines[input.id]
                  else PipelineRecord(NoAuthoring, None, input.name, None, Null, false);
    record.(authoring := record.authoring.(enabled := true))
  }

  function Admitted(log: Log, input: Input, command: Command): Option<Refusal>
    requires log != []
  {
    var state := Head(log).state;
    if !ValidName(input.id) then Some(InvalidIdentity)
    else if input.createOnly && command != SaveDraft(MAIN) then Some(OnlyMainCreates)
    else if !input.createOnly && input.expected != Some(Head(log).revision) then Some(HeadChanged)
    else if input.createOnly && input.id in state.pipelines then Some(AlreadyExists)
    else if !input.createOnly && Alive(Some(state), input.id).None? then Some(Unavailable)
    else None
  }

  /** The next tenant state after an authoring command. */
  ghost function Authored(log: Log, input: Input, command: Command, preview: Preview): Result<TenantState, Refusal>
    requires log != []
  {
    var state := Head(log).state;
    var refused := Admitted(log, input, command);
    if refused.Some? then Err(refused.value)
    else
      match Edited(log, state, input, Opened(state, input), command, preview)
      case Err(e) => Err(e)
      case Ok(edit) =>
        var previous := if input.createOnly then None else Some(Head(log).revision);
        Ok(state.(pipelines := state.pipelines[input.id := edit.record.(previous := previous)], bindings := edit.bindings))
  }

  // ---- what every command keeps --------------------------------------------

  function ParentsOf(branches: map<string, Branch>): Parents {
    map b | b in branches :: if branches[b].parent.Some? then branches[b].parent.value else ""
  }

  /** Branches hang off main, and every proposal is filed under its own, existing source branch. */
  ghost predicate BranchesOk(a: Authoring) {
    && Forest(ParentsOf(a.branches))
    && (forall b :: b in a.branches ==> a.branches[b].parent.Some?)
    && forall p :: p in a.proposals ==> a.proposals[p].sourceBranch == p && p in a.branches
  }

  /** A present approval is of the current definition; unmanaged records carry no review state. */
  ghost predicate ReviewOk(record: PipelineRecord) {
    && (record.authoring.approval.Some? ==> record.authoring.approval == Some(Digest(record.definition)))
    && (!record.authoring.enabled ==> record.authoring == NoAuthoring)
  }

  /** A release pins a revision that holds exactly the released content, approved and composable there. */
  ghost predicate ReleaseOk(log: Log, id: string, release: Release) {
    var pinned := Alive(Load(log, release.revision), id);
    && pinned.Some?
    && release.hash == Digest(pinned.value.definition)
    && pinned.value.authoring.approval == Some(release.hash)
    && Composed(log, id, release.revision, pinned.value.definition, true).Some?
  }

  /** Some state of the log has the revision as its release. */
  ghost predicate WasReleased(log: Log, id: string, revision: string) {
    exists i :: 0 <= i < |log| && ReleasedIn(log[i].state, id, revision)
  }

  ghost predicate ReleasedIn(state: TenantState, id: string, revision: string) {
    && id in state.pipelines && state.pipelines[id].authoring.release.Some?
    && state.pipelines[id].authoring.release.value.revision == revision
  }

  lemma ReleasedStable(log: Log, more: Log, id: string, revision: string)
    requires log <= more && WasReleased(log, id, revision)
    ensures WasReleased(more, id, revision)
  {
    var i :| 0 <= i < |log| && ReleasedIn(log[i].state, id, revision);
    assert ReleasedIn(more[i].state, id, revision);
  }

  /**
   A production pointer runs; if the pipeline was already managed at the revision it pins, that revision was approved
   there and released before.
   */
  ghost predicate PointerOk(log: Log, id: string, revision: string) {
    && Runtime(log, id, revision).Some?
    && var pinned := Alive(Load(log, revision), id).value;
       pinned.authoring.enabled ==>
         pinned.authoring.approval == Some(Digest(pinned.definition)) && WasReleased(log, id, revision)
  }

  ghost predicate RecordOk(log: Log, id: string, record: PipelineRecord) {
    && BranchesOk(record.authoring)
    && ReviewOk(record)
    && (record.authoring.release.Some? ==> ReleaseOk(log, id, record.authoring.release.value))
    && (record.published.Some? ==> PointerOk(log, id, record.published.value))
  }

  /** What is true of a record stays true as the log grows. */
  lemma RecordStable(log: Log, more: Log, id: string, record: PipelineRecord)
    requires WellFormed(more) && log <= more && RecordOk(log, id, record)
    ensures RecordOk(more, id, record)
  {
    hide WellFormed, Composed, Runtime, BranchesOk, ReviewOk, WasReleased;
    if record.authoring.release.Some? {
      var release := record.authoring.release.value;
      LoadStable(log, more, release.revision);
      ComposedStable(log, more, id, release.revision, Alive(Load(log, release.revision), id).value.definition, true);
    }
    if record.published.Some? {
      RuntimeLoads(log, id, record.published.value);
      LoadStable(log, more, record.published.value);
      RuntimeStable(log, more, id, record.published.value);
      if WasReleased(log, id, record.published.value) { ReleasedStable(log, more, id, record.published.value); }
    }
  }

  lemma RuntimeLoads(log: Log, id: string, revision: string)
    requires Runtime(log, id, revision).Some?
    ensures Load(log, revision).Some? && Alive(Load(log, revision), id).Some?
  {
  }

  // ---- branch commands -----------------------------------------------------

  lemma SavedKeepsBranches(record: PipelineRecord, branch: string, input: Input)
    requires BranchesOk(record.authoring) && Saved(record, branch, input).Ok?
    ensures BranchesOk(Saved(record, branch, input).value.authoring)
  {
    hide Draft, Forest;
    var after := Saved(record, branch, input).value;
    assert ParentsOf(after.authoring.branches) == ParentsOf(record.authoring.branches);
  }

  lemma DeletedKeepsBranches(record: PipelineRecord, leaf: string)
    requires BranchesOk(record.authoring) && Deleted(record, leaf).Ok?
    ensures BranchesOk(Deleted(record, leaf).value.authoring)
  {
    hide ValidName, Forest;
    var a, after := record.authoring, Deleted(record, leaf).value.authoring;
    assert ParentsOf(after.branches) == ParentsOf(a.branches) - {leaf};
    forall c | c in ParentsOf(a.branches) ensures ParentsOf(a.branches)[c] != leaf {
      assert a.branches[c].parent != Some(leaf);
    }
    Prune(ParentsOf(a.branches), leaf);
  }

  lemma ForkedKeepsBranches(record: PipelineRecord, name: string, from: string, head: string)
    requires BranchesOk(record.authoring) && Forked(record, name, from, head).Ok?
    ensures BranchesOk(Forked(record, name, from, head).value.authoring)
  {
    hide ValidName, Forest;
    var a, after := record.authoring, Forked(record, name, from, head).value.authoring;
    assert ParentsOf(after.branches) == ParentsOf(a.branches)[name := from];
    Grow(ParentsOf(a.branches), name, from);
  }

  lemma MergedKeepsBranches(record: PipelineRecord, proposal: string, preview: Preview, head: string)
    requires BranchesOk(record.authoring) && Merged(record, proposal, preview, head).Ok?
    ensures BranchesOk(Merged(record, proposal, preview, head).value.authoring)
  {
    hide Draft, Forest;
    var after := Merged(record, proposal, preview, head).value;
    assert ParentsOf(after.authoring.branches) == ParentsOf(record.authoring.branches);
  }

  // ---- every command -------------------------------------------------------

  lemma EditedKeepsBranches(log: Log, state: TenantState, input: Input, record: PipelineRecord, command: Command, preview: Preview)
    requires log != [] && BranchesOk(record.authoring) && Edited(log, state, input, record, command, preview).Ok?
    ensures BranchesOk(Edited(log, state, input, record, command, preview).value.record.authoring)
  {
    hide Composed, Runtime, BindingOk, Draft, Executable, Forest;
    match command
    case BindOntology(block, ontology) =>
    case SaveDraft(branch) => SavedKeepsBranches(record, branch, input);
    case DeleteBranch(leaf) => DeletedKeepsBranches(record, leaf);
    case CreateBranch(name, from) => ForkedKeepsBranches(record, name, from, Head(log).revision);
    case ProposeMerge(source) =>
    case Merge(proposal, _) => MergedKeepsBranches(record, proposal, preview, Head(log).revision);
    case Approve =>
    case Publish =>
    case Deploy =>
  }

  lemma EditedKeepsReview(log: Log, state: TenantState, input: Input, record: PipelineRecord, command: Command, preview: Preview)
    requires log != [] && ReviewOk(record) && record.authoring.enabled && Edited(log, state, input, record, command, preview).Ok?
    ensures ReviewOk(Edited(log, state, input, record, command, preview).value.record)
  {
    hide Composed, Runtime, BindingOk, Draft, Executable;
  }

  /** Publishing releases the head, where the approval that was checked is stored. */
  lemma EditedKeepsRelease(log: Log, state: TenantState, input: Input, record: PipelineRecord, command: Command, preview: Preview)
    requires WellFormed(log) && state == Head(log).state && record == Opened(state, input)
    requires Alive(Some(state), input.id).Some? || command.SaveDraft?
    requires RecordOk(log, input.id, record) && Edited(log, state, input, record, command, preview).Ok?
    ensures var after := Edited(log, state, input, record, command, preview).value.record;
      && (after.authoring.release.Some? ==> ReleaseOk(log, input.id, after.authoring.release.value))
      && (after.published.Some? ==> PointerOk(log, input.id, after.published.value))
  {
    hide Composed, Runtime, BindingOk, Draft, Executable, BranchesOk;
    LoadAt(log, |log| - 1);
    if command.Deploy? {
      RuntimeLoads(log, input.id, record.authoring.release.value.revision);
      assert ReleasedIn(log[|log| - 1].state, input.id, record.authoring.release.value.revision);
    }
  }

  /** Every command keeps a record as the workspace promises. */
  lemma AuthoredKeeps(log: Log, input: Input, command: Command, preview: Preview)
    requires WellFormed(log) && Authored(log, input, command, preview).Ok?
    requires input.id in Head(log).state.pipelines ==> RecordOk(log, input.id, Head(log).state.pipelines[input.id])
    ensures var after := Authored(log, input, command, preview).value;
            input.id in after.pipelines && RecordOk(log, input.id, after.pipelines[input.id])
  {
    hide Composed, Runtime, Edited, ReleaseOk, PointerOk, Forest;
    var state := Head(log).state;
    var record := Opened(state, input);
    EmptyForest();
    EditedKeepsBranches(log, state, input, record, command, preview);
    EditedKeepsReview(log, state, input, record, command, preview);
    EditedKeepsRelease(log, state, input, record, command, preview);
  }

  lemma EmptyForest()
    ensures Forest(ParentsOf(map[]))
  {
  }

  // ---- checks that never fire ----------------------------------------------

  /** In a kept record an approval is never stale when it comes to publishing. */
  lemma NeverStale(log: Log, id: string, record: PipelineRecord)
    requires log != [] && ReviewOk(record)
    ensures Released(log, id, record) != Err(ApprovalStale)
  {
  }

  /** Deploying a release fails on nothing but the ontology bindings of the released revision. */
  lemma DeployFailsOnlyOnBindings(log: Log, id: string, record: PipelineRecord)
    requires WellFormed(log) && RecordOk(log, id, record) && record.authoring.release.Some?
    ensures Deployed(log, id, record).Ok? <==>
      DependenciesOk(Load(log, record.authoring.release.value.revision).value, id)
    ensures Deployed(log, id, record).Err? ==> Deployed(log, id, record).error == RuntimeRefused
  {
    hide Composed, DependenciesOk, BranchesOk;
    var release := record.authoring.release.value;
    assert Load(log, release.revision).Some?;
    var i :| 0 <= i < |log| && log[i].revision == release.revision;
  }

  /** A proposal always finds its source branch. */
  lemma ProposalsFindTheirBranch(record: PipelineRecord, proposal: string, preview: Preview, head: string)
    requires BranchesOk(record.authoring)
    ensures Merged(record, proposal, preview, head) != Err(BranchUnavailable)
    ensures Merged(record, proposal, preview, head) != Err(NameMismatch)
  {
  }

  lemma PreviewOfUnedited(base: Value, target: Value, resolutions: Resolutions, preview: Preview)
    requires IsPreview(base, target, base, resolutions, preview) && preview.Ok?
    ensures Normalizes(target) && Normalizes(preview.value.definition)
    ensures Normal(preview.value.definition) == Normal(target)
  {
    hide PipelineMerging.Merge, Conflicts, TooDeep, ReportsAre, Collection;
    UneditedMerge(base, target, resolutions);
  }

  /** Merging a branch nothing was edited on leaves main as it was, up to block order. */
  lemma RemergeUnedited(record: PipelineRecord, proposal: string, resolutions: Resolutions, preview: Preview, head: string)
    requires Merged(record, proposal, preview, head).Ok?
    requires var source := Pinned(record, proposal).value;
      source.definition == source.base && IsPreview(source.base, record.definition, source.definition, resolutions, preview)
    ensures Normalizes(record.definition) && Normalizes(Merged(record, proposal, preview, head).value.definition)
    ensures Normal(Merged(record, proposal, preview, head).value.definition) == Normal(record.definition)
  {
    hide Draft, IsPreview, Normal, Collection;
    PreviewOfUnedited(Pinned(record, proposal).value.base, record.definition, resolutions, preview);
  }
}
