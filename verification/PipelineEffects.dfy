/** What each pipeline command demands, sets and leaves alone, and what each refusal says. */
module PipelineEffects {
  import opened Json
  import opened Text
  import opened Pipelines
  import opened PipelineDocuments
  import opened PipelineMerging
  import opened DefinitionMerging
  import opened Snapshots
  import opened Gathering
  import opened Forests
  import opened PipelineAuthoring

  // ---- effects -------------------------------------------------------------

  /** The parts of a record that commands may leave alone. */
  predicate SameDraft(a: PipelineRecord, b: PipelineRecord) {
    a.definition == b.definition && a.name == b.name
  }

  predicate SameProduction(a: PipelineRecord, b: PipelineRecord) {
    a.published == b.published && a.deleted == b.deleted
  }

  predicate SameApproval(a: PipelineRecord, b: PipelineRecord) {
    a.authoring.approval == b.authoring.approval
  }

  predicate SameRelease(a: PipelineRecord, b: PipelineRecord) {
    a.authoring.release == b.authoring.release
  }

  predicate SameProposals(a: PipelineRecord, b: PipelineRecord) {
    a.authoring.proposals == b.authoring.proposals
  }

  /** No branch but possibly `name` differs. */
  ghost predicate SameBranchesBut(a: PipelineRecord, b: PipelineRecord, name: string) {
    forall x :: x != name ==>
      (x in a.authoring.branches <==> x in b.authoring.branches) &&
      (x in a.authoring.branches ==> a.authoring.branches[x] == b.authoring.branches[x])
  }

  predicate SameBranches(a: PipelineRecord, b: PipelineRecord) {
    a.authoring.branches == b.authoring.branches
  }

  /** The first step called `block` is marked as requiring an ontology, and nothing else of the document changed. */
  ghost predicate Marks(before: Value, after: Value, block: string) {
    && before.Obj? && after.Obj? && after.fields.Keys == before.fields.Keys
    && (forall k :: k in before.fields && k != "pipeline" ==> after.fields[k] == before.fields[k])
    && |Steps(after)| == |Steps(before)|
    && exists i :: MarksStep(before, after, block, i)
  }

  ghost predicate MarksStep(before: Value, after: Value, block: string, i: int)
    requires |Steps(after)| == |Steps(before)|
  {
    && 0 <= i < |Steps(before)|
    && AsStr(Field(Steps(before)[i], "step")) == Some(block)
    && (forall j :: 0 <= j < i ==> AsStr(Field(Steps(before)[j], "step")) != Some(block))
    && (forall j :: 0 <= j < |Steps(before)| && j != i ==> Steps(after)[j] == Steps(before)[j])
    && Steps(after)[i].Obj?
    && Field(Steps(after)[i], "ontology_required") == Some(Bool(true))
    && (forall k :: k != "ontology_required" ==> Field(Steps(after)[i], k) == Field(Steps(before)[i], k))
  }

  /** What a merge makes of main: the three-way merge of the branch's base, main and the branch under the choices. */
  ghost predicate MergesInto(base: Value, main: Value, branch: Value, resolutions: Resolutions, after: Value) {
    && Normalizes(base) && Normalizes(main) && Normalizes(branch) && Normalizes(after)
    && Some(Normal(after)) ==
       PipelineMerging.Merge([], Some(Normal(base)), Some(Normal(main)), Some(Normal(branch)), resolutions)
    && Conflicts([], Some(Normal(base)), Some(Normal(main)), Some(Normal(branch)), resolutions) == {}
  }

  /** The change a command makes to the record it opens, `head` being the revision it was opened at. */
  ghost predicate Effect(input: Input, command: Command, head: string, before: PipelineRecord, after: PipelineRecord) {
    match command
    case SaveDraft(branch) =>
      && SameRelease(before, after) && SameProposals(before, after) && SameProduction(before, after)
      && if branch == MAIN then
           && after.definition == input.definition && after.name == input.name && after.authoring.approval.None?
           && SameBranches(before, after)
         else
           && SameDraft(before, after) && SameApproval(before, after) && SameBranchesBut(before, after, branch)
           && branch in before.authoring.branches && branch in after.authoring.branches
           && var b, a := before.authoring.branches[branch], after.authoring.branches[branch];
              a.definition == input.definition && a.parent == b.parent && a.base == b.base && a.baseRevision == b.baseRevision
    case BindOntology(block, _) =>
      && Marks(before.definition, after.definition, block) && after.name == before.name && after.authoring.approval.None?
      && SameBranches(before, after) && SameProposals(before, after) && SameRelease(before, after) && SameProduction(before, after)
    case CreateBranch(name, from) =>
      && SameDraft(before, after) && SameApproval(before, after) && SameRelease(before, after)
      && SameProposals(before, after) && SameProduction(before, after) && SameBranchesBut(before, after, name)
      && name !in before.authoring.branches && name in after.authoring.branches
      && var a := after.authoring.branches[name];
         && a.parent == Some(from)
         && if from == MAIN then a.definition == before.definition && a.base == before.definition && a.baseRevision == head
            else from in before.authoring.branches &&
                 a.definition == before.authoring.branches[from].definition && a.base == before.authoring.branches[from].base &&
                 a.baseRevision == before.authoring.branches[from].baseRevision
    case DeleteBranch(leaf) =>
      && SameDraft(before, after) && SameApproval(before, after) && SameRelease(before, after)
      && SameProposals(before, after) && SameProduction(before, after) && SameBranchesBut(before, after, leaf)
      && leaf in before.authoring.branches && leaf !in after.authoring.branches
    case ProposeMerge(source) =>
      && SameDraft(before, after) && SameApproval(before, after) && SameRelease(before, after)
      && SameBranches(before, after) && SameProduction(before, after)
      && source in before.authoring.branches && source in after.authoring.proposals
      && (forall p :: p != source ==>
            (p in before.authoring.proposals <==> p in after.authoring.proposals) &&
            (p in before.authoring.proposals ==> after.authoring.proposals[p] == before.authoring.proposals[p]))
      && var p := after.authoring.proposals[source];
         && p.sourceBranch == source
         && p.sourceHash.of == before.authoring.branches[source].definition && p.targetHash.of == before.definition
    case Merge(proposal, resolutions) =>
      && SameRelease(before, after) && SameProduction(before, after) && after.authoring.approval.None?
      && proposal in before.authoring.branches && proposal in after.authoring.branches && SameBranchesBut(before, after, proposal)
      && after.authoring.proposals == before.authoring.proposals - {proposal}
      && var b, a := before.authoring.branches[proposal], after.authoring.branches[proposal];
         && MergesInto(b.base, before.definition, b.definition, resolutions, after.definition)
         && AsStr(Field(after.definition, "name")) == Some(after.name)
         && a.definition == after.definition && a.base == after.definition && a.baseRevision == head && a.parent == b.parent
    case Approve =>
      && SameDraft(before, after) && SameRelease(before, after) && SameProposals(before, after) && SameBranches(before, after)
      && SameProduction(before, after)
      && after.authoring.approval.Some? && after.authoring.approval.value.of == before.definition
    case Publish =>
      && SameDraft(before, after) && SameApproval(before, after) && SameProposals(before, after) && SameBranches(before, after)
      && SameProduction(before, after)
      && after.authoring.release.Some? && after.authoring.release.value.revision == head
      && after.authoring.release.value.hash.of == before.definition
    case Deploy =>
      && SameDraft(before, after) && SameApproval(before, after) && SameRelease(before, after) && SameProposals(before, after)
      && SameBranches(before, after) && after.deleted == before.deleted
      && before.authoring.release.Some? && after.published == Some(before.authoring.release.value.revision)
  }

  lemma SavedEffect(record: PipelineRecord, branch: string, input: Input, head: string)
    requires Saved(record, branch, input).Ok?
    ensures Effect(input, SaveDraft(branch), head, record, Saved(record, branch, input).value)
  {
    hide Draft;
  }

  lemma DeletedEffect(record: PipelineRecord, leaf: string, input: Input, head: string)
    requires Deleted(record, leaf).Ok?
    ensures Effect(input, DeleteBranch(leaf), head, record, Deleted(record, leaf).value)
  {
    hide ValidName;
  }

  lemma ForkedEffect(record: PipelineRecord, name: string, from: string, input: Input, head: string)
    requires Forked(record, name, from, head).Ok?
    ensures Effect(input, CreateBranch(name, from), head, record, Forked(record, name, from, head).value)
  {
    hide ValidName;
  }

  lemma ProposedEffect(record: PipelineRecord, source: string, input: Input, head: string)
    requires Proposed(record, source).Ok?
    ensures Effect(input, ProposeMerge(source), head, record, Proposed(record, source).value)
  {
  }

  lemma NothingReported(list: seq<MergeConflict>, cs: set<Conflict>)
    requires ReportsAre(list, cs)
    ensures list == [] <==> cs == {}
  {
    if list != [] { assert list[0] in list; }
    if cs != {} {
      var d :| d in cs;
      ReportsOne(d, cs);
    }
  }

  lemma ReportsOne(d: Conflict, cs: set<Conflict>)
    requires d in cs
    ensures Reports(Rendered(d), cs)
  {
  }

  lemma PreviewMerges(base: Value, main: Value, branch: Value, resolutions: Resolutions, preview: Preview)
    requires IsPreview(base, main, branch, resolutions, preview) && preview.Ok? && preview.value.conflicts == []
    ensures MergesInto(base, main, branch, resolutions, preview.value.definition)
  {
    hide PipelineMerging.Merge, Conflicts, TooDeep, Collection, Normal;
    var cs := Conflicts([], Some(Normal(base)), Some(Normal(main)), Some(Normal(branch)), resolutions);
    NothingReported(preview.value.conflicts, cs);
  }

  lemma MergedEffect(record: PipelineRecord, proposal: string, resolutions: Resolutions, preview: Preview, input: Input, head: string)
    requires BranchesOk(record.authoring) && Merged(record, proposal, preview, head).Ok?
    requires PreviewFits(record, PipelineAuthoring.Merge(proposal, resolutions), preview)
    ensures Effect(input, PipelineAuthoring.Merge(proposal, resolutions), head, record, Merged(record, proposal, preview, head).value)
  {
    hide Draft, Forest, IsPreview, MergesInto;
    var source := PipelineAuthoring.Pinned(record, proposal).value;
    assert source == record.authoring.branches[proposal];
    PreviewMerges(source.base, record.definition, source.definition, resolutions, preview);
  }

  lemma ApprovedEffect(log: Log, record: PipelineRecord, input: Input)
    requires log != [] && Approved(log, input.id, record).Ok?
    ensures Effect(input, Approve, Head(log).revision, record, Approved(log, input.id, record).value)
  {
    hide Composed, Executable, Structured, ReadPipeline;
  }

  lemma ReleasedEffect(log: Log, record: PipelineRecord, input: Input)
    requires log != [] && Released(log, input.id, record).Ok?
    ensures Effect(input, Publish, Head(log).revision, record, Released(log, input.id, record).value)
  {
    hide Composed;
  }

  lemma DeployedEffect(log: Log, record: PipelineRecord, input: Input)
    requires log != [] && Deployed(log, input.id, record).Ok?
    ensures Effect(input, Deploy, Head(log).revision, record, Deployed(log, input.id, record).value)
  {
    hide Composed, Runtime;
  }

  lemma MarkMarks(v: Value, block: string)
    requires MarkRequired(v, block).Some?
    ensures Marks(v, MarkRequired(v, block).value, block)
  {
    var after := MarkRequired(v, block).value;
    var i := StepIndex(Steps(v), block);
    var step := Steps(v)[i];
    assert AsArr(Field(v, "pipeline")).Some?;
    var marked := Obj(step.fields["ontology_required" := Bool(true)]);
    assert Field(after, "pipeline") == Some(Arr(Steps(v)[i := marked]));
    assert Steps(after) == Steps(v)[i := marked];
    assert MarksStep(v, after, block, i);
  }

  lemma BoundEffect(log: Log, state: TenantState, record: PipelineRecord, block: string, ontology: string, input: Input)
    requires log != [] && BoundTo(log, state, input, record, block, ontology).Ok?
    ensures Effect(input, BindOntology(block, ontology), Head(log).revision, record,
                   BoundTo(log, state, input, record, block, ontology).value.record)
    ensures BindsOnly(state.bindings, BoundTo(log, state, input, record, block, ontology).value.bindings, input.id, block, ontology)
  {
    hide BindingOk, Draft, MarkRequired, Marks;
    MarkMarks(record.definition, block);
  }

  /** One binding was set, to the whole ontology with its dependencies; the others are as they were. */
  ghost predicate BindsOnly(before: map<(string, string), Binding>, after: map<(string, string), Binding>, id: string, block: string, ontology: string) {
    && (id, block) in after
    && (forall k :: k != (id, block) ==> (k in before <==> k in after) && (k in before ==> after[k] == before[k]))
    && var b := after[(id, block)];
       && b.pipeline == id && b.block == block && b.ontology == ontology && b.ids == [] && b.dependencies
       && (forall kind :: kind in b.kinds <==> kind in {"object_type", "event_type", "property", "link_type"})
  }

  /** The record a command works on: the current one, now managed, or an empty one. */
  ghost predicate Opens(state: TenantState, input: Input, record: PipelineRecord) {
    && record.authoring.enabled
    && (input.id in state.pipelines ==>
          var was := state.pipelines[input.id];
          && SameDraft(was, record) && SameProduction(was, record) && SameApproval(was, record) && SameRelease(was, record)
          && SameProposals(was, record) && SameBranches(was, record))
    && (input.id !in state.pipelines ==>
          && record.published.None? && !record.deleted && record.authoring.approval.None? && record.authoring.release.None?
          && record.authoring.branches == map[] && record.authoring.proposals == map[])
  }

  /** What a successful command did. */
  ghost predicate Did(log: Log, input: Input, command: Command, after: TenantState)
    requires log != []
  {
    var state := Head(log).state;
    var before := Opened(state, input);
    && Opens(state, input, before)
    && after.ontologies == state.ontologies
    && input.id in after.pipelines
    && (forall id :: id != input.id ==>
          (id in state.pipelines <==> id in after.pipelines) && (id in state.pipelines ==> after.pipelines[id] == state.pipelines[id]))
    && after.pipelines[input.id].authoring.enabled
    && after.pipelines[input.id].previous == (if input.createOnly then None else Some(Head(log).revision))
    && Effect(input, command, Head(log).revision, before, after.pipelines[input.id])
    && (if command.BindOntology? then BindsOnly(state.bindings, after.bindings, input.id, command.block, command.ontology)
        else after.bindings == state.bindings)
  }

  lemma EditedEffect(log: Log, state: TenantState, input: Input, record: PipelineRecord, command: Command, preview: Preview)
    requires log != [] && BranchesOk(record.authoring) && Edited(log, state, input, record, command, preview).Ok?
    requires PreviewFits(record, command, preview)
    ensures var edit := Edited(log, state, input, record, command, preview).value;
      && Effect(input, command, Head(log).revision, record, edit.record)
      && edit.record.authoring.enabled == record.authoring.enabled
      && (if command.BindOntology? then BindsOnly(state.bindings, edit.bindings, input.id, command.block, command.ontology)
          else edit.bindings == state.bindings)
  {
    hide Effect, BranchesOk, PreviewFits, Composed, Runtime, BindingOk, Draft, Executable, MarkRequired, BindsOnly;
    var head := Head(log).revision;
    match command
    case BindOntology(block, ontology) => BoundEffect(log, state, record, block, ontology, input);
    case SaveDraft(branch) => SavedEffect(record, branch, input, head);
    case DeleteBranch(leaf) => DeletedEffect(record, leaf, input, head);
    case CreateBranch(name, from) => ForkedEffect(record, name, from, input, head);
    case ProposeMerge(source) => ProposedEffect(record, source, input, head);
    case Merge(proposal, resolutions) => MergedEffect(record, proposal, resolutions, preview, input, head);
    case Approve => ApprovedEffect(log, record, input);
    case Publish => ReleasedEffect(log, record, input);
    case Deploy => DeployedEffect(log, record, input);
  }

  /** The previous-revision pointer is no part of an effect. */
  lemma EffectIgnoresPrevious(input: Input, command: Command, head: string, before: PipelineRecord, after: PipelineRecord, p: Option<string>)
    requires Effect(input, command, head, before, after)
    ensures Effect(input, command, head, before, after.(previous := p))
  {
    hide Marks, MergesInto;
  }

  /** Every successful command does exactly what it is for. */
  lemma AuthoredDid(log: Log, input: Input, command: Command, preview: Preview)
    requires log != [] && Authored(log, input, command, preview).Ok?
    requires input.id in Head(log).state.pipelines ==> BranchesOk(Head(log).state.pipelines[input.id].authoring)
    requires PreviewFits(Opened(Head(log).state, input), command, preview)
    ensures Did(log, input, command, Authored(log, input, command, preview).value)
  {
    hide Effect, Edited, PreviewFits, BindsOnly, Forest;
    var state := Head(log).state;
    var record := Opened(state, input);
    EmptyForest();
    EditedEffect(log, state, input, record, command, preview);
    var edit := Edited(log, state, input, record, command, preview).value;
    EffectIgnoresPrevious(input, command, Head(log).revision, record, edit.record,
                          if input.createOnly then None else Some(Head(log).revision));
  }

  // ---- demands -------------------------------------------------------------

  /** What a command demands of the record it opens and of its input; a merge also of what it makes of main. */
  ghost predicate Demands(log: Log, input: Input, command: Command, before: PipelineRecord, after: PipelineRecord)
    requires log != []
  {
    var state, branches, proposals := Head(log).state, before.authoring.branches, before.authoring.proposals;
    match command
    case SaveDraft(branch) =>
      && Draft(input.definition) && AsStr(Field(input.definition, "name")) == Some(input.name)
      && (branch == MAIN || branch in branches)
    case BindOntology(block, ontology) =>
      && input.definition == before.definition && Draft(after.definition)
      && before.definition.Obj? && (exists i :: FirstNamed(before.definition, block, i) && Bindable(Steps(before.definition)[i], block))
      && BindingOk(log, state, DraftBinding(input.id, block, ontology))
    case CreateBranch(name, from) =>
      ValidName(name) && name != MAIN && name !in branches && |branches| < 32 && (from == MAIN || from in branches)
    case DeleteBranch(leaf) =>
      && ValidName(leaf) && leaf != MAIN && leaf in branches
      && (forall b :: b in branches ==> branches[b].parent != Some(leaf))
      && (forall p :: p in proposals ==> proposals[p].sourceBranch != leaf)
    case ProposeMerge(source) => source in branches && (|proposals| < 32 || source in proposals)
    case Merge(proposal, resolutions) =>
      && proposal in proposals && proposals[proposal].sourceBranch in branches && |resolutions| <= 256
      && proposals[proposal].sourceHash.of == branches[proposals[proposal].sourceBranch].definition
      && proposals[proposal].targetHash.of == before.definition
      && Draft(after.definition)
    case Approve =>
      && Executable(before.definition) && ReadPipeline(before.definition).Some?
      && Structured(ReadPipeline(before.definition).value) && Sources(before.definition) != []
      && Composed(log, input.id, Head(log).revision, before.definition, false).Some?
    case Publish =>
      && before.authoring.approval.Some? && before.authoring.approval.value.of == before.definition
      && Composed(log, input.id, Head(log).revision, before.definition, true).Some?
    case Deploy =>
      && before.authoring.release.Some?
      && var r := before.authoring.release.value;
         && Runtime(log, input.id, r.revision).Some? && Alive(Load(log, r.revision), input.id).Some?
         && Alive(Load(log, r.revision), input.id).value.definition == r.hash.of
  }

  /** The first step of this name. */
  predicate FirstNamed(v: Value, block: string, i: int) {
    && 0 <= i < |Steps(v)| && AsStr(Field(Steps(v)[i], "step")) == Some(block)
    && forall j :: 0 <= j < i ==> AsStr(Field(Steps(v)[j], "step")) != Some(block)
  }

  /** A step of this name that is not control flow. */
  predicate Bindable(step: Value, block: string) {
    && AsStr(Field(step, "step")) == Some(block)
    && var kind := AsStr(Field(step, "type"));
       kind.Some? && kind.value != "forward" && kind.value != "filter" && kind.value != "pipeline"
  }

  /** Who may send which command: creating is saving a main draft that is not there yet; everything else needs the current head. */
  ghost predicate MaySend(log: Log, input: Input, command: Command)
    requires log != []
  {
    var state := Head(log).state;
    && ValidName(input.id)
    && if input.createOnly then command == SaveDraft(MAIN) && input.id !in state.pipelines
       else input.expected == Some(Head(log).revision) && input.id in state.pipelines && !state.pipelines[input.id].deleted
  }

  lemma MarkedIsBindable(v: Value, block: string)
    ensures MarkRequired(v, block).Some? <==>
      v.Obj? && exists i :: FirstNamed(v, block, i) && Bindable(Steps(v)[i], block)
  {
    var k := StepIndex(Steps(v), block);
    if k < |Steps(v)| { assert FirstNamed(v, block, k); }
    forall i | FirstNamed(v, block, i) ensures i == k {}
  }

  lemma EditedDemands(log: Log, state: TenantState, input: Input, record: PipelineRecord, command: Command, preview: Preview)
    requires log != [] && state == Head(log).state && Edited(log, state, input, record, command, preview).Ok?
    requires PreviewFits(record, command, preview)
    ensures Demands(log, input, command, record, Edited(log, state, input, record, command, preview).value.record)
  {
    hide Composed, Runtime, BindingOk, Draft, Executable, MarkRequired, IsPreview, ValidName, FirstNamed, Bindable, Structured, ReadPipeline;
    match command
    case BindOntology(block, ontology) => MarkedIsBindable(record.definition, block);
    case SaveDraft(branch) =>
    case DeleteBranch(leaf) =>
    case CreateBranch(name, from) =>
    case ProposeMerge(source) =>
    case Merge(proposal, resolutions) =>
      var source := PipelineAuthoring.Pinned(record, proposal).value;
      PreviewInLimits(source.base, record.definition, source.definition, resolutions, preview);
    case Approve =>
    case Publish =>
    case Deploy => RuntimeLoads(log, input.id, record.authoring.release.value.revision);
  }

  lemma PreviewInLimits(base: Value, main: Value, branch: Value, resolutions: Resolutions, preview: Preview)
    requires IsPreview(base, main, branch, resolutions, preview) && preview.Ok?
    ensures |resolutions| <= 256
  {
    hide PipelineMerging.Merge, Conflicts, TooDeep, Normalizes, Normal, ReportsAre;
  }

  // ---- refusals ------------------------------------------------------------

  /** What a refusal says of the command, its input and the record it opened. */
  ghost predicate Means(log: Log, input: Input, command: Command, before: PipelineRecord, preview: Preview, e: Refusal)
    requires log != []
  {
    var state, branches, proposals := Head(log).state, before.authoring.branches, before.authoring.proposals;
    var head := Head(log).revision;
    match e
    case InvalidIdentity => !ValidName(input.id)
    case OnlyMainCreates => input.createOnly && command != SaveDraft(MAIN)
    case HeadChanged => !input.createOnly && input.expected != Some(head)
    case AlreadyExists => input.createOnly && input.id in state.pipelines
    case Unavailable =>
      || (!input.createOnly && (input.id !in state.pipelines || state.pipelines[input.id].deleted))
      || (command.Deploy? && before.authoring.release.Some? && Alive(Load(log, before.authoring.release.value.revision), input.id).None?)
    case InvalidDraft =>
      || (command.SaveDraft? && !Draft(input.definition))
      || (command.BindOntology? && exists v :: Marks(before.definition, v, command.block) && !Draft(v))
      || (command.Merge? && preview.Ok? && !Draft(preview.value.definition))
    case NameMismatch => command.SaveDraft? && AsStr(Field(input.definition, "name")) != Some(input.name)
    case InvalidBranch =>
      || (command.CreateBranch? && (!ValidName(command.name) || command.name == MAIN))
      || (command.DeleteBranch? && (!ValidName(command.leaf) || command.leaf == MAIN))
    case BranchUnavailable =>
      || (command.SaveDraft? && command.branch != MAIN && command.branch !in branches)
      || (command.DeleteBranch? && command.leaf !in branches)
      || (command.CreateBranch? && command.from != MAIN && command.from !in branches)
      || (command.ProposeMerge? && command.source !in branches)
      || (command.Merge? && command.proposal in proposals &&
          (proposals[command.proposal].sourceBranch !in branches || command.proposal !in branches))
    case BranchHasChildren => command.DeleteBranch? && exists b :: b in branches && branches[b].parent == Some(command.leaf)
    case BranchHasProposal => command.DeleteBranch? && exists p :: p in proposals && proposals[p].sourceBranch == command.leaf
    case BranchExists => command.CreateBranch? && (command.name in branches || |branches| >= 32)
    case ProposalLimit => command.ProposeMerge? && |proposals| >= 32 && command.source !in proposals
    case ProposalUnavailable => command.Merge? && command.proposal !in proposals
    case ProposalChanged =>
      && command.Merge? && command.proposal in proposals && proposals[command.proposal].sourceBranch in branches
      && (proposals[command.proposal].sourceHash.of != branches[proposals[command.proposal].sourceBranch].definition ||
          proposals[command.proposal].targetHash.of != before.definition)
    case MergeRefused(why) => command.Merge? && preview == Err(why)
    case Unresolved =>
      && command.Merge? && command.proposal in proposals && proposals[command.proposal].sourceBranch in branches
      && var b := branches[proposals[command.proposal].sourceBranch];
         && Normalizes(b.base) && Normalizes(before.definition) && Normalizes(b.definition)
         && Conflicts([], Some(Normal(b.base)), Some(Normal(before.definition)), Some(Normal(b.definition)), command.resolutions) != {}
    case NotExecutable =>
      command.Approve? && (!Executable(before.definition) || ReadPipeline(before.definition).None? ||
                           !Structured(ReadPipeline(before.definition).value))
    case SourceRequired => command.Approve? && Sources(before.definition) == []
    case CompositionRefused =>
      || (command.Approve? && Composed(log, input.id, head, before.definition, false).None?)
      || (command.Publish? && Composed(log, input.id, head, before.definition, true).None?)
      || (command.Deploy? && before.authoring.release.Some? &&
          var r := before.authoring.release.value.revision;
          Alive(Load(log, r), input.id).Some? && Composed(log, input.id, r, Alive(Load(log, r), input.id).value.definition, true).None?)
    case ApprovalRequired => command.Publish? && before.authoring.approval.None?
    case ApprovalStale =>
      command.Publish? && before.authoring.approval.Some? && before.authoring.approval.value.of != before.definition
    case PublicationRequired => command.Deploy? && before.authoring.release.None?
    case PublicationInvalid =>
      && command.Deploy? && before.authoring.release.Some?
      && var r := before.authoring.release.value;
         Alive(Load(log, r.revision), input.id).Some? && Alive(Load(log, r.revision), input.id).value.definition != r.hash.of
    case RuntimeRefused =>
      command.Deploy? && before.authoring.release.Some? && Runtime(log, input.id, before.authoring.release.value.revision).None?
    case BindingReplaces => command.BindOntology? && input.definition != before.definition
    case BindingRefused => command.BindOntology? && !BindingOk(log, state, DraftBinding(input.id, command.block, command.ontology))
    case BlockUnavailable =>
      && command.BindOntology?
      && (before.definition.Obj? ==>
            forall i :: FirstNamed(before.definition, command.block, i) ==> !Bindable(Steps(before.definition)[i], command.block))
    case Managed => false
    case InvalidStructure => false
  }

  lemma BoundRefusal(log: Log, state: TenantState, input: Input, record: PipelineRecord, block: string, ontology: string, preview: Preview)
    requires log != [] && state == Head(log).state && BoundTo(log, state, input, record, block, ontology).Err?
    ensures Means(log, input, BindOntology(block, ontology), record, preview, BoundTo(log, state, input, record, block, ontology).error)
  {
    hide BindingOk, Draft, MarkRequired, Marks, FirstNamed, Bindable;
    MarkedIsBindable(record.definition, block);
    if MarkRequired(record.definition, block).Some? {
      MarkMarks(record.definition, block);
    }
  }

  lemma MergeRefusal(log: Log, input: Input, record: PipelineRecord, proposal: string, resolutions: Resolutions, preview: Preview)
    requires log != [] && Merged(record, proposal, preview, Head(log).revision).Err?
    requires PreviewFits(record, PipelineAuthoring.Merge(proposal, resolutions), preview)
    ensures Means(log, input, PipelineAuthoring.Merge(proposal, resolutions), record, preview,
                  Merged(record, proposal, preview, Head(log).revision).error)
  {
    hide Draft, IsPreview, Normalizes, Conflicts, Normal;
    var source := PipelineAuthoring.Pinned(record, proposal);
    if source.Ok? && preview.Ok? {
      PreviewConflicts(source.value.base, record.definition, source.value.definition, resolutions, preview);
      if Draft(preview.value.definition) { DraftTitled(preview.value.definition); }
    }
  }

  lemma PreviewConflicts(base: Value, main: Value, branch: Value, resolutions: Resolutions, preview: Preview)
    requires IsPreview(base, main, branch, resolutions, preview) && preview.Ok?
    ensures Normalizes(base) && Normalizes(main) && Normalizes(branch)
    ensures preview.value.conflicts == [] <==>
      Conflicts([], Some(Normal(base)), Some(Normal(main)), Some(Normal(branch)), resolutions) == {}
  {
    hide PipelineMerging.Merge, Conflicts, TooDeep, Collection, Normal, ReportsAre;
    NothingReported(preview.value.conflicts, Conflicts([], Some(Normal(base)), Some(Normal(main)), Some(Normal(branch)), resolutions));
  }

  lemma DraftTitled(v: Value)
    requires Draft(v)
    ensures AsStr(Field(v, "name")).Some?
  {
  }

  lemma EditedRefusal(log: Log, state: TenantState, input: Input, record: PipelineRecord, command: Command, preview: Preview)
    requires log != [] && state == Head(log).state && Edited(log, state, input, record, command, preview).Err?
    requires PreviewFits(record, command, preview)
    ensures Means(log, input, command, record, preview, Edited(log, state, input, record, command, preview).error)
  {
    hide Composed, Runtime, BindingOk, Draft, Executable, MarkRequired, IsPreview, ValidName, Structured, ReadPipeline, BoundTo, Merged,
      Marks, Normalizes, Conflicts;
    match command
    case BindOntology(block, ontology) => BoundRefusal(log, state, input, record, block, ontology, preview);
    case SaveDraft(branch) =>
    case DeleteBranch(leaf) =>
    case CreateBranch(name, from) =>
    case ProposeMerge(source) =>
    case Merge(proposal, resolutions) => MergeRefusal(log, input, record, proposal, resolutions, preview);
    case Approve =>
    case Publish =>
    case Deploy =>
  }

  /** A command succeeds only if all it demands is met, and every refusal says something true of it. */
  lemma AuthoredAnswers(log: Log, input: Input, command: Command, preview: Preview)
    requires log != [] && (MaySend(log, input, command) ==> PreviewFits(Opened(Head(log).state, input), command, preview))
    ensures var r := Authored(log, input, command, preview);
      && (r.Ok? ==> MaySend(log, input, command) && input.id in r.value.pipelines &&
                    Demands(log, input, command, Opened(Head(log).state, input), r.value.pipelines[input.id]))
      && (r.Err? ==> Means(log, input, command, Opened(Head(log).state, input), preview, r.error))
  {
    hide Edited, Means, Demands, PreviewFits, ValidName;
    var state := Head(log).state;
    var record := Opened(state, input);
    AdmittedMeans(log, input, command, preview);
    if Admitted(log, input, command).None? {
      var r := Edited(log, state, input, record, command, preview);
      if r.Ok? {
        EditedDemands(log, state, input, record, command, preview);
        DemandsIgnorePrevious(log, input, command, record, r.value.record, if input.createOnly then None else Some(Head(log).revision));
      } else {
        EditedRefusal(log, state, input, record, command, preview);
      }
    }
  }

  lemma AdmittedMeans(log: Log, input: Input, command: Command, preview: Preview)
    requires log != []
    ensures Admitted(log, input, command).None? <==> MaySend(log, input, command)
    ensures Admitted(log, input, command).Some? ==>
      Means(log, input, command, Opened(Head(log).state, input), preview, Admitted(log, input, command).value)
  {
    hide ValidName;
  }

  lemma DemandsIgnorePrevious(log: Log, input: Input, command: Command, before: PipelineRecord, after: PipelineRecord, p: Option<string>)
    requires log != [] && Demands(log, input, command, before, after)
    ensures Demands(log, input, command, before, after.(previous := p))
  {
    hide Draft, Executable, Structured, Composed, Runtime, BindingOk, ValidName;
  }
}
