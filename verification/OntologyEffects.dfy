/** What each ontology command demands, sets and leaves alone, and what each refusal says. */
module OntologyEffects {
  import opened Json
  import opened Text
  import opened Snapshots
  import opened Forests
  import opened OntologyDocuments
  import opened OntologyMerging
  import opened OntologyAuthoring
  import P = PipelineAuthoring

  // ---- effects -------------------------------------------------------------

  predicate SameMain(a: OntologyRecord, b: OntologyRecord) {
    a.ontology == b.ontology && a.displayName == b.displayName
  }

  predicate SamePublicationState(a: OntologyRecord, b: OntologyRecord) {
    a.publication == b.publication && a.authoring.deleted == b.authoring.deleted
  }

  predicate SameBranches(a: OntologyRecord, b: OntologyRecord) {
    a.authoring.branches == b.authoring.branches
  }

  /** No branch outside `names` differs. */
  ghost predicate SameBranchesBut(a: OntologyRecord, b: OntologyRecord, names: set<string>) {
    forall x :: x !in names ==>
      (x in a.authoring.branches <==> x in b.authoring.branches) &&
      (x in a.authoring.branches ==> a.authoring.branches[x] == b.authoring.branches[x])
  }

  /** The branch still hangs where it did and remembers the same ancestor. */
  predicate SameAncestor(a: OntologyBranch, b: OntologyBranch) {
    a.parent == b.parent && a.base == b.base && a.baseDisplayName == b.baseDisplayName && a.baseRevision == b.baseRevision
  }

  /** A valid document without conflicts whose content is the three-way merge. */
  ghost predicate MergesInto(base: Value, target: Value, source: Value, after: Value) {
    && base.Obj? && target.Obj? && source.Obj? && after.Obj?
    && ViewConflicts(base, target, source) == {} && ValidDocument(after)
    && Some(Keyed(after)) == MergedView(base, target, source)
  }

  /** The title moves with the branch unless it was changed on the target. */
  predicate TitleMoves(source: OntologyBranch, before: string, after: string) {
    if before == source.baseDisplayName then after == source.displayName else after == before
  }

  ghost predicate MergeEffect(source: string, head: string, before: OntologyRecord, after: OntologyRecord) {
    && SamePublicationState(before, after)
    && source in before.authoring.branches && source in after.authoring.branches
    && var src, now := before.authoring.branches[source], after.authoring.branches[source];
       && now.parent == src.parent && now.definition == src.definition && now.displayName == src.displayName
       && now.base == src.definition && now.baseDisplayName == src.displayName && now.baseRevision == head
       && SameBranchesBut(before, after, {source, src.parent})
       && if src.parent == MAIN then
            && MergesInto(src.base, before.ontology, src.definition, after.ontology)
            && TitleMoves(src, before.displayName, after.displayName)
          else
            && SameMain(before, after)
            && src.parent in before.authoring.branches && src.parent in after.authoring.branches
            && var was, is_ := before.authoring.branches[src.parent], after.authoring.branches[src.parent];
               && SameAncestor(was, is_)
               && MergesInto(src.base, was.definition, src.definition, is_.definition)
               && TitleMoves(src, was.displayName, is_.displayName)
  }

  /** The change a command makes to a record at revision `head`. */
  ghost predicate Effect(input: Input, command: Command, head: string, before: OntologyRecord, after: OntologyRecord) {
    match command
    case CreateBranch(name, from) =>
      && SameMain(before, after) && SamePublicationState(before, after) && SameBranchesBut(before, after, {name})
      && name !in before.authoring.branches && name in after.authoring.branches
      && var a := after.authoring.branches[name];
         && a.parent == from && a.baseRevision == head && a.base == a.definition && a.baseDisplayName == a.displayName
         && if from == MAIN then a.definition == before.ontology && a.displayName == before.displayName
            else from in before.authoring.branches && a.definition == before.authoring.branches[from].definition &&
                 a.displayName == before.authoring.branches[from].displayName
    case SaveDraft(branch) =>
      && SamePublicationState(before, after)
      && if branch == MAIN then
           after.ontology == input.document && after.displayName == input.displayName && SameBranches(before, after)
         else
           && SameMain(before, after) && SameBranchesBut(before, after, {branch})
           && branch in before.authoring.branches && branch in after.authoring.branches
           && var a := after.authoring.branches[branch];
              SameAncestor(before.authoring.branches[branch], a) && a.definition == input.document && a.displayName == input.displayName
    case Merge(source) => MergeEffect(source, head, before, after)
    case DeleteBranch(leaf) =>
      && SameMain(before, after) && SamePublicationState(before, after) && SameBranchesBut(before, after, {leaf})
      && leaf in before.authoring.branches && leaf !in after.authoring.branches
    case Delete =>
      SameMain(before, after) && SameBranches(before, after) && after.authoring.deleted && after.publication.None?
    case Restore =>
      && SameMain(before, after) && SameBranches(before, after) && after.publication == before.publication
      && !after.authoring.deleted
  }

  /** What the history records of a command: a merge counts for the parent. */
  ghost predicate Recorded(command: Command, head: string, before: OntologyRecord, after: OntologyRecord) {
    && after.authoring.previous == Some(head)
    && match command
       case CreateBranch(name, _) => after.authoring.lastOperation == "create_branch" && after.authoring.lastBranch == name
       case SaveDraft(branch) => after.authoring.lastOperation == "save_draft" && after.authoring.lastBranch == branch
       case Merge(source) =>
         && after.authoring.lastOperation == "merge" && source in before.authoring.branches
         && after.authoring.lastBranch == before.authoring.branches[source].parent
       case DeleteBranch(leaf) => after.authoring.lastOperation == "delete_branch" && after.authoring.lastBranch == leaf
       case Delete => after.authoring.lastOperation == "delete" && after.authoring.lastBranch == "main"
       case Restore => after.authoring.lastOperation == "restore" && after.authoring.lastBranch == "main"
  }

  lemma OutcomeMerges(base: Value, left: Value, right: Value, outcome: Outcome)
    requires IsMerge(base, left, right, outcome) && ValidDocument(base) && ValidDocument(left) && ValidDocument(right)
    requires outcome.Ok? && outcome.value.ontology.Some?
    ensures MergesInto(base, left, right, outcome.value.ontology.value)
  {
    hide ValidDocument, MergedView, ViewConflicts, Keyed;
    KeyableObject(outcome.value.ontology.value);
  }

  lemma MergedEffect(record: OntologyRecord, source: string, outcome: Outcome, head: string)
    requires Forest(ParentsOf(record.authoring.branches)) && DocumentsOk(record)
    requires OutcomeFits(record, Merge(source), outcome) && MergedBranch(record, source, outcome, head).Ok?
    ensures MergeEffect(source, head, record, MergedBranch(record, source, outcome, head).value)
  {
    hide Forest, ValidDocument, IsMerge, MergesInto;
    NotOwnParent(ParentsOf(record.authoring.branches), source);
    var src := MergeSource(record, source).value;
    OutcomeMerges(src.base, Target(record, src.parent).0, src.definition, outcome);
  }

  lemma ForkedEffect(record: OntologyRecord, name: string, from: string, input: Input, head: string)
    requires Forked(record, name, from, head).Ok?
    ensures Effect(input, CreateBranch(name, from), head, record, Forked(record, name, from, head).value)
  {
    hide ValidName;
  }

  lemma SavedEffect(record: OntologyRecord, branch: string, input: Input, head: string)
    requires Saved(record, branch, input).Ok?
    ensures Effect(input, SaveDraft(branch), head, record, Saved(record, branch, input).value)
  {
    hide ValidName, ValidDocument, Blank, ByteLength;
  }

  lemma EditedEffect(state: TenantState, input: Input, record: OntologyRecord, command: Command, outcome: Outcome, head: string)
    requires Forest(ParentsOf(record.authoring.branches)) && DocumentsOk(record) && OutcomeFits(record, command, outcome)
    requires Edited(state, input, record, command, outcome, head).Ok?
    ensures Effect(input, command, head, record, Edited(state, input, record, command, outcome, head).value)
  {
    hide Forest, DocumentsOk, OutcomeFits, Forked, Saved, MergedBranch, MergeEffect;
    match command
    case CreateBranch(name, from) => ForkedEffect(record, name, from, input, head);
    case SaveDraft(branch) => SavedEffect(record, branch, input, head);
    case Merge(source) => MergedEffect(record, source, outcome, head);
    case DeleteBranch(leaf) =>
    case Delete =>
    case Restore =>
  }

  lemma EffectIgnoresHistory(input: Input, command: Command, head: string, before: OntologyRecord, after: OntologyRecord,
                             previous: Option<string>, branch: string, operation: string)
    requires Effect(input, command, head, before, after)
    ensures Effect(input, command, head, before, Touched(after, previous, branch, operation))
  {
    hide MergesInto;
  }

  /** What a successful command did. */
  ghost predicate Did(log: Log, input: Input, command: Command, after: TenantState)
    requires log != []
  {
    var state := Head(log).state;
    && after.pipelines == state.pipelines && after.bindings == state.bindings
    && input.id in state.ontologies && input.id in after.ontologies
    && (forall id :: id != input.id ==>
          (id in state.ontologies <==> id in after.ontologies) && (id in state.ontologies ==> after.ontologies[id] == state.ontologies[id]))
    && Effect(input, command, Head(log).revision, state.ontologies[input.id], after.ontologies[input.id])
    && Recorded(command, Head(log).revision, state.ontologies[input.id], after.ontologies[input.id])
  }

  /** Every successful command does exactly what it is for. */
  lemma AuthoredDid(log: Log, input: Input, command: Command, outcome: Outcome)
    requires log != [] && Authored(log, input, command, outcome).Ok?
    requires var record := Head(log).state.ontologies[input.id];
      Forest(ParentsOf(record.authoring.branches)) && DocumentsOk(record) && OutcomeFits(record, command, outcome)
    ensures Did(log, input, command, Authored(log, input, command, outcome).value)
  {
    hide Forest, DocumentsOk, OutcomeFits, Effect, Edited, P.ValidIdentity, ValidRevision;
    var state, head := Head(log).state, Head(log).revision;
    var record := state.ontologies[input.id];
    EditedEffect(state, input, record, command, outcome, head);
    var after := Edited(state, input, record, command, outcome, head).value;
    EffectIgnoresHistory(input, command, head, record, after, Some(head), Affected(record, command), OntologyAuthoring.Operation(command));
    if command.Merge? { MergedSourceThere(state, input, record, command, outcome, head); }
  }

  lemma MergedSourceThere(state: TenantState, input: Input, record: OntologyRecord, command: Command, outcome: Outcome, head: string)
    requires command.Merge? && Edited(state, input, record, command, outcome, head).Ok?
    ensures command.source in record.authoring.branches
  {
  }

  // ---- demands -------------------------------------------------------------

  ghost predicate Demands(log: Log, input: Input, command: Command, before: OntologyRecord)
    requires log != []
  {
    var state, branches := Head(log).state, before.authoring.branches;
    match command
    case CreateBranch(name, from) =>
      ValidName(name) && name != MAIN && name !in branches && |branches| < 20 && (from == MAIN || from in branches)
    case SaveDraft(branch) =>
      && ValidName(branch) && (branch == MAIN || branch in branches)
      && !Blank(input.displayName) && ByteLength(input.displayName) <= 256 && ValidDocument(input.document)
      && Field(before.ontology, "plugin_origin") == Field(input.document, "plugin_origin")
    case Merge(source) =>
      && source != MAIN && source in branches
      && var src := branches[source];
         && (src.parent == MAIN || src.parent in branches)
         && var title := if src.parent == MAIN then before.displayName else branches[src.parent].displayName;
            title == src.baseDisplayName || src.displayName == src.baseDisplayName || title == src.displayName
    case DeleteBranch(leaf) => leaf != MAIN && leaf in branches && forall b :: b in branches ==> branches[b].parent != leaf
    case Delete =>
      && Field(before.ontology, "plugin_origin").None?
      && (forall k :: k in state.bindings ==> state.bindings[k].ontology != input.id)
      && (forall o :: o in state.ontologies && o != input.id && !state.ontologies[o].authoring.deleted ==>
            Get(Field(state.ontologies[o].ontology, "target_origin"), "ontology_id") != Some(Str(input.id)))
    case Restore => before.authoring.deleted
  }

  ghost predicate MaySend(log: Log, input: Input, command: Command)
    requires log != []
  {
    && P.ValidIdentity(input.id) && !input.createOnly && input.expected == Some(Head(log).revision)
    && ValidRevision(Head(log).revision) && input.id in Head(log).state.ontologies
    && (Head(log).state.ontologies[input.id].authoring.deleted ==> command.Restore?)
  }

  lemma UsedByMeans(v: Value, id: string)
    ensures UsedBy(v) == Some(id) <==> Get(Field(v, "target_origin"), "ontology_id") == Some(Str(id))
  {
  }

  lemma EditedDemands(log: Log, input: Input, record: OntologyRecord, command: Command, outcome: Outcome)
    requires log != [] && Edited(Head(log).state, input, record, command, outcome, Head(log).revision).Ok?
    ensures Demands(log, input, command, record)
  {
    hide ValidName, ValidDocument, Blank, ByteLength;
    if command.Delete? {
      var state := Head(log).state;
      var others := state.ontologies - {input.id};
      forall o | o in state.ontologies && o != input.id && !state.ontologies[o].authoring.deleted
        ensures Get(Field(state.ontologies[o].ontology, "target_origin"), "ontology_id") != Some(Str(input.id))
      {
        assert o in others && others[o] == state.ontologies[o];
        UsedByMeans(others[o].ontology, input.id);
      }
    }
  }

  // ---- refusals ------------------------------------------------------------

  /** What a refusal says of the command, its input and the record. */
  ghost predicate Means(log: Log, input: Input, command: Command, before: OntologyRecord, outcome: Outcome, e: Refusal)
    requires log != []
  {
    var state, branches := Head(log).state, before.authoring.branches;
    match e
    case InvalidBranch =>
      || (command.CreateBranch? && (!ValidName(command.name) || command.name == MAIN || command.name in branches))
      || (command.SaveDraft? && !ValidName(command.branch))
    case BranchLimit => command.CreateBranch? && |branches| >= 20
    case ParentUnavailable =>
      || (command.CreateBranch? && command.from != MAIN && command.from !in branches)
      || (command.Merge? && command.source in branches && branches[command.source].parent != MAIN &&
          branches[command.source].parent !in branches)
    case BranchUnavailable =>
      || (command.SaveDraft? && command.branch != MAIN && command.branch !in branches)
      || (command.Merge? && command.source !in branches)
      || (command.DeleteBranch? && (command.leaf == MAIN || command.leaf !in branches))
    case BranchHasChildren => command.DeleteBranch? && exists b :: b in branches && branches[b].parent == command.leaf
    case InvalidName => command.SaveDraft? && (Blank(input.displayName) || ByteLength(input.displayName) > 256)
    case InvalidOntology => command.SaveDraft? && !ValidDocument(input.document)
    case OriginImmutable =>
      command.SaveDraft? && Field(before.ontology, "plugin_origin") != Field(input.document, "plugin_origin")
    case InvalidSource => command.Merge? && command.source == MAIN
    case NameConflict =>
      && command.Merge? && command.source in branches
      && var src := branches[command.source];
         && (src.parent == MAIN || src.parent in branches)
         && var title := if src.parent == MAIN then before.displayName else branches[src.parent].displayName;
            title != src.baseDisplayName && src.displayName != src.baseDisplayName && title != src.displayName
    case MergeRefused(why) => command.Merge? && outcome == Err(why)
    case MergeConflicts => command.Merge? && outcome.Ok? && outcome.value.conflicts != []
    case MergeUnavailable => command.Merge? && outcome.Ok? && outcome.value.ontology.None?
    case Protected => command.Delete? && Field(before.ontology, "plugin_origin").Some?
    case UsedByPipeline => command.Delete? && exists k :: k in state.bindings && state.bindings[k].ontology == input.id
    case UsedByModel =>
      && command.Delete?
      && exists o :: o in state.ontologies && o != input.id && !state.ontologies[o].authoring.deleted &&
                     UsedBy(state.ontologies[o].ontology) == Some(input.id)
    case NotDeleted => command.Restore? && !before.authoring.deleted
    case _ => false
  }

  lemma EditedRefusal(log: Log, input: Input, record: OntologyRecord, command: Command, outcome: Outcome)
    requires log != [] && Edited(Head(log).state, input, record, command, outcome, Head(log).revision).Err?
    ensures Means(log, input, command, record, outcome, Edited(Head(log).state, input, record, command, outcome, Head(log).revision).error)
  {
    hide ValidName, ValidDocument, Blank, ByteLength, UsedBy;
  }

  /** What the checks before any command say. */
  ghost predicate MeansEarly(log: Log, input: Input, command: Command, e: Refusal)
    requires log != []
  {
    var state := Head(log).state;
    match e
    case InvalidIdentity => !P.ValidIdentity(input.id)
    case RequiresExisting => input.createOnly
    case ExpectedRequired => input.expected.None?
    case InvalidExpected => input.expected.Some? && !ValidRevision(input.expected.value)
    case HeadChanged => input.expected != Some(Head(log).revision)
    case Unavailable => input.id !in state.ontologies
    case DeletedAlready => input.id in state.ontologies && state.ontologies[input.id].authoring.deleted && !command.Restore?
    case _ => false
  }

  /** A command succeeds only if all it demands is met, and every refusal says something true of it. */
  lemma AuthoredAnswers(log: Log, input: Input, command: Command, outcome: Outcome)
    requires log != []
    ensures var r := Authored(log, input, command, outcome);
      && (r.Ok? ==> MaySend(log, input, command) && Demands(log, input, command, Head(log).state.ontologies[input.id]))
      && (r.Err? ==>
            || MeansEarly(log, input, command, r.error)
            || (MaySend(log, input, command) && Means(log, input, command, Head(log).state.ontologies[input.id], outcome, r.error)))
  {
    hide P.ValidIdentity, ValidRevision, Edited, Means, Demands;
    var state, head := Head(log).state, Head(log).revision;
    if input.id in state.ontologies {
      var record := state.ontologies[input.id];
      if Edited(state, input, record, command, outcome, head).Ok? {
        EditedDemands(log, input, record, command, outcome);
      } else {
        EditedRefusal(log, input, record, command, outcome);
      }
    }
  }
}
