/** The commands of the ontology workspace and what they keep true of an ontology record. */
module OntologyAuthoring {
  import opened Json
  import opened Text
  import opened Snapshots
  import opened Forests
  import opened Graphs
  import opened OntologyDocuments
  import opened OntologyMerging
  import T = ThreeWay
  import P = PipelineAuthoring

  datatype Command =
    | CreateBranch(name: string, from: string)
    | SaveDraft(branch: string)
    | Merge(source: string)
    | DeleteBranch(leaf: string)
    | Delete
    | Restore

  datatype Input = Input(id: string, displayName: string, document: Value, expected: Option<string>, createOnly: bool)

  datatype Refusal =
    | InvalidIdentity
    | RequiresExisting
    | ExpectedRequired
    | InvalidExpected
    | HeadChanged
    | AlreadyExists
    | Unavailable
    | DeletedAlready
    | NotDeleted
    | InvalidBranch
    | BranchLimit
    | BranchUnavailable
    | ParentUnavailable
    | BranchHasChildren
    | InvalidName
    | InvalidOntology
    | OriginImmutable
    | InvalidSource
    | NameConflict
    | MergeRefused(error: MergeError)
    | MergeConflicts
    | MergeUnavailable
    | Protected
    | UsedByPipeline
    | UsedByModel
    | AlreadyPublished
    | PublicationUnavailable
    | PublicationChanged

  const MAX_BRANCHES := 20

  function Origin(v: Value): Option<Value> {
    Field(v, "plugin_origin")
  }

  function Operation(c: Command): string {
    match c
    case CreateBranch(_, _) => "create_branch"
    case SaveDraft(_) => "save_draft"
    case Merge(_) => "merge"
    case DeleteBranch(_) => "delete_branch"
    case Delete => "delete"
    case Restore => "restore"
  }

  function Touched(record: OntologyRecord, previous: Option<string>, branch: string, operation: string): OntologyRecord {
    record.(authoring := record.authoring.(previous := previous, lastBranch := branch, lastOperation := operation))
  }

  // ---- branch commands -----------------------------------------------------

  function Forked(record: OntologyRecord, name: string, from: string, head: string): Result<OntologyRecord, Refusal> {
    var a := record.authoring;
    if !ValidName(name) || name == MAIN || name in a.branches then Err(InvalidBranch)
    else if |a.branches| >= MAX_BRANCHES then Err(BranchLimit)
    else if from != MAIN && from !in a.branches then Err(ParentUnavailable)
    else
      var definition := if from == MAIN then record.ontology else a.branches[from].definition;
      var title := if from == MAIN then record.displayName else a.branches[from].displayName;
      Ok(record.(authoring := a.(branches := a.branches[name := OntologyBranch(from, definition, title, definition, title, head)])))
  }

  ghost function Saved(record: OntologyRecord, branch: string, input: Input): Result<OntologyRecord, Refusal> {
    var a := record.authoring;
    if !ValidName(branch) then Err(InvalidBranch)
    else if Blank(input.displayName) || ByteLength(input.displayName) > 256 then Err(InvalidName)
    else if !ValidDocument(input.document) then Err(InvalidOntology)
    else if Origin(record.ontology) != Origin(input.document) then Err(OriginImmutable)
    else if branch == MAIN then Ok(record.(ontology := input.document, displayName := input.displayName))
    else if branch !in a.branches then Err(BranchUnavailable)
    else
      var saved := a.branches[branch].(definition := input.document, displayName := input.displayName);
      Ok(record.(authoring := a.(branches := a.branches[branch := saved])))
  }

  type Outcome = Result<MergeResult, MergeError>

  /** What the semantic merge promises of its outcome. */
  ghost predicate IsMerge(base: Value, left: Value, right: Value, outcome: Outcome) {
    && (outcome == Err(InvalidVersion) <==> !(ValidDocument(base) && ValidDocument(left) && ValidDocument(right)))
    && outcome != Err(MetadataMissing)
    && (ValidDocument(base) && ValidDocument(left) && ValidDocument(right) ==>
          && base.Obj? && left.Obj? && right.Obj?
          && (outcome == Err(InvalidMerge) <==> ViewConflicts(base, left, right) == {} && Unmergeable(base, left, right))
          && (outcome.Ok? ==> forall c :: c in outcome.value.conflicts <==> c in ViewConflicts(base, left, right))
          && (outcome.Ok? ==> (outcome.value.ontology.Some? <==> ViewConflicts(base, left, right) == {}))
          && (outcome.Ok? && outcome.value.ontology.Some? ==>
                ValidDocument(outcome.value.ontology.value) && Keyable(outcome.value.ontology.value) &&
                View(outcome.value.ontology.value) == MergedView(base, left, right)))
  }

  /** The document and the title a branch merges into. */
  function Target(record: OntologyRecord, parent: string): (Value, string) {
    if parent != MAIN && parent in record.authoring.branches
    then (record.authoring.branches[parent].definition, record.authoring.branches[parent].displayName)
    else (record.ontology, record.displayName)
  }

  function MergeSource(record: OntologyRecord, branch: string): Result<OntologyBranch, Refusal> {
    var a := record.authoring;
    if branch == MAIN then Err(InvalidSource)
    else if branch !in a.branches then Err(BranchUnavailable)
    else
      var source := a.branches[branch];
      if source.parent != MAIN && source.parent !in a.branches then Err(ParentUnavailable)
      else
        var title := Target(record, source.parent).1;
        if title != source.baseDisplayName && source.displayName != source.baseDisplayName && title != source.displayName
        then Err(NameConflict) else Ok(source)
  }

  /** The parent takes the merged document, and the source starts over from what it had. */
  function MergedBranch(record: OntologyRecord, branch: string, outcome: Outcome, head: string): Result<OntologyRecord, Refusal> {
    var a := record.authoring;
    match MergeSource(record, branch)
    case Err(e) => Err(e)
    case Ok(source) =>
      if outcome.Err? then Err(MergeRefused(outcome.error))
      else if outcome.value.conflicts != [] then Err(MergeConflicts)
      else if outcome.value.ontology.None? then Err(MergeUnavailable)
      else
        var merged, title := outcome.value.ontology.value, Target(record, source.parent).1;
        var name := if title == source.baseDisplayName then source.displayName else title;
        var rebased := a.branches[branch := source.(base := source.definition, baseDisplayName := source.displayName, baseRevision := head)];
        if source.parent == MAIN then
          Ok(record.(ontology := merged, displayName := name, authoring := a.(branches := rebased)))
        else
          var parent := rebased[source.parent].(definition := merged, displayName := name);
          Ok(record.(authoring := a.(branches := rebased[source.parent := parent])))
  }

  function Removed(record: OntologyRecord, leaf: string): Result<OntologyRecord, Refusal> {
    var a := record.authoring;
    if leaf == MAIN || leaf !in a.branches then Err(BranchUnavailable)
    else if exists b :: b in a.branches && a.branches[b].parent == leaf then Err(BranchHasChildren)
    else Ok(record.(authoring := a.(branches := a.branches - {leaf})))
  }

  function UsedBy(v: Value): Option<string> {
    AsStr(Get(Field(v, "target_origin"), "ontology_id"))
  }

  /** Hides an ontology nothing depends on; `others` are the tenant's other ontologies. */
  function Hidden(record: OntologyRecord, id: string, others: map<string, OntologyRecord>, bindings: map<(string, string), Binding>)
    : Result<OntologyRecord, Refusal>
  {
    if Origin(record.ontology).Some? then Err(Protected)
    else if exists k :: k in bindings && bindings[k].ontology == id then Err(UsedByPipeline)
    else if exists o :: o in others && !others[o].authoring.deleted && UsedBy(others[o].ontology) == Some(id) then Err(UsedByModel)
    else Ok(record.(authoring := record.authoring.(deleted := true), publication := None))
  }

  function Restored(record: OntologyRecord): Result<OntologyRecord, Refusal> {
    if !record.authoring.deleted then Err(NotDeleted) else Ok(record.(authoring := record.authoring.(deleted := false)))
  }

  /** The branch a command is recorded under: a merge affects the parent. */
  function Affected(record: OntologyRecord, command: Command): string {
    match command
    case CreateBranch(name, _) => name
    case SaveDraft(branch) => branch
    case Merge(source) => if source in record.authoring.branches then record.authoring.branches[source].parent else MAIN
    case DeleteBranch(leaf) => leaf
    case Delete => MAIN
    case Restore => MAIN
  }

  ghost function Edited(state: TenantState, input: Input, record: OntologyRecord, command: Command, outcome: Outcome, head: string)
    : Result<OntologyRecord, Refusal>
  {
    match command
    case CreateBranch(name, from) => Forked(record, name, from, head)
    case SaveDraft(branch) => Saved(record, branch, input)
    case Merge(source) => MergedBranch(record, source, outcome, head)
    case DeleteBranch(leaf) => Removed(record, leaf)
    case Delete => Hidden(record, input.id, state.ontologies - {input.id}, state.bindings)
    case Restore => Restored(record)
  }

  // ---- whole-state operations ----------------------------------------------

  function WithOntology(state: TenantState, id: string, record: OntologyRecord): TenantState {
    state.(ontologies := state.ontologies[id := record])
  }

  /** The checks that precede every workspace command. */
  function Admitted(log: Log, input: Input, command: Command): Option<Refusal>
    requires log != []
  {
    var state, head := Head(log).state, Head(log).revision;
    if !P.ValidIdentity(input.id) then Some(InvalidIdentity)
    else if input.createOnly then Some(RequiresExisting)
    else if input.expected.None? then Some(ExpectedRequired)
    else if !ValidRevision(input.expected.value) then Some(InvalidExpected)
    else if input.expected.value != head then Some(HeadChanged)
    else if input.id !in state.ontologies then Some(Unavailable)
    else if state.ontologies[input.id].authoring.deleted && !command.Restore? then Some(DeletedAlready)
    else None
  }

  /** The next tenant state after a workspace command. */
  ghost function Authored(log: Log, input: Input, command: Command, outcome: Outcome): Result<TenantState, Refusal>
    requires log != []
  {
    var state, head := Head(log).state, Head(log).revision;
    var refused := Admitted(log, input, command);
    if refused.Some? then Err(refused.value)
    else
      var record := state.ontologies[input.id];
      match Edited(state, input, record, command, outcome, head)
      case Err(e) => Err(e)
      case Ok(after) => Ok(WithOntology(state, input.id, Touched(after, Some(head), Affected(record, command), Operation(command))))
  }

  /** Creates or replaces the main document. */
  ghost function Put(log: Log, input: Input): Result<TenantState, Refusal>
    requires log != []
  {
    var state, head := Head(log).state, Head(log).revision;
    if !P.ValidIdentity(input.id) then Err(InvalidIdentity)
    else if input.displayName == "" then Err(InvalidName)
    else if !ValidDocument(input.document) then Err(InvalidOntology)
    else if input.createOnly && input.id in state.ontologies then Err(AlreadyExists)
    else if !input.createOnly && input.id !in state.ontologies then Err(Unavailable)
    else if input.expected.Some? && input.expected.value != head then Err(HeadChanged)
    else if input.expected.None? && !input.createOnly then Err(ExpectedRequired)
    else if input.createOnly then
      Ok(WithOntology(state, input.id, Touched(OntologyRecord(NoBranches, input.displayName, input.document, None), None, MAIN, "save_draft")))
    else
      var record := state.ontologies[input.id];
      if record.authoring.deleted then Err(DeletedAlready)
      else if Origin(record.ontology).Some? && Origin(input.document) != Origin(record.ontology) then Err(OriginImmutable)
      else Ok(WithOntology(state, input.id,
                Touched(record.(displayName := input.displayName, ontology := input.document), Some(head), MAIN, "save_draft")))
  }

  /** Points production at a valid revision of the ontology. */
  ghost function PublishedAt(log: Log, id: string, displayName: string, publicationId: string, revision: string, createOnly: bool)
    : Result<TenantState, Refusal>
    requires log != []
  {
    var state, head := Head(log).state, Head(log).revision;
    var pinned := P.OntologyAt(log, id, revision);
    if !P.ValidIdentity(id) || !P.ValidIdentity(publicationId) then Err(InvalidIdentity)
    else if pinned.None? || id !in state.ontologies then Err(Unavailable)
    else if createOnly && state.ontologies[id].publication.Some? then Err(AlreadyPublished)
    else if state.ontologies[id].authoring.deleted || pinned.value.authoring.deleted then Err(DeletedAlready)
    else
      var publication := Publication(publicationId, revision, Production, Digest(pinned.value.ontology));
      Ok(WithOntology(state, id,
           Touched(state.ontologies[id].(displayName := displayName, publication := Some(publication)), Some(head), MAIN, "publish")))
  }

  function RetiredAt(log: Log, id: string, publicationId: string, revision: string): Result<TenantState, Refusal>
    requires log != []
  {
    var state, head := Head(log).state, Head(log).revision;
    if !P.ValidIdentity(id) then Err(InvalidIdentity)
    else if id !in state.ontologies then Err(Unavailable)
    else if state.ontologies[id].publication.None? then Err(PublicationUnavailable)
    else
      var p := state.ontologies[id].publication.value;
      if p.id != publicationId || p.revision != revision || !p.lifecycle.Production? then Err(PublicationChanged)
      else Ok(WithOntology(state, id,
             Touched(state.ontologies[id].(publication := Some(p.(lifecycle := Retired))), Some(head), MAIN, "retire")))
  }

  // ---- what every command keeps --------------------------------------------

  function ParentsOf(branches: map<string, OntologyBranch>): Parents {
    map b | b in branches :: branches[b].parent
  }

  /** The origin of a branch is main's or missing, and a branch that inherited it still has it. */
  ghost predicate BranchOrigin(main: Option<Value>, b: OntologyBranch) {
    && (Origin(b.definition).Some? ==> Origin(b.definition) == main)
    && (Origin(b.base).Some? ==> Origin(b.base) == main && Origin(b.definition) == main)
  }

  ghost predicate OriginsOk(record: OntologyRecord) {
    forall b :: b in record.authoring.branches ==> BranchOrigin(Origin(record.ontology), record.authoring.branches[b])
  }

  ghost predicate DocumentsOk(record: OntologyRecord) {
    && ValidDocument(record.ontology)
    && forall b :: b in record.authoring.branches ==>
         ValidDocument(record.authoring.branches[b].definition) && ValidDocument(record.authoring.branches[b].base)
  }

  /** A publication names a valid revision with the recorded content; nothing deleted is published. */
  ghost predicate PublicationOk(log: Log, id: string, record: OntologyRecord) {
    && (record.authoring.deleted ==> record.publication.None?)
    && (record.publication.Some? ==>
          var pinned := P.OntologyAt(log, id, record.publication.value.revision);
          pinned.Some? && record.publication.value.hash == Digest(pinned.value.ontology))
  }

  ghost predicate RecordOk(log: Log, id: string, record: OntologyRecord) {
    && Forest(ParentsOf(record.authoring.branches))
    && OriginsOk(record)
    && DocumentsOk(record)
    && PublicationOk(log, id, record)
  }

  lemma RecordStable(log: Log, more: Log, id: string, record: OntologyRecord)
    requires WellFormed(more) && log <= more && RecordOk(log, id, record)
    ensures RecordOk(more, id, record)
  {
    hide WellFormed, Forest, OriginsOk, DocumentsOk;
    if record.publication.Some? {
      LoadStable(log, more, record.publication.value.revision);
    }
  }

  // ---- origins through a merge ---------------------------------------------

  lemma MergedOrigin(base: Value, left: Value, right: Value, merged: Value)
    requires base.Obj? && left.Obj? && right.Obj? && merged.Obj?
    requires View(merged) == MergedView(base, left, right)
    ensures Origin(merged) == T.Merge(Origin(base), Origin(left), Origin(right))
  {
    hide T.Merge;
    MergedMetadata(base, left, right);
    T.MergeField(Some(Metadata(base)), Some(Metadata(left)), Some(Metadata(right)), "plugin_origin");
    assert Get(View(merged), ROOT) == Some(Metadata(merged));
    assert Origin(merged) == Get(Some(Metadata(merged)), "plugin_origin");
  }

  /** Merging keeps main's origin, and a parent that has it. */
  lemma OriginSurvives(main: Option<Value>, base: Option<Value>, left: Option<Value>, right: Option<Value>)
    requires base.Some? ==> base == main && right == main
    requires right.Some? ==> right == main
    requires left.Some? ==> left == main
    ensures T.Merge(base, left, right).Some? ==> T.Merge(base, left, right) == main
    ensures left == main ==> T.Merge(base, left, right) == main
  {
  }

  lemma MergeOutcome(record: OntologyRecord, branch: string, outcome: Outcome)
    requires OriginsOk(record) && DocumentsOk(record) && OutcomeFits(record, Merge(branch), outcome)
    requires MergeSource(record, branch).Ok? && outcome.Ok? && outcome.value.ontology.Some?
    ensures var source := MergeSource(record, branch).value;
      var merged := outcome.value.ontology.value;
      var left := Target(record, source.parent).0;
      && ValidDocument(merged)
      && (Origin(merged).Some? ==> Origin(merged) == Origin(record.ontology))
      && (Origin(left) == Origin(record.ontology) ==> Origin(merged) == Origin(record.ontology))
  {
    hide ValidDocument, MergedView, T.Merge, ViewConflicts;
    var source := MergeSource(record, branch).value;
    var left, merged := Target(record, source.parent).0, outcome.value.ontology.value;
    ValidIsKeyable(source.base);
    ValidIsKeyable(left);
    ValidIsKeyable(source.definition);
    MergedOrigin(source.base, left, source.definition, merged);
    assert BranchOrigin(Origin(record.ontology), source);
    OriginSurvives(Origin(record.ontology), Origin(source.base), Origin(left), Origin(source.definition));
  }

  lemma MergedKeeps(log: Log, id: string, record: OntologyRecord, branch: string, outcome: Outcome, head: string)
    requires RecordOk(log, id, record) && OutcomeFits(record, Merge(branch), outcome)
    requires MergedBranch(record, branch, outcome, head).Ok?
    ensures RecordOk(log, id, MergedBranch(record, branch, outcome, head).value)
    ensures Origin(MergedBranch(record, branch, outcome, head).value.ontology) == Origin(record.ontology)
  {
    hide Forest, ValidDocument, PublicationOk, IsMerge, Origin, MergedBranch;
    MergedShape(record, branch, outcome, head);
    MergeOutcome(record, branch, outcome);
    var after := MergedBranch(record, branch, outcome, head).value;
    forall b | b in after.authoring.branches
      ensures BranchOrigin(Origin(after.ontology), after.authoring.branches[b])
      ensures ValidDocument(after.authoring.branches[b].definition) && ValidDocument(after.authoring.branches[b].base)
    {
      assert BranchOrigin(Origin(record.ontology), record.authoring.branches[b]);
    }
    SamePublication(log, id, record, after);
  }

  /** What a merge changes: main or the parent's document and title, and the base of the source. */
  lemma MergedShape(record: OntologyRecord, branch: string, outcome: Outcome, head: string)
    requires MergedBranch(record, branch, outcome, head).Ok?
    ensures MergeSource(record, branch).Ok? && outcome.Ok? && outcome.value.ontology.Some?
    ensures var before, after := record.authoring.branches, MergedBranch(record, branch, outcome, head).value.authoring.branches;
      var source, merged := MergeSource(record, branch).value, outcome.value.ontology.value;
      && branch in before && source == before[branch]
      && after.Keys == before.Keys && ParentsOf(after) == ParentsOf(before)
      && (forall b :: b in before ==>
            && after[b].base == (if b == branch then source.definition else before[b].base)
            && after[b].definition == (if b == source.parent && b != MAIN then merged else before[b].definition))
    ensures var after := MergedBranch(record, branch, outcome, head).value;
      && after.ontology == (if MergeSource(record, branch).value.parent == MAIN then outcome.value.ontology.value else record.ontology)
      && after.publication == record.publication && after.authoring.deleted == record.authoring.deleted
  {
  }

  lemma SamePublication(log: Log, id: string, record: OntologyRecord, after: OntologyRecord)
    requires PublicationOk(log, id, record)
    requires after.publication == record.publication && after.authoring.deleted == record.authoring.deleted
    ensures PublicationOk(log, id, after)
  {
  }

  // ---- the other commands --------------------------------------------------

  lemma ForkedKeeps(log: Log, id: string, record: OntologyRecord, name: string, from: string, head: string)
    requires RecordOk(log, id, record) && Forked(record, name, from, head).Ok?
    ensures RecordOk(log, id, Forked(record, name, from, head).value)
  {
    hide Forest, ValidDocument, PublicationOk, ValidName, Origin;
    var after := Forked(record, name, from, head).value;
    var branches := record.authoring.branches;
    assert ParentsOf(after.authoring.branches) == ParentsOf(branches)[name := from];
    Grow(ParentsOf(branches), name, from) by { NamesApart(record); }
    SamePublication(log, id, record, after);
  }

  lemma NamesApart(record: OntologyRecord)
    ensures ParentsOf(record.authoring.branches).Keys == record.authoring.branches.Keys
  {
  }

  lemma RemovedKeeps(log: Log, id: string, record: OntologyRecord, leaf: string)
    requires RecordOk(log, id, record) && Removed(record, leaf).Ok?
    ensures RecordOk(log, id, Removed(record, leaf).value)
  {
    hide Forest, ValidDocument, PublicationOk, Origin;
    var after := Removed(record, leaf).value;
    assert ParentsOf(after.authoring.branches) == ParentsOf(record.authoring.branches) - {leaf};
    Prune(ParentsOf(record.authoring.branches), leaf);
    SamePublication(log, id, record, after);
  }

  lemma SavedKeeps(log: Log, id: string, record: OntologyRecord, branch: string, input: Input)
    requires RecordOk(log, id, record) && Saved(record, branch, input).Ok?
    ensures RecordOk(log, id, Saved(record, branch, input).value)
    ensures Origin(Saved(record, branch, input).value.ontology) == Origin(record.ontology)
  {
    hide Forest, ValidDocument, PublicationOk, ValidName, Blank, ByteLength, Origin;
    var after := Saved(record, branch, input).value;
    assert ParentsOf(after.authoring.branches) == ParentsOf(record.authoring.branches);
    SamePublication(log, id, record, after);
  }

  /** What the merge procedure was asked, if the command is a merge. */
  ghost predicate OutcomeFits(record: OntologyRecord, command: Command, outcome: Outcome) {
    command.Merge? && MergeSource(record, command.source).Ok? ==>
      var source := MergeSource(record, command.source).value;
      IsMerge(source.base, Target(record, source.parent).0, source.definition, outcome)
  }

  /** Every workspace command keeps the record as promised, and main keeps its origin. */
  lemma EditedKeeps(log: Log, state: TenantState, input: Input, record: OntologyRecord, command: Command, outcome: Outcome, head: string)
    requires RecordOk(log, input.id, record) && OutcomeFits(record, command, outcome)
    requires Edited(state, input, record, command, outcome, head).Ok?
    ensures RecordOk(log, input.id, Edited(state, input, record, command, outcome, head).value)
    ensures Origin(Edited(state, input, record, command, outcome, head).value.ontology) == Origin(record.ontology)
  {
    hide Forest, ValidDocument, IsMerge, ValidName, OriginsOk, DocumentsOk, PublicationOk, Forked, Saved, Removed, Origin;
    match command
    case CreateBranch(name, from) =>
      ForkedKeeps(log, input.id, record, name, from, head);
      ForkedMain(record, name, from, head);
    case SaveDraft(branch) => SavedKeeps(log, input.id, record, branch, input);
    case Merge(source) => MergedKeeps(log, input.id, record, source, outcome, head);
    case DeleteBranch(leaf) =>
      RemovedKeeps(log, input.id, record, leaf);
      RemovedMain(record, leaf);
    case Delete => HiddenKeeps(log, input.id, record, state);
    case Restore => RestoredKeeps(log, input.id, record);
  }

  lemma ForkedMain(record: OntologyRecord, name: string, from: string, head: string)
    requires Forked(record, name, from, head).Ok?
    ensures Forked(record, name, from, head).value.ontology == record.ontology
  {
  }

  lemma RemovedMain(record: OntologyRecord, leaf: string)
    requires Removed(record, leaf).Ok?
    ensures Removed(record, leaf).value.ontology == record.ontology
  {
  }

  lemma HiddenKeeps(log: Log, id: string, record: OntologyRecord, state: TenantState)
    requires RecordOk(log, id, record) && Hidden(record, id, state.ontologies - {id}, state.bindings).Ok?
    ensures RecordOk(log, id, Hidden(record, id, state.ontologies - {id}, state.bindings).value)
  {
    hide Forest, ValidDocument;
  }

  lemma RestoredKeeps(log: Log, id: string, record: OntologyRecord)
    requires RecordOk(log, id, record) && Restored(record).Ok?
    ensures RecordOk(log, id, Restored(record).value)
  {
    hide Forest, ValidDocument;
  }

  lemma TouchedKeeps(log: Log, id: string, record: OntologyRecord, previous: Option<string>, branch: string, operation: string)
    requires RecordOk(log, id, record)
    ensures RecordOk(log, id, Touched(record, previous, branch, operation))
  {
    hide Forest, ValidDocument, PublicationOk;
    SamePublication(log, id, record, Touched(record, previous, branch, operation));
  }

  lemma AuthoredKeeps(log: Log, input: Input, command: Command, outcome: Outcome)
    requires WellFormed(log) && Authored(log, input, command, outcome).Ok?
    requires RecordOk(log, input.id, Head(log).state.ontologies[input.id])
    requires OutcomeFits(Head(log).state.ontologies[input.id], command, outcome)
    ensures RecordOk(log, input.id, Authored(log, input, command, outcome).value.ontologies[input.id])
    ensures Origin(Authored(log, input, command, outcome).value.ontologies[input.id].ontology) ==
            Origin(Head(log).state.ontologies[input.id].ontology)
  {
    hide RecordOk, Edited, OutcomeFits, Origin;
    var state, head := Head(log).state, Head(log).revision;
    var record := state.ontologies[input.id];
    EditedKeeps(log, state, input, record, command, outcome, head);
    TouchedKeeps(log, input.id, Edited(state, input, record, command, outcome, head).value, Some(head),
                 Affected(record, command), Operation(command));
  }

  lemma PutKeeps(log: Log, input: Input)
    requires WellFormed(log) && Put(log, input).Ok?
    requires input.id in Head(log).state.ontologies ==> RecordOk(log, input.id, Head(log).state.ontologies[input.id])
    ensures RecordOk(log, input.id, Put(log, input).value.ontologies[input.id])
    ensures input.id in Head(log).state.ontologies && Origin(Head(log).state.ontologies[input.id].ontology).Some? ==>
      Origin(Put(log, input).value.ontologies[input.id].ontology) == Origin(Head(log).state.ontologies[input.id].ontology)
  {
    hide ValidDocument, Origin;
    var after := Put(log, input).value.ontologies[input.id];
    if input.id in Head(log).state.ontologies {
      var record := Head(log).state.ontologies[input.id];
      SamePublication(log, input.id, record, after);
      assert ParentsOf(after.authoring.branches) == ParentsOf(record.authoring.branches);
    }
  }

  lemma PublishedKeeps(log: Log, id: string, displayName: string, publicationId: string, revision: string, createOnly: bool)
    requires WellFormed(log) && PublishedAt(log, id, displayName, publicationId, revision, createOnly).Ok?
    requires RecordOk(log, id, Head(log).state.ontologies[id])
    ensures RecordOk(log, id, PublishedAt(log, id, displayName, publicationId, revision, createOnly).value.ontologies[id])
    ensures PublishedAt(log, id, displayName, publicationId, revision, createOnly).value.ontologies[id].ontology ==
            Head(log).state.ontologies[id].ontology
  {
    hide Forest, ValidDocument, P.OntologyAt;
  }

  lemma RetiredKeeps(log: Log, id: string, publicationId: string, revision: string)
    requires WellFormed(log) && RetiredAt(log, id, publicationId, revision).Ok?
    requires RecordOk(log, id, Head(log).state.ontologies[id])
    ensures RecordOk(log, id, RetiredAt(log, id, publicationId, revision).value.ontologies[id])
    ensures RetiredAt(log, id, publicationId, revision).value.ontologies[id].ontology == Head(log).state.ontologies[id].ontology
  {
    hide Forest, ValidDocument, P.OntologyAt;
  }

  // ---- checks that never fire ----------------------------------------------

  /** The merge asked for has no conflict, and no document with the merged content would be valid. */
  ghost predicate Irreconcilable(record: OntologyRecord, branch: string) {
    && MergeSource(record, branch).Ok?
    && var source := MergeSource(record, branch).value;
       var target := Target(record, source.parent).0;
       && source.base.Obj? && target.Obj? && source.definition.Obj?
       && ViewConflicts(source.base, target, source.definition) == {}
       && Unmergeable(source.base, target, source.definition)
  }

  /**
   A merge always finds its parent and three valid documents: it fails only for a wrong source, a name conflict, a
   semantic conflict, or because the merged content is not a valid ontology.
   */
  lemma MergeFindsItsVersions(log: Log, id: string, record: OntologyRecord, branch: string, outcome: Outcome, head: string)
    requires RecordOk(log, id, record) && OutcomeFits(record, Merge(branch), outcome)
    ensures var r := MergedBranch(record, branch, outcome, head);
      r.Err? ==> || r.error == InvalidSource || r.error == BranchUnavailable || r.error == NameConflict || r.error == MergeConflicts
                 || (r.error == MergeRefused(InvalidMerge) && Irreconcilable(record, branch))
    ensures Irreconcilable(record, branch) ==> MergedBranch(record, branch, outcome, head) == Err(MergeRefused(InvalidMerge))
  {
    hide ValidDocument, IsMerge, Forest, OriginsOk, PublicationOk, ViewConflicts, Unmergeable, MergedBranch, MergeSource;
    SourceRefusals(record, branch);
    MergeRefusals(record, branch, outcome, head);
    var source := MergeSource(record, branch);
    if source.Ok? {
      OutcomeExplained(source.value.base, Target(record, source.value.parent).0, source.value.definition, outcome);
      assert outcome.Err? ==> outcome.error == InvalidMerge && outcome == Err(InvalidMerge);
      assert outcome == Err(InvalidMerge) ==> Irreconcilable(record, branch);
    }
  }

  lemma SourceRefusals(record: OntologyRecord, branch: string)
    requires Forest(ParentsOf(record.authoring.branches))
    ensures var r := MergeSource(record, branch);
      && (r.Err? ==> r.error == InvalidSource || r.error == BranchUnavailable || r.error == NameConflict)
      && (r.Ok? ==> branch in record.authoring.branches && r.value == record.authoring.branches[branch])
      && (r.Ok? && r.value.parent != MAIN ==> r.value.parent in record.authoring.branches)
  {
    hide Forest;
    var branches := record.authoring.branches;
    if branch in branches && branches[branch].parent != MAIN {
      ParentExists(ParentsOf(branches), branch);
    }
  }

  lemma MergeRefusals(record: OntologyRecord, branch: string, outcome: Outcome, head: string)
    ensures var r := MergedBranch(record, branch, outcome, head);
      if MergeSource(record, branch).Err? then r == Err(MergeSource(record, branch).error)
      else if outcome.Err? then r == Err(MergeRefused(outcome.error))
      else if outcome.value.conflicts != [] then r == Err(MergeConflicts)
      else if outcome.value.ontology.None? then r == Err(MergeUnavailable)
      else r.Ok?
  {
  }

  lemma OutcomeExplained(base: Value, left: Value, right: Value, outcome: Outcome)
    requires ValidDocument(base) && ValidDocument(left) && ValidDocument(right) && IsMerge(base, left, right, outcome)
    ensures base.Obj? && left.Obj? && right.Obj?
    ensures outcome != Err(InvalidVersion) && outcome != Err(MetadataMissing)
    ensures outcome == Err(InvalidMerge) <==> ViewConflicts(base, left, right) == {} && Unmergeable(base, left, right)
    ensures outcome.Ok? && outcome.value.ontology.None? ==> outcome.value.conflicts != []
  {
    hide ValidDocument, MergedView, ViewConflicts, Unmergeable;
    if outcome.Ok? && outcome.value.ontology.None? {
      var c :| c in ViewConflicts(base, left, right);
      assert c in outcome.value.conflicts;
    }
  }

  lemma ParentExists(parents: Parents, b: string)
    requires Forest(parents) && b in parents && parents[b] != MAIN
    ensures parents[b] in parents
  {
    var path :| RootPath(parents, path) && path[0] == b;
    assert path[1] == parents[b];
  }

  /** Merging a branch nothing was edited on gives its parent's document back, up to resource order. */
  lemma RemergeUnedited(record: OntologyRecord, branch: string, outcome: Outcome, head: string)
    requires DocumentsOk(record) && OutcomeFits(record, Merge(branch), outcome) && Unedited(record, branch)
    requires MergedBranch(record, branch, outcome, head).Ok?
    ensures SameContent(Target(record, Affected(record, Merge(branch))).0,
                        Target(MergedBranch(record, branch, outcome, head).value, Affected(record, Merge(branch))).0)
  {
    hide ValidDocument, MergedView, T.Merge, ViewConflicts, Keyed, MergedBranch, Keyable, View;
    MergedShape(record, branch, outcome, head);
    var source := MergeSource(record, branch).value;
    var left := Target(record, source.parent).0;
    ValidIsKeyable(source.base);
    ValidIsKeyable(left);
    ValidIsKeyable(source.definition);
    KeyableObject(source.base);
    KeyableObject(left);
    UneditedMerge(source.base, left);
    KeyableObject(outcome.value.ontology.value);
  }

  /** After a merge the source branch counts as unedited, so merging it again changes nothing. */
  lemma MergedIsUnedited(record: OntologyRecord, branch: string, outcome: Outcome, head: string)
    requires Forest(ParentsOf(record.authoring.branches)) && MergedBranch(record, branch, outcome, head).Ok?
    ensures Unedited(MergedBranch(record, branch, outcome, head).value, branch)
  {
    hide MergedBranch, Forest;
    MergedShape(record, branch, outcome, head);
    NotOwnParent(ParentsOf(record.authoring.branches), branch);
  }

  lemma NotOwnParent(parents: Parents, b: string)
    requires Forest(parents) && b in parents
    ensures parents[b] != b
  {
    hide Forest;
    ForestIsAcyclic(parents);
    if parents[b] == b { SelfLoop(parents, b); }
  }

  lemma SelfLoop(parents: Parents, b: string)
    requires b in parents && parents[b] == b
    ensures IsCycle(AsEdges(parents), [b, b])
  {
    assert Edge(AsEdges(parents), b, b);
  }

  lemma KeyableObject(v: Value)
    ensures Keyable(v) ==> v.Obj?
  {
  }

  predicate Unedited(record: OntologyRecord, branch: string) {
    branch in record.authoring.branches && record.authoring.branches[branch].definition == record.authoring.branches[branch].base
  }

  /** Equal up to the order of resources. */
  predicate SameContent(a: Value, b: Value) {
    a.Obj? && b.Obj? && View(a) == View(b)
  }
}
