/** Concrete runs, so that what is proved of all runs is not proved of nothing. */
module Witness {
  import opened Json
  import opened Graphs
  import opened Text
  import opened Pipelines
  import opened PipelineDocuments
  import opened Patches
  import opened Occurrences
  import opened Composition
  import opened CompiledGraph
  import opened Snapshots
  import opened Gathering
  import opened Registry
  import P = PipelineAuthoring
  import D = DefinitionMerging
  import X = Counterexamples
  import RunProperties

  // ---- a document of one source and one step -------------------------------

  const SourceBlock := Obj(map["id" := Str("in"), "topic" := Str("x"), "match_pattern" := Str("x"), "schema_path" := Str("x")])

  /** The step, possibly one that requires an ontology. */
  function StepBlock(required: bool): Value {
    Obj(map["step" := Str("a"), "type" := Str("sink"), "input_from" := Arr([Str("in")]), "ontology_required" := Bool(required)])
  }

  function Definition(required: bool): Value {
    Obj(map["name" := Str("p"), "sources" := Arr([SourceBlock]), "pipeline" := Arr([StepBlock(required)])])
  }

  const SourceSettings := Settings("", NoReference, None, None, None, None, None, SourceBlock)

  function StepSettings(required: bool): Settings {
    Settings("sink", NoReference, None, None, None, None, None, StepBlock(required))
  }

  function Graph(required: bool): Pipeline {
    X.OneStep(Source("in", None, SourceSettings), "a", StepSettings(required))
  }

  lemma Params(v: Value, key: string)
    requires Field(v, "params").None?
    ensures At(Some(v), ["params", key]) == None
  {
    var p := ["params", key];
    assert p[1..] == [key] && [key][1..] == [];
    assert At(Some(v), p) == At(Get(Some(v), "params"), p[1..]);
    assert At(None, [key]) == At(Get(None, key), [key][1..]);
  }

  lemma ReadingSource()
    ensures ReadSource(SourceBlock) == Some(Source("in", None, SourceSettings))
  {
    hide At;
    Params(SourceBlock, "trigger");
    Params(SourceBlock, "merge");
  }

  lemma ReadingInputs()
    ensures ReadStrings([Str("in")]) == Some(["in"])
  {
    var r := ReadStrings([Str("in")]);
    assert |r.value| == 1 && Str("in") == Str(r.value[0]);
    assert r.value == ["in"];
  }

  lemma ReadingStep(required: bool)
    ensures ReadStep(StepBlock(required)) == Some(Graph(required).steps[0])
  {
    hide At, ReadStrings;
    var v := StepBlock(required);
    Params(v, "trigger");
    Params(v, "merge");
    ReadingInputs();
    assert AsArr(Field(v, "input_from")) == Some([Str("in")]);
    assert Field(v, "branches") == None;
  }

  lemma Collections(required: bool)
    ensures AsArr(Field(Definition(required), "sources")).Some? && AsArr(Field(Definition(required), "pipeline")).Some?
    ensures Sources(Definition(required)) == [SourceBlock] && Steps(Definition(required)) == [StepBlock(required)]
  {
    assert AsArr(Field(Definition(required), "sources")) == Some([SourceBlock]);
    assert AsArr(Field(Definition(required), "pipeline")) == Some([StepBlock(required)]);
  }

  lemma Reading(required: bool)
    ensures ReadPipeline(Definition(required)) == Some(Graph(required))
  {
    hide ReadSource, ReadStep, Sources, Steps;
    ReadingSource();
    ReadingStep(required);
    Collections(required);
    var p := ReadPipeline(Definition(required)).value;
    assert p.sources == Graph(required).sources && p.steps == Graph(required).steps;
  }

  lemma GraphOk(required: bool)
    ensures Admissible(Graph(required)) && Structured(Graph(required)) && PinnedReferences(Graph(required)) == []
  {
    X.OneStepStructured(Source("in", None, SourceSettings), "a", StepSettings(required));
    X.BlocksOf(Source("in", None, SourceSettings), "a", StepSettings(required));
    X.PinnedPair(Block("in", SourceSettings), Block("a", StepSettings(required)));
  }

  lemma GraphCompiles(required: bool, id: string, revision: string)
    ensures Compiled(id, revision, Graph(required), map[]).Ok?
  {
    hide Admissible, Structured, Kept, Sound, LocalNames, LocallyRenamed;
    GraphOk(required);
    var occ, c := Root(id, revision, Graph(required)), Counters({}, [], 0, 0, 0);
    EnteredSound(occ, c);
    var named := LocalNames(occ, "", 0);
    var start := Entered(occ, c).value.(nextId := named.1);
    assert StepsExpanded(map[], occ, named.0, 0, start, MAX_TRANSFERS) == Ok(start);
    assert StepsExpanded(map[], occ, named.0, 1, start, MAX_TRANSFERS) == StepExpanded(map[], occ, named.0, 0, start, MAX_TRANSFERS);
  }

  lemma Composable(required: bool, log: Log, id: string, revision: string, strict: bool)
    ensures Composed(log, id, revision, Definition(required), strict).Some?
  {
    hide Compiled, Admissible, Structured, ReadPipeline;
    var p := Graph(required);
    Reading(required);
    GraphOk(required);
    GraphCompiles(required, id, revision);
    var c := Compiled(id, revision, p, map[]).value;
    assert Covers(map[], p);
    assert Least(log, strict, p, map[]);
    assert ComposedOf(log, id, revision, p, strict, map[], c);
    assert Composes(log, id, revision, Definition(required), strict, c);
  }

  // ---- it may be saved and approved ----------------------------------------

  lemma OneLetter(s: string)
    requires s == "p" || s == "a" || s == "x"
    ensures ByteLength(s) == 1 && !Blank(s) && !StartsWith(s, "__linked_") && ValidName(s) && P.ValidIdentity(s)
  {
    assert s[1..] == "";
    assert ByteLength(s) == CharWidth(s[0]) + ByteLength(s[1..]);
    assert !Whitespace(s[0]);
  }

  lemma TwoLetters()
    ensures ValidName("in") && !StartsWith("in", "__linked_")
  {
    X.NamesValid();
  }

  lemma DraftOk(required: bool)
    ensures Draft(Definition(required))
  {
    hide ValidName, StartsWith, Sources, Steps;
    var v := Definition(required);
    Collections(required);
    OneLetter("p");
    OneLetter("a");
    TwoLetters();
    assert AsStr(Field(v, "name")) == Some("p");
    assert BlockIds(v) == [Some("in"), Some("a")];
    assert v.fields.Keys == {"name", "sources", "pipeline"};
    forall x | x in Sources(v) + Steps(v) ensures Field(x, "origin").None? {
      assert x == SourceBlock || x == StepBlock(required);
    }
  }

  lemma StepRuns(required: bool)
    ensures ExecutableStep(StepBlock(required))
  {
    hide At;
    var v := StepBlock(required);
    Params(v, "trigger");
    assert Field(v, "params") == None && Field(v, "capability_id") == None && Field(v, "routing") == None;
    assert AsArr(Field(v, "input_from")) == Some([Str("in")]);
    assert AsStr(Field(v, "type")) == Some("sink");
  }

  lemma ExecutableOk(required: bool)
    ensures Executable(Definition(required))
  {
    hide Draft, ExecutableStep, Sources, Steps, Blank;
    DraftOk(required);
    Collections(required);
    StepRuns(required);
    OneLetter("x");
    assert ExecutableSource(SourceBlock);
  }

  // ---- revisions -----------------------------------------------------------

  function Revision(c: char): string {
    seq(20, _ => c)
  }

  lemma {:induction false} Repeated(s: string, c: char)
    requires c as int < 0x80 && forall i :: 0 <= i < |s| ==> s[i] == c
    ensures ByteLength(s) == |s|
  {
    if s != "" { Repeated(s[1..], c); }
  }

  lemma RevisionOk(c: char)
    requires AsciiAlphanumeric(c)
    ensures ValidRevision(Revision(c))
  {
    Repeated(Revision(c), c);
  }

  lemma RevisionsApart(c: char, d: char)
    requires c != d
    ensures Revision(c) != Revision(d)
  {
    assert Revision(c)[0] != Revision(d)[0];
  }

  const R0 := Revision('a')
  const R1 := Revision('b')
  const R2 := Revision('c')
  const R3 := Revision('d')
  const R4 := Revision('e')

  lemma Revisions()
    ensures ValidRevision(R0) && ValidRevision(R1) && ValidRevision(R2) && ValidRevision(R3) && ValidRevision(R4)
    ensures R0 != R1 && R0 != R2 && R0 != R3 && R0 != R4 && R1 != R2 && R1 != R3 && R1 != R4 && R2 != R3 && R2 != R4 && R3 != R4
  {
    hide ValidRevision, Revision;
    RevisionOk('a'); RevisionOk('b'); RevisionOk('c'); RevisionOk('d'); RevisionOk('e');
    RevisionsApart('a', 'b'); RevisionsApart('a', 'c'); RevisionsApart('a', 'd'); RevisionsApart('a', 'e');
    RevisionsApart('b', 'c'); RevisionsApart('b', 'd'); RevisionsApart('b', 'e');
    RevisionsApart('c', 'd'); RevisionsApart('c', 'e'); RevisionsApart('d', 'e');
  }

  const Log0: Log := [Snapshots.Entry(R0, Empty)]

  lemma Begins()
    ensures Reachable(Log0)
  {
    Revisions();
  }

  /** A tenant with just this pipeline. */
  function Holding(record: PipelineRecord): TenantState {
    Empty.(pipelines := map["p" := record])
  }

  lemma Commits(log: Log, revision: string, state: TenantState, call: Call)
    requires Reachable(log) && Unused(log, revision) && Honest(log, call) && After(log, call) == Some(state)
    ensures Reachable(log + [Snapshots.Entry(revision, state)])
  {
    hide Reachable, Unused, Honest, After;
    Extended(log, log + [Snapshots.Entry(revision, state)]);
  }

  lemma CommitsAuthored(log: Log, revision: string, state: TenantState, input: P.Input, command: P.Command)
    requires Reachable(log) && Unused(log, revision) && !command.Merge?
    requires P.Authored(log, input, command, NoPreview) == Ok(state)
    ensures Reachable(log + [Snapshots.Entry(revision, state)])
  {
    hide Reachable, Unused, P.Authored;
    Commits(log, revision, state, AuthorPipelineCall(input, command, NoPreview));
  }

  lemma UnusedIn(log: Log, revision: string)
    requires ValidRevision(revision) && forall i :: 0 <= i < |log| ==> log[i].revision != revision
    ensures Unused(log, revision)
  {
  }

  lemma AtHead(log: Log)
    requires log != [] && Reachable(log)
    ensures Load(log, Head(log).revision) == Some(Head(log).state)
  {
    hide Reachable, StateOk, Follows;
    RunsKeep(log);
    LoadAt(log, |log| - 1);
  }

  // ---- put and publish -----------------------------------------------------

  const Put := P.Input("p", "p", Definition(false), None, true)
  const Stored := PipelineRecord(NoAuthoring, None, "p", None, Definition(false), false)
  const PutLog := Log0 + [Snapshots.Entry(R1, Holding(Stored))]
  const Live := Stored.(published := Some(R1), previous := Some(R1))
  const LiveLog := PutLog + [Snapshots.Entry(R2, Holding(Live))]

  lemma PutRun()
    ensures Reachable(PutLog)
  {
    hide Composed, Structured, P.ValidIdentity, ValidRevision, ReadPipeline, Reachable, Unused, Definition;
    Revisions();
    Begins();
    OneLetter("p");
    Reading(false);
    GraphOk(false);
    Composable(false, Log0, "p", R0, false);
    assert PutPipeline(Log0, Put) == Ok(Holding(Stored));
    UnusedIn(Log0, R1);
    Commits(Log0, R1, Holding(Stored), PutPipelineCall(Put));
  }

  lemma Bindless(record: PipelineRecord, required: bool)
    requires record.definition == Definition(required)
    ensures DependenciesOk(Holding(record), "p") <==> !required
  {
    hide ReadPipeline, Structured, RequirementsMet;
    Reading(required);
    GraphOk(required);
    assert Bound(Holding(record), "p") == map[];
    Requirement(required);
  }

  lemma Requirement(required: bool)
    ensures RequirementsMet(Definition(required), map[]) <==> !required
  {
    hide At, Steps;
    Collections(required);
    var v := StepBlock(required);
    Params(v, "ontology_id");
    assert Field(v, "ontology_required") == Some(Bool(required));
    assert v in Steps(Definition(required));
  }

  lemma LiveRun()
    ensures Reachable(LiveLog)
  {
    hide Composed, P.ValidIdentity, ValidRevision, DependenciesOk, Reachable, Unused, Load, Definition;
    Revisions();
    OneLetter("p");
    PutRun();
    Bindless(Stored, false);
    Composable(false, PutLog, "p", R1, true);
    AtHead(PutLog);
    var state := Holding(Stored);
    assert state.pipelines["p" := Live] == Holding(Live).pipelines;
    assert PublishPipeline(PutLog, "p", R1) == Ok(Holding(Live));
    UnusedIn(PutLog, R2);
    Commits(PutLog, R2, Holding(Live), PublishPipelineCall("p", R1));
  }

  /** There is a run that puts a pipeline and publishes it, and its production pointer runs. */
  lemma RunExists()
    ensures Reachable(LiveLog) && RunProperties.EverPublished(LiveLog, "p", R1)
    ensures Runtime(LiveLog, "p", R1).Some?
  {
    hide Reachable, Runtime, P.RecordOk;
    LiveRun();
    assert RunProperties.PublishedIn(LiveLog[2].state, "p", R1);
    RunProperties.PublishedRuns(LiveLog, "p", R1);
  }

  // ---- save, approve, publish, deploy --------------------------------------

  const NoPreview: P.Preview := Err(D.NotNormal)

  function Request(required: bool, expected: Option<string>, createOnly: bool): P.Input {
    P.Input("p", "p", Definition(required), expected, createOnly)
  }

  function Saved(required: bool): PipelineRecord {
    PipelineRecord(NoAuthoring.(enabled := true), None, "p", None, Definition(required), false)
  }

  function Approved(required: bool): PipelineRecord {
    var r := Saved(required);
    r.(authoring := r.authoring.(approval := Some(Digest(Definition(required)))), previous := Some(R1))
  }

  function Released(required: bool): PipelineRecord {
    var r := Approved(required);
    r.(authoring := r.authoring.(release := Some(Release(R2, Digest(Definition(required))))), previous := Some(R2))
  }

  const Deployed := Released(false).(published := Some(R2), previous := Some(R3))

  function SavedLog(required: bool): Log {
    Log0 + [Snapshots.Entry(R1, Holding(Saved(required)))]
  }

  function ApprovedLog(required: bool): Log {
    SavedLog(required) + [Snapshots.Entry(R2, Holding(Approved(required)))]
  }

  function ReleasedLog(required: bool): Log {
    ApprovedLog(required) + [Snapshots.Entry(R3, Holding(Released(required)))]
  }

  const DeployedLog := ReleasedLog(false) + [Snapshots.Entry(R4, Holding(Deployed))]

  lemma Replaced(a: PipelineRecord, b: PipelineRecord)
    ensures Holding(a).(pipelines := Holding(a).pipelines["p" := b], bindings := map[]) == Holding(b)
  {
    assert Holding(a).pipelines["p" := b] == Holding(b).pipelines;
  }

  lemma SaveRun(required: bool)
    ensures Reachable(SavedLog(required))
  {
    hide Draft, ValidName, ValidRevision, Reachable, Unused;
    Revisions();
    Begins();
    OneLetter("p");
    DraftOk(required);
    var input := Request(required, None, true);
    assert AsStr(Field(Definition(required), "name")) == Some("p");
    assert Empty.pipelines["p" := Saved(required)] == Holding(Saved(required)).pipelines;
    assert P.Authored(Log0, input, P.SaveDraft("main"), NoPreview) == Ok(Holding(Saved(required)));
    UnusedIn(Log0, R1);
    CommitsAuthored(Log0, R1, Holding(Saved(required)), input, P.SaveDraft("main"));
  }

  lemma ApproveStep(required: bool)
    ensures P.Authored(SavedLog(required), Request(required, Some(R1), false), P.Approve, NoPreview) == Ok(Holding(Approved(required)))
  {
    hide Executable, Structured, Composed, ReadPipeline, Sources, ValidName, ValidRevision, Reachable, Unused, Definition;
    OneLetter("p");
    ExecutableOk(required);
    Collections(required);
    Reading(required);
    GraphOk(required);
    Composable(required, SavedLog(required), "p", R1, false);
    Replaced(Saved(required), Approved(required));
  }

  lemma ApproveRun(required: bool)
    ensures Reachable(ApprovedLog(required))
  {
    hide P.Authored, ValidRevision, Reachable, Unused, Definition;
    Revisions();
    SaveRun(required);
    ApproveStep(required);
    var log := SavedLog(required);
    assert log[0].revision == R0 && log[1].revision == R1;
    UnusedIn(log, R2);
    CommitsAuthored(log, R2, Holding(Approved(required)), Request(required, Some(R1), false), P.Approve);
  }

  lemma ReleaseStep(required: bool)
    ensures P.Authored(ApprovedLog(required), Request(required, Some(R2), false), P.Publish, NoPreview) == Ok(Holding(Released(required)))
  {
    hide Composed, ValidName, ValidRevision, Reachable, Unused, Definition;
    OneLetter("p");
    Composable(required, ApprovedLog(required), "p", R2, true);
    Replaced(Approved(required), Released(required));
  }

  lemma ReleaseRun(required: bool)
    ensures Reachable(ReleasedLog(required))
  {
    hide P.Authored, ValidRevision, Reachable, Unused, Definition;
    Revisions();
    ApproveRun(required);
    ReleaseStep(required);
    var log := ApprovedLog(required);
    assert log[0].revision == R0 && log[1].revision == R1 && log[2].revision == R2;
    UnusedIn(log, R3);
    CommitsAuthored(log, R3, Holding(Released(required)), Request(required, Some(R2), false), P.Publish);
  }

  /** What the released revision holds, and whether it runs. */
  lemma ReleasedRevision(required: bool)
    ensures Reachable(ReleasedLog(required))
    ensures Load(ReleasedLog(required), R2) == Some(Holding(Approved(required)))
    ensures Composed(ReleasedLog(required), "p", R2, Definition(required), true).Some?
    ensures Runtime(ReleasedLog(required), "p", R2).Some? <==> !required
  {
    hide Composed, ValidRevision, Reachable, DependenciesOk, Definition, StateOk, Follows;
    Revisions();
    ReleaseRun(required);
    var log := ReleasedLog(required);
    RunsKeep(log);
    assert log[2] == Snapshots.Entry(R2, Holding(Approved(required)));
    LoadAt(log, 2);
    Bindless(Approved(required), required);
    Composable(required, log, "p", R2, true);
  }

  lemma DeployOutcome(required: bool)
    ensures P.Admitted(ReleasedLog(required), Request(required, Some(R3), false), P.Deploy).None?
    ensures P.Deployed(ReleasedLog(required), "p", Released(required)) ==
      if required then Err(P.RuntimeRefused) else Ok(Released(required).(published := Some(R2)))
  {
    hide Composed, Runtime, Reachable, Load, Definition, ValidName;
    OneLetter("p");
    ReleasedRevision(required);
  }

  lemma DeployStep()
    ensures P.Authored(ReleasedLog(false), Request(false, Some(R3), false), P.Deploy, NoPreview) == Ok(Holding(Deployed))
  {
    hide Composed, Runtime, ValidName, ValidRevision, Definition, P.Admitted, P.Deployed;
    DeployOutcome(false);
    Replaced(Released(false), Deployed);
    assert P.Opened(Head(ReleasedLog(false)).state, Request(false, Some(R3), false)) == Released(false);
  }

  /** There is a run that saves, approves, publishes and deploys a pipeline, and what it deployed runs. */
  lemma ChainExists()
    ensures Reachable(DeployedLog) && RunProperties.EverPublished(DeployedLog, "p", R2)
    ensures Runtime(DeployedLog, "p", R2).Some?
  {
    hide P.Authored, Runtime, Reachable, ValidRevision, Unused, Definition, P.PointerOk;
    Revisions();
    DeployStep();
    ReleaseRun(false);
    var log := ReleasedLog(false);
    assert log[0].revision == R0 && log[1].revision == R1 && log[2].revision == R2 && log[3].revision == R3;
    UnusedIn(log, R4);
    CommitsAuthored(log, R4, Holding(Deployed), Request(false, Some(R3), false), P.Deploy);
    assert RunProperties.PublishedIn(DeployedLog[4].state, "p", R2);
    RunProperties.PublishedRuns(DeployedLog, "p", R2);
    PointerRuns(DeployedLog, "p", R2);
  }

  lemma PointerRuns(log: Log, id: string, revision: string)
    requires P.PointerOk(log, id, revision)
    ensures Runtime(log, id, revision).Some?
  {
  }

  /**
   There is a run in which a pipeline is approved and published although one of its steps requires an ontology and has
   no binding; only deploying it is refused.
   */
  lemma ReleaseRefused()
    ensures Reachable(ReleasedLog(true))
    ensures Head(ReleasedLog(true)).state.pipelines["p"].authoring.release == Some(Release(R2, Digest(Definition(true))))
    ensures P.Authored(ReleasedLog(true), Request(true, Some(R3), false), P.Deploy, NoPreview) == Err(P.RuntimeRefused)
  {
    hide Composed, Runtime, Reachable, Definition, P.Admitted, P.Deployed;
    ReleaseRun(true);
    DeployOutcome(true);
    assert P.Opened(Head(ReleasedLog(true)).state, Request(true, Some(R3), false)) == Released(true);
  }
}
