/** Reading authored pipeline documents, and the checks made on documents rather than on graphs. */
module PipelineDocuments {
  import opened Json
  import opened Text
  import opened Graphs
  import opened Pipelines
  import opened Patches
  import opened Indexing
  import DefinitionMerging

  // ---- from documents to graphs --------------------------------------------

  /** A reference is an object with exactly the three fields, all strings. */
  function ReadReference(v: Option<Value>): ReferenceField {
    if Missing(v) then NoReference
    else
      var pipeline, revision, input := AsStr(Get(v, "pipeline_id")), AsStr(Get(v, "revision_id")), AsStr(Get(v, "input_source"));
      if pipeline.Some? && revision.Some? && input.Some? && Keys(v) == {"pipeline_id", "revision_id", "input_source"}
      then Pinned(Reference(pipeline.value, revision.value, input.value))
      else MalformedReference
  }

  function TextOr(v: Option<Value>, default: string): string {
    var s := AsStr(v);
    if s.Some? then s.value else default
  }

  function ReadSettings(v: Value): Settings {
    Settings(TextOr(Field(v, "type"), ""), ReadReference(Field(v, "pipeline_ref")), Field(v, "capability_id"), Field(v, "model"),
             At(Some(v), ["params", "trigger"]), At(Some(v), ["params", "merge"]), Field(v, "origin"), v)
  }

  function ReadStrings(items: seq<Value>): (r: Option<seq<string>>)
    ensures r.Some? <==> forall i :: 0 <= i < |items| ==> items[i].Str?
    ensures r.Some? ==> |r.value| == |items| && forall i :: 0 <= i < |items| ==> items[i] == Str(r.value[i])
  {
    if forall i :: 0 <= i < |items| ==> items[i].Str?
    then Some(seq(|items|, i requires 0 <= i < |items| => AsStr(Some(items[i])).value))
    else None
  }

  function ReadTargets(v: Value): Option<seq<string>> {
    if v.Arr? then ReadStrings(v.items) else None
  }

  /** Anything but an object counts as no branches; an object must list strings under every label. */
  function ReadBranches(v: Option<Value>): Option<Option<map<string, seq<string>>>> {
    if !IsObject(v) then Some(None)
    else if forall k :: k in v.value.fields ==> ReadTargets(v.value.fields[k]).Some?
    then Some(Some(map k | k in v.value.fields :: ReadTargets(v.value.fields[k]).value))
    else None
  }

  function ReadSource(v: Value): Option<Source> {
    var id, step := AsStr(Field(v, "id")), Field(v, "step");
    if id.None? || (step.Some? && !step.value.Str?) then None
    else Some(Source(id.value, AsStr(step), ReadSettings(v)))
  }

  function ReadStep(v: Value): Option<Step> {
    var id, inputs, branches := AsStr(Field(v, "step")), AsArr(Field(v, "input_from")), ReadBranches(Field(v, "branches"));
    if id.None? || inputs.None? || branches.None? || ReadStrings(inputs.value).None? then None
    else Some(Step(id.value, ReadStrings(inputs.value).value, branches.value, AsStr(Field(v, "routing")), ReadSettings(v)))
  }

  function Sources(v: Value): seq<Value> {
    DefinitionMerging.CollectionItems(v, "sources")
  }

  function Steps(v: Value): seq<Value> {
    DefinitionMerging.CollectionItems(v, "pipeline")
  }

  /** The graph of a document; none if some block cannot be read. */
  function ReadPipeline(v: Value): Option<Pipeline> {
    if AsArr(Field(v, "sources")).None? || AsArr(Field(v, "pipeline")).None? then None
    else if (forall x :: x in Sources(v) ==> ReadSource(x).Some?) && (forall x :: x in Steps(v) ==> ReadStep(x).Some?)
    then Some(Pipeline(
      seq(|Sources(v)|, i requires 0 <= i < |Sources(v)| => ReadSource(Sources(v)[i]).value),
      seq(|Steps(v)|, i requires 0 <= i < |Steps(v)| => ReadStep(Steps(v)[i]).value)))
    else None
  }

  // ---- ontology requirements -----------------------------------------------

  /** Steps that require an ontology are bound, and those that name one are bound to that one. */
  predicate RequirementsMet(v: Value, bound: map<string, string>) {
    forall x :: x in Steps(v) ==>
      var id := TextOr(Field(x, "step"), "");
      && (Field(x, "ontology_required") == Some(Bool(true)) ==> id in bound)
      && (AsStr(At(Some(x), ["params", "ontology_id"])).Some? ==>
            id in bound && bound[id] == AsStr(At(Some(x), ["params", "ontology_id"])).value)
  }

  predicate HasStep(v: Value, block: string) {
    exists x :: x in Steps(v) && AsStr(Field(x, "step")) == Some(block)
  }

  /** The position of the first step called `block`. */
  function StepIndex(steps: seq<Value>, block: string): (i: nat)
    ensures i <= |steps|
    ensures i < |steps| ==> AsStr(Field(steps[i], "step")) == Some(block)
    ensures forall j :: 0 <= j < i ==> AsStr(Field(steps[j], "step")) != Some(block)
  {
    if steps == [] || AsStr(Field(steps[0], "step")) == Some(block) then 0 else 1 + StepIndex(steps[1..], block)
  }

  /** The document with the first step called `block` marked as requiring an ontology; none for control flow. */
  function MarkRequired(v: Value, block: string): Option<Value> {
    var i := StepIndex(Steps(v), block);
    if !v.Obj? || i == |Steps(v)| then None
    else
      var step := Steps(v)[i];
      var kind := AsStr(Field(step, "type"));
      if kind.None? || kind.value in {"forward", "filter", "pipeline"} || !step.Obj? then None
      else Some(Obj(v.fields["pipeline" := Arr(Steps(v)[i := Obj(step.fields["ontology_required" := Bool(true)])])]))
  }

  // ---- drafts and executables ----------------------------------------------

  predicate Titled(v: Value) {
    var name := AsStr(Field(v, "name"));
    name.Some? && !Blank(name.value) && ByteLength(name.value) <= 256
  }

  function BlockIds(v: Value): (ids: seq<Option<string>>)
    ensures |ids| == |Sources(v)| + |Steps(v)|
  {
    seq(|Sources(v)|, i requires 0 <= i < |Sources(v)| => AsStr(Field(Sources(v)[i], "id")))
    + seq(|Steps(v)|, i requires 0 <= i < |Steps(v)| => AsStr(Field(Steps(v)[i], "step")))
  }

  /** What may be saved: possibly incomplete, but without service settings, reserved names or repeated blocks. */
  predicate Draft(v: Value) {
    && v.Obj?
    && v.fields.Keys <= {"name", "version", "sources", "pipeline", "editor"}
    && Titled(v)
    && AsArr(Field(v, "sources")).Some? && AsArr(Field(v, "pipeline")).Some?
    && |Sources(v)| + |Steps(v)| <= MAX_BLOCKS
    && (forall id :: id in BlockIds(v) ==> id.Some? && ValidName(id.value) && !StartsWith(id.value, "__linked_"))
    && Distinct(BlockIds(v))
    && (forall x :: x in Sources(v) + Steps(v) ==> Field(x, "origin").None?)
  }

  predicate NonBlank(v: Option<Value>) {
    var s := AsStr(v);
    s.Some? && !Blank(s.value)
  }

  predicate Mailbox(v: Option<Value>) {
    var s := AsStr(v);
    s.Some? && |s.value| == 32 &&
    forall i :: 0 <= i < 32 ==> '0' <= s.value[i] <= '9' || 'a' <= s.value[i] <= 'f' || 'A' <= s.value[i] <= 'F'
  }

  predicate OneOf(v: Option<Value>, allowed: set<string>) {
    var s := AsStr(v);
    s.Some? && s.value in allowed
  }

  predicate ExecutableSource(v: Value) {
    && (AsStr(Field(v, "capability_id")) == Some("utils.input.email") ==> Mailbox(Field(v, "account_id")))
    && NonBlank(Field(v, "topic")) && NonBlank(Field(v, "match_pattern")) && NonBlank(Field(v, "schema_path"))
  }

  predicate Condition(v: Value) {
    && OneOf(Field(v, "field"), {"sender", "recipient", "subject", "body", "account"})
    && OneOf(Field(v, "operator"), {"equals", "contains", "starts_with", "not_equals"})
    && NonBlank(Field(v, "value")) && ByteLength(TextOr(Field(v, "value"), "")) <= 2048
  }

  predicate Conditions(v: Value) {
    var conditions := AsArr(At(Some(v), ["params", "conditions"]));
    conditions.Some? && 0 < |conditions.value| <= 16 && forall c :: c in conditions.value ==> Condition(c)
  }

  predicate Timed(v: Value) {
    OneOf(At(Some(v), ["params", "trigger"]), {"cron", "on_demand"})
  }

  predicate ExecutableStep(v: Value) {
    var params := Field(v, "params");
    var inputs := AsArr(Field(v, "input_from"));
    var union := AsStr(Field(v, "type")) == Some("forward") && AsStr(Get(params, "merge")) == Some("union");
    && (AsStr(Field(v, "capability_id")) == Some("utils.output.reply") ==>
          && (AsStr(Get(params, "sender_account_id")) == Some("source") || Mailbox(Get(params, "sender_account_id")))
          && OneOf(Get(params, "delivery_mode"), {"automatic", "approval", "draft"}))
    && AsStr(Field(v, "type")).Some? && inputs.Some?
    && (AsStr(Get(params, "trigger")) == Some("cron") ==> NonBlank(Get(params, "cron")))
    && (if Timed(v) then inputs.value == [] else inputs.value != [] && (|inputs.value| == 1 || union))
    && (AsStr(Field(v, "type")) == Some("filter") || AsStr(Field(v, "routing")) == Some("conditions") ==> Conditions(v))
  }

  /** The checks on configuration fields that precede an approval. */
  predicate Executable(v: Value) {
    && Draft(v)
    && (forall x :: x in Sources(v) ==> ExecutableSource(x))
    && (Sources(v) != [] || exists x :: x in Steps(v) && Timed(x))
    && (forall x :: x in Steps(v) ==> ExecutableStep(x))
  }
}
