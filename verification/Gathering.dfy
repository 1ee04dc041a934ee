/** Collecting the pinned revisions a composition needs, and what a pinned revision runs. */
module Gathering {
  import opened Json
  import opened Text
  import opened Pipelines
  import opened PipelineDocuments
  import opened Occurrences
  import opened Composition
  import opened CompiledGraph
  import opened Traces
  import opened Snapshots

  type Key = (string, string)

  function KeyOf(r: Reference): Key {
    (r.pipelineId, r.revisionId)
  }

  // ---- ontology dependencies at one revision -------------------------------

  function Bound(state: TenantState, pipeline: string): map<string, string> {
    map k | k in state.bindings.Keys && k.0 == pipeline :: k.1 := state.bindings[k].ontology
  }

  predicate Published(state: TenantState, ontology: string) {
    && ontology in state.ontologies
    && state.ontologies[ontology].publication.Some?
    && state.ontologies[ontology].publication.value.lifecycle.Production?
  }

  /** The pipeline is valid with its bindings, all of which lead to production ontologies. */
  ghost predicate DependenciesOk(state: TenantState, pipeline: string) {
    && pipeline in state.pipelines
    && ReadPipeline(state.pipelines[pipeline].definition).Some?
    && Structured(ReadPipeline(state.pipelines[pipeline].definition).value)
    && RequirementsMet(state.pipelines[pipeline].definition, Bound(state, pipeline))
    && forall k :: k in state.bindings && k.0 == pipeline ==> Published(state, state.bindings[k].ontology)
  }

  // ---- resolving one reference ---------------------------------------------

  /** The pipeline a reference pins, if that revision holds it, alive, readable and with readable references. */
  ghost function Resolve(log: Log, key: Key, strict: bool): Option<Pipeline> {
    var state := Load(log, key.1);
    if state.None? || key.0 !in state.value.pipelines || state.value.pipelines[key.0].deleted then None
    else if strict && !DependenciesOk(state.value, key.0) then None
    else
      var p := ReadPipeline(state.value.pipelines[key.0].definition);
      if p.None? || !Admissible(p.value) then None else p
  }

  lemma ResolveStable(log: Log, more: Log, key: Key, strict: bool)
    requires WellFormed(more) && log <= more && Resolve(log, key, strict).Some?
    ensures Resolve(more, key, strict) == Resolve(log, key, strict)
  {
    LoadStable(log, more, key.1);
  }

  // ---- the closure ---------------------------------------------------------

  /** Everything in the library is what the log pins under its key, and nothing it refers to is missing. */
  ghost predicate Closed(log: Log, strict: bool, root: Pipeline, lib: Library) {
    && (forall k :: k in lib ==> Resolve(log, k, strict) == Some(lib[k]))
    && Covers(lib, root) && ReferenceClosed(lib)
  }

  ghost predicate Within(lib: Library, all: Library) {
    forall k :: k in lib ==> k in all
  }

  /** The least closed library. */
  ghost predicate Least(log: Log, strict: bool, root: Pipeline, lib: Library) {
    Closed(log, strict, root, lib) && forall other :: Closed(log, strict, root, other) ==> Within(lib, other)
  }

  lemma LeastUnique(log: Log, strict: bool, root: Pipeline, a: Library, b: Library)
    requires Least(log, strict, root, a) && Least(log, strict, root, b)
    ensures a == b
  {
    assert Within(a, b) && Within(b, a);
    forall k | k in a ensures a[k] == b[k] {}
  }

  function Common(a: Library, b: Library): Library {
    map k | k in a && k in b :: a[k]
  }

  lemma CommonClosed(log: Log, more: Log, strict: bool, root: Pipeline, lib: Library, other: Library)
    requires WellFormed(more) && log <= more && Closed(log, strict, root, lib) && Closed(more, strict, root, other)
    ensures Closed(log, strict, root, Common(lib, other))
  {
    var both := Common(lib, other);
    forall k | k in both ensures Resolve(log, k, strict) == Some(both[k]) && Covers(both, both[k]) {
      ResolveStable(log, more, k, strict);
      assert Covers(lib, lib[k]) && Covers(other, other[k]);
    }
  }

  /** Later revisions do not change what an already complete composition consists of. */
  lemma LeastStable(log: Log, more: Log, strict: bool, root: Pipeline, lib: Library)
    requires WellFormed(more) && log <= more && Least(log, strict, root, lib)
    ensures Least(more, strict, root, lib)
  {
    forall k | k in lib ensures Resolve(more, k, strict) == Some(lib[k]) {
      ResolveStable(log, more, k, strict);
    }
    forall other | Closed(more, strict, root, other) ensures Within(lib, other) {
      CommonClosed(log, more, strict, root, lib, other);
      assert Within(lib, Common(lib, other));
    }
  }

  // ---- the worklist --------------------------------------------------------

  datatype GatherError = ReferencesRefused | TooManyDefinitions | RevisionMissing | DependencyRefused | PipelineMissing

  method ValidateDependencies(state: TenantState, pipeline: string) returns (ok: bool)
    ensures ok <==> DependenciesOk(state, pipeline)
  {
    if pipeline !in state.pipelines {
      return false;
    }
    var definition := state.pipelines[pipeline].definition;
    var p := ReadPipeline(definition);
    if p.None? {
      return false;
    }
    var order := ValidateStructure(p.value);
    if order.None? || !RequirementsMet(definition, Bound(state, pipeline)) {
      return false;
    }
    ok := forall k :: k in state.bindings && k.0 == pipeline ==> Published(state, state.bindings[k].ontology);
  }

  method LoadDefinition(log: Log, key: Key, strict: bool) returns (r: Result<(Pipeline, seq<Reference>), GatherError>)
    ensures r.Ok? <==> Resolve(log, key, strict).Some?
    ensures r.Ok? ==> r.value == (Resolve(log, key, strict).value, PinnedReferences(Resolve(log, key, strict).value))
  {
    hide DependenciesOk, Admissible;
    var state := Load(log, key.1);
    if state.None? {
      return Err(RevisionMissing);
    }
    if strict {
      var valid := ValidateDependencies(state.value, key.0);
      if !valid {
        return Err(DependencyRefused);
      }
    }
    if key.0 !in state.value.pipelines || state.value.pipelines[key.0].deleted {
      return Err(PipelineMissing);
    }
    var p := ReadPipeline(state.value.pipelines[key.0].definition);
    if p.None? {
      return Err(ReferencesRefused);
    }
    var references := References(p.value);
    if references.None? {
      return Err(ReferencesRefused);
    }
    return Ok((p.value, references.value));
  }

  /** The references of `p` are collected or wait to be. */
  ghost predicate Pending(p: Pipeline, lib: Library, pending: seq<Reference>) {
    forall r :: r in PinnedReferences(p) ==> KeyOf(r) in lib || r in pending
  }

  /** Whatever was collected or waits is needed by every closed library. */
  ghost predicate Needed(log: Log, strict: bool, root: Pipeline, lib: Library, pending: seq<Reference>) {
    forall other :: Closed(log, strict, root, other) ==> Within(lib, other) && forall r :: r in pending ==> KeyOf(r) in other
  }

  ghost predicate Collecting(log: Log, strict: bool, root: Pipeline, lib: Library, pending: seq<Reference>) {
    && (forall k :: k in lib ==> Resolve(log, k, strict) == Some(lib[k]) && Pending(lib[k], lib, pending))
    && Pending(root, lib, pending)
    && Needed(log, strict, root, lib, pending)
  }

  lemma CollectStart(log: Log, strict: bool, root: Pipeline)
    ensures Collecting(log, strict, root, map[], PinnedReferences(root))
  {
  }

  lemma CollectKnown(log: Log, strict: bool, root: Pipeline, lib: Library, rest: seq<Reference>, r: Reference)
    requires Collecting(log, strict, root, lib, rest + [r]) && KeyOf(r) in lib
    ensures Collecting(log, strict, root, lib, rest)
  {
    forall p | Pending(p, lib, rest + [r]) ensures Pending(p, lib, rest) {}
    forall other | Closed(log, strict, root, other) ensures Within(lib, other) && forall q :: q in rest ==> KeyOf(q) in other {
      forall q | q in rest ensures KeyOf(q) in other { assert q in rest + [r]; }
    }
  }

  lemma CollectMore(log: Log, strict: bool, root: Pipeline, lib: Library, rest: seq<Reference>, r: Reference, p: Pipeline)
    requires Collecting(log, strict, root, lib, rest + [r]) && KeyOf(r) !in lib && Resolve(log, KeyOf(r), strict) == Some(p)
    ensures Collecting(log, strict, root, lib[KeyOf(r) := p], rest + PinnedReferences(p))
  {
    hide Resolve, PinnedReferences, Needed, Closed;
    var lib', pending' := lib[KeyOf(r) := p], rest + PinnedReferences(p);
    forall q | Pending(q, lib, rest + [r]) ensures Pending(q, lib', pending') {}
    NeededMore(log, strict, root, lib, rest, r, p);
  }

  lemma NeededMore(log: Log, strict: bool, root: Pipeline, lib: Library, rest: seq<Reference>, r: Reference, p: Pipeline)
    requires Needed(log, strict, root, lib, rest + [r]) && Resolve(log, KeyOf(r), strict) == Some(p)
    ensures Needed(log, strict, root, lib[KeyOf(r) := p], rest + PinnedReferences(p))
  {
    hide Resolve, PinnedReferences;
    var lib', pending' := lib[KeyOf(r) := p], rest + PinnedReferences(p);
    forall other | Closed(log, strict, root, other)
      ensures Within(lib', other) && forall q :: q in pending' ==> KeyOf(q) in other
    {
      assert r in rest + [r];
      assert Covers(other, other[KeyOf(r)]);
      forall q | q in pending' ensures KeyOf(q) in other {
        if q in rest { assert q in rest + [r]; }
      }
    }
  }

  lemma CollectEnd(log: Log, strict: bool, root: Pipeline, lib: Library)
    requires Collecting(log, strict, root, lib, [])
    ensures Least(log, strict, root, lib)
  {
    forall k | k in lib ensures Covers(lib, lib[k]) { assert Pending(lib[k], lib, []); }
  }

  /** There is a closed library small enough. */
  ghost predicate Gatherable(log: Log, strict: bool, root: Pipeline) {
    Admissible(root) && exists lib :: Closed(log, strict, root, lib) && |lib| <= MAX_TRANSFERS
  }

  lemma StuckOn(log: Log, strict: bool, root: Pipeline, lib: Library, rest: seq<Reference>, r: Reference)
    requires Collecting(log, strict, root, lib, rest + [r]) && KeyOf(r) !in lib
    requires |lib| >= MAX_TRANSFERS || Resolve(log, KeyOf(r), strict).None?
    ensures !Gatherable(log, strict, root)
  {
    hide Resolve, PinnedReferences, Admissible, Pending, ReferenceClosed, Covers;
    forall other | Closed(log, strict, root, other) ensures |other| > MAX_TRANSFERS {
      assert r in rest + [r];
      assert Within(lib, other) && KeyOf(r) in other;
      OneMore(lib, other, KeyOf(r));
    }
  }

  lemma OneMore(lib: Library, other: Library, k: Key)
    requires Within(lib, other) && k !in lib && k in other
    ensures |lib| < |other|
  {
    var x, y := lib.Keys, other.Keys;
    assert x <= y && k in y - x;
    assert |y| == |y - x| + |x|;
  }

  lemma Popped<T>(s: seq<T>)
    requires s != []
    ensures s == s[..|s| - 1] + [s[|s| - 1]]
  {
  }

  /** Loads each pinned dependency once; succeeds exactly if the references close over at most three revisions. */
  method Gather(log: Log, root: Pipeline, strict: bool) returns (r: Result<Library, GatherError>)
    ensures r.Ok? <==> Gatherable(log, strict, root)
    ensures r.Ok? ==> Least(log, strict, root, r.value) && |r.value| <= MAX_TRANSFERS
  {
    hide Collecting, Closed, Admissible, PinnedReferences, Resolve, Least;
    var references := References(root);
    if references.None? {
      return Err(ReferencesRefused);
    }
    var pending := references.value;
    var definitions: Library := map[];
    CollectStart(log, strict, root);
    while pending != []
      invariant Collecting(log, strict, root, definitions, pending) && |definitions| <= MAX_TRANSFERS
      decreases MAX_TRANSFERS - |definitions|, |pending|
    {
      var reference := pending[|pending| - 1];
      Popped(pending);
      pending := pending[..|pending| - 1];
      var key := KeyOf(reference);
      if key in definitions {
        CollectKnown(log, strict, root, definitions, pending, reference);
        continue;
      }
      if |definitions| >= MAX_TRANSFERS {
        StuckOn(log, strict, root, definitions, pending, reference);
        return Err(TooManyDefinitions);
      }
      var loaded := LoadDefinition(log, key, strict);
      if loaded.Err? {
        StuckOn(log, strict, root, definitions, pending, reference);
        return Err(loaded.error);
      }
      CollectMore(log, strict, root, definitions, pending, reference, loaded.value.0);
      pending := pending + loaded.value.1;
      definitions := definitions[key := loaded.value.0];
    }
    CollectEnd(log, strict, root, definitions);
    assert Closed(log, strict, root, definitions) by { LeastIsClosed(log, strict, root, definitions); }
    return Ok(definitions);
  }

  lemma LeastIsClosed(log: Log, strict: bool, root: Pipeline, lib: Library)
    requires Least(log, strict, root, lib)
    ensures Closed(log, strict, root, lib)
  {
  }

  // ---- what a document compiles to -----------------------------------------

  /** Compiling a document at a revision yields `c`, with everything it refers to taken from the log. */
  ghost predicate Composes(log: Log, id: string, revision: string, definition: Value, strict: bool, c: CompiledPipeline) {
    var p := ReadPipeline(definition);
    p.Some? && Admissible(p.value) && exists lib :: ComposedOf(log, id, revision, p.value, strict, lib, c)
  }

  ghost predicate ComposedOf(log: Log, id: string, revision: string, p: Pipeline, strict: bool, lib: Library, c: CompiledPipeline) {
    Least(log, strict, p, lib) && |lib| <= MAX_TRANSFERS && Compiled(id, revision, p, lib) == Ok(c)
  }

  lemma ComposesOnce(log: Log, id: string, revision: string, definition: Value, strict: bool, c: CompiledPipeline, d: CompiledPipeline)
    requires Composes(log, id, revision, definition, strict, c) && Composes(log, id, revision, definition, strict, d)
    ensures c == d
  {
    hide Compiled, Least, Admissible;
    var p := ReadPipeline(definition).value;
    var a :| ComposedOf(log, id, revision, p, strict, a, c);
    var b :| ComposedOf(log, id, revision, p, strict, b, d);
    LeastUnique(log, strict, p, a, b);
  }

  lemma ComposesStable(log: Log, more: Log, id: string, revision: string, definition: Value, strict: bool, c: CompiledPipeline)
    requires WellFormed(more) && log <= more && Composes(log, id, revision, definition, strict, c)
    ensures Composes(more, id, revision, definition, strict, c)
  {
    hide Compiled, Least, Admissible, WellFormed;
    var p := ReadPipeline(definition).value;
    var lib :| ComposedOf(log, id, revision, p, strict, lib, c);
    LeastStable(log, more, strict, p, lib);
    assert ComposedOf(more, id, revision, p, strict, lib, c);
  }

  /** What was composed preserves the meaning of the document over a reference-closed set of pinned revisions. */
  lemma ComposesMeaning(log: Log, id: string, revision: string, definition: Value, strict: bool, c: CompiledPipeline)
    returns (lib: Library, tr: Trace)
    requires Composes(log, id, revision, definition, strict, c)
    ensures var root := Root(id, revision, ReadPipeline(definition).value);
      && Closed(log, strict, root.pipeline, lib)
      && Preserves(lib, root, c.definition, tr) && Budgeted(lib, root, c, tr)
  {
    hide Compiled, Closed, Admissible, Preserves, Budgeted;
    var p := ReadPipeline(definition).value;
    lib :| ComposedOf(log, id, revision, p, strict, lib, c);
    tr := CompiledPreserves(id, revision, p, lib);
  }

  ghost function Composed(log: Log, id: string, revision: string, definition: Value, strict: bool): Option<CompiledPipeline> {
    if c :| Composes(log, id, revision, definition, strict, c) then Some(c) else None
  }

  datatype ComposeError = Unreadable | Gathering(gather: GatherError) | Expanding(failure: Failure)

  /** Loads what a document refers to and expands it; the expansion itself never misses a revision. */
  method Compose(log: Log, id: string, revision: string, definition: Value, strict: bool)
    returns (r: Result<CompiledPipeline, ComposeError>)
    ensures r.Ok? ==> Composed(log, id, revision, definition, strict) == Some(r.value)
    ensures r.Err? ==> Composed(log, id, revision, definition, strict) == None
    ensures r.Err? && r.error.Expanding? ==> !Internal(r.error.failure) && !r.error.failure.RevisionUnavailable?
  {
    hide Compiled, Least, Admissible, Closed, Gatherable;
    var p := ReadPipeline(definition);
    if p.None? {
      return Err(Unreadable);
    }
    var definitions := Gather(log, p.value, strict);
    if definitions.Err? {
      NotGathered(log, id, revision, definition, strict);
      return Err(Gathering(definitions.error));
    }
    var lib := definitions.value;
    GatheredOnce(log, id, revision, definition, strict, lib);
    var compiled := Compile(id, revision, p.value, lib);
    match compiled
    case Err(f) =>
      CompiledFailures(id, revision, p.value, lib);
      r := Err(Expanding(f));
    case Ok(c) =>
      assert ComposedOf(log, id, revision, p.value, strict, lib, c);
      ComposedIs(log, id, revision, definition, strict, c);
      r := Ok(c);
  }

  lemma NotGathered(log: Log, id: string, revision: string, definition: Value, strict: bool)
    requires ReadPipeline(definition).Some? && !Gatherable(log, strict, ReadPipeline(definition).value)
    ensures Composed(log, id, revision, definition, strict) == None
  {
    hide Compiled, Admissible, Closed;
  }

  lemma GatheredOnce(log: Log, id: string, revision: string, definition: Value, strict: bool, lib: Library)
    requires ReadPipeline(definition).Some? && Gatherable(log, strict, ReadPipeline(definition).value)
    requires Least(log, strict, ReadPipeline(definition).value, lib)
    ensures Admissible(ReadPipeline(definition).value)
    ensures ReferenceClosed(lib) && Covers(lib, ReadPipeline(definition).value)
    ensures forall c :: Composes(log, id, revision, definition, strict, c) ==>
      Compiled(id, revision, ReadPipeline(definition).value, lib) == Ok(c)
  {
    hide Compiled, Admissible, Resolve;
    var p := ReadPipeline(definition).value;
    forall c | Composes(log, id, revision, definition, strict, c) ensures Compiled(id, revision, p, lib) == Ok(c) {
      var other :| ComposedOf(log, id, revision, p, strict, other, c);
      LeastUnique(log, strict, p, lib, other);
    }
  }

  lemma ComposedIs(log: Log, id: string, revision: string, definition: Value, strict: bool, c: CompiledPipeline)
    requires Composes(log, id, revision, definition, strict, c)
    ensures Composed(log, id, revision, definition, strict) == Some(c)
  {
    hide Composes;
    var d := Composed(log, id, revision, definition, strict).value;
    ComposesOnce(log, id, revision, definition, strict, c, d);
  }

  lemma ComposedStable(log: Log, more: Log, id: string, revision: string, definition: Value, strict: bool)
    requires WellFormed(more) && log <= more && Composed(log, id, revision, definition, strict).Some?
    ensures Composed(more, id, revision, definition, strict) == Composed(log, id, revision, definition, strict)
  {
    hide Composes;
    var c := Composed(log, id, revision, definition, strict).value;
    ComposesStable(log, more, id, revision, definition, strict, c);
    ComposedIs(more, id, revision, definition, strict, c);
  }

  // ---- what a revision runs ------------------------------------------------

  function Alive(state: Option<TenantState>, id: string): Option<PipelineRecord> {
    if state.Some? && id in state.value.pipelines && !state.value.pipelines[id].deleted then Some(state.value.pipelines[id]) else None
  }

  /** The pipeline pinned at a revision, compiled for execution. */
  ghost function Runtime(log: Log, id: string, revision: string): Option<CompiledPipeline> {
    var state := Load(log, revision);
    if !ValidRevision(revision) || state.None? || !DependenciesOk(state.value, id) || Alive(state, id).None? then None
    else Composed(log, id, revision, Alive(state, id).value.definition, true)
  }

  /** What runs at a revision is decided once and for all. */
  lemma RuntimeStable(log: Log, more: Log, id: string, revision: string)
    requires WellFormed(more) && log <= more && Runtime(log, id, revision).Some?
    ensures Runtime(more, id, revision) == Runtime(log, id, revision)
  {
    hide Composed, DependenciesOk, WellFormed;
    LoadStable(log, more, revision);
    ComposedStable(log, more, id, revision, Alive(Load(log, revision), id).value.definition, true);
  }
}
