/** What the compiled graph is: an isomorphic copy of the address graph, and again a structured pipeline. */
module CompiledGraph {
  import opened Json
  import opened Graphs
  import opened Text
  import opened Pipelines
  import opened Flow
  import opened Occurrences
  import opened Traces
  import opened Composition
  import opened EmissionOrder
  import T = TopologicalOrder

  function Root(pipelineId: string, revisionId: string, p: Pipeline): Occurrence {
    Occurrence(pipelineId, revisionId, p, None)
  }

  /**
   The compiled steps are the blocks of the address graph, each exactly once, with inputs, branch targets and ids
   replaced by names and nothing else touched; every name that is looked up exists.
   */
  ghost predicate Preserves(lib: Library, root: Occurrence, out: Pipeline, tr: Trace) {
    && root.entry.None?
    && out == root.pipeline.(steps := tr.steps)
    && Traced(lib, root, StepIds(root.pipeline), tr, 0, {})
    && EntryNamed(root, "", tr.names)
  }

  datatype CompiledPipeline = CompiledPipeline(definition: Pipeline, blocks: nat, transfers: nat)

  /** The counters reported with a compiled pipeline are the cost of its occurrences, of which there are at most four. */
  ghost predicate Budgeted(lib: Library, root: Occurrence, c: CompiledPipeline, tr: Trace) {
    && c.blocks == Total(lib, root, BlockBudget, tr.occurrences) <= 256
    && c.transfers == Total(lib, root, TransferBudget, tr.occurrences) <= 3
    && |c.definition.steps| <= c.blocks
    && |tr.occurrences| <= 1 + c.transfers
  }

  /** What compiling computes: the expansion of the root from empty counters. */
  ghost function Compiled(pipelineId: string, revisionId: string, p: Pipeline, lib: Library): Result<CompiledPipeline, Failure> {
    match Expanded(lib, Root(pipelineId, revisionId, p), "", Counters({}, [], 0, 0, 0))
    case Ok(c) => Ok(CompiledPipeline(p.(steps := c.steps), c.blocks, c.transfers))
    case Err(f) => Err(f)
  }

  /** Expands a pipeline against a library of pinned revisions. */
  method Compile(pipelineId: string, revisionId: string, p: Pipeline, definitions: Library)
    returns (r: Result<CompiledPipeline, Failure>)
    ensures r == Compiled(pipelineId, revisionId, p, definitions)
  {
    hide Expanded;
    var expansion := new Expansion(definitions);
    var failure := expansion.Append(Occurrence(pipelineId, revisionId, p, None), "");
    if failure.Some? {
      return Err(failure.value);
    }
    return Ok(CompiledPipeline(p.(steps := expansion.steps), expansion.blocks, expansion.transfers));
  }

  /** A successful compilation preserves meaning, keeps the authored order and conserves the budgets. */
  lemma CompiledPreserves(pipelineId: string, revisionId: string, p: Pipeline, lib: Library) returns (tr: Trace)
    requires Compiled(pipelineId, revisionId, p, lib).Ok?
    ensures var c := Compiled(pipelineId, revisionId, p, lib).value;
            var root := Root(pipelineId, revisionId, p);
            Preserves(lib, root, c.definition, tr) && Budgeted(lib, root, c, tr) && InOrder(lib, root, tr.blocks)
  {
    hide Traced, Total, EntryNamed, Expanded, InOrder;
    var root := Root(pipelineId, revisionId, p);
    tr := ExpandedTrace(lib, root, "", Counters({}, [], 0, 0, 0));
    SameLength(lib, root, StepIds(p), tr, 0, {});
  }

  /** The name lookups of the compiler never fail, and over a reference-closed library no revision is missing. */
  lemma CompiledFailures(pipelineId: string, revisionId: string, p: Pipeline, lib: Library)
    requires Compiled(pipelineId, revisionId, p, lib).Err?
    ensures !Internal(Compiled(pipelineId, revisionId, p, lib).error)
    ensures ReferenceClosed(lib) && Covers(lib, p) ==> !Compiled(pipelineId, revisionId, p, lib).error.RevisionUnavailable?
  {
    hide Expanded;
    ExpandedFailures(lib, Root(pipelineId, revisionId, p), "", Counters({}, [], 0, 0, 0));
  }

  lemma SameLength(lib: Library, occ: Occurrence, done: set<string>, tr: Trace, first: nat, forbidden: set<string>)
    requires Traced(lib, occ, done, tr, first, forbidden)
    ensures |tr.steps| == |tr.blocks|
  {
  }

  // ---- reading the trace ---------------------------------------------------

  ghost function Holder(lib: Library, root: Occurrence, a: Address): Occurrence
    requires IsBlock(lib, root, a)
  {
    OccurrenceAt(lib, root, Front(a)).value
  }

  ghost function Authored(lib: Library, root: Occurrence, a: Address): (s: Step)
    requires IsBlock(lib, root, a)
    ensures s in Holder(lib, root, a).pipeline.steps && s.id == Last(a)
  {
    FindStep(Holder(lib, root, a).pipeline.steps, Last(a)).value
  }

  lemma HolderSound(lib: Library, root: Occurrence, out: Pipeline, tr: Trace, a: Address)
    requires Preserves(lib, root, out, tr) && IsBlock(lib, root, a)
    ensures Sound(Holder(lib, root, a)) && Separate(Holder(lib, root, a))
  {
    var at := Front(a);
    if at != [] {
      assert Kept(root, at[0]);
    }
    assert Opened(lib, root, StepIds(root.pipeline), at);
    assert SoundAt(lib, root, at, {});
    SoundSeparates(Holder(lib, root, a));
  }

  /** Names exist for blocks and for the root's sources, which keep their ids. */
  lemma NamesDomain(lib: Library, root: Occurrence, out: Pipeline, tr: Trace, a: Address)
    requires Preserves(lib, root, out, tr)
    ensures a in tr.names <==> IsBlock(lib, root, a) || (|a| == 1 && a[0] in SourceIds(root.pipeline))
    ensures a in tr.names && |a| == 1 ==> tr.names[a] == a[0]
  {
    assert a in tr.names <==> Named(lib, root, StepIds(root.pipeline), a);
    if IsBlock(lib, root, a) {
      BlockStart(lib, root, a);
    }
    if |a| == 1 {
      assert a == [a[0]];
      BlockHere(lib, root, a[0]);
      if a in tr.names {
        assert Local(root, a[0]);
        assert NameOf(tr.names, [a[0]]) == a[0];
      }
    }
  }

  lemma LinkedNumber(lib: Library, root: Occurrence, out: Pipeline, tr: Trace, a: Address) returns (n: nat)
    requires Preserves(lib, root, out, tr) && IsBlock(lib, root, a) && |a| > 1
    ensures n < |tr.numbered| && tr.numbered[n] == a && NameOf(tr.names, a) == LinkedName(n + 1)
  {
    BlockStart(lib, root, a);
    assert Fresh(lib, root, StepIds(root.pipeline), a);
    n :| 0 <= n < |tr.numbered| && tr.numbered[n] == a;
    assert NameOf(tr.names, tr.numbered[n]) == LinkedName(0 + 1 + n);
  }

  lemma LinkedNameInjective(m: nat, n: nat)
    requires LinkedName(m) == LinkedName(n)
    ensures m == n
  {
    assert LinkedName(m)[|"__linked_"|..] == Decimal(m);
    assert LinkedName(n)[|"__linked_"|..] == Decimal(n);
    DecimalInjective(m, n);
  }

  lemma RootNotReserved(lib: Library, root: Occurrence, out: Pipeline, tr: Trace, a: Address, n: nat)
    requires Preserves(lib, root, out, tr) && IsBlock(lib, root, a) && |a| == 1
    ensures a[0] != LinkedName(n)
  {
    HolderSound(lib, root, out, tr, a);
    assert Front(a) == [];
    StepNotReserved(root.pipeline, Authored(lib, root, a));
    if a[0] == LinkedName(n) {
      assert StartsWith(a[0], "__linked_");
    }
  }

  /** No two blocks share a name. */
  lemma BlockNamesInjective(lib: Library, root: Occurrence, out: Pipeline, tr: Trace, a: Address, b: Address)
    requires Preserves(lib, root, out, tr) && IsBlock(lib, root, a) && IsBlock(lib, root, b)
    requires NameOf(tr.names, a) == NameOf(tr.names, b)
    ensures a == b
  {
    NamesDomain(lib, root, out, tr, a);
    NamesDomain(lib, root, out, tr, b);
    if |a| == 1 && |b| == 1 {
      assert a == [a[0]] && b == [b[0]];
    } else if |a| == 1 {
      var n := LinkedNumber(lib, root, out, tr, b);
      RootNotReserved(lib, root, out, tr, a, n + 1);
    } else if |b| == 1 {
      var m := LinkedNumber(lib, root, out, tr, a);
      RootNotReserved(lib, root, out, tr, b, m + 1);
    } else {
      var m := LinkedNumber(lib, root, out, tr, a);
      var n := LinkedNumber(lib, root, out, tr, b);
      LinkedNameInjective(m + 1, n + 1);
    }
  }

  /** No source of the root carries one of the reserved names that `count` linked blocks draw. */
  predicate NoCollision(p: Pipeline, count: nat) {
    forall s, n :: s in p.sources && 1 <= n <= count ==> s.id != LinkedName(n)
  }

  lemma SourcesApart(lib: Library, root: Occurrence, out: Pipeline, tr: Trace, a: Address, source: Source)
    requires Preserves(lib, root, out, tr) && NoCollision(root.pipeline, |tr.numbered|)
    requires IsBlock(lib, root, a) && source in root.pipeline.sources
    ensures NameOf(tr.names, a) != source.id
  {
    NamesDomain(lib, root, out, tr, a);
    if |a| == 1 {
      HolderSound(lib, root, out, tr, a);
      assert Front(a) == [];
      UniqueStep(root.pipeline, Authored(lib, root, a));
    } else {
      var n := LinkedNumber(lib, root, out, tr, a);
    }
  }

  /** Everything the compiled step at position `i` says, in terms of the block it came from. */
  lemma StepAt(lib: Library, root: Occurrence, out: Pipeline, tr: Trace, i: nat)
    requires Preserves(lib, root, out, tr) && i < |out.steps|
    ensures i < |tr.blocks| && IsBlock(lib, root, tr.blocks[i])
    ensures var a := tr.blocks[i];
            var o := Holder(lib, root, a);
            Resolved(o, Front(a), Authored(lib, root, a), tr.names) &&
            out.steps[i] == CompiledStep(o, Front(a), Authored(lib, root, a), tr.names)
    ensures out.steps[i].id == NameOf(tr.names, tr.blocks[i]) && tr.blocks[i] in tr.names
  {
    hide NamesOk, Listed, NumberedOk, OccurrencesOk, EntryNamed, OccurrenceAt, Kept, CompiledSettings, RenamedInputs, RenamedBranches;
    var a := tr.blocks[i];
    assert Renders(lib, root, tr.names, a, out.steps[i]);
    assert Front(a) + [Last(a)] == a;
  }

  lemma IndexOf(lib: Library, root: Occurrence, out: Pipeline, tr: Trace, a: Address) returns (i: nat)
    requires Preserves(lib, root, out, tr) && IsBlock(lib, root, a)
    ensures i < |out.steps| && i < |tr.blocks| && tr.blocks[i] == a
  {
    BlockStart(lib, root, a);
    assert Emitted(lib, root, StepIds(root.pipeline), a);
    i :| 0 <= i < |tr.blocks| && tr.blocks[i] == a;
  }

  // ---- edges ---------------------------------------------------------------

  /** Block `b` takes an input from block `a`: next to it, or as a consumer of the source its occurrence was entered by. */
  ghost predicate Draws(lib: Library, root: Occurrence, b: Address, a: Address) {
    && IsBlock(lib, root, a) && IsBlock(lib, root, b)
    && var o := Holder(lib, root, b);
       var inputs := Authored(lib, root, b).inputs;
       || (Front(a) == Front(b) && Last(a) in inputs)
       || (a == Front(b) && o.entry.Some? && o.entry.value in inputs)
  }

  lemma DrawsFeeder(lib: Library, root: Occurrence, b: Address, a: Address)
    requires IsBlock(lib, root, a) && IsBlock(lib, root, b) && Separate(Holder(lib, root, b))
    ensures Draws(lib, root, b, a) <==>
      exists x :: x in Authored(lib, root, b).inputs && Feeder(Holder(lib, root, b), Front(b), x) == a
  {
    hide OccurrenceAt, Kept, FindStep;
    var o := Holder(lib, root, b);
    var inputs := Authored(lib, root, b).inputs;
    assert a == Front(a) + [Last(a)];
    if Front(a) == Front(b) && Last(a) in inputs {
      BlockKept(lib, root, a);
      assert Feeder(o, Front(b), Last(a)) == a;
    }
    if a == Front(b) && o.entry.Some? && o.entry.value in inputs {
      assert Feeder(o, Front(b), o.entry.value) == a;
    }
    if x :| x in inputs && Feeder(o, Front(b), x) == a {
      if o.entry != Some(x) {
        assert Front(Front(b) + [x]) == Front(b) && Last(Front(b) + [x]) == x;
      }
    }
  }

  lemma BlockKept(lib: Library, root: Occurrence, a: Address)
    requires IsBlock(lib, root, a)
    ensures Kept(Holder(lib, root, a), Last(a))
  {
  }

  lemma InputNames(lib: Library, root: Occurrence, out: Pipeline, tr: Trace, j: nat, y: string)
    requires Preserves(lib, root, out, tr) && j < |out.steps| && j < |tr.blocks| && IsBlock(lib, root, tr.blocks[j])
    ensures y in out.steps[j].inputs <==>
      exists x :: x in Authored(lib, root, tr.blocks[j]).inputs &&
        NameOf(tr.names, Feeder(Holder(lib, root, tr.blocks[j]), Front(tr.blocks[j]), x)) == y
  {
    StepAt(lib, root, out, tr, j);
    var b := tr.blocks[j];
    var inputs := Authored(lib, root, b).inputs;
    if y in out.steps[j].inputs {
      var i :| 0 <= i < |out.steps[j].inputs| && out.steps[j].inputs[i] == y;
      assert inputs[i] in inputs;
    }
    if x :| x in inputs && NameOf(tr.names, Feeder(Holder(lib, root, b), Front(b), x)) == y {
      var i :| 0 <= i < |inputs| && inputs[i] == x;
      assert out.steps[j].inputs[i] == y;
    }
  }

  /** A root step lists as input a root source that carries the reserved name drawn by a linked block. */
  ghost predicate Invented(lib: Library, root: Occurrence, tr: Trace, b: Address, a: Address) {
    && IsBlock(lib, root, a) && IsBlock(lib, root, b) && |b| == 1 && |a| > 1
    && NameOf(tr.names, a) in Authored(lib, root, b).inputs
  }

  /** Two compiled steps are joined by an edge exactly if their blocks are, or if a source's reserved name was drawn. */
  lemma EdgeExact(lib: Library, root: Occurrence, out: Pipeline, tr: Trace, i: nat, j: nat)
    requires Preserves(lib, root, out, tr) && i < |out.steps| && j < |out.steps|
    ensures i < |tr.blocks| && j < |tr.blocks|
    ensures out.steps[i].id in out.steps[j].inputs <==>
            Draws(lib, root, tr.blocks[j], tr.blocks[i]) || Invented(lib, root, tr, tr.blocks[j], tr.blocks[i])
  {
    hide Preserves, Kept, OccurrenceAt, FindStep, Separate;
    StepAt(lib, root, out, tr, i);
    StepAt(lib, root, out, tr, j);
    var a, b := tr.blocks[i], tr.blocks[j];
    var o, inputs := Holder(lib, root, b), Authored(lib, root, b).inputs;
    InputNames(lib, root, out, tr, j, out.steps[i].id);
    HolderSound(lib, root, out, tr, b);
    DrawsFeeder(lib, root, b, a);
    forall x | x in inputs && NameOf(tr.names, Feeder(o, Front(b), x)) == out.steps[i].id
      ensures Feeder(o, Front(b), x) == a || Invented(lib, root, tr, b, a)
    {
      SameFeeder(lib, root, out, tr, a, b, x);
    }
    if Invented(lib, root, tr, b, a) {
      ReservedInput(lib, root, out, tr, b, a);
    }
  }

  lemma SameFeeder(lib: Library, root: Occurrence, out: Pipeline, tr: Trace, a: Address, b: Address, x: string)
    requires Preserves(lib, root, out, tr) && IsBlock(lib, root, a) && IsBlock(lib, root, b)
    requires x in Authored(lib, root, b).inputs
    requires var f := Feeder(Holder(lib, root, b), Front(b), x); f in tr.names && NameOf(tr.names, f) == NameOf(tr.names, a)
    ensures Feeder(Holder(lib, root, b), Front(b), x) == a || Invented(lib, root, tr, b, a)
  {
    hide Traced, EntryNamed;
    var f := Feeder(Holder(lib, root, b), Front(b), x);
    NamesDomain(lib, root, out, tr, f);
    if IsBlock(lib, root, f) {
      BlockNamesInjective(lib, root, out, tr, a, f);
    } else {
      RootInput(lib, root, b, x);
      assert f == [x];
      NamesDomain(lib, root, out, tr, a);
      if |a| == 1 {
        var source :| source in root.pipeline.sources && source.id == x;
        OwnStepApart(lib, root, out, tr, a, source);
      }
    }
  }

  /** Only root steps are fed by something that is not a block. */
  lemma RootInput(lib: Library, root: Occurrence, b: Address, x: string)
    requires root.entry.None? && IsBlock(lib, root, b)
    requires var f := Feeder(Holder(lib, root, b), Front(b), x); |f| == 1 && !IsBlock(lib, root, f)
    ensures |b| == 1 && Front(b) == [] && Holder(lib, root, b) == root
  {
    if Front(b) != [] {
      OnlyTransfersLink(lib, root, Front(b));
    }
  }

  lemma OwnStepApart(lib: Library, root: Occurrence, out: Pipeline, tr: Trace, a: Address, source: Source)
    requires Preserves(lib, root, out, tr) && IsBlock(lib, root, a) && |a| == 1 && source in root.pipeline.sources
    ensures NameOf(tr.names, a) != source.id
  {
    NamesDomain(lib, root, out, tr, a);
    HolderSound(lib, root, out, tr, a);
    assert Front(a) == [];
    UniqueStep(root.pipeline, Authored(lib, root, a));
  }

  /** An input that carries a drawn name is a root source, and keeps that name. */
  lemma ReservedInput(lib: Library, root: Occurrence, out: Pipeline, tr: Trace, b: Address, a: Address)
    requires Preserves(lib, root, out, tr) && Invented(lib, root, tr, b, a)
    ensures var x := NameOf(tr.names, a);
      && x in SourceIds(root.pipeline)
      && NameOf(tr.names, Feeder(Holder(lib, root, b), Front(b), x)) == x
    ensures !Draws(lib, root, b, a)
  {
    hide Traced, EntryNamed;
    var x := NameOf(tr.names, a);
    assert Front(b) == [] && Holder(lib, root, b) == root;
    var n := LinkedNumber(lib, root, out, tr, a);
    HolderSound(lib, root, out, tr, b);
    KnownInput(root.pipeline, Authored(lib, root, b), x);
    assert StartsWith(x, "__linked_");
    if x !in SourceIds(root.pipeline) {
      StepNotReserved(root.pipeline, FindStep(root.pipeline.steps, x).value);
    }
    assert Feeder(root, [], x) == [x];
    NamesDomain(lib, root, out, tr, [x]);
  }

  /** No step of the pipeline lists one of the first `count` reserved names as an input. */
  predicate NoReservedInput(p: Pipeline, count: nat) {
    forall s, n :: s in p.steps && 1 <= n <= count ==> LinkedName(n) !in s.inputs
  }

  lemma NothingInvented(lib: Library, root: Occurrence, out: Pipeline, tr: Trace, b: Address, a: Address)
    requires Preserves(lib, root, out, tr) && NoReservedInput(root.pipeline, |tr.numbered|)
    ensures !Invented(lib, root, tr, b, a)
  {
    hide Traced, EntryNamed;
    if Invented(lib, root, tr, b, a) {
      assert Front(b) == [];
      var n := LinkedNumber(lib, root, out, tr, a);
    }
  }

  ghost predicate EdgesAgree(lib: Library, root: Occurrence, out: Pipeline, tr: Trace) {
    && |tr.blocks| == |out.steps|
    && forall i, j :: 0 <= i < |out.steps| && 0 <= j < |out.steps| ==> EdgeAgrees(lib, root, out, tr, i, j)
  }

  ghost predicate EdgeAgrees(lib: Library, root: Occurrence, out: Pipeline, tr: Trace, i: nat, j: nat)
    requires i < |out.steps| && j < |out.steps| && |tr.blocks| == |out.steps|
  {
    out.steps[i].id in out.steps[j].inputs <==> Draws(lib, root, tr.blocks[j], tr.blocks[i])
  }

  /**
   The edges of the compiled graph are exactly those of the composition if and only if no root step consumes a source
   whose id is one of the names that linked blocks draw.
   */
  lemma EdgesPreservedIff(lib: Library, root: Occurrence, out: Pipeline, tr: Trace)
    requires Preserves(lib, root, out, tr)
    ensures EdgesAgree(lib, root, out, tr) <==> NoReservedInput(root.pipeline, LinkedCount(lib, root))
  {
    hide Traced, EntryNamed, Draws, Invented, LinkedCount, NoReservedInput;
    SameLength(lib, root, StepIds(root.pipeline), tr, 0, {});
    CountIsNumbered(lib, root, out, tr);
    if NoReservedInput(root.pipeline, |tr.numbered|) {
      forall i, j | 0 <= i < |out.steps| && 0 <= j < |out.steps| ensures EdgeAgrees(lib, root, out, tr, i, j) {
        EdgeExact(lib, root, out, tr, i, j);
        NothingInvented(lib, root, out, tr, tr.blocks[j], tr.blocks[i]);
      }
    } else {
      var i, j := InventedEdge(lib, root, out, tr);
      EdgeExact(lib, root, out, tr, i, j);
      ReservedInput(lib, root, out, tr, tr.blocks[j], tr.blocks[i]);
      assert !EdgeAgrees(lib, root, out, tr, i, j);
    }
  }

  lemma InventedEdge(lib: Library, root: Occurrence, out: Pipeline, tr: Trace) returns (i: nat, j: nat)
    requires Preserves(lib, root, out, tr) && !NoReservedInput(root.pipeline, |tr.numbered|)
    ensures i < |out.steps| && j < |out.steps| && i < |tr.blocks| && j < |tr.blocks|
    ensures Invented(lib, root, tr, tr.blocks[j], tr.blocks[i])
  {
    hide Traced, EntryNamed;
    var s, n :| s in root.pipeline.steps && 1 <= n <= |tr.numbered| && LinkedName(n) in s.inputs;
    RootSound(lib, root, out, tr);
    UniqueStep(root.pipeline, s);
    BlockHere(lib, root, s.id);
    j := IndexOf(lib, root, out, tr, [s.id]);
    assert Front([s.id]) == [];
    i := FreshStep(lib, root, out, tr, n - 1);
  }

  // ---- the compiled pipeline is structured again ---------------------------

  lemma StepIdsUnique(lib: Library, root: Occurrence, out: Pipeline, tr: Trace, i: nat, j: nat)
    requires Preserves(lib, root, out, tr) && i < |out.steps| && j < |out.steps| && out.steps[i].id == out.steps[j].id
    ensures i == j
  {
    StepAt(lib, root, out, tr, i);
    StepAt(lib, root, out, tr, j);
    BlockNamesInjective(lib, root, out, tr, tr.blocks[i], tr.blocks[j]);
    assert Distinct(tr.blocks);
  }

  lemma NodesDistinct(lib: Library, root: Occurrence, out: Pipeline, tr: Trace)
    requires Preserves(lib, root, out, tr) && NoCollision(root.pipeline, |tr.numbered|) && Distinct(NodeIds(root.pipeline))
    ensures Distinct(NodeIds(out))
  {
    hide Traced, EntryNamed;
    var ids := NodeIds(out);
    var n := |out.sources|;
    forall i, j | 0 <= i < j < |ids| ensures ids[i] != ids[j] {
      if j < n {
        assert NodeIds(root.pipeline)[i] == ids[i] && NodeIds(root.pipeline)[j] == ids[j];
      } else if i < n {
        StepAt(lib, root, out, tr, j - n);
        SourcesApart(lib, root, out, tr, tr.blocks[j - n], out.sources[i]);
      } else if ids[i] == ids[j] {
        StepIdsUnique(lib, root, out, tr, i - n, j - n);
      }
    }
  }

  lemma CompiledStepOk(lib: Library, root: Occurrence, out: Pipeline, tr: Trace, i: nat)
    requires Preserves(lib, root, out, tr) && i < |out.steps|
    ensures StepOk(out.steps[i]) && out.steps[i].settings.kind != "pipeline"
  {
    hide Traced, EntryNamed;
    StepAt(lib, root, out, tr, i);
    var a := tr.blocks[i];
    HolderSound(lib, root, out, tr, a);
    var s := Authored(lib, root, a);
    assert StepOk(s);
    if |a| == 1 {
      NamesDomain(lib, root, out, tr, a);
      assert Last(a) == a[0];
    } else {
      var n := LinkedNumber(lib, root, out, tr, a);
    }
  }

  lemma CompiledInputsKnown(lib: Library, root: Occurrence, out: Pipeline, tr: Trace, j: nat, y: string)
    requires Preserves(lib, root, out, tr) && j < |out.steps| && y in out.steps[j].inputs
    ensures y in SourceIds(out) || y in StepIds(out)
  {
    hide Traced, EntryNamed;
    StepAt(lib, root, out, tr, j);
    InputNames(lib, root, out, tr, j, y);
    var b := tr.blocks[j];
    var x :| x in Authored(lib, root, b).inputs && NameOf(tr.names, Feeder(Holder(lib, root, b), Front(b), x)) == y;
    var f := Feeder(Holder(lib, root, b), Front(b), x);
    NamesDomain(lib, root, out, tr, f);
    if IsBlock(lib, root, f) {
      var i := IndexOf(lib, root, out, tr, f);
      StepAt(lib, root, out, tr, i);
      assert out.steps[i] in out.steps;
    } else {
      assert SourceIds(out) == SourceIds(root.pipeline);
    }
  }

  // ---- acyclicity ----------------------------------------------------------

  /** A walk against the flow, as addresses. */
  ghost predicate DrawPath(lib: Library, root: Occurrence, path: seq<Address>) {
    |path| > 0 && forall i :: 0 <= i < |path| - 1 ==> Draws(lib, root, path[i], path[i + 1])
  }

  lemma {:induction false} DepthNeverGrows(lib: Library, root: Occurrence, path: seq<Address>, i: nat, j: nat)
    requires DrawPath(lib, root, path) && i <= j < |path|
    ensures |path[i]| >= |path[j]|
  {
    if i < j {
      DepthNeverGrows(lib, root, path, i, j - 1);
      assert Draws(lib, root, path[j - 1], path[j]);
    }
  }

  lemma {:induction false} FrontConstant(lib: Library, root: Occurrence, path: seq<Address>, j: nat)
    requires DrawPath(lib, root, path) && j < |path| && |path| > 1 && path[0] == path[|path| - 1]
    requires IsBlock(lib, root, path[0])
    ensures IsBlock(lib, root, path[j]) && Front(path[j]) == Front(path[0])
    ensures j > 0 ==> Last(path[j]) in Authored(lib, root, path[j - 1]).inputs
  {
    hide Kept, OccurrenceAt, FindStep;
    if j > 0 {
      FrontConstant(lib, root, path, j - 1);
      assert Draws(lib, root, path[j - 1], path[j]);
      DepthNeverGrows(lib, root, path, 0, j);
      DepthNeverGrows(lib, root, path, j, |path| - 1);
    }
  }

  lemma HolderAcyclic(lib: Library, root: Occurrence, out: Pipeline, tr: Trace, a: Address)
    requires Preserves(lib, root, out, tr) && IsBlock(lib, root, a)
    ensures Distinct(NodeIds(Holder(lib, root, a).pipeline)) && Acyclic(Dependencies(Holder(lib, root, a).pipeline.steps))
  {
    HolderSound(lib, root, out, tr, a);
  }

  lemma LocalCycle(p: Pipeline, local: seq<string>, steps: seq<Step>)
    requires Distinct(NodeIds(p)) && |local| > 1 && |steps| == |local| - 1 && local[0] == local[|local| - 1]
    requires forall j :: 0 <= j < |steps| ==> steps[j] in p.steps && steps[j].id == local[j] && local[j + 1] in steps[j].inputs
    ensures !Acyclic(Dependencies(p.steps))
  {
    var edges := Dependencies(p.steps);
    forall j | 0 <= j < |local| - 1 ensures Edge(edges, local[j], local[j + 1]) {
      UniqueStep(p, steps[j]);
    }
    assert IsCycle(edges, local);
  }

  /** The address graph has no cycle: walking against the flow never goes deeper, and no occurrence has one. */
  lemma AddressesAcyclic(lib: Library, root: Occurrence, out: Pipeline, tr: Trace, path: seq<Address>)
    requires Preserves(lib, root, out, tr) && DrawPath(lib, root, path) && |path| > 1
    ensures path[0] != path[|path| - 1]
  {
    hide Preserves, Kept, OccurrenceAt, FindStep, Acyclic, Dependencies, NodeIds, Distinct;
    if path[0] == path[|path| - 1] {
      assert Draws(lib, root, path[0], path[1]);
      HolderAcyclic(lib, root, out, tr, path[0]);
      var p := Holder(lib, root, path[0]).pipeline;
      var local: seq<string>, steps: seq<Step> := [Last(path[0])], [];
      for n := 1 to |path|
        invariant |local| == n && |steps| == n - 1 && path[n - 1] != []
        invariant local[0] == Last(path[0]) && local[n - 1] == Last(path[n - 1])
        invariant forall j :: 0 <= j < n - 1 ==>
          steps[j] in p.steps && steps[j].id == local[j] && local[j + 1] in steps[j].inputs
      {
        FrontConstant(lib, root, path, n - 1);
        FrontConstant(lib, root, path, n);
        local, steps := local + [Last(path[n])], steps + [Authored(lib, root, path[n - 1])];
      }
      LocalCycle(p, local, steps);
    }
  }

  /** Without invented edges the compiled graph has no cycle either. */
  lemma CompiledAcyclic(lib: Library, root: Occurrence, out: Pipeline, tr: Trace)
    requires Preserves(lib, root, out, tr) && NoReservedInput(root.pipeline, |tr.numbered|)
    ensures Acyclic(Dependencies(out.steps))
  {
    hide Traced, EntryNamed, NoReservedInput, Draws, Invented;
    forall q ensures !IsCycle(Dependencies(out.steps), q) {
      if IsCycle(Dependencies(out.steps), q) {
        var path := AddressWalk(lib, root, out, tr, q, |q| - 1);
        forall i | 0 <= i < |path| - 1 ensures Draws(lib, root, path[i], path[i + 1]) {
          assert Feeding(lib, root, tr, path[i], path[i + 1]);
          NothingInvented(lib, root, out, tr, path[i], path[i + 1]);
        }
        AddressesAcyclic(lib, root, out, tr, path);
        BlockNamesInjective(lib, root, out, tr, path[0], path[|path| - 1]);
      }
    }
  }

  /** Compiled block `b` takes an input from compiled block `a`. */
  ghost predicate Feeding(lib: Library, root: Occurrence, tr: Trace, b: Address, a: Address) {
    Draws(lib, root, b, a) || Invented(lib, root, tr, b, a)
  }

  ghost predicate FeedPath(lib: Library, root: Occurrence, tr: Trace, path: seq<Address>) {
    |path| > 0 && forall i :: 0 <= i < |path| - 1 ==> Feeding(lib, root, tr, path[i], path[i + 1])
  }

  /** A path through compiled steps, read as addresses. */
  lemma {:induction false} AddressWalk(lib: Library, root: Occurrence, out: Pipeline, tr: Trace, q: seq<string>, n: nat)
    returns (path: seq<Address>)
    requires Preserves(lib, root, out, tr) && IsCycle(Dependencies(out.steps), q) && n < |q|
    ensures |path| == n + 1 && FeedPath(lib, root, tr, path)
    ensures forall i :: 0 <= i <= n ==> IsBlock(lib, root, path[i]) && NameOf(tr.names, path[i]) == q[i]
  {
    hide Traced, EntryNamed, Draws, Invented;
    var i := StepNamed(out, q, n);
    StepAt(lib, root, out, tr, i);
    if n == 0 {
      path := [tr.blocks[i]];
    } else {
      var before := AddressWalk(lib, root, out, tr, q, n - 1);
      var j := IndexOf(lib, root, out, tr, before[n - 1]);
      StepAt(lib, root, out, tr, j);
      assert Edge(Dependencies(out.steps), q[n - 1], q[n]);
      CompiledInputs(lib, root, out, tr, j);
      EdgeExact(lib, root, out, tr, i, j);
      path := before + [tr.blocks[i]];
    }
  }

  lemma CompiledInputs(lib: Library, root: Occurrence, out: Pipeline, tr: Trace, j: nat)
    requires Preserves(lib, root, out, tr) && j < |out.steps|
    ensures out.steps[j].id in Dependencies(out.steps) && Dependencies(out.steps)[out.steps[j].id] == out.steps[j].inputs
  {
    hide Preserves;
    forall k | j < k < |out.steps| ensures out.steps[k].id != out.steps[j].id {
      if out.steps[k].id == out.steps[j].id { StepIdsUnique(lib, root, out, tr, j, k); }
    }
    DependenciesOf(out.steps, j);
  }

  /** Every node on a cycle of dependencies is a step. */
  lemma StepNamed(out: Pipeline, q: seq<string>, n: nat) returns (i: nat)
    requires IsCycle(Dependencies(out.steps), q) && n < |q|
    ensures i < |out.steps| && out.steps[i].id == q[n]
  {
    var m := if n == |q| - 1 then 0 else n;
    assert Edge(Dependencies(out.steps), q[m], q[m + 1]);
    var s :| s in out.steps && s.id == q[m];
    i :| 0 <= i < |out.steps| && out.steps[i] == s;
  }

  // ---- routes --------------------------------------------------------------

  /** Only transfers have anything below them. */
  lemma {:induction false} OnlyTransfersLink(lib: Library, root: Occurrence, a: Address)
    requires a != [] && OccurrenceAt(lib, root, a).Some?
    ensures IsBlock(lib, root, a) && Transfer(Authored(lib, root, a))
    decreases |a|
  {
    var child := Linked(lib, root, a[0]).value;
    assert a == [a[0]] + a[1..];
    if |a| == 1 {
      BlockHere(lib, root, a[0]);
      assert Front(a) == [];
    } else {
      OnlyTransfersLink(lib, child, a[1..]);
      BlockBelow(lib, root, a[0], a[1..]);
      assert Front(a) == [a[0]] + Front(a[1..]);
      OccurrenceBelow(lib, root, a[0], Front(a[1..]));
    }
  }

  /** A block that is not a transfer feeds exactly the blocks beside it that list it. */
  lemma DrawsBeside(lib: Library, root: Occurrence, b: Address, a: Address)
    requires IsBlock(lib, root, a) && !Transfer(Authored(lib, root, a))
    ensures Draws(lib, root, b, a) ==> Front(a) == Front(b) && Last(a) in Authored(lib, root, b).inputs
  {
    if Draws(lib, root, b, a) && a == Front(b) {
      OnlyTransfersLink(lib, root, a);
    }
  }

  lemma SiblingBlock(lib: Library, root: Occurrence, a: Address, t: string)
    requires IsBlock(lib, root, a) && Kept(Holder(lib, root, a), t)
    ensures IsBlock(lib, root, Front(a) + [t]) && Holder(lib, root, Front(a) + [t]) == Holder(lib, root, a)
    ensures Authored(lib, root, Front(a) + [t]).id == t
    ensures Front(Front(a) + [t]) == Front(a) && Last(Front(a) + [t]) == t
  {
    assert Front(Front(a) + [t]) == Front(a);
  }

  /** An unscheduled root step consumes a source that carries the name drawn by this linked block. */
  ghost predicate Intruded(root: Occurrence, tr: Trace, a: Address) {
    |a| > 1 && exists s :: s in root.pipeline.steps && !Scheduled(s) && NameOf(tr.names, a) in s.inputs
  }

  /** A renamed route still covers exactly the steps it triggers. */
  lemma RouteCovered(lib: Library, root: Occurrence, out: Pipeline, tr: Trace, i: nat)
    requires Preserves(lib, root, out, tr) && i < |out.steps| && i < |tr.blocks| && !Intruded(root, tr, tr.blocks[i])
    requires out.steps[i].settings.kind == "route" && out.steps[i].branches.Some?
    ensures Destinations(out.steps[i].branches.value) == Consumers(out.steps, out.steps[i].id)
  {
    hide Traced, EntryNamed;
    var destinations := Destinations(out.steps[i].branches.value);
    var consumers := Consumers(out.steps, out.steps[i].id);
    forall y | y in destinations ensures y in consumers {
      DestinationConsumes(lib, root, out, tr, i, y);
    }
    forall y | y in consumers ensures y in destinations {
      ConsumerListed(lib, root, out, tr, i, y);
    }
  }

  lemma RouteAuthored(lib: Library, root: Occurrence, out: Pipeline, tr: Trace, i: nat)
    requires Preserves(lib, root, out, tr) && i < |out.steps| && out.steps[i].settings.kind == "route"
    ensures i < |tr.blocks| && IsBlock(lib, root, tr.blocks[i])
    ensures var s := Authored(lib, root, tr.blocks[i]);
            && s.settings.kind == "route" && !Transfer(s) && RouteOk(Holder(lib, root, tr.blocks[i]).pipeline.steps, s)
            && s.branches.Some? && out.steps[i].branches == Some(RenamedBranches(Front(tr.blocks[i]), s.branches.value, tr.names))
  {
    hide Traced, EntryNamed;
    StepAt(lib, root, out, tr, i);
    HolderSound(lib, root, out, tr, tr.blocks[i]);
  }

  lemma DestinationConsumes(lib: Library, root: Occurrence, out: Pipeline, tr: Trace, i: nat, y: string)
    requires Preserves(lib, root, out, tr)
    requires i < |out.steps| && out.steps[i].settings.kind == "route" && out.steps[i].branches.Some?
    requires y in Destinations(out.steps[i].branches.value)
    ensures y in Consumers(out.steps, out.steps[i].id)
  {
    hide Traced, EntryNamed, Structured, RouteOk;
    RouteAuthored(lib, root, out, tr, i);
    var a := tr.blocks[i];
    var o, s := Holder(lib, root, a), Authored(lib, root, a);
    var branch :| branch in out.steps[i].branches.value && y in out.steps[i].branches.value[branch];
    var k :| 0 <= k < |out.steps[i].branches.value[branch]| && out.steps[i].branches.value[branch][k] == y;
    var t := s.branches.value[branch][k];
    assert t in s.branches.value[branch];
    HolderSound(lib, root, out, tr, a);
    BlockKept(lib, root, a);
    LocalTarget(o, s, branch, t);
    SiblingBlock(lib, root, a, t);
    var b := Front(a) + [t];
    assert y == NameOf(tr.names, b);
    TargetIsConsumer(o, s, branch, t);
    var u := Authored(lib, root, b);
    var j := IndexOf(lib, root, out, tr, b);
    StepAt(lib, root, out, tr, j);
    assert Draws(lib, root, b, a);
    EdgeExact(lib, root, out, tr, i, j);
    assert out.steps[j] in out.steps && !Scheduled(out.steps[j]);
    StepAt(lib, root, out, tr, i);
  }

  lemma TargetIsConsumer(o: Occurrence, s: Step, branch: string, t: string)
    requires Sound(o) && s in o.pipeline.steps && s.settings.kind == "route"
    requires s.branches.Some? && branch in s.branches.value && t in s.branches.value[branch]
    ensures FindStep(o.pipeline.steps, t).Some?
    ensures !Scheduled(FindStep(o.pipeline.steps, t).value) && s.id in FindStep(o.pipeline.steps, t).value.inputs
  {
    assert RouteOk(o.pipeline.steps, s);
    assert t in Destinations(s.branches.value);
    var u :| u in o.pipeline.steps && !Scheduled(u) && s.id in u.inputs && u.id == t;
    UniqueStep(o.pipeline, u);
  }

  lemma ConsumerListed(lib: Library, root: Occurrence, out: Pipeline, tr: Trace, i: nat, y: string)
    requires Preserves(lib, root, out, tr) && i < |out.steps| && i < |tr.blocks| && !Intruded(root, tr, tr.blocks[i])
    requires out.steps[i].settings.kind == "route" && out.steps[i].branches.Some?
    requires y in Consumers(out.steps, out.steps[i].id)
    ensures y in Destinations(out.steps[i].branches.value)
  {
    hide Preserves, Structured, Kept, OccurrenceAt, FindStep, Sound, Intruded;
    RouteAuthored(lib, root, out, tr, i);
    var a := tr.blocks[i];
    var o, s := Holder(lib, root, a), Authored(lib, root, a);
    var v :| v in out.steps && !Scheduled(v) && out.steps[i].id in v.inputs && v.id == y;
    var j :| 0 <= j < |out.steps| && out.steps[j] == v;
    StepAt(lib, root, out, tr, j);
    var b := tr.blocks[j];
    var u := Authored(lib, root, b);
    EdgeExact(lib, root, out, tr, i, j);
    Intrudes(lib, root, tr, b, a);
    DrawsBeside(lib, root, b, a);
    assert u in o.pipeline.steps && !Scheduled(u) && s.id in u.inputs;
    assert u.id in Consumers(o.pipeline.steps, s.id);
    var branch, t :| branch in s.branches.value && t in s.branches.value[branch] && t == u.id;
    var k :| 0 <= k < |s.branches.value[branch]| && s.branches.value[branch][k] == t;
    assert Front(a) + [t] == b;
    var renamed := out.steps[i].branches.value;
    assert branch in renamed && renamed[branch] == RenamedTargets(Front(a), s.branches.value[branch], tr.names);
    assert renamed[branch][k] == NameOf(tr.names, b) == y;
    assert y in renamed[branch];
  }

  lemma Intrudes(lib: Library, root: Occurrence, tr: Trace, b: Address, a: Address)
    ensures Invented(lib, root, tr, b, a) && !Scheduled(Authored(lib, root, b)) ==> Intruded(root, tr, a)
  {
    if Invented(lib, root, tr, b, a) {
      assert Front(b) == [];
      assert Authored(lib, root, b) in root.pipeline.steps;
    }
  }

  /** A compiled route covers exactly its immediate consumers, unless a root step consumes a source that carries its name. */
  lemma CompiledRouteIff(lib: Library, root: Occurrence, out: Pipeline, tr: Trace, i: nat)
    requires Preserves(lib, root, out, tr) && i < |out.steps|
    ensures i < |tr.blocks|
    ensures RouteOk(out.steps, out.steps[i]) <==>
            (out.steps[i].settings.kind == "route" ==> !Intruded(root, tr, tr.blocks[i]))
  {
    hide Traced, EntryNamed, Structured, Intruded, Consumers;
    StepAt(lib, root, out, tr, i);
    var a := tr.blocks[i];
    var o, s := Holder(lib, root, a), Authored(lib, root, a);
    HolderSound(lib, root, out, tr, a);
    AuthoredRoute(o, s);
    if out.steps[i].settings.kind == "route" {
      var renamed := RenamedBranches(Front(a), s.branches.value, tr.names);
      assert renamed.Keys == s.branches.value.Keys;
      assert |renamed| == |s.branches.value|;
      forall branch | branch in renamed ensures LabelOk(branch) && renamed[branch] != [] && Distinct(renamed[branch]) {
        TargetsDistinct(lib, root, out, tr, a, branch);
      }
      if Intruded(root, tr, a) {
        RouteIntruded(lib, root, out, tr, i);
      } else {
        RouteCovered(lib, root, out, tr, i);
      }
    }
  }

  /** The intruder is a consumer that no branch of the route leads to. */
  lemma RouteIntruded(lib: Library, root: Occurrence, out: Pipeline, tr: Trace, i: nat)
    requires Preserves(lib, root, out, tr) && i < |out.steps| && i < |tr.blocks| && Intruded(root, tr, tr.blocks[i])
    requires out.steps[i].settings.kind == "route" && out.steps[i].branches.Some?
    ensures Destinations(out.steps[i].branches.value) != Consumers(out.steps, out.steps[i].id)
  {
    hide Traced, EntryNamed, Structured, RouteOk;
    StepAt(lib, root, out, tr, i);
    var a := tr.blocks[i];
    var s :| s in root.pipeline.steps && !Scheduled(s) && NameOf(tr.names, a) in s.inputs;
    RootSound(lib, root, out, tr);
    RootDistinct(root);
    UniqueStep(root.pipeline, s);
    BlockHere(lib, root, s.id);
    var b := [s.id];
    assert Front(b) == [];
    var j := IndexOf(lib, root, out, tr, b);
    StepAt(lib, root, out, tr, j);
    EdgeExact(lib, root, out, tr, i, j);
    NamesDomain(lib, root, out, tr, b);
    assert out.steps[j] in out.steps && !Scheduled(out.steps[j]) && out.steps[j].id == s.id;
    assert s.id in Consumers(out.steps, out.steps[i].id);
    if s.id in Destinations(out.steps[i].branches.value) {
      TargetIsLinked(lib, root, out, tr, i, s.id);
    }
  }

  lemma TargetIsLinked(lib: Library, root: Occurrence, out: Pipeline, tr: Trace, i: nat, y: string)
    requires Preserves(lib, root, out, tr) && i < |out.steps| && i < |tr.blocks| && |tr.blocks[i]| > 1
    requires out.steps[i].settings.kind == "route" && out.steps[i].branches.Some?
    requires y in Destinations(out.steps[i].branches.value)
    ensures forall s :: s in root.pipeline.steps ==> s.id != y
  {
    hide Traced, EntryNamed, Structured, RouteOk;
    RouteAuthored(lib, root, out, tr, i);
    var a := tr.blocks[i];
    var o, s := Holder(lib, root, a), Authored(lib, root, a);
    var branch :| branch in out.steps[i].branches.value && y in out.steps[i].branches.value[branch];
    var k :| 0 <= k < |out.steps[i].branches.value[branch]| && out.steps[i].branches.value[branch][k] == y;
    var t := s.branches.value[branch][k];
    assert t in s.branches.value[branch];
    HolderSound(lib, root, out, tr, a);
    BlockKept(lib, root, a);
    LocalTarget(o, s, branch, t);
    SiblingBlock(lib, root, a, t);
    var n := LinkedNumber(lib, root, out, tr, Front(a) + [t]);
    assert StartsWith(y, "__linked_");
    RootSound(lib, root, out, tr);
    forall u | u in root.pipeline.steps ensures u.id != y { StepNotReserved(root.pipeline, u); }
  }

  lemma NothingIntrudes(lib: Library, root: Occurrence, out: Pipeline, tr: Trace, a: Address)
    requires Preserves(lib, root, out, tr) && NoReservedInput(root.pipeline, |tr.numbered|) && IsBlock(lib, root, a)
    ensures !Intruded(root, tr, a)
  {
    hide Traced, EntryNamed;
    if |a| > 1 {
      var n := LinkedNumber(lib, root, out, tr, a);
    }
  }

  lemma AuthoredRoute(o: Occurrence, s: Step)
    requires Sound(o) && s in o.pipeline.steps
    ensures RouteOk(o.pipeline.steps, s)
  {
  }

  lemma TargetsDistinct(lib: Library, root: Occurrence, out: Pipeline, tr: Trace, a: Address, branch: string)
    requires Preserves(lib, root, out, tr) && IsBlock(lib, root, a)
    requires Authored(lib, root, a).branches.Some? && branch in Authored(lib, root, a).branches.value
    requires Distinct(Authored(lib, root, a).branches.value[branch])
    ensures Distinct(RenamedTargets(Front(a), Authored(lib, root, a).branches.value[branch], tr.names))
  {
    hide Traced, EntryNamed, Structured;
    var s := Authored(lib, root, a);
    var targets := s.branches.value[branch];
    var renamed := RenamedTargets(Front(a), targets, tr.names);
    HolderSound(lib, root, out, tr, a);
    BlockKept(lib, root, a);
    forall i, j | 0 <= i < j < |renamed| ensures renamed[i] != renamed[j] {
      assert targets[i] in targets && targets[j] in targets;
      LocalTarget(Holder(lib, root, a), s, branch, targets[i]);
      LocalTarget(Holder(lib, root, a), s, branch, targets[j]);
      SiblingBlock(lib, root, a, targets[i]);
      SiblingBlock(lib, root, a, targets[j]);
      var b, c := Front(a) + [targets[i]], Front(a) + [targets[j]];
      assert Last(b) != Last(c);
      if renamed[i] == renamed[j] {
        BlockNamesInjective(lib, root, out, tr, b, c);
      }
    }
  }

  // ---- the theorem ---------------------------------------------------------

  lemma Inhabited(y: seq<Address>)
    requires y != []
    ensures exists a :: a in y
  {
    assert y[0] in y;
  }

  lemma Without(y: seq<Address>, i: nat, a: Address)
    requires Distinct(y) && i < |y|
    ensures Distinct(y[..i] + y[i + 1..])
    ensures a in y[..i] + y[i + 1..] <==> a in y && a != y[i]
  {
    var rest := y[..i] + y[i + 1..];
    forall k | 0 <= k < |rest| ensures rest[k] == if k < i then y[k] else y[k + 1] {}
    if a in y && a != y[i] {
      var k :| 0 <= k < |y| && y[k] == a;
      assert rest[if k < i then k else k - 1] == a;
    }
  }

  lemma {:induction false} SameMembers(x: seq<Address>, y: seq<Address>)
    requires Distinct(x) && Distinct(y) && forall a :: a in x <==> a in y
    ensures |x| == |y|
  {
    if x == [] {
      if y != [] { Inhabited(y); }
    } else {
      assert x[0] in x;
      var i :| 0 <= i < |y| && y[i] == x[0];
      var x', y' := x[..0] + x[0 + 1..], y[..i] + y[i + 1..];
      forall a ensures a in x' <==> a in y' {
        Without(x, 0, a);
        Without(y, i, a);
      }
      Without(x, 0, x[0]);
      Without(y, i, x[0]);
      SameMembers(x', y');
    }
  }

  /** Beyond the root's own steps, every compiled step drew a fresh name. */
  lemma CountFresh(lib: Library, root: Occurrence, out: Pipeline, tr: Trace)
    requires Preserves(lib, root, out, tr) && Distinct(NodeIds(root.pipeline))
    ensures |tr.numbered| == |out.steps| - |root.pipeline.steps|
  {
    var p := root.pipeline;
    var ids := seq(|p.steps|, i requires 0 <= i < |p.steps| => p.steps[i].id);
    var own := Singles(ids);
    forall i, j | 0 <= i < j < |own| ensures own[i] != own[j] {
      if ids[i] == ids[j] { DistinctSteps(p, i, j); }
    }
    forall a ensures a in own <==> IsBlock(lib, root, a) && |a| == 1 {
      if a in own {
        var i :| 0 <= i < |own| && own[i] == a;
        UniqueStep(p, p.steps[i]);
        BlockHere(lib, root, ids[i]);
      }
      if IsBlock(lib, root, a) && |a| == 1 {
        assert a == [a[0]] && Front(a) == [];
        var s := FindStep(p.steps, a[0]).value;
        var i :| 0 <= i < |p.steps| && p.steps[i] == s;
        assert own[i] == a;
      }
    }
    forall a ensures a in tr.numbered <==> IsBlock(lib, root, a) && |a| > 1 {
      assert a in tr.numbered <==> Fresh(lib, root, StepIds(p), a);
      if IsBlock(lib, root, a) { BlockStart(lib, root, a); }
    }
    forall a ensures a in tr.blocks <==> IsBlock(lib, root, a) {
      assert a in tr.blocks <==> Emitted(lib, root, StepIds(p), a);
      if IsBlock(lib, root, a) { BlockStart(lib, root, a); }
    }
    DistinctConcat(own, tr.numbered);
    SameMembers(tr.blocks, own + tr.numbered);
  }

  lemma Repeated(ids: seq<string>, i: nat, j: nat)
    requires i < j < |ids| && ids[i] == ids[j]
    ensures !Distinct(ids)
  {
  }

  lemma FreshStep(lib: Library, root: Occurrence, out: Pipeline, tr: Trace, j: nat) returns (i: nat)
    requires Preserves(lib, root, out, tr) && j < |tr.numbered|
    ensures i < |out.steps| && out.steps[i].id == LinkedName(j + 1)
    ensures i < |tr.blocks| && tr.blocks[i] == tr.numbered[j] && IsBlock(lib, root, tr.blocks[i]) && |tr.blocks[i]| > 1
    ensures NameOf(tr.names, tr.blocks[i]) == LinkedName(j + 1)
  {
    var a := tr.numbered[j];
    assert NameOf(tr.names, a) == LinkedName(0 + 1 + j);
    assert Fresh(lib, root, StepIds(root.pipeline), a);
    i := IndexOf(lib, root, out, tr, a);
    StepAt(lib, root, out, tr, i);
  }

  /** The blocks below the root's transfers. */
  ghost predicate LinkedBlocks(lib: Library, root: Occurrence, blocks: set<Address>) {
    forall a :: a in blocks <==> IsBlock(lib, root, a) && |a| > 1
  }

  /** How many blocks a composition links, read off its address graph. */
  ghost function LinkedCount(lib: Library, root: Occurrence): nat {
    if blocks :| LinkedBlocks(lib, root, blocks) then |blocks| else 0
  }

  lemma CountIsNumbered(lib: Library, root: Occurrence, out: Pipeline, tr: Trace)
    requires Preserves(lib, root, out, tr)
    ensures LinkedCount(lib, root) == |tr.numbered|
  {
    hide IsBlock, LinkedBlocks;
    var mine := set a | a in tr.numbered;
    NumberedAreLinked(lib, root, out, tr, mine);
    var blocks :| LinkedBlocks(lib, root, blocks) && LinkedCount(lib, root) == |blocks|;
    SameBlocks(lib, root, blocks, mine);
    assert Distinct(tr.numbered);
    DistinctSize(tr.numbered);
  }

  lemma SameBlocks(lib: Library, root: Occurrence, x: set<Address>, y: set<Address>)
    requires LinkedBlocks(lib, root, x) && LinkedBlocks(lib, root, y)
    ensures x == y
  {
    hide IsBlock;
    forall a | a in x ensures a in y {}
    forall a | a in y ensures a in x {}
  }

  lemma NumberedAreLinked(lib: Library, root: Occurrence, out: Pipeline, tr: Trace, mine: set<Address>)
    requires Preserves(lib, root, out, tr) && mine == set a | a in tr.numbered
    ensures LinkedBlocks(lib, root, mine)
  {
    hide IsBlock, Preserves;
    forall a ensures a in mine <==> IsBlock(lib, root, a) && |a| > 1 {
      NumberedIsLinked(lib, root, out, tr, a);
    }
  }

  lemma NumberedIsLinked(lib: Library, root: Occurrence, out: Pipeline, tr: Trace, a: Address)
    requires Preserves(lib, root, out, tr)
    ensures a in tr.numbered <==> IsBlock(lib, root, a) && |a| > 1
  {
    assert a in tr.numbered <==> Fresh(lib, root, StepIds(root.pipeline), a);
    if IsBlock(lib, root, a) { BlockStart(lib, root, a); }
  }

  lemma {:induction false} DistinctSize(s: seq<Address>)
    requires Distinct(s)
    ensures |set a | a in s| == |s|
  {
    if s != [] {
      var front, last := s[..|s| - 1], s[|s| - 1];
      DistinctSize(front);
      assert s == front + [last];
      assert last !in front;
      assert (set a | a in s) == (set a | a in front) + {last};
    }
  }

  lemma CollisionBreaks(lib: Library, root: Occurrence, out: Pipeline, tr: Trace)
    requires Preserves(lib, root, out, tr) && !NoCollision(root.pipeline, |tr.numbered|)
    ensures !Distinct(NodeIds(out))
  {
    hide Traced, EntryNamed, NumberedOk, LinkedName, Distinct;
    var s, n :| s in root.pipeline.sources && 1 <= n <= |tr.numbered| && s.id == LinkedName(n);
    var i := FreshStep(lib, root, out, tr, n - 1);
    var k :| 0 <= k < |out.sources| && out.sources[k] == s;
    Repeated(NodeIds(out), k, |out.sources| + i);
  }

  lemma RootSound(lib: Library, root: Occurrence, out: Pipeline, tr: Trace)
    requires Preserves(lib, root, out, tr)
    ensures Sound(root)
  {
    assert Opened(lib, root, StepIds(root.pipeline), []);
    assert SoundAt(lib, root, [], {});
  }

  lemma NoReservedInputs(p: Pipeline, count: nat)
    requires Admissible(p) && Structured(p) && NoCollision(p, count)
    ensures NoReservedInput(p, count)
  {
    forall s, n | s in p.steps && 1 <= n <= count ensures LinkedName(n) !in s.inputs {
      if LinkedName(n) in s.inputs {
        KnownInput(p, s, LinkedName(n));
        assert StartsWith(LinkedName(n), "__linked_");
        if LinkedName(n) !in SourceIds(p) {
          StepNotReserved(p, FindStep(p.steps, LinkedName(n)).value);
        }
      }
    }
  }

  lemma StructuredAgain(lib: Library, root: Occurrence, out: Pipeline, tr: Trace)
    requires Preserves(lib, root, out, tr) && NoCollision(root.pipeline, |tr.numbered|) && Sound(root)
    ensures Structured(out)
  {
    hide Traced, EntryNamed, NoCollision, RouteOk, StepOk, Distinct, Acyclic, NoReservedInput, Intruded, Dependencies;
    NodesDistinct(lib, root, out, tr);
    NoReservedInputs(root.pipeline, |tr.numbered|);
    CompiledAcyclic(lib, root, out, tr);
    forall s | s in out.steps ensures StepOk(s) && RouteOk(out.steps, s) {
      var i :| 0 <= i < |out.steps| && out.steps[i] == s;
      CompiledStepOk(lib, root, out, tr, i);
      CompiledRouteIff(lib, root, out, tr, i);
      StepAt(lib, root, out, tr, i);
      NothingIntrudes(lib, root, out, tr, tr.blocks[i]);
    }
    var d := Dependencies(out.steps);
    forall n, y | n in d && y in d[n] ensures y in T.Nodes(SourceIds(out), d) {
      var s :| s in out.steps && s.id == n;
      var j :| 0 <= j < |out.steps| && out.steps[j] == s;
      UniqueStep(out, s);
      CompiledInputsKnown(lib, root, out, tr, j, y);
    }
  }

  /**
   The compiled pipeline passes the structural validation again exactly when no source of the root has one of the
   reserved names `__linked_1` up to the number of blocks the composition links.
   */
  lemma StructuredIff(lib: Library, root: Occurrence, out: Pipeline, tr: Trace)
    requires Preserves(lib, root, out, tr)
    ensures Structured(out) <==> NoCollision(root.pipeline, LinkedCount(lib, root))
    ensures LinkedCount(lib, root) == |out.steps| - |root.pipeline.steps|
  {
    hide Traced, EntryNamed, LinkedCount, NoCollision, Structured;
    RootSound(lib, root, out, tr);
    RootDistinct(root);
    CountFresh(lib, root, out, tr);
    CountIsNumbered(lib, root, out, tr);
    if NoCollision(root.pipeline, |tr.numbered|) {
      StructuredAgain(lib, root, out, tr);
    } else {
      CollisionBreaks(lib, root, out, tr);
      NotStructured(out);
    }
  }

  lemma RootDistinct(root: Occurrence)
    requires Sound(root)
    ensures Distinct(NodeIds(root.pipeline))
  {
  }

  lemma NotStructured(p: Pipeline)
    requires !Distinct(NodeIds(p))
    ensures !Structured(p)
  {
  }

  /** Sources with ordinary ids never collide, whatever is linked. */
  lemma OrdinarySourcesNeverCollide(p: Pipeline, count: nat)
    requires forall s :: s in p.sources ==> !StartsWith(s.id, "__linked_")
    ensures NoCollision(p, count)
  {
    forall s, n | s in p.sources && 1 <= n <= count ensures s.id != LinkedName(n) {
      assert StartsWith(LinkedName(n), "__linked_");
    }
  }

  /** A reserved source id gets past `references` only behind a `step` field of the source's own. */
  lemma ReservedSourceHides(p: Pipeline, s: Source)
    requires Admissible(p) && s in p.sources && StartsWith(s.id, "__linked_")
    ensures s.step.Some? && !StartsWith(s.step.value, "__linked_")
  {
    var i :| 0 <= i < |p.sources| && p.sources[i] == s;
    var b := Blocks(p)[i];
    assert b in Blocks(p);
  }
}
