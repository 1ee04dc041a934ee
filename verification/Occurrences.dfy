/**
 The meaning of a composition before it is compiled: a graph of addresses.

 A block inside a linked pipeline is addressed by the chain of transfer blocks that leads to it, followed by its own
 authored id.  No numbering, no renaming and no emission order appear here.
 */
module Occurrences {
  import opened Json
  import opened Graphs
  import opened Text
  import opened Pipelines
  import opened Flow
  import T = TopologicalOrder

  /** Immutable pipeline revisions by pipeline id and revision id. */
  type Library = map<(string, string), Pipeline>

  type Address = seq<string>

  /** One use of a pipeline: the root itself, or a linked revision entered through one of its sources. */
  datatype Occurrence = Occurrence(pipelineId: string, revisionId: string, pipeline: Pipeline, entry: Option<string>)

  function Front(a: Address): Address
    requires a != []
  {
    a[..|a| - 1]
  }

  function Last(a: Address): string
    requires a != []
  {
    a[|a| - 1]
  }

  /** The root keeps every step; a linked occurrence keeps what its selected source reaches. */
  ghost predicate Kept(occ: Occurrence, id: string) {
    && FindStep(occ.pipeline.steps, id).Some?
    && (occ.entry.Some? ==> Reached(occ.pipeline.steps, occ.entry.value, id))
  }

  /** The occurrence that the transfer block `t` hands over to. */
  ghost function Linked(lib: Library, occ: Occurrence, t: string): Option<Occurrence> {
    if !Kept(occ, t) then None
    else
      var s := FindStep(occ.pipeline.steps, t).value;
      if !Transfer(s) || !s.settings.reference.Pinned? then None
      else
        var r := s.settings.reference.reference;
        if (r.pipelineId, r.revisionId) !in lib then None
        else Some(Occurrence(r.pipelineId, r.revisionId, lib[(r.pipelineId, r.revisionId)], Some(r.inputSource)))
  }

  ghost function OccurrenceAt(lib: Library, occ: Occurrence, at: Address): Option<Occurrence>
    decreases |at|
  {
    if at == [] then Some(occ)
    else
      var child := Linked(lib, occ, at[0]);
      if child.None? then None else OccurrenceAt(lib, child.value, at[1..])
  }

  ghost predicate IsBlock(lib: Library, occ: Occurrence, a: Address) {
    a != [] && OccurrenceAt(lib, occ, Front(a)).Some? && Kept(OccurrenceAt(lib, occ, Front(a)).value, Last(a))
  }

  /** Where an input of a block in occurrence `o` comes from: the selected source is the transfer itself. */
  function Feeder(o: Occurrence, prefix: Address, input: string): Address {
    if o.entry == Some(input) then prefix else prefix + [input]
  }

  // ---- what compilation makes of an address graph --------------------------

  type Names = map<Address, string>

  function NameOf(names: Names, a: Address): string {
    if a in names then names[a] else ""
  }

  function OriginObject(pipelineId: string, revisionId: string, block: string): Value {
    Obj(map["pipeline_id" := Str(pipelineId), "revision_id" := Str(revisionId), "block_id" := Str(block)])
  }

  /** A transfer becomes an ordinary forward; linked blocks record where they were authored. */
  function CompiledSettings(o: Occurrence, s: Step): Settings {
    var base := if o.entry.Some? then s.settings.(origin := Some(OriginObject(o.pipelineId, o.revisionId, s.id))) else s.settings;
    if Transfer(s) then base.(kind := "forward", reference := NoReference) else base
  }

  function RenamedInputs(o: Occurrence, prefix: Address, inputs: seq<string>, names: Names): seq<string> {
    seq(|inputs|, i requires 0 <= i < |inputs| => NameOf(names, Feeder(o, prefix, inputs[i])))
  }

  function RenamedTargets(prefix: Address, targets: seq<string>, names: Names): seq<string> {
    seq(|targets|, j requires 0 <= j < |targets| => NameOf(names, prefix + [targets[j]]))
  }

  function RenamedBranches(prefix: Address, branches: map<string, seq<string>>, names: Names): map<string, seq<string>> {
    map branch | branch in branches :: RenamedTargets(prefix, branches[branch], names)
  }

  /** The block `s` of occurrence `o` with every mention of a block replaced by that block's name. */
  function CompiledStep(o: Occurrence, prefix: Address, s: Step, names: Names): Step {
    Step(NameOf(names, prefix + [s.id]),
         RenamedInputs(o, prefix, s.inputs, names),
         if s.branches.None? then None else Some(RenamedBranches(prefix, s.branches.value, names)),
         s.routing,
         CompiledSettings(o, s))
  }

  /** Every name that `CompiledStep` looks up exists. */
  ghost predicate Resolved(o: Occurrence, prefix: Address, s: Step, names: Names) {
    && prefix + [s.id] in names
    && (forall x :: x in s.inputs ==> Feeder(o, prefix, x) in names)
    && (s.branches.Some? ==>
          forall branch, t :: branch in s.branches.value && t in s.branches.value[branch] ==> prefix + [t] in names)
  }

  /** The output step `s` is the block at address `a`, renamed. */
  ghost predicate Renders(lib: Library, occ: Occurrence, names: Names, a: Address, s: Step) {
    && IsBlock(lib, occ, a)
    && var o := OccurrenceAt(lib, occ, Front(a)).value;
       var authored := FindStep(o.pipeline.steps, Last(a)).value;
       Resolved(o, Front(a), authored, names) && s == CompiledStep(o, Front(a), authored, names)
  }

  // ---- addresses below a transfer ------------------------------------------

  lemma OccurrenceBelow(lib: Library, occ: Occurrence, t: string, at: Address)
    ensures OccurrenceAt(lib, occ, [t] + at) ==
            if Linked(lib, occ, t).None? then None else OccurrenceAt(lib, Linked(lib, occ, t).value, at)
  {
    assert ([t] + at)[1..] == at;
  }

  lemma BlockBelow(lib: Library, occ: Occurrence, t: string, a: Address)
    requires a != []
    ensures IsBlock(lib, occ, [t] + a) <==>
            Linked(lib, occ, t).Some? && IsBlock(lib, Linked(lib, occ, t).value, a)
  {
    assert Front([t] + a) == [t] + Front(a);
    OccurrenceBelow(lib, occ, t, Front(a));
  }

  lemma BlockHere(lib: Library, occ: Occurrence, id: string)
    ensures IsBlock(lib, occ, [id]) <==> Kept(occ, id)
  {
    assert Front([id]) == [];
  }

  /** A block below this occurrence starts with one of its transfer blocks. */
  lemma BlockStart(lib: Library, occ: Occurrence, a: Address)
    requires IsBlock(lib, occ, a)
    ensures Kept(occ, a[0])
    ensures |a| > 1 ==> Linked(lib, occ, a[0]).Some? && IsBlock(lib, Linked(lib, occ, a[0]).value, a[1..])
  {
    if |a| == 1 {
      BlockHere(lib, occ, a[0]);
      assert a == [a[0]];
    } else {
      assert a == [a[0]] + a[1..];
      BlockBelow(lib, occ, a[0], a[1..]);
    }
  }

  /** `below` names the blocks of a linked occurrence exactly as `names` does under the transfer `t`. */
  ghost predicate Grafted(t: string, below: Names, names: Names) {
    forall x :: x in below ==> [t] + x in names && names[[t] + x] == below[x]
  }

  /** A compiled step depends only on the names it looks up. */
  lemma SameLookups(o: Occurrence, s: Step, prefix: Address, names: Names, prefix': Address, names': Names)
    requires NameOf(names, prefix + [s.id]) == NameOf(names', prefix' + [s.id])
    requires forall x :: x in s.inputs ==> NameOf(names, Feeder(o, prefix, x)) == NameOf(names', Feeder(o, prefix', x))
    requires s.branches.Some? ==> forall branch, t :: branch in s.branches.value && t in s.branches.value[branch] ==>
      NameOf(names, prefix + [t]) == NameOf(names', prefix' + [t])
    ensures CompiledStep(o, prefix, s, names) == CompiledStep(o, prefix', s, names')
  {
    assert RenamedInputs(o, prefix, s.inputs, names) == RenamedInputs(o, prefix', s.inputs, names');
    if s.branches.Some? {
      forall branch | branch in s.branches.value
        ensures RenamedTargets(prefix, s.branches.value[branch], names) ==
                RenamedTargets(prefix', s.branches.value[branch], names')
      {
      }
      assert RenamedBranches(prefix, s.branches.value, names) == RenamedBranches(prefix', s.branches.value, names');
    }
  }

  lemma ResolvedBelow(o: Occurrence, prefix: Address, s: Step, t: string, below: Names, names: Names)
    requires Resolved(o, prefix, s, below) && Grafted(t, below, names)
    ensures Resolved(o, [t] + prefix, s, names)
    ensures CompiledStep(o, prefix, s, below) == CompiledStep(o, [t] + prefix, s, names)
  {
    assert forall x :: ([t] + prefix) + [x] == [t] + (prefix + [x]);
    assert forall x :: Feeder(o, [t] + prefix, x) == [t] + Feeder(o, prefix, x);
    SameLookups(o, s, prefix, below, [t] + prefix, names);
  }

  lemma RendersBelow(lib: Library, occ: Occurrence, t: string, below: Names, names: Names, a: Address, s: Step)
    requires Linked(lib, occ, t).Some?
    requires Renders(lib, Linked(lib, occ, t).value, below, a, s)
    requires Grafted(t, below, names)
    ensures Renders(lib, occ, names, [t] + a, s)
  {
    BlockBelow(lib, occ, t, a);
    assert Front([t] + a) == [t] + Front(a);
    OccurrenceBelow(lib, occ, t, Front(a));
    var o := OccurrenceAt(lib, occ, [t] + Front(a)).value;
    ResolvedBelow(o, Front(a), FindStep(o.pipeline.steps, Last(a)).value, t, below, names);
  }

  ghost predicate Extends(names: Names, more: Names) {
    forall x :: x in names ==> x in more && more[x] == names[x]
  }

  /** Naming further blocks does not disturb a block whose names are all settled. */
  lemma RendersStable(lib: Library, occ: Occurrence, names: Names, more: Names, a: Address, s: Step)
    requires Renders(lib, occ, names, a, s) && Extends(names, more)
    ensures Renders(lib, occ, more, a, s)
  {
    var o := OccurrenceAt(lib, occ, Front(a)).value;
    var authored := FindStep(o.pipeline.steps, Last(a)).value;
    SameLookups(o, authored, Front(a), names, Front(a), more);
  }

  // ---- well-formed occurrences ---------------------------------------------

  /** The per-occurrence admission checks. */
  ghost predicate Sound(occ: Occurrence) {
    && Admissible(occ.pipeline)
    && Structured(occ.pipeline)
    && (occ.entry.Some? ==>
          && occ.entry.value in SourceIds(occ.pipeline)
          && forall s :: !Join(occ.pipeline.steps, occ.entry.value, s))
  }

  /** Names that make sense inside one occurrence. */
  ghost predicate Local(occ: Occurrence, x: string) {
    Kept(occ, x) || (if occ.entry.Some? then x == occ.entry.value else x in SourceIds(occ.pipeline))
  }

  lemma KeptStep(occ: Occurrence, id: string)
    requires Sound(occ)
    ensures Kept(occ, id) ==> id in StepIds(occ.pipeline) && id !in SourceIds(occ.pipeline)
  {
    if Kept(occ, id) {
      UniqueStep(occ.pipeline, FindStep(occ.pipeline.steps, id).value);
    }
  }

  lemma KnownInput(p: Pipeline, s: Step, x: string)
    requires Structured(p) && s in p.steps && x in s.inputs
    ensures x in SourceIds(p) || FindStep(p.steps, x).Some?
  {
    UniqueStep(p, s);
    var d := Dependencies(p.steps);
    assert s.id in d && x in d[s.id];
    assert x in T.Nodes(SourceIds(p), d);
    if x in d {
      var u :| u in p.steps && u.id == x;
    }
  }

  lemma OnlyInputReached(p: Pipeline, selected: string, s: Step, x: string)
    requires Structured(p) && s in p.steps && selected in SourceIds(p) && x in s.inputs
    requires Reached(p.steps, selected, s.id) && !Join(p.steps, selected, s)
    ensures Reached(p.steps, selected, x)
  {
    StepReached(p, selected, s);
    var y :| y in s.inputs && Reached(p.steps, selected, y);
    assert s.inputs == [s.inputs[0]];
  }

  /** A kept step draws its inputs inside its own occurrence ... */
  lemma LocalInput(occ: Occurrence, s: Step, x: string)
    requires Sound(occ) && s in occ.pipeline.steps && Kept(occ, s.id) && x in s.inputs
    ensures Local(occ, x)
  {
    if occ.entry.Some? {
      OnlyInputReached(occ.pipeline, occ.entry.value, s, x);
      ReachedIsKnown(occ.pipeline, occ.entry.value, x);
    } else {
      KnownInput(occ.pipeline, s, x);
    }
  }

  /** ... and routes its output inside it too. */
  lemma LocalTarget(occ: Occurrence, s: Step, branch: string, t: string)
    requires Sound(occ) && s in occ.pipeline.steps && Kept(occ, s.id)
    requires s.branches.Some? && branch in s.branches.value && t in s.branches.value[branch]
    ensures Kept(occ, t)
  {
    var p := occ.pipeline;
    assert RouteOk(p.steps, s);
    assert t in Destinations(s.branches.value);
    assert t in Consumers(p.steps, s.id);
    if occ.entry.Some? {
      assert Feeds(p.steps, s.id, t);
      ReachedExtends(p.steps, occ.entry.value, s.id, t);
    }
  }
}
