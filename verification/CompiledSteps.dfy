/** What each compiled step holds, field by field. */
module CompiledSteps {
  import opened Json
  import opened Graphs
  import opened Text
  import opened Pipelines
  import opened Occurrences
  import opened Traces
  import opened Composition
  import opened CompiledGraph
  import C = CompiledCycles
  import F = Flow

  /** The compiled step at some position stands for the block at this address, and is called so. */
  ghost predicate CalledAt(out: Pipeline, tr: Trace, a: Address, name: string) {
    exists j :: 0 <= j < |out.steps| && j < |tr.blocks| && tr.blocks[j] == a && out.steps[j].id == name
  }

  lemma Called(lib: Library, root: Occurrence, out: Pipeline, tr: Trace, a: Address)
    requires Preserves(lib, root, out, tr) && IsBlock(lib, root, a)
    ensures CalledAt(out, tr, a, NameOf(tr.names, a))
  {
    hide Preserves;
    var j := IndexOf(lib, root, out, tr, a);
    StepAt(lib, root, out, tr, j);
  }

  lemma EntryByDepth(lib: Library, root: Occurrence, a: Address)
    requires root.entry.None? && IsBlock(lib, root, a)
    ensures Holder(lib, root, a).entry.None? <==> |a| == 1
    ensures |a| == 1 ==> Front(a) == [] && Holder(lib, root, a) == root
  {
    if |a| == 1 {
      assert Front(a) == [];
    } else {
      C.EntryBelow(lib, root, Front(a));
    }
  }

  // ---- settings ------------------------------------------------------------

  /** An object with exactly these three fields says where a linked block was authored. */
  predicate RecordsOrigin(origin: Option<Value>, pipelineId: string, revisionId: string, block: string) {
    && origin.Some? && origin.value.Obj? && origin.value.fields.Keys == {"pipeline_id", "revision_id", "block_id"}
    && Get(origin, "pipeline_id") == Some(Str(pipelineId))
    && Get(origin, "revision_id") == Some(Str(revisionId))
    && Get(origin, "block_id") == Some(Str(block))
  }

  /**
   A transfer has become a plain forward without a reference, every other block is of the kind it was; linked blocks
   record where they were authored; nothing else of the configuration changed.
   */
  lemma SettingsCompiled(lib: Library, root: Occurrence, out: Pipeline, tr: Trace, i: nat)
    requires Preserves(lib, root, out, tr) && i < |out.steps|
    ensures i < |tr.blocks| && IsBlock(lib, root, tr.blocks[i])
    ensures var a := tr.blocks[i];
      var s, o, t := Authored(lib, root, a), Holder(lib, root, a), out.steps[i];
      && (s.settings.kind == "pipeline" ==> t.settings.kind == "forward" && t.settings.reference == NoReference)
      && (s.settings.kind != "pipeline" ==> t.settings.kind == s.settings.kind && t.settings.reference == s.settings.reference)
      && t.routing == s.routing
      && t.settings.capability == s.settings.capability && t.settings.model == s.settings.model
      && t.settings.trigger == s.settings.trigger && t.settings.merge == s.settings.merge
      && t.settings.payload == s.settings.payload
      && (|a| == 1 ==> t.settings.origin == s.settings.origin)
      && (|a| > 1 ==> RecordsOrigin(t.settings.origin, o.pipelineId, o.revisionId, Last(a)))
  {
    hide Preserves, Kept, OccurrenceAt, FindStep;
    StepAt(lib, root, out, tr, i);
    RootEntry(lib, root, out, tr);
    EntryByDepth(lib, root, tr.blocks[i]);
  }

  lemma RootEntry(lib: Library, root: Occurrence, out: Pipeline, tr: Trace)
    requires Preserves(lib, root, out, tr)
    ensures root.entry.None?
  {
  }

  // ---- names and references to other blocks --------------------------------

  /** Root steps keep their ids; linked blocks have reserved names, numbered up to how many there are. */
  lemma IdCompiled(lib: Library, root: Occurrence, out: Pipeline, tr: Trace, i: nat)
    requires Preserves(lib, root, out, tr) && i < |out.steps|
    ensures i < |tr.blocks| && IsBlock(lib, root, tr.blocks[i])
    ensures |tr.blocks[i]| == 1 ==> out.steps[i].id == Authored(lib, root, tr.blocks[i]).id
    ensures |tr.blocks[i]| > 1 ==> exists n :: 1 <= n <= LinkedCount(lib, root) && out.steps[i].id == LinkedName(n)
  {
    hide Preserves, Kept, OccurrenceAt, FindStep, LinkedCount, LinkedName;
    StepAt(lib, root, out, tr, i);
    var a := tr.blocks[i];
    if |a| == 1 {
      NamesDomain(lib, root, out, tr, a);
    } else {
      var n := LinkedNumber(lib, root, out, tr, a);
      CountIsNumbered(lib, root, out, tr);
      assert 1 <= n + 1 <= LinkedCount(lib, root) && out.steps[i].id == LinkedName(n + 1);
    }
  }

  /**
   What an input of block `a` has become: the selected source of a linked pipeline is the transfer that feeds it, a
   block beside `a` is that block's compiled step, and a source of the root is itself.
   */
  ghost predicate InputBecomes(lib: Library, root: Occurrence, out: Pipeline, tr: Trace, a: Address, x: string, y: string)
    requires IsBlock(lib, root, a)
  {
    if Holder(lib, root, a).entry == Some(x) then Front(a) != [] && CalledAt(out, tr, Front(a), y)
    else if IsBlock(lib, root, Front(a) + [x]) then CalledAt(out, tr, Front(a) + [x], y)
    else |a| == 1 && x in SourceIds(root.pipeline) && y == x
  }

  lemma OneInput(lib: Library, root: Occurrence, out: Pipeline, tr: Trace, a: Address, x: string)
    requires Preserves(lib, root, out, tr) && IsBlock(lib, root, a) && Feeder(Holder(lib, root, a), Front(a), x) in tr.names
    ensures InputBecomes(lib, root, out, tr, a, x, NameOf(tr.names, Feeder(Holder(lib, root, a), Front(a), x)))
  {
    hide Preserves, Kept, FindStep;
    var f := Feeder(Holder(lib, root, a), Front(a), x);
    NamesDomain(lib, root, out, tr, f);
    RootEntry(lib, root, out, tr);
    EntryByDepth(lib, root, a);
    if Holder(lib, root, a).entry == Some(x) {
      OnlyTransfersLink(lib, root, Front(a));
      Called(lib, root, out, tr, Front(a));
    } else if IsBlock(lib, root, f) {
      Called(lib, root, out, tr, f);
    } else {
      assert Front(a) == [] && f == [x];
    }
  }

  /** Inputs and branch targets keep their number and order, each renamed to what it refers to. */
  lemma MentionsCompiled(lib: Library, root: Occurrence, out: Pipeline, tr: Trace, i: nat)
    requires Preserves(lib, root, out, tr) && i < |out.steps|
    ensures i < |tr.blocks| && IsBlock(lib, root, tr.blocks[i])
    ensures var a := tr.blocks[i];
      var s, t := Authored(lib, root, a), out.steps[i];
      && |t.inputs| == |s.inputs|
      && (forall k :: 0 <= k < |s.inputs| ==> InputBecomes(lib, root, out, tr, a, s.inputs[k], t.inputs[k]))
      && (s.branches.None? <==> t.branches.None?)
      && (s.branches.Some? ==>
            && t.branches.value.Keys == s.branches.value.Keys
            && (forall branch :: branch in s.branches.value ==> TargetsBecome(out, tr, a, s.branches.value[branch], t.branches.value[branch])))
  {
    hide Preserves, Kept, OccurrenceAt, FindStep, InputBecomes, CalledAt;
    StepAt(lib, root, out, tr, i);
    var a := tr.blocks[i];
    var s, o, t := Authored(lib, root, a), Holder(lib, root, a), out.steps[i];
    forall k | 0 <= k < |s.inputs| ensures InputBecomes(lib, root, out, tr, a, s.inputs[k], t.inputs[k]) {
      assert s.inputs[k] in s.inputs;
      OneInput(lib, root, out, tr, a, s.inputs[k]);
    }
    if s.branches.Some? {
      forall branch | branch in s.branches.value
        ensures TargetsBecome(out, tr, a, s.branches.value[branch], t.branches.value[branch])
      {
        TargetsCompiled(lib, root, out, tr, a, branch);
      }
    }
  }

  ghost predicate TargetsBecome(out: Pipeline, tr: Trace, a: Address, before: seq<string>, after: seq<string>)
    requires a != []
  {
    |after| == |before| && forall k :: 0 <= k < |before| ==> CalledAt(out, tr, Front(a) + [before[k]], after[k])
  }

  lemma TargetsCompiled(lib: Library, root: Occurrence, out: Pipeline, tr: Trace, a: Address, branch: string)
    requires Preserves(lib, root, out, tr) && IsBlock(lib, root, a)
    requires Authored(lib, root, a).branches.Some? && branch in Authored(lib, root, a).branches.value
    ensures var targets := Authored(lib, root, a).branches.value[branch];
      TargetsBecome(out, tr, a, targets, RenamedTargets(Front(a), targets, tr.names))
  {
    hide Preserves, Structured, CalledAt;
    var o, s := Holder(lib, root, a), Authored(lib, root, a);
    var targets := s.branches.value[branch];
    HolderSound(lib, root, out, tr, a);
    BlockKept(lib, root, a);
    forall k | 0 <= k < |targets| ensures CalledAt(out, tr, Front(a) + [targets[k]], NameOf(tr.names, Front(a) + [targets[k]])) {
      assert targets[k] in targets;
      LocalTarget(o, s, branch, targets[k]);
      SiblingBlock(lib, root, a, targets[k]);
      Called(lib, root, out, tr, Front(a) + [targets[k]]);
    }
  }

  // ---- which blocks there are ----------------------------------------------

  /** Every step of the root is a block of the composition. */
  lemma RootBlocksMean(lib: Library, root: Occurrence, out: Pipeline, tr: Trace, id: string)
    requires Preserves(lib, root, out, tr)
    ensures IsBlock(lib, root, [id]) <==> exists s :: s in root.pipeline.steps && s.id == id
  {
    RootEntry(lib, root, out, tr);
    BlockHere(lib, root, id);
  }

  /**
   A step of a linked occurrence is a block exactly if neither a clock nor a person starts it and it takes an input from
   the selected source or from another block of the occurrence.
   */
  lemma LinkedBlocksMean(lib: Library, root: Occurrence, out: Pipeline, tr: Trace, at: Address, o: Occurrence, s: Step)
    requires Preserves(lib, root, out, tr) && at != [] && OccurrenceAt(lib, root, at) == Some(o) && s in o.pipeline.steps
    ensures o.entry.Some?
    ensures IsBlock(lib, root, at + [s.id]) <==>
      && s.settings.trigger != Some(Str("cron")) && s.settings.trigger != Some(Str("on_demand"))
      && exists x :: x in s.inputs && (o.entry == Some(x) || IsBlock(lib, root, at + [x]))
  {
    hide Preserves, Kept, Sound, OccurrenceAt;
    C.EntryBelow(lib, root, at);
    OccurrenceSound(lib, root, out, tr, at);
    KeptMeans(o, s);
    BlockAt(lib, root, at, o, s.id);
    forall x | x in s.inputs ensures IsBlock(lib, root, at + [x]) <==> Kept(o, x) { BlockAt(lib, root, at, o, x); }
  }

  lemma BlockAt(lib: Library, root: Occurrence, at: Address, o: Occurrence, x: string)
    requires OccurrenceAt(lib, root, at) == Some(o)
    ensures IsBlock(lib, root, at + [x]) <==> Kept(o, x)
  {
    hide Kept, OccurrenceAt;
    assert Front(at + [x]) == at && Last(at + [x]) == x;
  }

  lemma KeptMeans(o: Occurrence, s: Step)
    requires Sound(o) && o.entry.Some? && s in o.pipeline.steps
    ensures Kept(o, s.id) <==>
      && s.settings.trigger != Some(Str("cron")) && s.settings.trigger != Some(Str("on_demand"))
      && exists x :: x in s.inputs && (o.entry == Some(x) || Kept(o, x))
  {
    hide Structured, F.Reached, Admissible, FindStep;
    var selected := o.entry.value;
    DistinctNodes(o);
    UniqueStep(o.pipeline, s);
    F.StepReached(o.pipeline, selected, s);
    F.ReachedSelf(o.pipeline.steps, selected);
    forall x | x in s.inputs ensures F.Reached(o.pipeline.steps, selected, x) <==> o.entry == Some(x) || Kept(o, x) {
      KnownInput(o.pipeline, s, x);
      if F.Reached(o.pipeline.steps, selected, x) { F.ReachedIsKnown(o.pipeline, selected, x); }
    }
  }

  lemma OccurrenceSound(lib: Library, root: Occurrence, out: Pipeline, tr: Trace, at: Address)
    requires Preserves(lib, root, out, tr) && OccurrenceAt(lib, root, at).Some?
    ensures Sound(OccurrenceAt(lib, root, at).value)
  {
    if at != [] {
      assert Kept(root, at[0]);
    }
    assert Opened(lib, root, StepIds(root.pipeline), at);
    assert SoundAt(lib, root, at, {});
  }
}
