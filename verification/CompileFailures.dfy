/** What each failure of the compiler says about the composition. */
module CompileFailures {
  import opened Json
  import opened Graphs
  import opened Pipelines
  import opened Flow
  import opened Occurrences
  import opened Traces
  import opened Composition
  import opened CompiledGraph

  ghost predicate There(lib: Library, occ: Occurrence, at: Address) {
    OccurrenceAt(lib, occ, at).Some?
  }

  /** Some occurrences of the composition, each counted once, cost more than what is left of a budget. */
  ghost predicate Exceeds(lib: Library, occ: Occurrence, b: Budget, spent: nat, limit: nat, ats: seq<Address>) {
    Distinct(ats) && (forall at :: at in ats ==> There(lib, occ, at)) && spent + Total(lib, occ, b, ats) > limit
  }

  /** The occurrence keeps a transfer to a revision that the library does not have. */
  ghost predicate Unsupplied(lib: Library, o: Occurrence, s: Step) {
    && s in o.pipeline.steps && Kept(o, s.id) && Transfer(s) && s.settings.reference.Pinned?
    && Behind(lib, s.settings.reference.reference).None?
  }

  /** The defect of one occurrence that a failure reports. */
  ghost predicate Defect(lib: Library, o: Occurrence, f: Failure) {
    match f
    case InvalidReferences => !Admissible(o.pipeline)
    case InvalidStructure => !Structured(o.pipeline)
    case InputUnavailable => o.entry.Some? && o.entry.value !in SourceIds(o.pipeline)
    case StatefulJoin => o.entry.Some? && exists s :: Join(o.pipeline.steps, o.entry.value, s)
    case RevisionUnavailable => exists s :: Unsupplied(lib, o, s)
    case _ => false
  }

  /** Why expanding an occurrence fails, the pipelines `c.active` being open and the counters at `c`. */
  ghost predicate Explained(lib: Library, occ: Occurrence, c: Counters, f: Failure) {
    match f
    case CrossPipelineCycle => exists at :: There(lib, occ, at) && !ChainFresh(lib, occ, at, c.active)
    case TooManyTransfers => exists ats :: Exceeds(lib, occ, TransferBudget, c.transfers, 3, ats)
    case TooManyBlocks => exists ats :: Exceeds(lib, occ, BlockBudget, c.blocks, 256, ats)
    case _ => exists at :: There(lib, occ, at) && Defect(lib, OccurrenceAt(lib, occ, at).value, f)
  }

  lemma ExceedsHere(lib: Library, occ: Occurrence, b: Budget, spent: nat, limit: nat)
    requires spent + Weight(b, occ.pipeline) > limit
    ensures Exceeds(lib, occ, b, spent, limit, [[]])
  {
    hide Weight, Total;
    InitialTotal(lib, occ, b);
    assert There(lib, occ, []);
  }

  lemma EnteringExplained(lib: Library, occ: Occurrence, c: Counters)
    requires Entered(occ, c).Err?
    ensures Explained(lib, occ, c, Entered(occ, c).error)
  {
    hide Admissible, Structured, Join, Exceeds, Weight;
    assert There(lib, occ, []) && OccurrenceAt(lib, occ, []) == Some(occ);
    var f := Entered(occ, c).error;
    if f.CrossPipelineCycle? {
      assert !ChainFresh(lib, occ, [], c.active);
    } else if f.TooManyTransfers? {
      ExceedsHere(lib, occ, TransferBudget, c.transfers, MAX_TRANSFERS);
    } else if f.TooManyBlocks? {
      ExceedsHere(lib, occ, BlockBudget, c.blocks, MAX_BLOCKS);
    } else {
      assert Defect(lib, occ, f);
    }
  }

  lemma ExceedsBelow(lib: Library, occ: Occurrence, b: Budget, spent: nat, limit: nat, done: set<string>, forbidden: set<string>,
                     before: seq<Address>, t: string, child: Occurrence, ats: seq<Address>)
    requires OccurrencesOk(lib, occ, done, before, forbidden) && t !in done && Linked(lib, occ, t) == Some(child)
    requires Exceeds(lib, child, b, spent + Total(lib, occ, b, before), limit, ats)
    ensures Exceeds(lib, occ, b, spent, limit, before + Under(t, ats))
  {
    hide Linked, Total, SoundAt, OccurrenceAt;
    TotalJoined(lib, occ, b, t, child, before, ats);
    UnderDistinct(t, ats);
    forall a | a in before ensures a !in Under(t, ats) && There(lib, occ, a) {
      UnderMember(t, ats, a);
      assert Opened(lib, occ, done, a);
      ThereOpened(lib, occ, done, a);
    }
    DistinctConcat(before, Under(t, ats));
    forall a | a in Under(t, ats) ensures There(lib, occ, a) {
      UnderMember(t, ats, a);
      assert a == [t] + a[1..];
      OccurrenceBelow(lib, occ, t, a[1..]);
      assert There(lib, child, a[1..]);
    }
  }

  lemma ThereOpened(lib: Library, occ: Occurrence, done: set<string>, at: Address)
    requires Opened(lib, occ, done, at)
    ensures There(lib, occ, at)
  {
  }

  /** A cause below a transfer is a cause of the occurrence that holds it. */
  lemma ExplainedBelow(lib: Library, occ: Occurrence, before: Counters, now: Counters, tr: Trace, k: nat, child: Occurrence,
                       mid: Counters, f: Failure)
    requires Sound(occ) && k < |occ.pipeline.steps| && Along(lib, occ, k, before, now, tr)
    requires Linked(lib, occ, occ.pipeline.steps[k].id) == Some(child) && mid == now.(steps := mid.steps)
    requires Explained(lib, child, mid, f)
    ensures Explained(lib, occ, before, f)
  {
    hide Along, Sound, Linked, Exceeds, Defect, OccurrencesOk, OccurrenceAt, Total;
    var t, done := occ.pipeline.steps[k].id, Ids(occ.pipeline.steps[..k]);
    SoFar(lib, occ, k, before, now, tr);
    match f
    case TooManyTransfers =>
      var ats :| Exceeds(lib, child, TransferBudget, mid.transfers, MAX_TRANSFERS, ats);
      ExceedsBelow(lib, occ, TransferBudget, before.transfers, MAX_TRANSFERS, done, before.active, tr.occurrences, t, child, ats);
    case TooManyBlocks =>
      var ats :| Exceeds(lib, child, BlockBudget, mid.blocks, MAX_BLOCKS, ats);
      ExceedsBelow(lib, occ, BlockBudget, before.blocks, MAX_BLOCKS, done, before.active, tr.occurrences, t, child, ats);
    case CrossPipelineCycle =>
      var at :| There(lib, child, at) && !ChainFresh(lib, child, at, mid.active);
      OccurrenceBelow(lib, occ, t, at);
      assert ([t] + at)[0] == t && ([t] + at)[1..] == at;
      assert There(lib, occ, [t] + at) && !ChainFresh(lib, occ, [t] + at, before.active);
    case _ =>
      var at :| There(lib, child, at) && Defect(lib, OccurrenceAt(lib, child, at).value, f);
      OccurrenceBelow(lib, occ, t, at);
      assert There(lib, occ, [t] + at);
  }

  lemma SoFar(lib: Library, occ: Occurrence, k: nat, before: Counters, now: Counters, tr: Trace)
    requires Sound(occ) && k < |occ.pipeline.steps| && Along(lib, occ, k, before, now, tr)
    ensures now.active == before.active + {occ.pipelineId}
    ensures now.blocks == before.blocks + Total(lib, occ, BlockBudget, tr.occurrences)
    ensures now.transfers == before.transfers + Total(lib, occ, TransferBudget, tr.occurrences)
    ensures OccurrencesOk(lib, occ, Ids(occ.pipeline.steps[..k]), tr.occurrences, before.active)
    ensures occ.pipeline.steps[k].id !in Ids(occ.pipeline.steps[..k])
  {
    hide NamesOk, BlocksOk, NumberedOk, OccurrencesOk, Total;
    DistinctNodes(occ);
    NextStep(occ.pipeline, k);
  }

  lemma {:induction false} ExpandingExplained(lib: Library, occ: Occurrence, transfer: string, c: Counters)
    requires c.transfers <= MAX_TRANSFERS && Expanded(lib, occ, transfer, c).Err?
    ensures Explained(lib, occ, c, Expanded(lib, occ, transfer, c).error)
    decreases MAX_TRANSFERS - c.transfers, 2, 0
  {
    hide StepsExpanded, LocalNames, Along, NamesAssigned, Separate, Explained, Sound;
    if Entered(occ, c).Err? {
      EnteringExplained(lib, occ, c);
    } else {
      EnteredSound(occ, c);
      SoundSeparates(occ);
      var named := LocalNames(occ, transfer, c.nextId);
      var drawn := LocalNamesAssigned(occ, transfer, c.nextId);
      var start := Entered(occ, c).value.(nextId := named.1);
      AlongStart(lib, occ, named.0, drawn, c, start);
      StepsExplained(lib, occ, named.0, drawn, |occ.pipeline.steps|, c, start, MAX_TRANSFERS - c.transfers);
    }
  }

  lemma {:induction false} StepsExplained(lib: Library, occ: Occurrence, names: map<string, string>, drawn: seq<string>, k: nat,
                                          before: Counters, c: Counters, left: nat)
    requires Sound(occ) && Separate(occ) && NamesAssigned(occ, names, drawn, before.nextId)
    requires k <= |occ.pipeline.steps| && c.transfers <= MAX_TRANSFERS
    requires before.transfers <= MAX_TRANSFERS && left == MAX_TRANSFERS - before.transfers
    requires MAX_TRANSFERS - c.transfers + |PinnedReferences(occ.pipeline)| <= left
    requires Along(lib, occ, 0, before, c, Trace(Lift(occ, names), [], [], Singles(drawn), [[]]))
    requires StepsExpanded(lib, occ, names, k, c, left).Err?
    ensures Explained(lib, occ, before, StepsExpanded(lib, occ, names, k, c, left).error)
    decreases left, 1, k
  {
    hide Along, Sound, Separate, NamesAssigned, Explained, StepExpanded;
    if StepsExpanded(lib, occ, names, k - 1, c, left).Err? {
      StepsExplained(lib, occ, names, drawn, k - 1, before, c, left);
    } else {
      var tr := StepsTrace(lib, occ, names, drawn, k - 1, before, c, left);
      StepExplained(lib, occ, names, k - 1, before, StepsExpanded(lib, occ, names, k - 1, c, left).value, tr, left);
    }
  }

  lemma {:induction false} StepExplained(lib: Library, occ: Occurrence, names: map<string, string>, k: nat,
                                         before: Counters, now: Counters, tr: Trace, left: nat)
    requires Sound(occ) && k < |occ.pipeline.steps| && now.transfers <= MAX_TRANSFERS
    requires before.transfers <= MAX_TRANSFERS && left == MAX_TRANSFERS - before.transfers
    requires MAX_TRANSFERS - now.transfers + |PinnedReferences(occ.pipeline)| <= left
    requires Along(lib, occ, k, before, now, tr) && StepExpanded(lib, occ, names, k, now, left).Err?
    ensures Explained(lib, occ, before, StepExpanded(lib, occ, names, k, now, left).error)
    decreases left, 0, 0
  {
    hide Along, Sound, Kept, LocallyRenamed, Linked, Expanded, Explained;
    var s := occ.pipeline.steps[k];
    var reference := TransferReference(occ, s);
    if Behind(lib, reference).None? {
      MissingExplained(lib, occ, before, s);
    } else {
      var child := Behind(lib, reference).value;
      LinkedTo(lib, occ, s, child);
      var out := LocallyRenamed(occ, names, s);
      var mid := now.(steps := now.steps + [out]);
      ExpandingExplained(lib, child, out.id, mid);
      ExplainedBelow(lib, occ, before, now, tr, k, child, mid, Expanded(lib, child, out.id, mid).error);
    }
  }

  lemma MissingExplained(lib: Library, occ: Occurrence, c: Counters, s: Step)
    requires Unsupplied(lib, occ, s)
    ensures Explained(lib, occ, c, RevisionUnavailable)
  {
    hide Unsupplied;
    assert There(lib, occ, []) && OccurrenceAt(lib, occ, []) == Some(occ);
    assert Defect(lib, occ, RevisionUnavailable);
  }

  /** Every failure names a defect that some occurrence of the composition, or their sum, really has. */
  lemma FailuresExplained(pipelineId: string, revisionId: string, p: Pipeline, lib: Library)
    requires Compiled(pipelineId, revisionId, p, lib).Err?
    ensures Explained(lib, Root(pipelineId, revisionId, p), Counters({}, [], 0, 0, 0), Compiled(pipelineId, revisionId, p, lib).error)
  {
    hide Expanded, Explained;
    ExpandingExplained(lib, Root(pipelineId, revisionId, p), "", Counters({}, [], 0, 0, 0));
  }
}
