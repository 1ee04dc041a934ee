/** Exactly which compositions compile. */
module CompilableGraph {
  import opened Json
  import opened Graphs
  import opened Text
  import opened Pipelines
  import opened Flow
  import opened Occurrences
  import opened Traces
  import opened Composition
  import opened CompiledGraph

  /** Every transfer the occurrence keeps leads to a revision of the library. */
  ghost predicate Supplied(lib: Library, o: Occurrence) {
    forall s :: s in o.pipeline.steps && Kept(o, s.id) && Transfer(s) && s.settings.reference.Pinned? ==>
      Behind(lib, s.settings.reference.reference).Some?
  }

  ghost predicate ReadyAt(lib: Library, occ: Occurrence, at: Address, forbidden: set<string>) {
    SoundAt(lib, occ, at, forbidden) && Supplied(lib, OccurrenceAt(lib, occ, at).value)
  }

  /** The list holds every occurrence below this one, once, and all of them can be entered. */
  ghost predicate AllReady(lib: Library, occ: Occurrence, ats: seq<Address>, forbidden: set<string>) {
    && Distinct(ats)
    && (forall at :: at in ats <==> OccurrenceAt(lib, occ, at).Some?)
    && (forall at :: at in ats ==> ReadyAt(lib, occ, at, forbidden))
  }

  /**
   The composition has finitely many occurrences, all of them sound, supplied and without a pipeline twice on their
   chain, and together they stay within the budgets.
   */
  ghost predicate Composable(lib: Library, root: Occurrence, ats: seq<Address>) {
    && AllReady(lib, root, ats, {})
    && Total(lib, root, BlockBudget, ats) <= 256
    && Total(lib, root, TransferBudget, ats) <= 3
  }

  // ---- sums ----------------------------------------------------------------

  lemma TotalWithout(lib: Library, occ: Occurrence, b: Budget, y: seq<Address>, i: nat)
    requires i < |y|
    ensures Total(lib, occ, b, y) == Total(lib, occ, b, y[..i] + y[i + 1..]) + Charge(lib, occ, b, y[i])
  {
    hide Charge;
    assert y == y[..i] + [y[i]] + y[i + 1..];
    TotalConcat(lib, occ, b, y[..i] + [y[i]], y[i + 1..]);
    TotalConcat(lib, occ, b, y[..i], [y[i]]);
    TotalConcat(lib, occ, b, y[..i], y[i + 1..]);
    var one := [y[i]];
    assert one[..0] == [];
    assert Total(lib, occ, b, one) == Total(lib, occ, b, one[..0]) + Charge(lib, occ, b, one[0]);
  }

  /** What is listed in part costs no more than what is listed in full. */
  lemma {:induction false} TotalMonotone(lib: Library, occ: Occurrence, b: Budget, x: seq<Address>, y: seq<Address>)
    requires Distinct(x) && Distinct(y) && forall a :: a in x ==> a in y
    ensures Total(lib, occ, b, x) <= Total(lib, occ, b, y)
  {
    hide Charge;
    if x != [] {
      var front, last := x[..|x| - 1], x[|x| - 1];
      assert last in x;
      var i :| 0 <= i < |y| && y[i] == last;
      var y' := y[..i] + y[i + 1..];
      TotalWithout(lib, occ, b, y, i);
      Without(y, i, last);
      forall a | a in front ensures a in y' {
        var j :| 0 <= j < |front| && front[j] == a;
        assert x[j] == a && x[|x| - 1] == last;
        Without(y, i, a);
      }
      TotalMonotone(lib, occ, b, front, y');
    }
  }

  // ---- below one transfer --------------------------------------------------

  /** The listed addresses that start with `t`, without it. */
  function BelowOf(ats: seq<Address>, t: string): seq<Address> {
    if ats == [] then []
    else
      var rest := BelowOf(ats[..|ats| - 1], t);
      var a := ats[|ats| - 1];
      if a != [] && a[0] == t then rest + [a[1..]] else rest
  }

  lemma {:induction false} BelowMember(ats: seq<Address>, t: string, x: Address)
    ensures x in BelowOf(ats, t) <==> [t] + x in ats
  {
    if ats != [] {
      var front, a := ats[..|ats| - 1], ats[|ats| - 1];
      BelowMember(front, t, x);
      assert ats == front + [a];
      assert ([t] + x)[1..] == x;
      if a != [] && a[0] == t { assert a == [t] + a[1..]; }
    }
  }

  lemma {:induction false} BelowDistinct(ats: seq<Address>, t: string)
    requires Distinct(ats)
    ensures Distinct(BelowOf(ats, t))
  {
    if ats != [] {
      var front, a := ats[..|ats| - 1], ats[|ats| - 1];
      BelowDistinct(front, t);
      if a != [] && a[0] == t {
        assert a == [t] + a[1..];
        BelowMember(front, t, a[1..]);
        assert a !in front;
        DistinctConcat(BelowOf(front, t), [a[1..]]);
      }
    }
  }

  lemma ReadyBelow(lib: Library, occ: Occurrence, t: string, child: Occurrence, x: Address, forbidden: set<string>)
    requires Linked(lib, occ, t) == Some(child) && ReadyAt(lib, occ, [t] + x, forbidden)
    ensures ReadyAt(lib, child, x, forbidden + {occ.pipelineId})
  {
    hide Sound, Supplied, Linked;
    OccurrenceBelow(lib, occ, t, x);
    assert ([t] + x)[0] == t && ([t] + x)[1..] == x;
  }

  lemma AllReadyBelow(lib: Library, occ: Occurrence, ats: seq<Address>, t: string, child: Occurrence, forbidden: set<string>)
    requires AllReady(lib, occ, ats, forbidden) && Linked(lib, occ, t) == Some(child)
    ensures AllReady(lib, child, BelowOf(ats, t), forbidden + {occ.pipelineId})
  {
    hide ReadyAt, Linked;
    var below := BelowOf(ats, t);
    BelowDistinct(ats, t);
    forall x ensures x in below <==> OccurrenceAt(lib, child, x).Some? {
      BelowMember(ats, t, x);
      OccurrenceBelow(lib, occ, t, x);
    }
    forall x | x in below ensures ReadyAt(lib, child, x, forbidden + {occ.pipelineId}) {
      BelowMember(ats, t, x);
      ReadyBelow(lib, occ, t, child, x, forbidden);
    }
  }

  /** What was opened before a transfer and what lies behind it fit into the whole. */
  lemma BudgetBelow(lib: Library, occ: Occurrence, b: Budget, ats: seq<Address>, opened_: seq<Address>, done: set<string>, t: string,
                    child: Occurrence, forbidden: set<string>)
    requires AllReady(lib, occ, ats, forbidden) && OccurrencesOk(lib, occ, done, opened_, forbidden) && t !in done
    requires Linked(lib, occ, t) == Some(child)
    ensures Total(lib, occ, b, opened_) + Total(lib, child, b, BelowOf(ats, t)) <= Total(lib, occ, b, ats)
  {
    hide ReadyAt, SoundAt, Linked, Total;
    var below := BelowOf(ats, t);
    var joined := opened_ + Under(t, below);
    TotalConcat(lib, occ, b, opened_, Under(t, below));
    TotalUnder(lib, occ, b, t, below);
    BelowDistinct(ats, t);
    UnderDistinct(t, below);
    forall a | a in opened_ ensures a !in Under(t, below) && a in ats {
      UnderMember(t, below, a);
      assert Opened(lib, occ, done, a);
    }
    DistinctConcat(opened_, Under(t, below));
    forall a | a in joined ensures a in ats {
      if a in Under(t, below) {
        UnderMember(t, below, a);
        BelowMember(ats, t, a[1..]);
        assert a == [t] + a[1..];
      }
    }
    TotalMonotone(lib, occ, b, joined, ats);
  }

  // ---- ready compositions expand -------------------------------------------

  lemma ReadyHere(lib: Library, occ: Occurrence, ats: seq<Address>, forbidden: set<string>)
    requires AllReady(lib, occ, ats, forbidden)
    ensures [] in ats && Sound(occ) && Supplied(lib, occ) && occ.pipelineId !in forbidden
  {
    hide Sound, Supplied;
    assert OccurrenceAt(lib, occ, []) == Some(occ);
    assert ReadyAt(lib, occ, [], forbidden);
  }

  lemma OwnCharge(lib: Library, occ: Occurrence, b: Budget, ats: seq<Address>, forbidden: set<string>)
    requires AllReady(lib, occ, ats, forbidden)
    ensures Weight(b, occ.pipeline) <= Total(lib, occ, b, ats)
  {
    hide ReadyAt, Total, Weight;
    ReadyHere(lib, occ, ats, forbidden);
    TotalMonotone(lib, occ, b, [[]], ats);
    InitialTotal(lib, occ, b);
  }

  lemma {:induction false} ReadyExpands(lib: Library, occ: Occurrence, transfer: string, c: Counters, ats: seq<Address>)
    requires c.transfers <= MAX_TRANSFERS && AllReady(lib, occ, ats, c.active)
    requires c.blocks + Total(lib, occ, BlockBudget, ats) <= MAX_BLOCKS
    requires c.transfers + Total(lib, occ, TransferBudget, ats) <= MAX_TRANSFERS
    ensures Expanded(lib, occ, transfer, c).Ok?
    decreases MAX_TRANSFERS - c.transfers, 2, 0
  {
    hide AllReady, Total, StepsExpanded, LocalNames, Along, NamesAssigned, Separate, Supplied, Weight;
    ReadyHere(lib, occ, ats, c.active);
    OwnCharge(lib, occ, BlockBudget, ats, c.active);
    OwnCharge(lib, occ, TransferBudget, ats, c.active);
    MayEnter(occ, c);
    SoundSeparates(occ);
    var named := LocalNames(occ, transfer, c.nextId);
    var drawn := LocalNamesAssigned(occ, transfer, c.nextId);
    var start := Entered(occ, c).value.(nextId := named.1);
    AlongStart(lib, occ, named.0, drawn, c, start);
    ReadySteps(lib, occ, named.0, drawn, |occ.pipeline.steps|, c, start, MAX_TRANSFERS - c.transfers, ats);
  }

  lemma MayEnter(occ: Occurrence, c: Counters)
    requires Sound(occ) && occ.pipelineId !in c.active
    requires c.transfers + Weight(TransferBudget, occ.pipeline) <= MAX_TRANSFERS
    requires c.blocks + Weight(BlockBudget, occ.pipeline) <= MAX_BLOCKS
    ensures Entered(occ, c).Ok?
    ensures var e := Entered(occ, c).value;
      && e.active == c.active + {occ.pipelineId} && e.steps == c.steps && e.nextId == c.nextId
      && e.blocks == c.blocks + Weight(BlockBudget, occ.pipeline)
      && e.transfers == c.transfers + Weight(TransferBudget, occ.pipeline)
      && Weight(TransferBudget, occ.pipeline) == |PinnedReferences(occ.pipeline)|
  {
  }

  lemma {:induction false} ReadySteps(lib: Library, occ: Occurrence, names: map<string, string>, drawn: seq<string>, k: nat,
                                      before: Counters, c: Counters, left: nat, ats: seq<Address>)
    requires Sound(occ) && Separate(occ) && NamesAssigned(occ, names, drawn, before.nextId)
    requires k <= |occ.pipeline.steps| && c.transfers <= MAX_TRANSFERS
    requires before.transfers <= MAX_TRANSFERS && left == MAX_TRANSFERS - before.transfers
    requires MAX_TRANSFERS - c.transfers + |PinnedReferences(occ.pipeline)| <= left
    requires Along(lib, occ, 0, before, c, Trace(Lift(occ, names), [], [], Singles(drawn), [[]]))
    requires AllReady(lib, occ, ats, before.active)
    requires before.blocks + Total(lib, occ, BlockBudget, ats) <= MAX_BLOCKS
    requires before.transfers + Total(lib, occ, TransferBudget, ats) <= MAX_TRANSFERS
    ensures StepsExpanded(lib, occ, names, k, c, left).Ok?
    decreases left, 1, k
  {
    hide Along, Sound, Separate, NamesAssigned, AllReady, Total, StepExpanded;
    if k > 0 {
      ReadySteps(lib, occ, names, drawn, k - 1, before, c, left, ats);
      var tr := StepsTrace(lib, occ, names, drawn, k - 1, before, c, left);
      var now := StepsExpanded(lib, occ, names, k - 1, c, left).value;
      ReadyStep(lib, occ, names, k - 1, before, now, tr, left, ats);
    }
  }

  lemma {:induction false} ReadyStep(lib: Library, occ: Occurrence, names: map<string, string>, k: nat,
                                     before: Counters, now: Counters, tr: Trace, left: nat, ats: seq<Address>)
    requires Sound(occ) && k < |occ.pipeline.steps| && now.transfers <= MAX_TRANSFERS
    requires before.transfers <= MAX_TRANSFERS && left == MAX_TRANSFERS - before.transfers
    requires MAX_TRANSFERS - now.transfers + |PinnedReferences(occ.pipeline)| <= left
    requires Along(lib, occ, k, before, now, tr) && AllReady(lib, occ, ats, before.active)
    requires before.blocks + Total(lib, occ, BlockBudget, ats) <= MAX_BLOCKS
    requires before.transfers + Total(lib, occ, TransferBudget, ats) <= MAX_TRANSFERS
    ensures StepExpanded(lib, occ, names, k, now, left).Ok?
    decreases left, 0, 0
  {
    hide Along, Sound, AllReady, Total, Kept, LocallyRenamed, Supplied, Linked, Expanded, OccurrencesOk;
    var s := occ.pipeline.steps[k];
    if Kept(occ, s.id) && Transfer(s) {
      var reference := TransferReference(occ, s);
      ReadyHere(lib, occ, ats, before.active);
      SuppliedHere(lib, occ, s, reference);
      var child := Behind(lib, reference).value;
      LinkedTo(lib, occ, s, child);
      AlongSoFar(lib, occ, k, before, now, tr);
      AllReadyBelow(lib, occ, ats, s.id, child, before.active);
      BudgetBelow(lib, occ, BlockBudget, ats, tr.occurrences, Ids(occ.pipeline.steps[..k]), s.id, child, before.active);
      BudgetBelow(lib, occ, TransferBudget, ats, tr.occurrences, Ids(occ.pipeline.steps[..k]), s.id, child, before.active);
      var out := LocallyRenamed(occ, names, s);
      var mid := now.(steps := now.steps + [out]);
      ReadyExpands(lib, child, out.id, mid, BelowOf(ats, s.id));
    }
  }

  lemma SuppliedHere(lib: Library, occ: Occurrence, s: Step, r: Reference)
    requires Supplied(lib, occ) && s in occ.pipeline.steps && Kept(occ, s.id) && Transfer(s) && s.settings.reference == Pinned(r)
    ensures Behind(lib, r).Some?
  {
  }

  lemma AlongSoFar(lib: Library, occ: Occurrence, k: nat, before: Counters, now: Counters, tr: Trace)
    requires Sound(occ) && k < |occ.pipeline.steps| && Along(lib, occ, k, before, now, tr)
    ensures now.active == before.active + {occ.pipelineId}
    ensures now.blocks == before.blocks + Total(lib, occ, BlockBudget, tr.occurrences)
    ensures now.transfers == before.transfers + Total(lib, occ, TransferBudget, tr.occurrences)
    ensures OccurrencesOk(lib, occ, Ids(occ.pipeline.steps[..k]), tr.occurrences, before.active)
    ensures occ.pipeline.steps[k].id !in Ids(occ.pipeline.steps[..k])
  {
    hide NamesOk, BlocksOk, NumberedOk, OccurrencesOk, Total;
    DistinctNodes(occ);
    NextStep(occ.pipeline, k);
  }

  // ---- what expands was ready ----------------------------------------------

  lemma {:induction false} StepsSucceed(lib: Library, occ: Occurrence, names: map<string, string>, k: nat, n: nat, c: Counters, left: nat)
    requires Sound(occ) && k < n <= |occ.pipeline.steps| && c.transfers <= MAX_TRANSFERS
    requires MAX_TRANSFERS - c.transfers + |PinnedReferences(occ.pipeline)| <= left
    requires StepsExpanded(lib, occ, names, n, c, left).Ok?
    ensures StepsExpanded(lib, occ, names, k, c, left).Ok?
    ensures StepExpanded(lib, occ, names, k, StepsExpanded(lib, occ, names, k, c, left).value, left).Ok?
  {
    hide Sound, StepExpanded, PinnedReferences;
    if k < n - 1 {
      StepsSucceed(lib, occ, names, k, n - 1, c, left);
    }
  }

  /** A kept transfer of a successful expansion was supplied, and what it links expanded successfully too. */
  lemma TransferExpanded(lib: Library, occ: Occurrence, transfer: string, c: Counters, s: Step)
    returns (child: Occurrence, name: string, mid: Counters)
    requires c.transfers <= MAX_TRANSFERS && Expanded(lib, occ, transfer, c).Ok?
    requires s in occ.pipeline.steps && Kept(occ, s.id) && Transfer(s)
    ensures Linked(lib, occ, s.id) == Some(child) && s.settings.reference.Pinned?
    ensures Behind(lib, s.settings.reference.reference).Some?
    ensures mid.transfers <= MAX_TRANSFERS && Expanded(lib, child, name, mid).Ok?
  {
    hide Sound, Kept, LocalNames, LocallyRenamed, StepsExpanded, Linked;
    EnteredSound(occ, c);
    EnteredCounts(occ, c);
    var named := LocalNames(occ, transfer, c.nextId);
    var start := Entered(occ, c).value.(nextId := named.1);
    var left, n := MAX_TRANSFERS - c.transfers, |occ.pipeline.steps|;
    var k :| 0 <= k < n && occ.pipeline.steps[k] == s;
    StepsSucceed(lib, occ, named.0, k, n, start, left);
    var now := StepsExpanded(lib, occ, named.0, k, start, left).value;
    var reference := TransferReference(occ, s);
    child := Behind(lib, reference).value;
    name := LocallyRenamed(occ, named.0, s).id;
    mid := now.(steps := now.steps + [LocallyRenamed(occ, named.0, s)]);
    LinkedTo(lib, occ, s, child);
  }

  lemma {:induction false} ExpandedSupplies(lib: Library, occ: Occurrence, transfer: string, c: Counters, at: Address)
    requires c.transfers <= MAX_TRANSFERS && Expanded(lib, occ, transfer, c).Ok? && OccurrenceAt(lib, occ, at).Some?
    ensures Supplied(lib, OccurrenceAt(lib, occ, at).value)
    decreases |at|
  {
    hide Expanded, Kept, Linked;
    if at == [] {
      forall s | s in occ.pipeline.steps && Kept(occ, s.id) && Transfer(s) && s.settings.reference.Pinned?
        ensures Behind(lib, s.settings.reference.reference).Some?
      {
        var child, name, mid := TransferExpanded(lib, occ, transfer, c, s);
      }
    } else {
      var s := LinkStep(lib, occ, at[0]);
      var child, name, mid := TransferExpanded(lib, occ, transfer, c, s);
      ExpandedSupplies(lib, child, name, mid, at[1..]);
    }
  }

  lemma LinkStep(lib: Library, occ: Occurrence, t: string) returns (s: Step)
    requires Linked(lib, occ, t).Some?
    ensures s in occ.pipeline.steps && s.id == t && Kept(occ, t) && Transfer(s)
  {
    s := FindStep(occ.pipeline.steps, t).value;
  }

  lemma OpenedIsThere(lib: Library, root: Occurrence, at: Address)
    ensures Opened(lib, root, StepIds(root.pipeline), at) <==> OccurrenceAt(lib, root, at).Some?
  {
    if at != [] && OccurrenceAt(lib, root, at).Some? {
      var s := LinkStep(lib, root, at[0]);
    }
  }

  /** A composition compiles exactly if its occurrences are finitely many, can all be entered, and fit the budgets. */
  lemma CompilesIff(pipelineId: string, revisionId: string, p: Pipeline, lib: Library)
    ensures Compiled(pipelineId, revisionId, p, lib).Ok? <==>
            exists ats :: Composable(lib, Root(pipelineId, revisionId, p), ats)
  {
    hide Expanded, Total, SoundAt, Supplied, OccurrenceAt;
    var root, c := Root(pipelineId, revisionId, p), Counters({}, [], 0, 0, 0);
    if Compiled(pipelineId, revisionId, p, lib).Ok? {
      var tr := CompiledPreserves(pipelineId, revisionId, p, lib);
      var ats := tr.occurrences;
      forall at ensures at in ats <==> OccurrenceAt(lib, root, at).Some? {
        OpenedIsThere(lib, root, at);
        assert at in ats <==> Opened(lib, root, StepIds(p), at);
      }
      forall at | at in ats ensures ReadyAt(lib, root, at, {}) {
        assert SoundAt(lib, root, at, {});
        ExpandedSupplies(lib, root, "", c, at);
      }
      assert Composable(lib, root, ats);
    }
    if ats :| Composable(lib, root, ats) {
      ReadyExpands(lib, root, "", c, ats);
    }
  }
}
