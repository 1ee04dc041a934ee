/**
 Concurrent callers committing to tenant branches: in-process lock stripes, a head check, two staged artifacts and a
 commit, with a failure possible between any two steps.
 */
module CommitProtocol {
  import opened Json
  import opened Text
  import opened Snapshots
  import R = Registry

  // ---- what the store holds ------------------------------------------------

  datatype PipelineArtifact = PipelineArtifact(pipelines: map<string, PipelineRecord>, bindings: map<(string, string), Binding>)

  /** Uncommitted writes on a tenant's branch. */
  datatype Staging = Staging(pipelines: Option<PipelineArtifact>, ontologies: Option<map<string, OntologyRecord>>)

  const Clean := Staging(None, None)

  /** A tenant's branch: its revisions, its uncommitted writes and, for the record, who committed each revision after the first. */
  datatype Store = Store(log: Log, staging: Staging, authors: seq<int>)

  /** What a commit of the branch as it stands would contain. */
  function Assemble(head: TenantState, staging: Staging): TenantState {
    var p := if staging.pipelines.Some? then staging.pipelines.value else PipelineArtifact(head.pipelines, head.bindings);
    TenantState(p.pipelines, if staging.ontologies.Some? then staging.ontologies.value else head.ontologies, p.bindings)
  }

  // ---- callers -------------------------------------------------------------

  datatype Phase = Loaded | Prepared | Locked | Checked | HalfStaged | Staged | Committed | Done | Abandoned

  datatype Work = Work(call: R.Call, state: TenantState)

  /** One call: the head it loaded, which was revision number `seen`, and the state it wants to commit. */
  datatype Caller = Caller(tenant: string, expected: string, seen: nat, work: Option<Work>, phase: Phase)

  predicate Critical(p: Phase) {
    p.Locked? || p.Checked? || p.HalfStaged? || p.Staged? || p.Committed?
  }

  datatype Cluster = Cluster(tenants: map<string, Store>, locks: map<nat, int>, callers: map<int, Caller>)

  datatype Event =
    | CreateTenant(tenant: string, first: string)
    | LoadHead(caller: int, from: string)
    | Prepare(caller: int, work: Work)
    | Acquire(caller: int)
    | Check(caller: int)
    | StagePipelines(caller: int)
    | StageOntologies(caller: int)
    | Commit(caller: int, revision: string)
    | Finish(caller: int)
    | Abandon(caller: int)

  function InPhase(s: Cluster, c: int, p: Phase): Cluster
    requires c in s.callers
  {
    s.(callers := s.callers[c := s.callers[c].(phase := p)])
  }

  /** Dropping the guard frees the stripe, if this caller holds it. */
  function Unlocked(stripe: string -> nat, s: Cluster, c: int): Cluster
    requires c in s.callers
  {
    if Critical(s.callers[c].phase) then s.(locks := s.locks - {stripe(s.callers[c].tenant)}) else s
  }

  predicate At(s: Cluster, c: int, p: Phase) {
    c in s.callers && s.callers[c].phase == p && s.callers[c].tenant in s.tenants
  }

  function StoreOf(s: Cluster, c: int): Store
    requires c in s.callers && s.callers[c].tenant in s.tenants
  {
    s.tenants[s.callers[c].tenant]
  }

  function WithStore(s: Cluster, c: int, store: Store): Cluster
    requires c in s.callers
  {
    s.(tenants := s.tenants[s.callers[c].tenant := store])
  }

  /**
   The atomic steps.  Preparing reads pinned revisions after the head was loaded; what it computes is the call's result
   if the branch has not moved since, and anything at all otherwise.
   */
  ghost function Next(stripe: string -> nat, s: Cluster, e: Event): Option<Cluster> {
    match e
    case CreateTenant(t, first) =>
      if t in s.tenants || !ValidRevision(first) then None
      else Some(s.(tenants := s.tenants[t := Store([Entry(first, Empty)], Clean, [])]))
    case LoadHead(c, t) =>
      if c in s.callers || t !in s.tenants || s.tenants[t].log == [] then None
      else Some(s.(callers := s.callers[c := Caller(t, Head(s.tenants[t].log).revision, |s.tenants[t].log|, None, Loaded)]))
    case Prepare(c, work) =>
      if !At(s, c, Loaded) then None
      else if |StoreOf(s, c).log| == s.callers[c].seen && !Result(StoreOf(s, c).log, work) then None
      else Some(s.(callers := s.callers[c := s.callers[c].(work := Some(work), phase := Prepared)]))
    case Acquire(c) =>
      if !At(s, c, Prepared) || stripe(s.callers[c].tenant) in s.locks then None
      else Some(InPhase(s, c, Locked).(locks := s.locks[stripe(s.callers[c].tenant) := c]))
    case Check(c) =>
      if !At(s, c, Locked) || StoreOf(s, c).log == [] then None
      else if Head(StoreOf(s, c).log).revision == s.callers[c].expected then Some(InPhase(s, c, Checked))
      else Some(InPhase(Unlocked(stripe, s, c), c, Abandoned))
    case StagePipelines(c) =>
      if !At(s, c, Checked) || s.callers[c].work.None? then None
      else
        var state, store := s.callers[c].work.value.state, StoreOf(s, c);
        var staged := store.staging.(pipelines := Some(PipelineArtifact(state.pipelines, state.bindings)));
        Some(WithStore(InPhase(s, c, HalfStaged), c, store.(staging := staged)))
    case StageOntologies(c) =>
      if !At(s, c, HalfStaged) || s.callers[c].work.None? then None
      else
        var state, store := s.callers[c].work.value.state, StoreOf(s, c);
        Some(WithStore(InPhase(s, c, Staged), c, store.(staging := store.staging.(ontologies := Some(state.ontologies)))))
    case Commit(c, revision) =>
      if !At(s, c, Staged) || StoreOf(s, c).log == [] || !Unused(StoreOf(s, c).log, revision) then None
      else
        var store := StoreOf(s, c);
        var entry := Entry(revision, Assemble(Head(store.log).state, store.staging));
        Some(WithStore(InPhase(s, c, Committed), c, Store(store.log + [entry], Clean, store.authors + [c])))
    case Finish(c) =>
      if !At(s, c, Committed) then None else Some(InPhase(Unlocked(stripe, s, c), c, Done))
    case Abandon(c) =>
      if c !in s.callers || s.callers[c].phase in {Committed, Done, Abandoned} then None
      else Some(InPhase(Unlocked(stripe, s, c), c, Abandoned))
  }

  /** The work is what the call makes of this log. */
  ghost predicate Result(log: Log, work: Work) {
    log != [] && R.Honest(log, work.call) && R.After(log, work.call) == Some(work.state)
  }

  // ---- the invariant -------------------------------------------------------

  /** A tenant's revisions are a run of Registry commands, each committed by the call that computed it from the one before. */
  ghost predicate StoreOk(s: Cluster, t: string)
    requires t in s.tenants
  {
    var store := s.tenants[t];
    && R.Reachable(store.log)
    && |store.authors| == |store.log| - 1
    && forall i :: 0 <= i < |store.authors| ==> AuthorOk(s, t, i)
  }

  /** Who committed revision `i + 1`, and from what. */
  ghost predicate AuthorOk(s: Cluster, t: string, i: nat)
    requires t in s.tenants && i < |s.tenants[t].authors| && i + 1 < |s.tenants[t].log|
  {
    var c := s.tenants[t].authors[i];
    && c in s.callers
    && s.callers[c].tenant == t
    && (s.callers[c].phase.Committed? || s.callers[c].phase.Done?)
    && s.callers[c].seen == i + 1
    && s.callers[c].expected == s.tenants[t].log[i].revision
    && s.callers[c].work.Some?
    && s.callers[c].work.value.state == s.tenants[t].log[i + 1].state
  }

  /** What a caller may rely on in its phase. */
  ghost predicate CallerOk(stripe: string -> nat, s: Cluster, c: int)
    requires c in s.callers
  {
    var k := s.callers[c];
    && k.tenant in s.tenants
    && var store := s.tenants[k.tenant];
       && 1 <= k.seen <= |store.log|
       && store.log[k.seen - 1].revision == k.expected
       && (!k.phase.Loaded? && !k.phase.Abandoned? ==> k.work.Some?)
       && (k.work.Some? && |store.log| == k.seen ==> Result(store.log, k.work.value))
       && (Critical(k.phase) ==> stripe(k.tenant) in s.locks && s.locks[stripe(k.tenant)] == c)
       && (k.phase.Checked? || k.phase.HalfStaged? || k.phase.Staged? ==> Head(store.log).revision == k.expected)
       && (k.phase.HalfStaged? || k.phase.Staged? ==>
             store.staging.pipelines == Some(PipelineArtifact(k.work.value.state.pipelines, k.work.value.state.bindings)))
       && (k.phase.Staged? ==> store.staging.ontologies == Some(k.work.value.state.ontologies))
       && (k.phase.Committed? || k.phase.Done? ==> k.seen - 1 < |store.authors| && store.authors[k.seen - 1] == c)
  }

  ghost predicate Inv(stripe: string -> nat, s: Cluster) {
    && (forall t :: t in s.tenants ==> StoreOk(s, t))
    && (forall c :: c in s.callers ==> CallerOk(stripe, s, c))
  }

  // ---- frames --------------------------------------------------------------

  /** Same tenant, both in the critical section: the same caller. */
  lemma Exclusive(stripe: string -> nat, s: Cluster, c: int, d: int)
    requires Inv(stripe, s) && c in s.callers && d in s.callers && s.callers[c].tenant == s.callers[d].tenant
    requires Critical(s.callers[c].phase) && Critical(s.callers[d].phase)
    ensures c == d
  {
    hide R.Reachable, StoreOk, Result;
    assert CallerOk(stripe, s, c) && CallerOk(stripe, s, d);
  }

  lemma RevisionsDistinct(log: Log, i: nat, j: nat)
    requires R.Reachable(log) && i < |log| && j < |log| && log[i].revision == log[j].revision
    ensures i == j
  {
    hide R.Reachable, R.StateOk, R.Follows;
    R.RunsKeep(log);
  }

  /** A caller whose head check still stands has seen the whole log. */
  lemma SeenAll(stripe: string -> nat, s: Cluster, c: int)
    requires Inv(stripe, s) && c in s.callers && CallerOk(stripe, s, c)
    ensures s.callers[c].tenant in s.tenants
    ensures StoreOf(s, c).log != [] && Head(StoreOf(s, c).log).revision == s.callers[c].expected ==>
      s.callers[c].seen == |StoreOf(s, c).log|
  {
    hide R.Reachable, Result;
    var store := StoreOf(s, c);
    assert StoreOk(s, s.callers[c].tenant);
    if Head(store.log).revision == s.callers[c].expected {
      RevisionsDistinct(store.log, s.callers[c].seen - 1, |store.log| - 1);
    }
  }

  /** A branch is fine as long as neither its revisions nor their authors changed. */
  lemma StoreKept(s: Cluster, s': Cluster, t: string)
    requires t in s.tenants && t in s'.tenants && StoreOk(s, t)
    requires s'.tenants[t].log == s.tenants[t].log && s'.tenants[t].authors == s.tenants[t].authors
    requires forall c :: c in s.tenants[t].authors && c in s.callers ==>
      c in s'.callers && (s'.callers[c] == s.callers[c] || s'.callers[c] == s.callers[c].(phase := Done))
    ensures StoreOk(s', t)
  {
    hide R.Reachable;
    forall i | 0 <= i < |s'.tenants[t].authors| ensures AuthorOk(s', t, i) {
      assert AuthorOk(s, t, i);
      assert s.tenants[t].authors[i] in s.tenants[t].authors;
    }
  }

  /** A caller is fine as long as its branch did not move, and nobody touched its lock or its staged writes. */
  lemma CallerKept(stripe: string -> nat, s: Cluster, s': Cluster, d: int)
    requires d in s.callers && CallerOk(stripe, s, d) && d in s'.callers && s'.callers[d] == s.callers[d]
    requires var t := s.callers[d].tenant;
      && t in s'.tenants && s'.tenants[t].log == s.tenants[t].log && s'.tenants[t].authors == s.tenants[t].authors
      && (Critical(s.callers[d].phase) ==>
            s'.tenants[t].staging == s.tenants[t].staging && stripe(t) in s'.locks && s'.locks[stripe(t)] == d)
    ensures CallerOk(stripe, s', d)
  {
    hide Result;
  }

  // ---- steps that leave the branches alone ---------------------------------

  /** Only caller `c` changed, not as an author, and no branch moved. */
  lemma OneCaller(stripe: string -> nat, s: Cluster, s': Cluster, c: int)
    requires Inv(stripe, s) && s'.tenants == s.tenants
    requires c in s'.callers && s'.callers == s.callers[c := s'.callers[c]]
    requires c in s.callers && s.callers[c].phase.Committed? ==>
      s'.callers[c] == s.callers[c].(phase := Done)
    requires c in s.callers ==> !s.callers[c].phase.Done?
    requires CallerOk(stripe, s', c)
    requires forall d :: d in s.callers && d != c && Critical(s.callers[d].phase) ==>
      stripe(s.callers[d].tenant) in s'.locks && s'.locks[stripe(s.callers[d].tenant)] == d
    ensures Inv(stripe, s')
  {
    hide R.Reachable, Result, StoreOk, CallerOk;
    forall t | t in s'.tenants ensures StoreOk(s', t) {
      if c in s.callers && !s.callers[c].phase.Committed? { NotYetAuthor(s, t, c); }
      StoreKept(s, s', t);
    }
    forall d | d in s'.callers ensures CallerOk(stripe, s', d) {
      if d != c {
        CallerHome(stripe, s, d);
        CallerKept(stripe, s, s', d);
      }
    }
  }

  lemma KeepLoadHead(stripe: string -> nat, s: Cluster, c: int, t: string)
    requires Inv(stripe, s) && Next(stripe, s, LoadHead(c, t)).Some?
    ensures Inv(stripe, Next(stripe, s, LoadHead(c, t)).value)
  {
    hide R.Reachable, Result;
    var s' := Next(stripe, s, LoadHead(c, t)).value;
    forall d | d in s.callers ensures CallerOk(stripe, s, d) {}
    OneCaller(stripe, s, s', c);
  }

  lemma KeepPrepare(stripe: string -> nat, s: Cluster, c: int, work: Work)
    requires Inv(stripe, s) && Next(stripe, s, Prepare(c, work)).Some?
    ensures Inv(stripe, Next(stripe, s, Prepare(c, work)).value)
  {
    hide R.Reachable, Result;
    var s' := Next(stripe, s, Prepare(c, work)).value;
    assert CallerOk(stripe, s, c);
    forall d | d in s.callers ensures CallerOk(stripe, s, d) {}
    OneCaller(stripe, s, s', c);
  }

  lemma KeepAcquire(stripe: string -> nat, s: Cluster, c: int)
    requires Inv(stripe, s) && Next(stripe, s, Acquire(c)).Some?
    ensures Inv(stripe, Next(stripe, s, Acquire(c)).value)
  {
    hide R.Reachable, Result;
    var s' := Next(stripe, s, Acquire(c)).value;
    assert CallerOk(stripe, s, c);
    forall d | d in s.callers ensures CallerOk(stripe, s, d) {}
    OneCaller(stripe, s, s', c);
  }

  /** Freeing the stripe takes no lock away from anybody else. */
  lemma UnlockedOthers(stripe: string -> nat, s: Cluster, c: int, d: int)
    requires Inv(stripe, s) && c in s.callers && d in s.callers && d != c && Critical(s.callers[d].phase)
    ensures stripe(s.callers[d].tenant) in Unlocked(stripe, s, c).locks
    ensures Unlocked(stripe, s, c).locks[stripe(s.callers[d].tenant)] == d
  {
    hide R.Reachable, Result, StoreOk;
    assert CallerOk(stripe, s, c) && CallerOk(stripe, s, d);
  }

  lemma KeepCheck(stripe: string -> nat, s: Cluster, c: int)
    requires Inv(stripe, s) && Next(stripe, s, Check(c)).Some?
    ensures Inv(stripe, Next(stripe, s, Check(c)).value)
  {
    hide R.Reachable, Result;
    var s' := Next(stripe, s, Check(c)).value;
    assert CallerOk(stripe, s, c);
    forall d | d in s.callers && d != c && Critical(s.callers[d].phase)
      ensures stripe(s.callers[d].tenant) in s'.locks && s'.locks[stripe(s.callers[d].tenant)] == d
    {
      UnlockedOthers(stripe, s, c, d);
      assert CallerOk(stripe, s, d);
    }
    OneCaller(stripe, s, s', c);
  }

  lemma KeepRelease(stripe: string -> nat, s: Cluster, c: int)
    requires Inv(stripe, s) && Next(stripe, s, Finish(c)).Some?
    ensures Inv(stripe, Next(stripe, s, Finish(c)).value)
  {
    hide R.Reachable, Result;
    var s' := Next(stripe, s, Finish(c)).value;
    assert CallerOk(stripe, s, c);
    forall d | d in s.callers && d != c && Critical(s.callers[d].phase)
      ensures stripe(s.callers[d].tenant) in s'.locks && s'.locks[stripe(s.callers[d].tenant)] == d
    {
      UnlockedOthers(stripe, s, c, d);
    }
    OneCaller(stripe, s, s', c);
  }

  lemma KeepAbandon(stripe: string -> nat, s: Cluster, c: int)
    requires Inv(stripe, s) && Next(stripe, s, Abandon(c)).Some?
    ensures Inv(stripe, Next(stripe, s, Abandon(c)).value)
  {
    hide R.Reachable, Result;
    var s' := Next(stripe, s, Abandon(c)).value;
    assert CallerOk(stripe, s, c);
    forall d | d in s.callers && d != c && Critical(s.callers[d].phase)
      ensures stripe(s.callers[d].tenant) in s'.locks && s'.locks[stripe(s.callers[d].tenant)] == d
    {
      UnlockedOthers(stripe, s, c, d);
    }
    OneCaller(stripe, s, s', c);
  }

  lemma KeepCreate(stripe: string -> nat, s: Cluster, t: string, first: string)
    requires Inv(stripe, s) && Next(stripe, s, CreateTenant(t, first)).Some?
    ensures Inv(stripe, Next(stripe, s, CreateTenant(t, first)).value)
  {
    hide Result, R.Reachable, StoreOk, CallerOk;
    var s' := Next(stripe, s, CreateTenant(t, first)).value;
    forall u | u in s'.tenants ensures StoreOk(s', u) {
      if u != t { StoreKept(s, s', u); } else { FreshStore(s', t, first); }
    }
    forall d | d in s'.callers ensures CallerOk(stripe, s', d) {
      CallerHome(stripe, s, d);
      CallerKept(stripe, s, s', d);
    }
  }

  lemma CallerHome(stripe: string -> nat, s: Cluster, d: int)
    requires d in s.callers && CallerOk(stripe, s, d)
    ensures s.callers[d].tenant in s.tenants
    ensures Critical(s.callers[d].phase) ==>
      stripe(s.callers[d].tenant) in s.locks && s.locks[stripe(s.callers[d].tenant)] == d
  {
  }

  lemma FreshStore(s: Cluster, t: string, first: string)
    requires ValidRevision(first) && t in s.tenants && s.tenants[t] == Store([Entry(first, Empty)], Clean, [])
    ensures StoreOk(s, t)
  {
    hide R.Reachable;
    FreshTenant(t, first);
  }

  lemma FreshTenant(t: string, first: string)
    requires ValidRevision(first)
    ensures R.Reachable([Entry(first, Empty)])
  {
  }

  // ---- steps on a branch ---------------------------------------------------

  /** Caller `c` wrote to the staging area of its branch. */
  lemma StagingStep(stripe: string -> nat, s: Cluster, s': Cluster, c: int)
    requires Inv(stripe, s) && c in s.callers && s.callers[c].tenant in s.tenants
    requires s.callers[c].phase.Checked? || s.callers[c].phase.HalfStaged?
    requires c in s'.callers && s'.callers == s.callers[c := s'.callers[c]] && s'.locks == s.locks
    requires s'.callers[c].tenant == s.callers[c].tenant && s.callers[c].tenant in s'.tenants
    requires var t := s.callers[c].tenant;
      s'.tenants == s.tenants[t := s.tenants[t].(staging := s'.tenants[t].staging)]
    requires CallerOk(stripe, s', c)
    ensures Inv(stripe, s')
  {
    hide R.Reachable, Result, StoreOk, CallerOk;
    var t := s.callers[c].tenant;
    forall u | u in s'.tenants ensures StoreOk(s', u) {
      NotYetAuthor(s, u, c);
      StoreKept(s, s', u);
    }
    forall d | d in s'.callers ensures CallerOk(stripe, s', d) {
      if d != c {
        CallerHome(stripe, s, d);
        if s.callers[d].tenant == t && Critical(s.callers[d].phase) { Exclusive(stripe, s, c, d); }
        CallerKept(stripe, s, s', d);
      }
    }
  }

  lemma NotYetAuthor(s: Cluster, t: string, c: int)
    requires t in s.tenants && StoreOk(s, t) && c in s.callers && !s.callers[c].phase.Committed? && !s.callers[c].phase.Done?
    ensures c !in s.tenants[t].authors
  {
    hide R.Reachable;
    forall i | 0 <= i < |s.tenants[t].authors| ensures s.tenants[t].authors[i] != c { assert AuthorOk(s, t, i); }
  }

  lemma KeepStagePipelines(stripe: string -> nat, s: Cluster, c: int)
    requires Inv(stripe, s) && Next(stripe, s, StagePipelines(c)).Some?
    ensures Inv(stripe, Next(stripe, s, StagePipelines(c)).value)
  {
    hide R.Reachable, Result;
    assert CallerOk(stripe, s, c);
    StagingStep(stripe, s, Next(stripe, s, StagePipelines(c)).value, c);
  }

  lemma KeepStageOntologies(stripe: string -> nat, s: Cluster, c: int)
    requires Inv(stripe, s) && Next(stripe, s, StageOntologies(c)).Some?
    ensures Inv(stripe, Next(stripe, s, StageOntologies(c)).value)
  {
    hide R.Reachable, Result;
    assert CallerOk(stripe, s, c);
    StagingStep(stripe, s, Next(stripe, s, StageOntologies(c)).value, c);
  }

  /** What is committed is the state of the committing call, computed from the revision it replaces. */
  lemma CommitContent(stripe: string -> nat, s: Cluster, c: int, revision: string)
    requires Inv(stripe, s) && At(s, c, Staged) && Unused(StoreOf(s, c).log, revision) && s.callers[c].work.Some?
    ensures StoreOf(s, c).log != [] && s.callers[c].seen == |StoreOf(s, c).log|
    ensures var store, work := StoreOf(s, c), s.callers[c].work.value;
      && Assemble(Head(store.log).state, store.staging) == work.state
      && R.Reachable(store.log + [Entry(revision, work.state)])
  {
    hide R.Reachable, R.After, R.Honest, Unused;
    assert CallerOk(stripe, s, c);
    SeenAll(stripe, s, c);
    var store, work := StoreOf(s, c), s.callers[c].work.value;
    assert StoreOk(s, s.callers[c].tenant);
    var next := store.log + [Entry(revision, work.state)];
    R.Extended(store.log, next);
  }

  lemma KeepCommit(stripe: string -> nat, s: Cluster, c: int, revision: string)
    requires Inv(stripe, s) && Next(stripe, s, Commit(c, revision)).Some?
    ensures Inv(stripe, Next(stripe, s, Commit(c, revision)).value)
  {
    hide R.Reachable, Result, Unused, Assemble;
    var s' := Next(stripe, s, Commit(c, revision)).value;
    var t := s.callers[c].tenant;
    assert CallerOk(stripe, s, c) && StoreOk(s, t);
    CommitContent(stripe, s, c, revision);
    var log, log' := s.tenants[t].log, s'.tenants[t].log;
    assert log' == log + [Entry(revision, s.callers[c].work.value.state)];
    forall u | u in s'.tenants ensures StoreOk(s', u) {
      assert StoreOk(s, u);
      forall i | 0 <= i < |s'.tenants[u].authors| ensures AuthorOk(s', u, i) {
        if u != t || i < |s.tenants[u].authors| { assert AuthorOk(s, u, i); }
      }
    }
    forall d | d in s'.callers ensures CallerOk(stripe, s', d) {
      assert CallerOk(stripe, s, d);
      if d != c && s.callers[d].tenant == t && Critical(s.callers[d].phase) { Exclusive(stripe, s, c, d); }
    }
  }

  // ---- every interleaving --------------------------------------------------

  lemma StepKeeps(stripe: string -> nat, s: Cluster, e: Event)
    requires Inv(stripe, s) && Next(stripe, s, e).Some?
    ensures Inv(stripe, Next(stripe, s, e).value)
  {
    hide Inv, Next;
    match e
    case CreateTenant(t, first) => KeepCreate(stripe, s, t, first);
    case LoadHead(c, t) => KeepLoadHead(stripe, s, c, t);
    case Prepare(c, work) => KeepPrepare(stripe, s, c, work);
    case Acquire(c) => KeepAcquire(stripe, s, c);
    case Check(c) => KeepCheck(stripe, s, c);
    case StagePipelines(c) => KeepStagePipelines(stripe, s, c);
    case StageOntologies(c) => KeepStageOntologies(stripe, s, c);
    case Commit(c, revision) => KeepCommit(stripe, s, c, revision);
    case Finish(c) => KeepRelease(stripe, s, c);
    case Abandon(c) => KeepAbandon(stripe, s, c);
  }

  const Initial := Cluster(map[], map[], map[])

  /** The state after a sequence of events, if each of them was possible. */
  ghost function After(stripe: string -> nat, events: seq<Event>): Option<Cluster> {
    if events == [] then Some(Initial)
    else
      var before := After(stripe, events[..|events| - 1]);
      if before.None? then None else Next(stripe, before.value, events[|events| - 1])
  }

  lemma {:induction false} EveryInterleaving(stripe: string -> nat, events: seq<Event>)
    requires After(stripe, events).Some?
    ensures Inv(stripe, After(stripe, events).value)
  {
    hide Next;
    if events != [] {
      EveryInterleaving(stripe, events[..|events| - 1]);
      StepKeeps(stripe, After(stripe, events[..|events| - 1]).value, events[|events| - 1]);
    }
  }

  /** Whatever the interleaving and the failures, each tenant's revisions are a serial run of Registry commands. */
  lemma HistoriesAreSerial(stripe: string -> nat, events: seq<Event>, t: string)
    requires After(stripe, events).Some? && t in After(stripe, events).value.tenants
    ensures R.Reachable(After(stripe, events).value.tenants[t].log)
  {
    hide R.Reachable, Next;
    EveryInterleaving(stripe, events);
    assert StoreOk(After(stripe, events).value, t);
  }

  /**
   Every revision after the first holds exactly what one call wanted to commit, replaces exactly the revision that call
   had loaded, and is that call's only one: no update is lost and nothing staged by an abandoned call gets in.
   */
  lemma OneCallPerRevision(stripe: string -> nat, events: seq<Event>, t: string, i: nat)
    requires After(stripe, events).Some? && t in After(stripe, events).value.tenants
    requires 0 < i < |After(stripe, events).value.tenants[t].log|
    ensures var s := After(stripe, events).value;
      var store := s.tenants[t];
      && i - 1 < |store.authors| && store.authors[i - 1] in s.callers
      && var k := s.callers[store.authors[i - 1]];
         && k.tenant == t && k.expected == store.log[i - 1].revision
         && k.work.Some? && k.work.value.state == store.log[i].state
         && !k.phase.Abandoned?
    ensures var store := After(stripe, events).value.tenants[t];
      forall j :: 0 <= j < |store.authors| && store.authors[j] == store.authors[i - 1] ==> j == i - 1
  {
    hide R.Reachable, Next;
    EveryInterleaving(stripe, events);
    var s := After(stripe, events).value;
    assert StoreOk(s, t);
    assert AuthorOk(s, t, i - 1);
    forall j | 0 <= j < |s.tenants[t].authors| && s.tenants[t].authors[j] == s.tenants[t].authors[i - 1] ensures j == i - 1 {
      assert AuthorOk(s, t, j);
    }
  }

  // ---- what a caller can count on ------------------------------------------

  /** The steps of a commit that is neither disturbed nor abandoned. */
  function Undisturbed(c: int, revision: string): seq<Event> {
    [Acquire(c), Check(c), StagePipelines(c), StageOntologies(c), Commit(c, revision), Finish(c)]
  }

  ghost function Run(stripe: string -> nat, s: Cluster, events: seq<Event>): Option<Cluster>
    decreases |events|
  {
    if events == [] then Some(s)
    else
      var next := Next(stripe, s, events[0]);
      if next.None? then None else Run(stripe, next.value, events[1..])
  }

  /** The cluster after caller `c` got to a phase, with this much of its state staged or committed. */
  ghost function Reached(s: Cluster, c: int, phase: Phase, locks: map<nat, int>, store: Store): Cluster
    requires c in s.callers
  {
    Cluster(s.tenants[s.callers[c].tenant := store], locks, s.callers[c := s.callers[c].(phase := phase)])
  }

  /**
   A caller that has prepared its state, finds its stripe free and the head unmoved, commits exactly that state as the
   next revision and is done; no other tenant, caller or lock is touched, and nothing stays staged.
   */
  lemma UndisturbedCommits(stripe: string -> nat, s: Cluster, c: int, revision: string)
    requires Inv(stripe, s) && At(s, c, Prepared) && stripe(s.callers[c].tenant) !in s.locks
    requires |StoreOf(s, c).log| == s.callers[c].seen && Unused(StoreOf(s, c).log, revision)
    ensures s.callers[c].work.Some?
    ensures var store := StoreOf(s, c);
      var entry := Entry(revision, s.callers[c].work.value.state);
      Run(stripe, s, Undisturbed(c, revision)) ==
        Some(Reached(s, c, Done, s.locks, Store(store.log + [entry], Clean, store.authors + [c])))
  {
    hide R.Reachable, Unused, Result, Next, Run;
    assert CallerOk(stripe, s, c);
    var t, store := s.callers[c].tenant, StoreOf(s, c);
    var state := s.callers[c].work.value.state;
    var locked := s.locks[stripe(t) := c];
    var artifact := PipelineArtifact(state.pipelines, state.bindings);
    var half := store.(staging := store.staging.(pipelines := Some(artifact)));
    var full := store.(staging := Staging(Some(artifact), Some(state.ontologies)));
    var entry := Entry(revision, state);
    var s1 := Reached(s, c, Locked, locked, store);
    var s2 := Reached(s, c, Checked, locked, store);
    var s3 := Reached(s, c, HalfStaged, locked, half);
    var s4 := Reached(s, c, Staged, locked, full);
    var s5 := Reached(s, c, Committed, locked, Store(store.log + [entry], Clean, store.authors + [c]));
    var s6 := Reached(s, c, Done, s.locks, Store(store.log + [entry], Clean, store.authors + [c]));
    Acquires(stripe, s, c);
    Checks(stripe, s, s1, c);
    StagesHalf(stripe, s, s2, c, half);
    StagesFull(stripe, s, s3, c, half, full);
    CommitsStaged(stripe, s, s4, c, revision, full, entry);
    Finishes(stripe, s, s5, c, Store(store.log + [entry], Clean, store.authors + [c]));
    RunSix(stripe, s, Undisturbed(c, revision), s1, s2, s3, s4, s5, s6);
  }

  lemma RunSix(stripe: string -> nat, s: Cluster, e: seq<Event>, s1: Cluster, s2: Cluster, s3: Cluster, s4: Cluster, s5: Cluster, s6: Cluster)
    requires |e| == 6
    requires Next(stripe, s, e[0]) == Some(s1) && Next(stripe, s1, e[1]) == Some(s2) && Next(stripe, s2, e[2]) == Some(s3)
    requires Next(stripe, s3, e[3]) == Some(s4) && Next(stripe, s4, e[4]) == Some(s5) && Next(stripe, s5, e[5]) == Some(s6)
    ensures Run(stripe, s, e) == Some(s6)
  {
    hide Next, Run;
    RunRest(stripe, s, e, s1);
    RunRest(stripe, s1, e[1..], s2);
    RunRest(stripe, s2, e[2..], s3);
    RunRest(stripe, s3, e[3..], s4);
    RunRest(stripe, s4, e[4..], s5);
    RunRest(stripe, s5, e[5..], s6);
    RunNothing(stripe, s6);
    assert e[1..][1..] == e[2..] && e[2..][1..] == e[3..] && e[3..][1..] == e[4..] && e[4..][1..] == e[5..] && e[5..][1..] == [];
  }

  lemma RunRest(stripe: string -> nat, s: Cluster, e: seq<Event>, s': Cluster)
    requires e != [] && Next(stripe, s, e[0]) == Some(s')
    ensures Run(stripe, s, e) == Run(stripe, s', e[1..])
  {
    hide Next;
  }

  lemma RunNothing(stripe: string -> nat, s: Cluster)
    ensures Run(stripe, s, []) == Some(s)
  {
  }

  lemma Acquires(stripe: string -> nat, s: Cluster, c: int)
    requires At(s, c, Prepared) && stripe(s.callers[c].tenant) !in s.locks
    ensures Next(stripe, s, Acquire(c)) == Some(Reached(s, c, Locked, s.locks[stripe(s.callers[c].tenant) := c], StoreOf(s, c)))
  {
    assert s.tenants[s.callers[c].tenant := StoreOf(s, c)] == s.tenants;
  }

  lemma Checks(stripe: string -> nat, s: Cluster, s1: Cluster, c: int)
    requires Inv(stripe, s) && c in s.callers && s.callers[c].tenant in s.tenants
    requires s1 == Reached(s, c, Locked, s1.locks, StoreOf(s, c)) && |StoreOf(s, c).log| == s.callers[c].seen
    ensures Next(stripe, s1, Check(c)) == Some(Reached(s, c, Checked, s1.locks, StoreOf(s, c)))
  {
    hide R.Reachable, Result, StoreOk;
    assert CallerOk(stripe, s, c);
    assert s1.callers[c := s1.callers[c].(phase := Checked)] == s.callers[c := s.callers[c].(phase := Checked)];
  }

  lemma StagesHalf(stripe: string -> nat, s: Cluster, s2: Cluster, c: int, half: Store)
    requires c in s.callers && s.callers[c].tenant in s.tenants && s.callers[c].work.Some?
    requires s2 == Reached(s, c, Checked, s2.locks, StoreOf(s, c))
    requires var state := s.callers[c].work.value.state;
      half == StoreOf(s, c).(staging := StoreOf(s, c).staging.(pipelines := Some(PipelineArtifact(state.pipelines, state.bindings))))
    ensures Next(stripe, s2, StagePipelines(c)) == Some(Reached(s, c, HalfStaged, s2.locks, half))
  {
    var t := s.callers[c].tenant;
    assert s2.tenants[t := half] == s.tenants[t := half];
    assert s2.callers[c := s2.callers[c].(phase := HalfStaged)] == s.callers[c := s.callers[c].(phase := HalfStaged)];
  }

  lemma StagesFull(stripe: string -> nat, s: Cluster, s3: Cluster, c: int, half: Store, full: Store)
    requires c in s.callers && s.callers[c].tenant in s.tenants && s.callers[c].work.Some?
    requires s3 == Reached(s, c, HalfStaged, s3.locks, half)
    requires full == half.(staging := half.staging.(ontologies := Some(s.callers[c].work.value.state.ontologies)))
    ensures Next(stripe, s3, StageOntologies(c)) == Some(Reached(s, c, Staged, s3.locks, full))
  {
    var t := s.callers[c].tenant;
    assert s3.tenants[t := full] == s.tenants[t := full];
    assert s3.callers[c := s3.callers[c].(phase := Staged)] == s.callers[c := s.callers[c].(phase := Staged)];
  }

  lemma CommitsStaged(stripe: string -> nat, s: Cluster, s4: Cluster, c: int, revision: string, full: Store, entry: Entry)
    requires c in s.callers && s.callers[c].tenant in s.tenants && s.callers[c].work.Some?
    requires s4 == Reached(s, c, Staged, s4.locks, full) && full.log != [] && Unused(full.log, revision)
    requires var state := s.callers[c].work.value.state;
      full.staging == Staging(Some(PipelineArtifact(state.pipelines, state.bindings)), Some(state.ontologies)) && entry == Entry(revision, state)
    ensures Next(stripe, s4, Commit(c, revision)) ==
            Some(Reached(s, c, Committed, s4.locks, Store(full.log + [entry], Clean, full.authors + [c])))
  {
    hide Unused;
    var t := s.callers[c].tenant;
    var after := Store(full.log + [entry], Clean, full.authors + [c]);
    assert Assemble(Head(full.log).state, full.staging) == entry.state;
    assert s4.tenants[t := after] == s.tenants[t := after];
    assert s4.callers[c := s4.callers[c].(phase := Committed)] == s.callers[c := s.callers[c].(phase := Committed)];
  }

  lemma Finishes(stripe: string -> nat, s: Cluster, s5: Cluster, c: int, store: Store)
    requires c in s.callers && s.callers[c].tenant in s.tenants && stripe(s.callers[c].tenant) !in s.locks
    requires s5 == Reached(s, c, Committed, s.locks[stripe(s.callers[c].tenant) := c], store)
    ensures Next(stripe, s5, Finish(c)) == Some(Reached(s, c, Done, s.locks, store))
  {
    assert s5.locks - {stripe(s.callers[c].tenant)} == s.locks;
    assert s5.callers[c := s5.callers[c].(phase := Done)] == s.callers[c := s.callers[c].(phase := Done)];
  }

  /** A caller whose head has moved is refused at the check, gives its lock back and leaves no trace on the branch. */
  lemma MovedHeadRefused(stripe: string -> nat, s: Cluster, c: int)
    requires Inv(stripe, s) && At(s, c, Locked) && |StoreOf(s, c).log| > s.callers[c].seen
    ensures var s' := Next(stripe, s, Check(c));
      && s'.Some? && s'.value.tenants == s.tenants && stripe(s.callers[c].tenant) !in s'.value.locks
      && s'.value.callers == s.callers[c := s.callers[c].(phase := Abandoned)]
  {
    hide R.Reachable, Result;
    assert CallerOk(stripe, s, c);
    SeenAll(stripe, s, c);
    assert StoreOk(s, s.callers[c].tenant);
  }

  /** Giving up before the commit changes no branch's revisions and frees the stripe. */
  lemma AbandonedLeavesHistory(stripe: string -> nat, s: Cluster, c: int)
    requires c in s.callers && s.callers[c].phase !in {Committed, Done, Abandoned}
    ensures var s' := Next(stripe, s, Abandon(c));
      && s'.Some? && s'.value.tenants == s.tenants
      && (Critical(s.callers[c].phase) ==> stripe(s.callers[c].tenant) !in s'.value.locks)
      && s'.value.callers == s.callers[c := s.callers[c].(phase := Abandoned)]
  {
  }
}
