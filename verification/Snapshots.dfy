/** Tenant state and the append-only log of its immutable revisions. */
module Snapshots {
  import opened Json
  import opened Text

  /** The content hash of a document; collisions are excluded. */
  datatype Digest = Digest(of: Value)

  // ---- pipelines -----------------------------------------------------------

  datatype Branch = Branch(parent: Option<string>, definition: Value, base: Value, baseRevision: string)

  datatype Proposal = Proposal(sourceBranch: string, sourceHash: Digest, targetHash: Digest)

  datatype Release = Release(revision: string, hash: Digest)

  /** Branches besides main, proposals by source branch, and where main stands on the way to production. */
  datatype Authoring = Authoring(
    enabled: bool,
    branches: map<string, Branch>,
    proposals: map<string, Proposal>,
    approval: Option<Digest>,
    release: Option<Release>)

  datatype PipelineRecord = PipelineRecord(
    authoring: Authoring,
    previous: Option<string>,
    name: string,
    published: Option<string>,
    definition: Value,
    deleted: bool)

  const NoAuthoring := Authoring(false, map[], map[], None, None)

  // ---- ontologies ----------------------------------------------------------

  datatype OntologyBranch = OntologyBranch(
    parent: string,
    definition: Value,
    displayName: string,
    base: Value,
    baseDisplayName: string,
    baseRevision: string)

  datatype OntologyAuthoring = OntologyAuthoring(
    branches: map<string, OntologyBranch>,
    previous: Option<string>,
    lastBranch: string,
    lastOperation: string,
    deleted: bool)

  datatype Lifecycle = Production | Retired

  datatype Publication = Publication(id: string, revision: string, lifecycle: Lifecycle, hash: Digest)

  datatype OntologyRecord = OntologyRecord(
    authoring: OntologyAuthoring,
    displayName: string,
    ontology: Value,
    publication: Option<Publication>)

  const NoBranches := OntologyAuthoring(map[], None, "", "", false)

  // ---- tenants -------------------------------------------------------------

  datatype Binding = Binding(pipeline: string, block: string, ontology: string, ids: seq<string>, kinds: seq<string>, dependencies: bool)

  /** Bindings are keyed by pipeline and block. */
  datatype TenantState = TenantState(
    pipelines: map<string, PipelineRecord>,
    ontologies: map<string, OntologyRecord>,
    bindings: map<(string, string), Binding>)

  const Empty := TenantState(map[], map[], map[])

  datatype Entry = Entry(revision: string, state: TenantState)

  type Log = seq<Entry>

  /** A tenant starts empty and no revision id is ever reused. */
  ghost predicate WellFormed(log: Log) {
    && log != [] && log[0].state == Empty
    && (forall i :: 0 <= i < |log| ==> ValidRevision(log[i].revision))
    && forall i, j :: 0 <= i < j < |log| ==> log[i].revision != log[j].revision
  }

  function Head(log: Log): Entry
    requires log != []
  {
    log[|log| - 1]
  }

  /** The state at an explicitly pinned revision. */
  function Load(log: Log, revision: string): (r: Option<TenantState>)
    ensures r.None? <==> forall i :: 0 <= i < |log| ==> log[i].revision != revision
    ensures r.Some? ==> exists i :: 0 <= i < |log| && log[i] == Entry(revision, r.value)
  {
    if log == [] then None
    else if log[|log| - 1].revision == revision then Some(log[|log| - 1].state)
    else
      var r := Load(log[..|log| - 1], revision);
      assert r.Some? ==> exists i :: 0 <= i < |log| && log[i] == Entry(revision, r.value) by {
        if r.Some? {
          var i :| 0 <= i < |log| - 1 && log[..|log| - 1][i] == Entry(revision, r.value);
          assert log[i] == Entry(revision, r.value);
        }
      }
      assert r.None? ==> forall i :: 0 <= i < |log| ==> log[i].revision != revision by {
        if r.None? {
          forall i | 0 <= i < |log| ensures log[i].revision != revision {
            if i < |log| - 1 { assert log[..|log| - 1][i] == log[i]; }
          }
        }
      }
      r
  }

  lemma LoadAt(log: Log, i: nat)
    requires WellFormed(log) && i < |log|
    ensures Load(log, log[i].revision) == Some(log[i].state)
  {
    var r := Load(log, log[i].revision);
    var j :| 0 <= j < |log| && log[j] == Entry(log[i].revision, r.value);
  }

  /** A revision, once there, stays and keeps its content. */
  lemma LoadStable(log: Log, more: Log, revision: string)
    requires WellFormed(more) && log <= more && Load(log, revision).Some?
    ensures Load(more, revision) == Load(log, revision)
  {
    var i :| 0 <= i < |log| && log[i] == Entry(revision, Load(log, revision).value);
    assert more[i] == log[i];
    LoadAt(more, i);
  }

  ghost predicate Unused(log: Log, revision: string) {
    ValidRevision(revision) && Load(log, revision).None?
  }

  lemma Committed(log: Log, revision: string, state: TenantState)
    requires WellFormed(log) && Unused(log, revision)
    ensures WellFormed(log + [Entry(revision, state)])
  {
  }
}
