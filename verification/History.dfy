/** The revision history of one ontology, read by following the chain of previous revisions. */
module History {
  import opened Json
  import opened Text
  import opened Snapshots
  import opened Registry
  import P = PipelineAuthoring

  ghost predicate Present(log: Log, id: string, i: nat)
    requires i < |log|
  {
    id in log[i].state.ontologies
  }

  /** Revision `i` created or changed the ontology. */
  ghost predicate Mutation(log: Log, id: string, i: nat)
    requires i < |log|
  {
    && Present(log, id, i)
    && (i == 0 || !Present(log, id, i - 1) || log[i].state.ontologies[id] != log[i - 1].state.ontologies[id])
  }

  /** All mutations up to revision `i`, newest first. */
  ghost function Mutations(log: Log, id: string, i: nat): seq<nat>
    requires i < |log|
  {
    var rest := if i == 0 then [] else Mutations(log, id, i - 1);
    if Mutation(log, id, i) then [i] + rest else rest
  }

  lemma {:induction false} MutationsExact(log: Log, id: string, i: nat, m: nat)
    requires i < |log|
    ensures m in Mutations(log, id, i) <==> m <= i && Mutation(log, id, m)
  {
    hide Mutation;
    if i > 0 {
      MutationsExact(log, id, i - 1, m);
    }
  }

  lemma {:induction false} MutationsDescend(log: Log, id: string, i: nat, a: nat, b: nat)
    requires i < |log| && a < b < |Mutations(log, id, i)|
    ensures Mutations(log, id, i)[b] < Mutations(log, id, i)[a] <= i
  {
    hide Mutation;
    if i > 0 {
      if Mutation(log, id, i) {
        if a == 0 {
          MutationsExact(log, id, i - 1, Mutations(log, id, i)[b]);
          assert Mutations(log, id, i)[b] == Mutations(log, id, i - 1)[b - 1];
        } else {
          MutationsDescend(log, id, i - 1, a - 1, b - 1);
        }
      } else {
        assert Mutations(log, id, i) == Mutations(log, id, i - 1);
        MutationsDescend(log, id, i - 1, a, b);
      }
    }
  }

  // ---- the chain -----------------------------------------------------------

  /** The last mutation at or before a revision that has the ontology. */
  ghost function Latest(log: Log, id: string, i: nat): (m: nat)
    requires i < |log| && Present(log, id, i)
    ensures m <= i && Mutation(log, id, m) && log[m].state.ontologies[id] == log[i].state.ontologies[id]
    ensures forall k :: m < k <= i ==> !Mutation(log, id, k)
  {
    if Mutation(log, id, i) then i else Latest(log, id, i - 1)
  }

  /** What the previous-revision pointer of a mutation says. */
  lemma PreviousOf(log: Log, id: string, m: nat)
    requires Invariant(log) && m < |log| && Mutation(log, id, m)
    ensures m > 0
    ensures log[m].state.ontologies[id].authoring.previous ==
            if Present(log, id, m - 1) then Some(log[m - 1].revision) else None
  {
    hide StateOk;
    if m > 0 {
      assert Follows(log[m - 1], log[m].state);
      assert Moves(log[m - 1], log[m].state, id);
    }
  }

  /** The revisions a reader visits from revision `i`: one for each mutation. */
  ghost function Chain(log: Log, id: string, i: nat): (chain: seq<nat>)
    requires i < |log| && Present(log, id, i)
    ensures |chain| > 0 && chain[0] == i
    ensures forall k :: 0 <= k < |chain| ==> chain[k] <= i && Present(log, id, chain[k])
  {
    var m := Latest(log, id, i);
    [i] + if m > 0 && Present(log, id, m - 1) then Chain(log, id, m - 1) else []
  }

  lemma {:induction false} MutationsSkip(log: Log, id: string, i: nat, m: nat)
    requires m <= i < |log| && forall k :: m < k <= i ==> !Mutation(log, id, k)
    ensures Mutations(log, id, i) == Mutations(log, id, m)
  {
    if m < i {
      MutationsSkip(log, id, i - 1, m);
    }
  }

  lemma {:induction false} NoMutations(log: Log, id: string, i: nat)
    requires Invariant(log) && i < |log| && !Present(log, id, i)
    ensures Mutations(log, id, i) == []
  {
    hide StateOk;
    if i > 0 {
      assert Follows(log[i - 1], log[i].state);
      assert Moves(log[i - 1], log[i].state, id);
      NoMutations(log, id, i - 1);
    }
  }

  lemma OneMutation(log: Log, id: string, m: nat)
    requires 0 < m < |log| && Mutation(log, id, m)
    ensures Mutations(log, id, m) == [m] + Mutations(log, id, m - 1)
  {
    hide Mutation;
  }

  /** The chain visits every mutation exactly once, newest first: its entries show the mutations in order. */
  lemma {:induction false} ChainIsHistory(log: Log, id: string, i: nat)
    requires Invariant(log) && i < |log| && Present(log, id, i)
    ensures |Chain(log, id, i)| == |Mutations(log, id, i)|
    ensures forall k :: 0 <= k < |Chain(log, id, i)| ==> Mutations(log, id, i)[k] == Latest(log, id, Chain(log, id, i)[k])
    decreases i
  {
    hide Invariant, Mutation, Mutations, Present;
    var m := Latest(log, id, i);
    MutationsSkip(log, id, i, m);
    PreviousOf(log, id, m);
    OneMutation(log, id, m);
    if Present(log, id, m - 1) {
      ChainIsHistory(log, id, m - 1);
      var rest := Chain(log, id, m - 1);
      assert Chain(log, id, i) == [i] + rest;
      forall k | 0 <= k < |Chain(log, id, i)| ensures Mutations(log, id, i)[k] == Latest(log, id, Chain(log, id, i)[k]) {
        if k > 0 { assert Chain(log, id, i)[k] == rest[k - 1]; }
      }
    } else {
      NoMutations(log, id, m - 1);
    }
  }

  lemma Tail(i: nat, rest: seq<nat>, k: nat)
    requires 0 < k < 1 + |rest|
    ensures ([i] + rest)[k..] == rest[k - 1..] && ([i] + rest)[k] == rest[k - 1]
  {
  }

  lemma WholeTail(s: seq<nat>)
    ensures s[0..] == s
  {
  }

  /** Reading on from any visited revision continues the same chain. */
  lemma {:induction false} ChainSuffix(log: Log, id: string, i: nat, k: nat)
    requires i < |log| && Present(log, id, i) && k < |Chain(log, id, i)|
    ensures Chain(log, id, i)[k..] == Chain(log, id, Chain(log, id, i)[k])
    decreases i
  {
    hide Mutation, Present, Latest;
    if k > 0 {
      var m := Latest(log, id, i);
      var rest := Chain(log, id, m - 1);
      Tail(i, rest, k);
      ChainSuffix(log, id, m - 1, k - 1);
    } else {
      WholeTail(Chain(log, id, i));
    }
  }

  lemma {:induction false} LatestStable(log: Log, more: Log, id: string, i: nat)
    requires log <= more && i < |log| && Present(log, id, i)
    ensures Latest(more, id, i) == Latest(log, id, i)
  {
    if !Mutation(log, id, i) {
      LatestStable(log, more, id, i - 1);
    }
  }

  /** Later commits do not disturb pages that start from a pinned revision. */
  lemma {:induction false} ChainStable(log: Log, more: Log, id: string, i: nat)
    requires log <= more && i < |log| && Present(log, id, i)
    ensures Chain(more, id, i) == Chain(log, id, i)
    decreases i
  {
    LatestStable(log, more, id, i);
    var m := Latest(log, id, i);
    if m > 0 && Present(log, id, m - 1) {
      ChainStable(log, more, id, m - 1);
    }
  }

  // ---- paging --------------------------------------------------------------

  datatype Item = Item(revision: string, branch: string, operation: string)

  datatype Page = Page(items: seq<Item>, next: Option<string>)

  datatype Failure = InvalidIdentity | InvalidLimit | InvalidRevision | RevisionUnavailable | RevisionCycle | Unavailable

  const MAX_PAGE := 100

  function Or(s: string, default: string): string {
    if s == "" then default else s
  }

  function ItemOf(revision: string, record: OntologyRecord): Item {
    Item(revision, Or(record.authoring.lastBranch, "main"), Or(record.authoring.lastOperation, "save_draft"))
  }

  /** What a visited revision shows: the metadata of the mutation it is there for. */
  ghost function ItemAt(log: Log, id: string, i: nat): Item
    requires i < |log| && Present(log, id, i)
  {
    ItemOf(log[i].revision, log[i].state.ontologies[id])
  }

  /** The revision a page starts from. */
  ghost predicate StartsAt(log: Log, after: Option<string>, i: nat) {
    i < |log| && if after.None? then i == |log| - 1 else log[i].revision == after.value
  }

  /** The page shows the chain up to the limit and names the next revision to visit. */
  ghost predicate PageFits(log: Log, id: string, i: nat, limit: nat, page: Page)
    requires i < |log| && Present(log, id, i)
  {
    var chain := Chain(log, id, i);
    var n := if |chain| < limit then |chain| else limit;
    && |page.items| == n
    && (forall k :: 0 <= k < n ==> page.items[k] == ItemAt(log, id, chain[k]))
    && page.next == if n < |chain| then Some(log[chain[n]].revision) else None
  }

  ghost function IndexOf(log: Log, revision: string): (i: nat)
    requires Load(log, revision).Some?
    ensures i < |log| && log[i] == Entry(revision, Load(log, revision).value)
  {
    var i :| 0 <= i < |log| && log[i] == Entry(revision, Load(log, revision).value);
    i
  }

  /** Following the pointer of a visited revision leads to the next one of the chain. */
  lemma NextInChain(log: Log, id: string, i: nat, k: nat)
    requires Invariant(log) && i < |log| && Present(log, id, i) && k < |Chain(log, id, i)|
    ensures var chain := Chain(log, id, i);
      log[chain[k]].state.ontologies[id].authoring.previous ==
        (if k + 1 < |chain| then Some(log[chain[k + 1]].revision) else None)
    ensures k + 1 < |Chain(log, id, i)| ==> Chain(log, id, i)[k + 1] < Chain(log, id, i)[k]
  {
    hide Invariant, Mutation, Present;
    var chain := Chain(log, id, i);
    var m := Latest(log, id, chain[k]);
    ChainSuffix(log, id, i, k);
    PreviousOf(log, id, m);
    assert chain[k..] == Chain(log, id, chain[k]);
    if Present(log, id, m - 1) {
      assert Chain(log, id, chain[k])[1] == m - 1;
      assert chain[k..][1] == chain[k + 1];
    } else {
      assert |chain[k..]| == 1;
    }
  }

  /** What the reader knows after visiting `k` revisions of the chain. */
  ghost predicate Reading(log: Log, id: string, start: nat, k: nat, next: Option<string>, items: seq<Item>, visited: set<string>)
    requires start < |log| && Present(log, id, start)
  {
    var chain := Chain(log, id, start);
    && |items| == k <= |chain|
    && (forall j :: 0 <= j < k ==> items[j] == ItemAt(log, id, chain[j]))
    && next == (if k < |chain| then Some(log[chain[k]].revision) else None)
    && (k < |chain| ==> forall v :: v in visited ==> Behind(log, chain[k], v))
  }

  /** The revision lies after position `i`. */
  ghost predicate Behind(log: Log, i: nat, revision: string) {
    exists j :: i < j < |log| && log[j].revision == revision
  }

  lemma ReadingStart(log: Log, id: string, start: nat)
    requires start < |log| && Present(log, id, start)
    ensures Reading(log, id, start, 0, Some(log[start].revision), [], {})
  {
  }

  lemma ReadingNext(log: Log, id: string, start: nat, k: nat, revision: string, items: seq<Item>, visited: set<string>)
    requires Invariant(log) && start < |log| && Present(log, id, start)
    requires Reading(log, id, start, k, Some(revision), items, visited)
    ensures revision !in visited && Load(log, revision).Some? && id in Load(log, revision).value.ontologies
    ensures var record := Load(log, revision).value.ontologies[id];
      Reading(log, id, start, k + 1, record.authoring.previous, items + [ItemOf(revision, record)], visited + {revision})
  {
    hide Invariant, Chain, Behind;
    var chain := Chain(log, id, start);
    var at := chain[k];
    LogsLoad(log, at);
    NextInChain(log, id, start, k);
    NotBehind(log, at, revision);
    if k + 1 < |chain| {
      forall v | v in visited + {revision} ensures Behind(log, chain[k + 1], v) {
        StillBehind(log, at, chain[k + 1], v);
      }
    }
  }

  lemma NotBehind(log: Log, i: nat, revision: string)
    requires Invariant(log) && i < |log| && log[i].revision == revision
    ensures !Behind(log, i, revision)
  {
    hide StateOk, Follows;
  }

  lemma StillBehind(log: Log, i: nat, next: nat, revision: string)
    requires next < i < |log|
    ensures Behind(log, i, revision) || log[i].revision == revision ==> Behind(log, next, revision)
  {
  }

  lemma ReadingEnd(log: Log, id: string, start: nat, k: nat, limit: nat, next: Option<string>, items: seq<Item>, visited: set<string>)
    requires start < |log| && Present(log, id, start) && Reading(log, id, start, k, next, items, visited)
    requires k == limit || (k <= limit && next.None?)
    ensures PageFits(log, id, start, limit, Page(items, next))
  {
  }

  /** Reads one page; in a run, neither a cycle nor a missing revision is ever met on the way. */
  method OntologyHistory(log: Log, id: string, after: Option<string>, limit: nat) returns (r: Result<Page, Failure>, ghost start: nat)
    requires Invariant(log)
    ensures r.Ok? ==> StartsAt(log, after, start) && Present(log, id, start) && PageFits(log, id, start, limit, r.value)
    ensures r.Err? ==> r.error != RevisionCycle
    ensures P.ValidIdentity(id) && 1 <= limit <= 100 && (after.Some? ==> ValidRevision(after.value)) ==>
      (r.Ok? <==> exists i :: StartsAt(log, after, i) && Present(log, id, i))
  {
    hide PageFits, Reading, P.ValidIdentity, ValidRevision, StateOk, Follows;
    start := 0;
    if !P.ValidIdentity(id) {
      return Err(InvalidIdentity), start;
    }
    if limit < 1 || limit > MAX_PAGE {
      return Err(InvalidLimit), start;
    }
    if after.Some? && !ValidRevision(after.value) {
      return Err(InvalidRevision), start;
    }
    var next := Some(if after.None? then log[|log| - 1].revision else after.value);
    var loaded := Load(log, next.value);
    if loaded.None? {
      return Err(RevisionUnavailable), start;
    }
    start := IndexOf(log, next.value);
    OnlyStart(log, after, start);
    if id !in loaded.value.ontologies {
      return Err(Unavailable), start;
    }
    var items, visited: set<string> := [], {};
    ReadingStart(log, id, start);
    for k := 0 to limit
      invariant next.Some? && Reading(log, id, start, k, next, items, visited)
    {
      var revision := next.value;
      ReadingNext(log, id, start, k, revision, items, visited);
      var record := Load(log, revision).value.ontologies[id];
      if revision in visited {
        return Err(RevisionCycle), start;
      }
      visited := visited + {revision};
      items := items + [ItemOf(revision, record)];
      next := record.authoring.previous;
      if next.None? {
        ReadingEnd(log, id, start, k + 1, limit, next, items, visited);
        return Ok(Page(items, next)), start;
      }
    }
    ReadingEnd(log, id, start, limit, limit, next, items, visited);
    return Ok(Page(items, next)), start;
  }

  lemma LogsLoad(log: Log, i: nat)
    requires Invariant(log) && i < |log|
    ensures Load(log, log[i].revision) == Some(log[i].state)
  {
    LoadAt(log, i);
  }

  lemma Distinguished(log: Log, i: nat, revision: string)
    requires Invariant(log) && i < |log| && log[i].revision == revision
    ensures forall j :: i < j < |log| ==> log[j].revision != revision
  {
  }

  lemma OnlyStart(log: Log, after: Option<string>, start: nat)
    requires Invariant(log) && start < |log|
    requires log[start].revision == if after.None? then log[|log| - 1].revision else after.value
    ensures forall i :: StartsAt(log, after, i) <==> i == start
  {
  }

  /** The next page starts where this one stopped: together they show the whole chain, nothing twice. */
  lemma PagesContinue(log: Log, id: string, i: nat, limit: nat, page: Page) returns (j: nat)
    requires i < |log| && Present(log, id, i) && PageFits(log, id, i, limit, page) && page.next.Some?
    ensures StartsAt(log, page.next, j) && Present(log, id, j)
    ensures |page.items| == limit < |Chain(log, id, i)|
    ensures Chain(log, id, i) == Chain(log, id, i)[..limit] + Chain(log, id, j)
  {
    hide Chain;
    var chain := Chain(log, id, i);
    j := chain[limit];
    ChainSuffix(log, id, i, limit);
    assert chain == chain[..limit] + chain[limit..];
  }

  /** In every run, reading from any revision lists all mutations up to it exactly once, newest first. */
  lemma RunHistory(log: Log, id: string, i: nat)
    requires Reachable(log) && i < |log| && Present(log, id, i)
    ensures |Chain(log, id, i)| == |Mutations(log, id, i)|
    ensures forall k :: 0 <= k < |Chain(log, id, i)| ==>
      && Mutations(log, id, i)[k] == Latest(log, id, Chain(log, id, i)[k])
      && log[Chain(log, id, i)[k]].state.ontologies[id] == log[Latest(log, id, Chain(log, id, i)[k])].state.ontologies[id]
  {
    hide Reachable, Invariant, Mutations, Chain;
    RunsKeep(log);
    ChainIsHistory(log, id, i);
  }

  /** Pages read one after the other, each from where the one before stopped, until nothing is left. */
  ghost predicate Pages(log: Log, id: string, i: nat, limit: nat, pages: seq<Page>)
    requires i < |log| && Present(log, id, i)
    decreases |pages|
  {
    && |pages| > 0 && PageFits(log, id, i, limit, pages[0])
    && if pages[0].next.None? then |pages| == 1
       else exists j :: StartsAt(log, pages[0].next, j) && Present(log, id, j) && Pages(log, id, j, limit, pages[1..])
  }

  function AllItems(pages: seq<Page>): seq<Item> {
    if pages == [] then [] else pages[0].items + AllItems(pages[1..])
  }

  lemma SameStart(log: Log, revision: string, i: nat, j: nat)
    requires Invariant(log) && StartsAt(log, Some(revision), i) && StartsAt(log, Some(revision), j)
    ensures i == j
  {
    hide StateOk, Follows;
  }

  lemma {:induction false} PagesShowChain(log: Log, id: string, i: nat, limit: nat, pages: seq<Page>)
    requires Invariant(log) && i < |log| && Present(log, id, i) && Pages(log, id, i, limit, pages)
    ensures |AllItems(pages)| == |Chain(log, id, i)|
    ensures forall k :: 0 <= k < |Chain(log, id, i)| ==> AllItems(pages)[k] == ItemAt(log, id, Chain(log, id, i)[k])
    decreases |pages|
  {
    hide Invariant, Chain, Present, PageFits;
    var page := pages[0];
    if page.next.None? {
      assert pages[1..] == [];
      assert AllItems(pages) == page.items + AllItems(pages[1..]);
      assert AllItems(pages) == page.items;
      LastPage(log, id, i, limit, page);
    } else {
      var j :| StartsAt(log, page.next, j) && Present(log, id, j) && Pages(log, id, j, limit, pages[1..]);
      var next := PagesContinue(log, id, i, limit, page);
      SameStart(log, page.next.value, j, next);
      PagesShowChain(log, id, j, limit, pages[1..]);
      JoinPages(log, id, i, limit, page, j, AllItems(pages[1..]));
    }
  }

  lemma LastPage(log: Log, id: string, i: nat, limit: nat, page: Page)
    requires i < |log| && Present(log, id, i) && PageFits(log, id, i, limit, page) && page.next.None?
    ensures |page.items| == |Chain(log, id, i)|
    ensures forall k :: 0 <= k < |page.items| ==> page.items[k] == ItemAt(log, id, Chain(log, id, i)[k])
  {
    hide Chain, Present;
  }

  lemma JoinPages(log: Log, id: string, i: nat, limit: nat, page: Page, j: nat, rest: seq<Item>)
    requires i < |log| && Present(log, id, i) && PageFits(log, id, i, limit, page)
    requires j < |log| && Present(log, id, j) && |page.items| == limit < |Chain(log, id, i)|
    requires Chain(log, id, i) == Chain(log, id, i)[..limit] + Chain(log, id, j)
    requires |rest| == |Chain(log, id, j)| && forall k :: 0 <= k < |rest| ==> rest[k] == ItemAt(log, id, Chain(log, id, j)[k])
    ensures |page.items + rest| == |Chain(log, id, i)|
    ensures forall k :: 0 <= k < |Chain(log, id, i)| ==> (page.items + rest)[k] == ItemAt(log, id, Chain(log, id, i)[k])
  {
    hide Chain, Present, ItemAt;
    var chain, tail := Chain(log, id, i), Chain(log, id, j);
    forall k | 0 <= k < |chain| ensures (page.items + rest)[k] == ItemAt(log, id, chain[k]) {
      if k >= limit { assert chain[k] == tail[k - limit]; }
    }
  }

  /** Read page by page with any limit, the history of a run shows every mutation of the ontology once, newest first. */
  lemma PagesListEveryMutation(log: Log, id: string, i: nat, limit: nat, pages: seq<Page>)
    requires Reachable(log) && i < |log| && Present(log, id, i) && Pages(log, id, i, limit, pages)
    ensures |AllItems(pages)| == |Mutations(log, id, i)|
    ensures forall k :: 0 <= k < |Mutations(log, id, i)| ==> Shows(log, id, Mutations(log, id, i)[k], AllItems(pages)[k])
  {
    hide Reachable, Invariant, Chain, Mutations, Mutation, Present, Pages;
    RunsKeep(log);
    PagesShowChain(log, id, i, limit, pages);
    RunHistory(log, id, i);
    forall k | 0 <= k < |Mutations(log, id, i)| ensures Shows(log, id, Mutations(log, id, i)[k], AllItems(pages)[k]) {
      var at := Chain(log, id, i)[k];
      var m := Latest(log, id, at);
      assert Mutations(log, id, i)[k] == m;
      LatestPresent(log, id, at);
      assert AllItems(pages)[k].revision == log[at].revision && Latest(log, id, at) == m;
    }
  }

  lemma LatestPresent(log: Log, id: string, i: nat)
    requires i < |log| && Present(log, id, i)
    ensures Present(log, id, Latest(log, id, i))
  {
  }

  /** The item carries the branch and the operation that mutation `m` recorded, and a revision at which `m` is the latest one. */
  ghost predicate Shows(log: Log, id: string, m: nat, item: Item) {
    && m < |log| && Present(log, id, m)
    && var recorded := log[m].state.ontologies[id].authoring;
       && item.branch == (if recorded.lastBranch == "" then "main" else recorded.lastBranch)
       && item.operation == (if recorded.lastOperation == "" then "save_draft" else recorded.lastOperation)
       && exists i :: m <= i < |log| && item.revision == log[i].revision && Present(log, id, i) && Latest(log, id, i) == m
  }

  // ---- every command is a mutation -----------------------------------------

  /** A command that touched the ontology is visible as a mutation of its own. */
  lemma TouchIsMutation(log: Log, id: string, i: nat)
    requires Invariant(log) && 0 < i < |log| && Present(log, id, i)
    requires log[i].state.ontologies[id].authoring.previous == Some(log[i - 1].revision)
    ensures Mutation(log, id, i)
  {
    hide Invariant;
    if Present(log, id, i - 1) && log[i].state.ontologies[id] == log[i - 1].state.ontologies[id] {
      NotYetChained(log, id, i - 1);
    }
  }

  lemma NotYetChained(log: Log, id: string, i: nat)
    requires Invariant(log) && i < |log| && Present(log, id, i)
    ensures log[i].state.ontologies[id].authoring.previous != Some(log[i].revision)
  {
    hide Invariant, Mutation, Present;
    var m := Latest(log, id, i);
    PreviousOf(log, id, m);
    Distinguished(log, m - 1, log[m - 1].revision);
  }
}
