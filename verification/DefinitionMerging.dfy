/** Merging and comparing whole pipeline definitions through their identity-keyed form. */
module DefinitionMerging {
  import opened Json
  import opened Patches
  import opened Indexing
  import opened PipelineMerging
  import P = Pointers

  datatype MergeConflict = MergeConflict(path: string, base: Option<Value>, target: Option<Value>, source: Option<Value>)

  datatype MergePreview = MergePreview(definition: Value, conflicts: seq<MergeConflict>)

  datatype MergeError =
    | NotNormal
    | TooManyResolutions
    | DepthExceeded
    | RemovedDefinition
    | NotObject
    | CollectionMissing

  function Rendered(c: Conflict): MergeConflict {
    MergeConflict(P.Pointer(c.path), c.base, c.target, c.source)
  }

  ghost predicate Reports(c: MergeConflict, conflicts: set<Conflict>) {
    exists d :: d in conflicts && c == Rendered(d)
  }

  /** The list holds exactly the given conflicts. */
  ghost predicate ReportsAre(list: seq<MergeConflict>, conflicts: set<Conflict>) {
    forall c :: c in list <==> Reports(c, conflicts)
  }

  // ---- the recursive merge -------------------------------------------------

  lemma PointerExtends(path: Path, key: string)
    ensures P.Pointer(path + [key]) == P.Pointer(path) + "/" + P.Token(key)
  {
    assert (path + [key])[..|path|] == path;
  }

  /** A conflict at or below one of the fields visited so far. */
  ghost predicate ReportsBelow(path: Path, b: Option<Value>, t: Option<Value>, s: Option<Value>, res: Resolutions,
                               seen: set<string>, c: MergeConflict) {
    exists k :: k in seen && Reports(c, Conflicts(path + [k], Get(b, k), Get(t, k), Get(s, k), res))
  }

  lemma ReportsAll(path: Path, b: Option<Value>, t: Option<Value>, s: Option<Value>, res: Resolutions, c: MergeConflict)
    requires Descends(b, t, s)
    ensures ReportsBelow(path, b, t, s, res, AllKeys(b, t, s), c) <==> Reports(c, Conflicts(path, b, t, s, res))
  {
    if ReportsBelow(path, b, t, s, res, AllKeys(b, t, s), c) {
      var k, d :| k in AllKeys(b, t, s) && d in Conflicts(path + [k], Get(b, k), Get(t, k), Get(s, k), res) && c == Rendered(d);
      assert d in Conflicts(path, b, t, s, res);
    }
    if Reports(c, Conflicts(path, b, t, s, res)) {
      var d :| d in Conflicts(path, b, t, s, res) && c == Rendered(d);
      var k :| k in AllKeys(b, t, s) && d in Conflicts(path + [k], Get(b, k), Get(t, k), Get(s, k), res);
      assert Reports(c, Conflicts(path + [k], Get(b, k), Get(t, k), Get(s, k), res));
    }
  }

  /** The list holds exactly the conflicts of the fields visited so far. */
  ghost predicate ReportsSoFar(path: Path, b: Option<Value>, t: Option<Value>, s: Option<Value>, res: Resolutions,
                               seen: set<string>, list: seq<MergeConflict>) {
    forall c :: c in list <==> ReportsBelow(path, b, t, s, res, seen, c)
  }

  /** The fields visited so far are merged into `result`. */
  ghost predicate MergedSoFar(path: Path, b: Option<Value>, t: Option<Value>, s: Option<Value>, res: Resolutions,
                              seen: set<string>, result: map<string, Value>) {
    forall k :: (if k in result then Some(result[k]) else None) ==
                (if k in seen then Merge(path + [k], Get(b, k), Get(t, k), Get(s, k), res) else None)
  }

  lemma NothingYet(path: Path, b: Option<Value>, t: Option<Value>, s: Option<Value>, res: Resolutions)
    ensures MergedSoFar(path, b, t, s, res, {}, map[]) && ReportsSoFar(path, b, t, s, res, {}, [])
  {
  }

  lemma OneMoreMerged(path: Path, b: Option<Value>, t: Option<Value>, s: Option<Value>, res: Resolutions,
                      seen: set<string>, result: map<string, Value>, key: string, child: Option<Value>)
    requires MergedSoFar(path, b, t, s, res, seen, result) && key !in seen
    requires child == Merge(path + [key], Get(b, key), Get(t, key), Get(s, key), res)
    ensures MergedSoFar(path, b, t, s, res, seen + {key}, if child.Some? then result[key := child.value] else result)
  {
    hide Merge, Get;
  }

  lemma AllMerged(path: Path, b: Option<Value>, t: Option<Value>, s: Option<Value>, res: Resolutions, result: map<string, Value>)
    requires Descends(b, t, s) && MergedSoFar(path, b, t, s, res, AllKeys(b, t, s), result)
    ensures Some(Obj(result)) == Merge(path, b, t, s, res)
  {
    hide Merge;
    MergeField(path, b, t, s, res, "");
    forall k ensures Get(Some(Obj(result)), k) == Get(Merge(path, b, t, s, res), k) {
      MergeField(path, b, t, s, res, k);
      AbsentField(path, b, t, s, res, k);
    }
    ObjectsEqual(Some(Obj(result)), Merge(path, b, t, s, res));
  }

  lemma OneMoreReported(path: Path, b: Option<Value>, t: Option<Value>, s: Option<Value>, res: Resolutions, seen: set<string>,
                        found: seq<MergeConflict>, key: string, added: seq<MergeConflict>)
    requires ReportsSoFar(path, b, t, s, res, seen, found)
    requires ReportsAre(added, Conflicts(path + [key], Get(b, key), Get(t, key), Get(s, key), res))
    ensures ReportsSoFar(path, b, t, s, res, seen + {key}, found + added)
  {
    hide Conflicts, Reports;
  }

  lemma AllReported(path: Path, b: Option<Value>, t: Option<Value>, s: Option<Value>, res: Resolutions, found: seq<MergeConflict>)
    requires Descends(b, t, s) && ReportsSoFar(path, b, t, s, res, AllKeys(b, t, s), found)
    ensures ReportsAre(found, Conflicts(path, b, t, s, res))
  {
    hide Conflicts, Reports, ReportsBelow;
    forall c ensures c in found <==> Reports(c, Conflicts(path, b, t, s, res)) {
      ReportsAll(path, b, t, s, res, c);
    }
  }

  /** What is decided at a place without looking below it. */
  lemma Leaf(path: Path, b: Option<Value>, t: Option<Value>, s: Option<Value>, res: Resolutions, depth: nat)
    requires depth <= MAX_DEPTH && !Descends(b, t, s)
    ensures !TooDeep(b, t, s, depth)
    ensures Merge(path, b, t, s, res) ==
      if t == s || s == b then t else if t == b then s else if Chosen(path, res) then s else t
    ensures Conflicts(path, b, t, s, res) ==
      if Settled(b, t, s) || P.Pointer(path) in res then {} else {Conflict(path, b, t, s)}
  {
  }

  lemma Depth(b: Option<Value>, t: Option<Value>, s: Option<Value>, depth: nat)
    requires Descends(b, t, s) && depth <= MAX_DEPTH
    ensures TooDeep(b, t, s, depth) <==>
      exists k :: k in AllKeys(b, t, s) && TooDeep(Get(b, k), Get(t, k), Get(s, k), depth + 1)
  {
  }

  lemma Appended<T>(before: seq<T>, found: seq<T>, after: seq<T>)
    requires before + found <= after
    ensures after == before + (found + after[|before| + |found|..])
  {
  }

  /** Merges one place, appending unresolved conflicts under their pointers; fails below depth 32. */
  method MergeValue(ghost path: Path, pointer: string, base: Option<Value>, target: Option<Value>, source: Option<Value>,
                    resolutions: Resolutions, conflicts: seq<MergeConflict>, depth: nat)
    returns (r: Result<Option<Value>, MergeError>, conflicts': seq<MergeConflict>)
    requires pointer == P.Pointer(path)
    ensures r == Err(DepthExceeded) <==> TooDeep(base, target, source, depth)
    ensures r.Err? ==> r.error == DepthExceeded
    ensures r.Ok? ==> r.value == Merge(path, base, target, source, resolutions)
    ensures conflicts <= conflicts'
    ensures r.Ok? ==> ReportsAre(conflicts'[|conflicts|..], Conflicts(path, base, target, source, resolutions))
    decreases target.Some?, if target.Some? then target.value else Null, 1
  {
    hide Merge, Conflicts, P.Pointer;
    conflicts' := conflicts;
    if depth > MAX_DEPTH {
      return Err(DepthExceeded), conflicts';
    }
    if !Descends(base, target, source) {
      Leaf(path, base, target, source, resolutions, depth);
    }
    if target == source || source == base {
      return Ok(target), conflicts';
    }
    if target == base {
      return Ok(source), conflicts';
    }
    if IsObject(target) && IsObject(source) && (base.None? || IsObject(base)) {
      r, conflicts' := MergeFields(path, pointer, base, target, source, resolutions, conflicts, depth);
      return;
    }
    if pointer in resolutions {
      return Ok(if resolutions[pointer].Target? then target else source), conflicts';
    }
    var conflict := MergeConflict(pointer, base, target, source);
    conflicts' := conflicts + [conflict];
    assert conflicts'[|conflicts|..] == [conflict];
    assert Rendered(Conflict(path, base, target, source)) == conflict;
    return Ok(target), conflicts';
  }

  /** The part of the merge that descends into the fields of objects. */
  method MergeFields(ghost path: Path, pointer: string, base: Option<Value>, target: Option<Value>, source: Option<Value>,
                     resolutions: Resolutions, conflicts: seq<MergeConflict>, depth: nat)
    returns (r: Result<Option<Value>, MergeError>, conflicts': seq<MergeConflict>)
    requires pointer == P.Pointer(path) && depth <= MAX_DEPTH && Descends(base, target, source)
    ensures r == Err(DepthExceeded) <==> TooDeep(base, target, source, depth)
    ensures r.Err? ==> r.error == DepthExceeded
    ensures r.Ok? ==> r.value == Merge(path, base, target, source, resolutions)
    ensures conflicts <= conflicts'
    ensures r.Ok? ==> ReportsAre(conflicts'[|conflicts|..], Conflicts(path, base, target, source, resolutions))
    decreases target.Some?, if target.Some? then target.value else Null, 0
  {
    hide Merge, Conflicts, P.Pointer, P.Token, ReportsAre, ReportsSoFar, TooDeep, MergedSoFar;
    conflicts' := conflicts;
    var all := AllKeys(base, target, source);
    var result: map<string, Value> := map[];
    var keys := all;
    var found: seq<MergeConflict> := [];
    ghost var seen: set<string> := {};
    NothingYet(path, base, target, source, resolutions);
    Depth(base, target, source, depth);
    while keys != {}
      invariant keys <= all && seen == all - keys
      invariant MergedSoFar(path, base, target, source, resolutions, seen, result)
      invariant conflicts' == conflicts + found
      invariant ReportsSoFar(path, base, target, source, resolutions, seen, found)
      invariant forall k :: k in seen ==> !TooDeep(Get(base, k), Get(target, k), Get(source, k), depth + 1)
      decreases keys
    {
      var key :| key in keys;
      PointerExtends(path, key);
      var child;
      child, conflicts' := MergeValue(path + [key], pointer + "/" + P.Token(key), Get(base, key), Get(target, key),
                                      Get(source, key), resolutions, conflicts', depth + 1);
      if child.Err? {
        return child, conflicts';
      }
      OneMoreMerged(path, base, target, source, resolutions, seen, result, key, child.value);
      if child.value.Some? {
        result := result[key := child.value.value];
      }
      var added := conflicts'[|conflicts| + |found|..];
      OneMoreReported(path, base, target, source, resolutions, seen, found, key, added);
      Appended(conflicts, found, conflicts');
      found := found + added;
      keys, seen := keys - {key}, seen + {key};
    }
    assert seen == all;
    AllMerged(path, base, target, source, resolutions, result);
    assert conflicts'[|conflicts|..] == found;
    AllReported(path, base, target, source, resolutions, found);
    return Ok(Some(Obj(result))), conflicts';
  }

  lemma AbsentField(path: Path, b: Option<Value>, t: Option<Value>, s: Option<Value>, res: Resolutions, k: string)
    ensures k !in AllKeys(b, t, s) ==> Merge(path + [k], Get(b, k), Get(t, k), Get(s, k), res) == None
  {
  }

  // ---- the identity-keyed form ---------------------------------------------

  function CollectionItems(v: Value, collection: string): seq<Value> {
    var items := AsArr(Field(v, collection));
    if items.Some? then items.value else []
  }

  ghost predicate Collection(v: Value, collection: string, key: string) {
    && AsArr(Field(v, collection)).Some?
    && (forall i :: 0 <= i < |CollectionItems(v, collection)| ==> HasId(key, CollectionItems(v, collection)[i]))
    && DistinctIds(key, CollectionItems(v, collection))
  }

  /** Definitions that can be keyed by block identity. */
  ghost predicate Normalizes(v: Value) {
    v.Obj? && Collection(v, "sources", "id") && Collection(v, "pipeline", "step")
  }

  function Normal(v: Value): Value
    requires v.Obj?
  {
    Obj(v.fields["sources" := Obj(Index("id", CollectionItems(v, "sources")))]
                ["pipeline" := Obj(Index("step", CollectionItems(v, "pipeline")))])
  }

  /** Keys one collection by identity, refusing blocks without one and repeated ones. */
  method IndexCollection(v: Value, collection: string, key: string) returns (r: Option<map<string, Value>>)
    ensures r.Some? <==> Collection(v, collection, key)
    ensures r.Some? ==> r.value == Index(key, CollectionItems(v, collection))
  {
    var items := AsArr(Field(v, collection));
    if items.None? {
      return None;
    }
    var nodes := items.value;
    var indexed: map<string, Value> := map[];
    for i := 0 to |nodes|
      invariant indexed == Index(key, nodes[..i])
      invariant forall j :: 0 <= j < i ==> HasId(key, nodes[j])
      invariant DistinctIds(key, nodes[..i])
    {
      if !HasId(key, nodes[i]) {
        return None;
      }
      var id := IdIn(key, nodes[i]);
      IndexStep(key, nodes, i);
      if id in indexed {
        return None;
      }
      indexed := indexed[id := nodes[i]];
    }
    assert nodes[..|nodes|] == nodes;
    return Some(indexed);
  }

  method Normalize(v: Value) returns (r: Option<Value>)
    ensures r.Some? <==> Normalizes(v)
    ensures r.Some? ==> r.value == Normal(v)
  {
    if !v.Obj? {
      return None;
    }
    var sources := IndexCollection(v, "sources", "id");
    var steps := IndexCollection(v, "pipeline", "step");
    if sources.None? || steps.None? {
      return None;
    }
    return Some(Obj(v.fields["sources" := Obj(sources.value)]["pipeline" := Obj(steps.value)]));
  }

  // ---- what a merge keeps of the keyed form --------------------------------

  /** An object whose entries carry their own key as identity. */
  ghost predicate SelfKeyed(key: string, v: Option<Value>) {
    IsObject(v) && forall id :: Get(v, id).Some? ==> Get(Get(v, id), key) == Some(Str(id))
  }

  lemma NormalIsSelfKeyed(v: Value)
    requires Normalizes(v)
    ensures SelfKeyed("id", Field(Normal(v), "sources")) && SelfKeyed("step", Field(Normal(v), "pipeline"))
  {
    IndexSelfKeyed("id", CollectionItems(v, "sources"));
    IndexSelfKeyed("step", CollectionItems(v, "pipeline"));
    Distinguish();
  }

  lemma Distinguish()
    ensures "sources" != "pipeline"
  {
    assert |"sources"| != |"pipeline"|;
  }

  lemma IndexSelfKeyed(key: string, items: seq<Value>)
    requires forall i :: 0 <= i < |items| ==> HasId(key, items[i])
    ensures SelfKeyed(key, Some(Obj(Index(key, items))))
  {
    forall id | Get(Some(Obj(Index(key, items))), id).Some?
      ensures Get(Get(Some(Obj(Index(key, items))), id), key) == Some(Str(id))
    {
      IndexKeys(key, items, id);
      var i :| 0 <= i < |items| && items[i] == Index(key, items)[id];
    }
  }

  /** A merged entry is still filed under its own identity, whatever was resolved. */
  lemma KeepsIdentity(path: Path, b: Option<Value>, t: Option<Value>, s: Option<Value>, res: Resolutions, key: string, id: Value)
    requires b.Some? ==> Get(b, key) == Some(id)
    requires t.Some? ==> Get(t, key) == Some(id)
    requires s.Some? ==> Get(s, key) == Some(id)
    ensures Merge(path, b, t, s, res).Some? ==> Get(Merge(path, b, t, s, res), key) == Some(id)
  {
    if Descends(b, t, s) {
      MergeField(path, b, t, s, res, key);
    }
  }

  lemma MergeSelfKeyed(path: Path, b: Option<Value>, t: Option<Value>, s: Option<Value>, res: Resolutions, key: string)
    requires SelfKeyed(key, b) && SelfKeyed(key, t) && SelfKeyed(key, s)
    ensures SelfKeyed(key, Merge(path, b, t, s, res))
  {
    MergeField(path, b, t, s, res, "");
    forall id | Get(Merge(path, b, t, s, res), id).Some? ensures Get(Get(Merge(path, b, t, s, res), id), key) == Some(Str(id)) {
      MergeField(path, b, t, s, res, id);
      KeepsIdentity(path + [id], Get(b, id), Get(t, id), Get(s, id), res, key, Str(id));
    }
  }

  // ---- back to lists -------------------------------------------------------

  /** Lists the entries of a keyed collection. */
  method Values(fields: map<string, Value>, ghost key: string) returns (items: seq<Value>)
    requires SelfKeyed(key, Some(Obj(fields)))
    ensures forall i :: 0 <= i < |items| ==> HasId(key, items[i])
    ensures DistinctIds(key, items) && Index(key, items) == fields
  {
    items := [];
    var keys := fields.Keys;
    while keys != {}
      invariant keys <= fields.Keys
      invariant forall i :: 0 <= i < |items| ==>
        HasId(key, items[i]) && IdIn(key, items[i]) in fields.Keys - keys && fields[IdIn(key, items[i])] == items[i]
      invariant DistinctIds(key, items)
      invariant Index(key, items) == map k | k in fields && k !in keys :: fields[k]
      decreases keys
    {
      var k :| k in keys;
      assert Get(Some(Obj(fields)), k).Some?;
      assert IdIn(key, fields[k]) == k;
      ghost var before := items;
      items := items + [fields[k]];
      assert items[..|items| - 1] == before;
      keys := keys - {k};
    }
    assert (map k | k in fields && k !in keys :: fields[k]) == fields;
  }

  /** Keying the listed form of a keyed definition gives the keyed definition back. */
  lemma Relisted(keyed: map<string, Value>, sources: seq<Value>, steps: seq<Value>, definition: Value)
    requires forall i :: 0 <= i < |sources| ==> HasId("id", sources[i])
    requires forall i :: 0 <= i < |steps| ==> HasId("step", steps[i])
    requires DistinctIds("id", sources) && DistinctIds("step", steps)
    requires "sources" in keyed && keyed["sources"] == Obj(Index("id", sources))
    requires "pipeline" in keyed && keyed["pipeline"] == Obj(Index("step", steps))
    requires definition == Obj(keyed["sources" := Arr(sources)]["pipeline" := Arr(steps)])
    ensures Normalizes(definition) && Normal(definition) == Obj(keyed)
  {
    Distinguish();
    assert CollectionItems(definition, "sources") == sources && CollectionItems(definition, "pipeline") == steps;
    assert Normal(definition).fields == keyed;
  }

  /** Merges two definitions over their common ancestor. */
  method MergeDefinitions(base: Value, target: Value, source: Value, resolutions: Resolutions)
    returns (r: Result<MergePreview, MergeError>)
    ensures r == Err(NotNormal) <==> !(Normalizes(base) && Normalizes(target) && Normalizes(source))
    ensures r == Err(TooManyResolutions) <==>
      Normalizes(base) && Normalizes(target) && Normalizes(source) && |resolutions| > 256
    ensures r.Err? ==> r.error.NotNormal? || r.error.TooManyResolutions? || r.error.DepthExceeded?
    ensures r == Err(DepthExceeded) <==>
      Normalizes(base) && Normalizes(target) && Normalizes(source) && |resolutions| <= 256 &&
      TooDeep(Some(Normal(base)), Some(Normal(target)), Some(Normal(source)), 0)
    ensures r.Ok? ==>
      && Normalizes(r.value.definition)
      && Some(Normal(r.value.definition)) ==
         Merge([], Some(Normal(base)), Some(Normal(target)), Some(Normal(source)), resolutions)
      && ReportsAre(r.value.conflicts, Conflicts([], Some(Normal(base)), Some(Normal(target)), Some(Normal(source)), resolutions))
  {
    var b := Normalize(base);
    var t := Normalize(target);
    var s := Normalize(source);
    if b.None? || t.None? || s.None? {
      return Err(NotNormal);
    }
    if |resolutions| > MAX_RESOLUTIONS {
      return Err(TooManyResolutions);
    }
    var merged, conflicts := MergeValue([], "", b, t, s, resolutions, [], 0);
    MergedCollections(base, target, source, resolutions);
    match merged
    case Err(e) => return Err(e);
    case Ok(None) => return Err(RemovedDefinition);
    case Ok(Some(Obj(keyed))) =>
      if "sources" !in keyed || "pipeline" !in keyed || !keyed["sources"].Obj? || !keyed["pipeline"].Obj? {
        return Err(CollectionMissing);
      }
      var sources := Values(keyed["sources"].fields, "id");
      var steps := Values(keyed["pipeline"].fields, "step");
      var definition := Obj(keyed["sources" := Arr(sources)]["pipeline" := Arr(steps)]);
      Relisted(keyed, sources, steps, definition);
      assert conflicts[0..] == conflicts;
      return Ok(MergePreview(definition, conflicts));
    case Ok(Some(_)) => return Err(NotObject);
  }

  /** The merged keyed form keeps both collections, with every block filed under its identity. */
  lemma MergedCollections(base: Value, target: Value, source: Value, res: Resolutions)
    requires Normalizes(base) && Normalizes(target) && Normalizes(source)
    ensures var m := Merge([], Some(Normal(base)), Some(Normal(target)), Some(Normal(source)), res);
            IsObject(m) && SelfKeyed("id", Get(m, "sources")) && SelfKeyed("step", Get(m, "pipeline"))
  {
    var b, t, s := Some(Normal(base)), Some(Normal(target)), Some(Normal(source));
    NormalIsSelfKeyed(base);
    NormalIsSelfKeyed(target);
    NormalIsSelfKeyed(source);
    MergeField([], b, t, s, res, "sources");
    MergeField([], b, t, s, res, "pipeline");
    MergeSelfKeyed([] + ["sources"], Get(b, "sources"), Get(t, "sources"), Get(s, "sources"), res, "id");
    MergeSelfKeyed([] + ["pipeline"], Get(b, "pipeline"), Get(t, "pipeline"), Get(s, "pipeline"), res, "step");
  }

  /** Merging an unedited branch leaves main as it is, up to the order of blocks, whatever choices are sent along. */
  lemma UneditedMerge(base: Value, target: Value, res: Resolutions)
    requires Normalizes(base) && Normalizes(target)
    ensures Merge([], Some(Normal(base)), Some(Normal(target)), Some(Normal(base)), res) == Some(Normal(target))
    ensures Conflicts([], Some(Normal(base)), Some(Normal(target)), Some(Normal(base)), res) == {}
  {
  }

  // ---- comparing definitions -----------------------------------------------

  /** The comparison would pass the depth limit. */
  ghost predicate DiffTooDeep(b: Option<Value>, a: Option<Value>, depth: nat)
    decreases b.Some?, if b.Some? then b.value else Null
  {
    depth > 32 ||
    (b != a && IsObject(b) && IsObject(a) &&
     exists k :: k in Keys(b) + Keys(a) && DiffTooDeep(Get(b, k), Get(a, k), depth + 1))
  }

  datatype DefinitionChange = DefinitionChange(path: string, before: Option<Value>, after: Option<Value>)

  function RenderedChange(path: Path, c: Change): DefinitionChange {
    DefinitionChange(P.Pointer(path + c.path), c.before, c.after)
  }

  ghost predicate ReportsChange(path: Path, c: DefinitionChange, changes: set<Change>) {
    exists d :: d in changes && c == RenderedChange(path, d)
  }

  /** A change at or below one of the fields compared so far. */
  ghost predicate ChangedBelow(path: Path, b: Option<Value>, a: Option<Value>, seen: set<string>, c: DefinitionChange) {
    exists k :: k in seen && ReportsChange(path + [k], c, Diff(Get(b, k), Get(a, k)))
  }

  lemma ChangedMore(path: Path, b: Option<Value>, a: Option<Value>, seen: set<string>, key: string,
                    added: seq<DefinitionChange>, c: DefinitionChange)
    requires c in added <==> ReportsChange(path + [key], c, Diff(Get(b, key), Get(a, key)))
    ensures ChangedBelow(path, b, a, seen + {key}, c) <==> ChangedBelow(path, b, a, seen, c) || c in added
  {
    hide Diff, ReportsChange;
  }

  lemma ChangeUp(path: Path, k: string, d: Change)
    ensures RenderedChange(path + [k], d) == RenderedChange(path, Change([k] + d.path, d.before, d.after))
  {
    PathBelow(path, k, d.path);
  }

  lemma ChangedAll(path: Path, b: Option<Value>, a: Option<Value>, c: DefinitionChange)
    requires b != a && IsObject(b) && IsObject(a)
    ensures ChangedBelow(path, b, a, Keys(b) + Keys(a), c) <==> ReportsChange(path, c, Diff(b, a))
  {
    hide RenderedChange, IsObject, Get, Keys;
    if ChangedBelow(path, b, a, Keys(b) + Keys(a), c) {
      hide Diff;
      var k, d :| k in Keys(b) + Keys(a) && d in Diff(Get(b, k), Get(a, k)) && c == RenderedChange(path + [k], d);
      DiffField(b, a, k, d);
      ChangeUp(path, k, d);
    }
    if ReportsChange(path, c, Diff(b, a)) {
      var e :| e in Diff(b, a) && c == RenderedChange(path, e);
      var k, d :| k in Keys(b) + Keys(a) && d in Diff(Get(b, k), Get(a, k)) && e == Change([k] + d.path, d.before, d.after);
      ChangeUp(path, k, d);
      assert ReportsChange(path + [k], c, Diff(Get(b, k), Get(a, k)));
    }
  }

  lemma NothingChanged(path: Path, b: Option<Value>, a: Option<Value>, c: DefinitionChange)
    ensures !ChangedBelow(path, b, a, {}, c)
  {
  }

  /** Appends the changes at and below one place under their pointers; fails below depth 32. */
  method CollectChanges(ghost path: Path, pointer: string, before: Option<Value>, after: Option<Value>,
                        result: seq<DefinitionChange>, depth: nat)
    returns (ok: bool, result': seq<DefinitionChange>)
    requires pointer == P.Pointer(path)
    ensures ok <==> !DiffTooDeep(before, after, depth)
    ensures result <= result'
    ensures ok ==> forall c :: c in result'[|result|..] <==> ReportsChange(path, c, Diff(before, after))
    decreases before.Some?, if before.Some? then before.value else Null
  {
    hide P.Pointer;
    result' := result;
    if depth > MAX_DEPTH {
      return false, result';
    }
    if before == after {
      return true, result';
    }
    if IsObject(before) && IsObject(after) {
      hide ReportsChange, ChangedBelow, Diff;
      var keys := Keys(before) + Keys(after);
      var found: seq<DefinitionChange> := [];
      ghost var seen: set<string> := {};
      forall c ensures !ChangedBelow(path, before, after, {}, c) {
        NothingChanged(path, before, after, c);
      }
      while keys != {}
        invariant keys <= Keys(before) + Keys(after) && seen == Keys(before) + Keys(after) - keys
        invariant result' == result + found
        invariant forall c :: c in found <==> ChangedBelow(path, before, after, seen, c)
        invariant forall k :: k in seen ==> !DiffTooDeep(Get(before, k), Get(after, k), depth + 1)
        decreases keys
      {
        var key :| key in keys;
        PointerExtends(path, key);
        ok, result' := CollectChanges(path + [key], pointer + "/" + P.Token(key), Get(before, key), Get(after, key),
                                      result', depth + 1);
        if !ok {
          return;
        }
        var added := result'[|result| + |found|..];
        forall c ensures c in found + added <==> ChangedBelow(path, before, after, seen + {key}, c) {
          ChangedMore(path, before, after, seen, key, added, c);
        }
        Appended(result, found, result');
        found := found + added;
        keys, seen := keys - {key}, seen + {key};
      }
      assert seen == Keys(before) + Keys(after);
      assert result'[|result|..] == found;
      forall c ensures c in found <==> ReportsChange(path, c, Diff(before, after)) {
        ChangedAll(path, before, after, c);
      }
      return true, result';
    }
    var change := DefinitionChange(pointer, before, after);
    result' := result + [change];
    assert result'[|result|..] == [change];
    assert path + [] == path;
    assert RenderedChange(path, Change([], before, after)) == change;
    return true, result';
  }

  /** A reported change, addressed by keys again. */
  function Located(c: DefinitionChange): Change {
    Change(if c.path == [] || c.path[0] == '/' then P.Decode(c.path) else [], c.before, c.after)
  }

  function LocatedAll(cs: seq<DefinitionChange>): (r: seq<Change>)
    ensures |r| == |cs| && forall i :: 0 <= i < |cs| ==> r[i] == Located(cs[i])
  {
    seq(|cs|, i requires 0 <= i < |cs| => Located(cs[i]))
  }

  lemma LocatedRendered(c: Change)
    ensures Located(RenderedChange([], c)) == c
  {
    assert [] + c.path == c.path;
    P.RoundTrip(c.path);
  }

  lemma LocatedElements(cs: seq<DefinitionChange>, changes: set<Change>)
    requires forall c :: c in cs <==> ReportsChange([], c, changes)
    ensures Elements(LocatedAll(cs)) == changes
  {
    forall d | d in changes ensures d in LocatedAll(cs) {
      var c := RenderedChange([], d);
      assert c in cs;
      var i :| 0 <= i < |cs| && cs[i] == c;
      LocatedRendered(d);
      assert LocatedAll(cs)[i] == d;
    }
    forall d | d in LocatedAll(cs) ensures d in changes {
      var i :| 0 <= i < |cs| && LocatedAll(cs)[i] == d;
      assert cs[i] in cs;
      var e :| e in changes && cs[i] == RenderedChange([], e);
      LocatedRendered(e);
    }
  }

  /** Compares two definitions; putting the reported values at the reported pointers turns one into the other. */
  method CompareDefinitions(before: Value, after: Value) returns (r: Result<seq<DefinitionChange>, MergeError>)
    ensures r == Err(NotNormal) <==> !(Normalizes(before) && Normalizes(after))
    ensures r.Err? ==> r.error.NotNormal? || r.error.DepthExceeded?
    ensures r == Err(DepthExceeded) <==>
      Normalizes(before) && Normalizes(after) && DiffTooDeep(Some(Normal(before)), Some(Normal(after)), 0)
    ensures r.Ok? ==>
      && ApplyAll(Some(Normal(before)), LocatedAll(r.value)) == Some(Normal(after))
      && (forall c :: c in r.value <==> ReportsChange([], c, Diff(Some(Normal(before)), Some(Normal(after)))))
      && (r.value == [] <==> Normal(before) == Normal(after))
  {
    hide ReportsChange, Normal, Normalizes;
    var b := Normalize(before);
    var a := Normalize(after);
    if b.None? || a.None? {
      return Err(NotNormal);
    }
    var ok, changes := CollectChanges([], "", b, a, [], 0);
    if !ok {
      return Err(DepthExceeded);
    }
    assert changes[0..] == changes;
    LocatedElements(changes, Diff(b, a));
    PatchDiff(b, a, LocatedAll(changes));
    if b == a {
      NoChanges(LocatedAll(changes));
    }
    return Ok(changes);
  }
}
