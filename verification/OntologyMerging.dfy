/** The semantic merge of ontology documents. */
module OntologyMerging {
  import opened Json
  import opened Patches
  import opened Indexing
  import opened ThreeWay
  import opened OntologyDocuments
  import opened Reordering

  datatype MergeResult = MergeResult(ontology: Option<Value>, conflicts: seq<Conflict>)

  datatype MergeError = InvalidVersion | MetadataMissing | InvalidMerge

  function View(v: Value): Option<Value>
    requires v.Obj?
  {
    Some(Keyed(v))
  }

  /** The merge of the id-keyed views. */
  ghost function MergedView(base: Value, left: Value, right: Value): Option<Value>
    requires base.Obj? && left.Obj? && right.Obj?
  {
    Merge(View(base), View(left), View(right))
  }

  ghost function ViewConflicts(base: Value, left: Value, right: Value): set<Conflict>
    requires base.Obj? && left.Obj? && right.Obj?
  {
    Conflicts(View(base), View(left), View(right))
  }

  /** A merged resource still carries the id it is filed under. */
  lemma MergedResource(base: Value, left: Value, right: Value, id: string)
    requires Keyable(base) && Keyable(left) && Keyable(right) && id != ROOT
    ensures Get(MergedView(base, left, right), id) ==
            Merge(Get(View(base), id), Get(View(left), id), Get(View(right), id))
    ensures Get(MergedView(base, left, right), id).Some? ==>
      Identified(Get(MergedView(base, left, right), id).value) && IdIn(ID, Get(MergedView(base, left, right), id).value) == id
  {
    MergeField(View(base), View(left), View(right), id);
    KeyedResource(base, id);
    KeyedResource(left, id);
    KeyedResource(right, id);
    KeepsField(Get(View(base), id), Get(View(left), id), Get(View(right), id), "resource_id", Str(id));
  }

  lemma MergedMetadata(base: Value, left: Value, right: Value)
    requires base.Obj? && left.Obj? && right.Obj?
    ensures Get(MergedView(base, left, right), ROOT) == Merge(Some(Metadata(base)), Some(Metadata(left)), Some(Metadata(right)))
    ensures IsObject(Get(MergedView(base, left, right), ROOT))
    ensures "resources" !in Get(MergedView(base, left, right), ROOT).value.fields
  {
    MergeField(View(base), View(left), View(right), ROOT);
    MergeField(Some(Metadata(base)), Some(Metadata(left)), Some(Metadata(right)), "resources");
  }

  /** Putting merged resources and metadata back together gives a document with the merged view. */
  lemma Assembled(base: Value, left: Value, right: Value, items: seq<Value>, document: Value)
    requires Keyable(base) && Keyable(left) && Keyable(right)
    requires forall i :: 0 <= i < |items| ==> Identified(items[i]) && Get(MergedView(base, left, right), IdIn(ID, items[i])) == Some(items[i])
    requires forall id :: id != ROOT && Get(MergedView(base, left, right), id).Some? ==>
      exists i :: 0 <= i < |items| && IdIn(ID, items[i]) == id
    requires DistinctIds(ID, items)
    requires IsObject(Get(MergedView(base, left, right), ROOT))
    requires document == Obj(Get(MergedView(base, left, right), ROOT).value.fields["resources" := Arr(items)])
    ensures Keyable(document) && View(document) == MergedView(base, left, right)
  {
    MergedMetadata(base, left, right);
    MergeField(View(base), View(left), View(right), ROOT);
    assert ItemsOf(document) == items;
    assert Metadata(document) == Get(MergedView(base, left, right), ROOT).value;
    RootNotIndexed(document);
    forall id ensures Get(View(document), id) == Get(MergedView(base, left, right), id) {
      if id != ROOT {
        IndexKeys(ID, items, id);
        if id in Index(ID, items) {
          var r := Index(ID, items)[id];
          var i :| 0 <= i < |items| && items[i] == r;
        }
      }
    }
    ObjectsEqual(View(document), MergedView(base, left, right));
  }

  lemma ConflictByTag(base: Value, left: Value, right: Value, c: Conflict)
    requires base.Obj? && left.Obj? && right.Obj?
    ensures c in ViewConflicts(base, left, right) <==>
      exists id, d :: id in AllKeys(View(base), View(left), View(right)) &&
        d in Conflicts(Get(View(base), id), Get(View(left), id), Get(View(right), id)) && c == Prefixed([id], d)
  {
    var b, l, r := View(base), View(left), View(right);
    if c in ViewConflicts(base, left, right) {
      ConflictsDown(b, l, r, c);
      var id, d := c.path[0], c.(path := c.path[1..]);
      if id !in AllKeys(b, l, r) { MergeAbsent(b, l, r, id); }
      assert c == Prefixed([id], d);
    }
    if id, d :| id in AllKeys(b, l, r) && d in Conflicts(Get(b, id), Get(l, id), Get(r, id)) && c == Prefixed([id], d) {
      ConflictField(b, l, r, id, d);
      assert Below(id, d) == Prefixed([id], d);
    }
  }

  /** The conflicts of the tags visited so far. */
  ghost predicate Collected(base: Value, left: Value, right: Value, seen: set<string>, c: Conflict)
    requires base.Obj? && left.Obj? && right.Obj?
  {
    exists id, d :: id in seen && d in Conflicts(Get(View(base), id), Get(View(left), id), Get(View(right), id)) && c == Prefixed([id], d)
  }

  lemma CollectTag(base: Value, left: Value, right: Value, seen: set<string>, id: string, before: seq<Conflict>, after: seq<Conflict>)
    requires base.Obj? && left.Obj? && right.Obj? && before <= after
    requires forall c :: c in before <==> Collected(base, left, right, seen, c)
    requires (set c | c in after[|before|..]) ==
      PrefixedAll([id], Conflicts(Get(View(base), id), Get(View(left), id), Get(View(right), id)))
    ensures forall c :: c in after <==> Collected(base, left, right, seen + {id}, c)
  {
    assert after == before + after[|before|..];
    var added := set c | c in after[|before|..];
    forall c ensures c in after[|before|..] <==> c in added {}
  }

  /** What the loop over resource ids has gathered. */
  ghost predicate Gathered(base: Value, left: Value, right: Value, seen: set<string>, items: seq<Value>)
    requires base.Obj? && left.Obj? && right.Obj?
  {
    && (forall i :: 0 <= i < |items| ==>
          Identified(items[i]) && IdIn(ID, items[i]) in seen && Get(MergedView(base, left, right), IdIn(ID, items[i])) == Some(items[i]))
    && (forall id :: id in seen && Get(MergedView(base, left, right), id).Some? ==>
          exists i :: 0 <= i < |items| && IdIn(ID, items[i]) == id)
    && DistinctIds(ID, items)
  }

  lemma GatherNext(base: Value, left: Value, right: Value, seen: set<string>, items: seq<Value>, id: string, merged: Option<Value>)
    requires Keyable(base) && Keyable(left) && Keyable(right) && id != ROOT && id !in seen
    requires Gathered(base, left, right, seen, items)
    requires merged == Merge(Get(View(base), id), Get(View(left), id), Get(View(right), id))
    ensures Gathered(base, left, right, seen + {id}, if merged.Some? then items + [merged.value] else items)
  {
    MergedResource(base, left, right, id);
    var items' := if merged.Some? then items + [merged.value] else items;
    forall x | x in seen + {id} && Get(MergedView(base, left, right), x).Some?
      ensures exists i :: 0 <= i < |items'| && IdIn(ID, items'[i]) == x
    {
      if x == id {
        assert IdIn(ID, items'[|items|]) == id;
      } else {
        var i :| 0 <= i < |items| && IdIn(ID, items[i]) == x;
        assert IdIn(ID, items'[i]) == x;
      }
    }
  }

  /** No document with the merged view is a valid ontology. */
  ghost predicate Unmergeable(base: Value, left: Value, right: Value)
    requires base.Obj? && left.Obj? && right.Obj?
  {
    forall doc :: Keyable(doc) && Some(Keyed(doc)) == MergedView(base, left, right) ==> !ValidDocument(doc)
  }

  lemma OneDecides(base: Value, left: Value, right: Value, document: Value)
    requires base.Obj? && left.Obj? && right.Obj?
    requires Keyable(document) && View(document) == MergedView(base, left, right)
    ensures Unmergeable(base, left, right) <==> !ValidDocument(document)
  {
    hide ValidDocument, MergedView, DistinctIds;
    forall doc | Keyable(doc) && Some(Keyed(doc)) == MergedView(base, left, right) && ValidDocument(doc)
      ensures ValidDocument(document)
    {
      ViewDecidesValidity(doc, document);
    }
  }

  /** Merges two valid ontologies over a common valid ancestor. */
  method MergeOntology(base: Value, left: Value, right: Value) returns (r: Result<MergeResult, MergeError>)
    ensures r == Err(InvalidVersion) <==> !(ValidDocument(base) && ValidDocument(left) && ValidDocument(right))
    ensures r != Err(MetadataMissing)
    ensures r == Err(InvalidMerge) <==>
      ValidDocument(base) && ValidDocument(left) && ValidDocument(right) &&
      ViewConflicts(base, left, right) == {} && Unmergeable(base, left, right)
    ensures r.Ok? ==> forall c :: c in r.value.conflicts <==> c in ViewConflicts(base, left, right)
    ensures r.Ok? ==> (r.value.ontology.Some? <==> ViewConflicts(base, left, right) == {})
    ensures r.Ok? && r.value.ontology.Some? ==>
      ValidDocument(r.value.ontology.value) && Keyable(r.value.ontology.value) &&
      View(r.value.ontology.value) == MergedView(base, left, right)
  {
    hide Gathered, Conflicts, Merge, Keyable, ViewConflicts, Unmergeable, MergedView;
    var b := ValidateDocument(base);
    var l := ValidateDocument(left);
    var t := ValidateDocument(right);
    if !b || !l || !t {
      return Err(InvalidVersion);
    }
    ValidIsKeyable(base);
    ValidIsKeyable(left);
    ValidIsKeyable(right);
    var resources, conflicts, seen := MergeResources(base, left, right);
    var metadata;
    metadata, conflicts := MergeMetadata(base, left, right, conflicts, seen);
    if conflicts != [] {
      return Ok(MergeResult(None, conflicts));
    }
    MergedMetadata(base, left, right);
    if !IsObject(metadata) {
      return Err(MetadataMissing);
    }
    var document := Obj(metadata.value.fields["resources" := Arr(resources)]);
    Complete(base, left, right, seen, resources, document);
    OneDecides(base, left, right, document);
    var valid := ValidateDocument(document);
    if !valid {
      return Err(InvalidMerge);
    }
    return Ok(MergeResult(Some(document), conflicts));
  }

  /** Merges resource by resource. */
  method MergeResources(base: Value, left: Value, right: Value)
    returns (resources: seq<Value>, conflicts: seq<Conflict>, ghost seen: set<string>)
    requires Keyable(base) && Keyable(left) && Keyable(right)
    ensures Gathered(base, left, right, seen, resources)
    ensures forall c :: c in conflicts <==> Collected(base, left, right, seen, c)
    ensures seen + {ROOT} == AllKeys(View(base), View(left), View(right))
  {
    hide Gathered, Collected, Conflicts, Merge, Index;
    Tags(base, left, right);
    var bs, ls, ts := Index(ID, ItemsOf(base)), Index(ID, ItemsOf(left)), Index(ID, ItemsOf(right));
    var ids := bs.Keys + ls.Keys + ts.Keys;
    ghost var all := ids;
    seen := {};
    resources, conflicts := [], [];
    Start(base, left, right);
    while ids != {}
      invariant seen + ids == all && seen !! ids
      invariant Gathered(base, left, right, seen, resources)
      invariant forall c :: c in conflicts <==> Collected(base, left, right, seen, c)
      decreases ids
    {
      var id :| id in ids;
      var merged;
      ghost var before := conflicts;
      merged, conflicts := MergeValue([id], Get(Some(Obj(bs)), id), Get(Some(Obj(ls)), id), Get(Some(Obj(ts)), id), conflicts);
      CollectTag(base, left, right, seen, id, before, conflicts);
      GatherNext(base, left, right, seen, resources, id, merged);
      if merged.Some? {
        resources := resources + [merged.value];
      }
      seen, ids := seen + {id}, ids - {id};
    }
  }

  /** Merges what lies outside the resource list, completing the conflicts. */
  method MergeMetadata(base: Value, left: Value, right: Value, found: seq<Conflict>, ghost seen: set<string>)
    returns (metadata: Option<Value>, conflicts: seq<Conflict>)
    requires base.Obj? && left.Obj? && right.Obj? && seen + {ROOT} == AllKeys(View(base), View(left), View(right))
    requires forall c :: c in found <==> Collected(base, left, right, seen, c)
    ensures metadata == Merge(Some(Metadata(base)), Some(Metadata(left)), Some(Metadata(right)))
    ensures forall c :: c in conflicts <==> c in ViewConflicts(base, left, right)
    ensures conflicts == [] <==> ViewConflicts(base, left, right) == {}
  {
    hide Collected, Conflicts, Merge, ViewConflicts;
    metadata, conflicts := MergeValue([ROOT], Some(Metadata(base)), Some(Metadata(left)), Some(Metadata(right)), found);
    CollectTag(base, left, right, seen, ROOT, found, conflicts);
    AllCollected(base, left, right, seen, conflicts);
  }

  lemma Tags(base: Value, left: Value, right: Value)
    requires Keyable(base) && Keyable(left) && Keyable(right)
    ensures AllKeys(View(base), View(left), View(right)) ==
      Index(ID, ItemsOf(base)).Keys + Index(ID, ItemsOf(left)).Keys + Index(ID, ItemsOf(right)).Keys + {ROOT}
    ensures ROOT !in Index(ID, ItemsOf(base)).Keys + Index(ID, ItemsOf(left)).Keys + Index(ID, ItemsOf(right)).Keys
  {
    RootNotIndexed(base);
    RootNotIndexed(left);
    RootNotIndexed(right);
  }

  lemma Start(base: Value, left: Value, right: Value)
    requires base.Obj? && left.Obj? && right.Obj?
    ensures Gathered(base, left, right, {}, [])
    ensures forall c :: !Collected(base, left, right, {}, c)
  {
  }

  lemma AllCollected(base: Value, left: Value, right: Value, seen: set<string>, conflicts: seq<Conflict>)
    requires base.Obj? && left.Obj? && right.Obj?
    requires seen + {ROOT} == AllKeys(View(base), View(left), View(right))
    requires forall c :: c in conflicts <==> Collected(base, left, right, seen + {ROOT}, c)
    ensures forall c :: c in conflicts <==> c in ViewConflicts(base, left, right)
    ensures conflicts == [] <==> ViewConflicts(base, left, right) == {}
  {
    forall c ensures c in conflicts <==> c in ViewConflicts(base, left, right) {
      ConflictByTag(base, left, right, c);
    }
    if conflicts != [] {
      assert conflicts[0] in conflicts;
    }
  }

  lemma Complete(base: Value, left: Value, right: Value, seen: set<string>, items: seq<Value>, document: Value)
    requires Keyable(base) && Keyable(left) && Keyable(right) && Gathered(base, left, right, seen, items)
    requires seen + {ROOT} == AllKeys(View(base), View(left), View(right))
    requires IsObject(Get(MergedView(base, left, right), ROOT))
    requires document == Obj(Get(MergedView(base, left, right), ROOT).value.fields["resources" := Arr(items)])
    ensures Keyable(document) && View(document) == MergedView(base, left, right)
  {
    forall id | id != ROOT && Get(MergedView(base, left, right), id).Some? ensures id in seen {
      MergeField(View(base), View(left), View(right), id);
      if id !in AllKeys(View(base), View(left), View(right)) {
        MergeAbsent(View(base), View(left), View(right), id);
      }
    }
    Assembled(base, left, right, items, document);
  }

  // ---- document-level laws -------------------------------------------------

  lemma RootIdConflicts(base: Value, left: Value, right: Value)
    requires base.Obj? && left.Obj? && right.Obj? && ViewConflicts(base, left, right) == {}
    ensures var right' := WithRootId(View(right), RootId(base));
            Conflicts(View(base), View(left), right') == {}
  {
    var b, l, r, r' := View(base), View(left), View(right), WithRootId(View(right), RootId(base));
    RootIdFields(right, RootId(base), "");
    forall c | c in Conflicts(b, l, r') ensures false {
      ConflictsDown(b, l, r', c);
      var k, d := c.path[0], c.(path := c.path[1..]);
      RootIdFields(right, RootId(base), k);
      NoFieldConflicts(b, l, r, k);
      if k == ROOT {
        ConflictsDown(Get(b, ROOT), Get(l, ROOT), Get(r', ROOT), d);
        var f := d.path[0];
        RootIdFields(right, RootId(base), f);
        NoFieldConflicts(Get(b, ROOT), Get(l, ROOT), Get(r, ROOT), f);
      }
    }
  }

  /**
   A conflict-free merge is the left document patched with what the diff reports for the right one, in any order,
   exactly when the left side already has whatever the right side changed in the root `resource_id`, which the diff
   passes over.
   */
  lemma MergePatches(base: Value, left: Value, right: Value, cs: seq<SemanticChange>)
    requires ValidDocument(base) && ValidDocument(left) && ValidDocument(right)
    requires ViewConflicts(base, left, right) == {}
    requires forall c :: c in LocatedAll(cs) <==> Reported(base, right, c)
    ensures ApplyAll(View(left), LocatedAll(cs)) == MergedView(base, left, right) <==>
            AlreadyThere(RootId(base), RootId(left), RootId(right))
  {
    hide AlreadyThere;
    ValidIsKeyable(base);
    ValidIsKeyable(left);
    ValidIsKeyable(right);
    var b, l, r, r' := View(base), View(left), View(right), WithRootId(View(right), RootId(base));
    ReportedElements(base, right, cs);
    RootIdConflicts(base, left, right);
    MergeIsPatch(b, l, r', LocatedAll(cs));
    SameMergeIff(base, left, right);
    RootIdAgrees(base, left, right);
  }

  lemma RootIdAgrees(base: Value, left: Value, right: Value)
    requires base.Obj? && left.Obj? && right.Obj? && ViewConflicts(base, left, right) == {}
    ensures Merge(RootId(base), RootId(left), RootId(right)) == RootId(left) <==>
            AlreadyThere(RootId(base), RootId(left), RootId(right))
  {
    hide Merge, Conflicts, AlreadyThere;
    var b, l, r := View(base), View(left), View(right);
    NoFieldConflicts(b, l, r, ROOT);
    NoFieldConflicts(Get(b, ROOT), Get(l, ROOT), Get(r, ROOT), "resource_id");
    assert Get(b, ROOT) == Some(Metadata(base)) && Get(l, ROOT) == Some(Metadata(left)) && Get(r, ROOT) == Some(Metadata(right));
    MergeKeepsLeft(RootId(base), RootId(left), RootId(right));
  }

  /** The same from the right: the right document patched with what the diff reports for the left one. */
  lemma MergePatchesRight(base: Value, left: Value, right: Value, cs: seq<SemanticChange>)
    requires ValidDocument(base) && ValidDocument(left) && ValidDocument(right)
    requires ViewConflicts(base, left, right) == {}
    requires forall c :: c in LocatedAll(cs) <==> Reported(base, left, c)
    ensures ApplyAll(View(right), LocatedAll(cs)) == MergedView(base, left, right) <==>
            AlreadyThere(RootId(base), RootId(right), RootId(left))
  {
    hide Merge, Conflicts, ValidDocument, Reported, AlreadyThere;
    ValidIsKeyable(base);
    ValidIsKeyable(left);
    ValidIsKeyable(right);
    forall c | c in ViewConflicts(base, right, left) ensures false {
      SwapConflicts(View(base), View(right), View(left), c);
    }
    SwapMerge(View(base), View(left), View(right));
    MergePatches(base, right, left, cs);
  }

  lemma SameMergeIff(base: Value, left: Value, right: Value)
    requires base.Obj? && left.Obj? && right.Obj? && ViewConflicts(base, left, right) == {}
    ensures Merge(View(base), View(left), WithRootId(View(right), RootId(base))) == MergedView(base, left, right) <==>
            Merge(RootId(base), RootId(left), RootId(right)) == RootId(left)
  {
    var b, l, r, r' := View(base), View(left), View(right), WithRootId(View(right), RootId(base));
    RootIdFields(right, RootId(base), "");
    forall k ensures k != ROOT ==> Get(Merge(b, l, r'), k) == Get(Merge(b, l, r), k) {
      RootIdFields(right, RootId(base), k);
      MergeField(b, l, r, k);
      MergeField(b, l, r', k);
    }
    MergeField(b, l, r, ROOT);
    MergeField(b, l, r', ROOT);
    var x, y, z, z' := Get(b, ROOT), Get(l, ROOT), Get(r, ROOT), Get(r', ROOT);
    forall f ensures f != "resource_id" ==> Get(Merge(x, y, z'), f) == Get(Merge(x, y, z), f) {
      RootIdFields(right, RootId(base), f);
      MergeField(x, y, z, f);
      MergeField(x, y, z', f);
    }
    RootIdFields(right, RootId(base), "resource_id");
    MergeField(x, y, z, "resource_id");
    MergeField(x, y, z', "resource_id");
    if Merge(RootId(base), RootId(left), RootId(right)) == RootId(left) {
      ObjectsEqual(Merge(x, y, z'), Merge(x, y, z));
      ObjectsEqual(Merge(b, l, r'), Merge(b, l, r));
    }
  }

  /** Merging an unedited branch gives the target back. */
  lemma UneditedMerge(base: Value, target: Value)
    requires base.Obj? && target.Obj?
    ensures ViewConflicts(base, target, base) == {} && MergedView(base, target, base) == View(target)
  {
  }
}
