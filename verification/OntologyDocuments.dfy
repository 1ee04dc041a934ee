/** Ontology documents as stored JSON: reading, the id-keyed view, semantic diff and semantic merge. */
module OntologyDocuments {
  import opened Json
  import opened Graphs
  import opened Patches
  import opened Indexing
  import opened Ontologies

  // ---- reading a document --------------------------------------------------

  function StringItems(items: seq<Value>): Option<seq<string>> {
    if items == [] then Some([])
    else
      var front := StringItems(items[..|items| - 1]);
      var last := items[|items| - 1];
      if front.Some? && last.Str? then Some(front.value + [last.s]) else None
  }

  /** A field that holds nothing, one name or a list of names. */
  function ReadNames(v: Option<Value>): NameField {
    if Missing(v) then Absent
    else match v.value
      case Str(s) => One(s)
      case Arr(items) =>
        var names := StringItems(items);
        if names.Some? then Many(names.value) else Malformed
      case _ => Malformed
  }

  function ReadResource(v: Value): (r: Option<Resource>)
    ensures r.Some? ==> v.Obj? && Field(v, "resource_id") == Some(Str(r.value.id))
  {
    var id := AsStr(Field(v, "resource_id"));
    var kind := AsStr(Field(v, "kind"));
    var displayName := AsStr(Field(v, "display_name"));
    var attributes := Field(v, "attributes");
    var references := ReadNames(Field(v, "references"));
    var supertypes := ReadNames(Get(attributes, "extends"));
    var interfaces := ReadNames(Get(attributes, "interfaces"));
    if id.None? || kind.None? || displayName.None? || !IsObject(attributes) ||
       references.Malformed? || supertypes.Malformed? || interfaces.Malformed? then None
    else
      Some(Resource(id.value, kind.value, displayName.value, AsStr(Field(v, "owner_id")), AsStr(Field(v, "value_type")),
                    NamesIn(references), NamesIn(supertypes), NamesIn(interfaces),
                    ReadNames(Get(attributes, "source_type")), ReadNames(Get(attributes, "target_type")), v))
  }

  function ReadResources(items: seq<Value>): (r: Option<seq<Resource>>)
    ensures r.Some? ==> |r.value| == |items| && forall i :: 0 <= i < |items| ==> ReadResource(items[i]) == Some(r.value[i])
  {
    if items == [] then Some([])
    else
      var front := ReadResources(items[..|items| - 1]);
      var last := ReadResource(items[|items| - 1]);
      if front.Some? && last.Some? then Some(front.value + [last.value]) else None
  }

  function ReadOntology(v: Value): Option<Ontology> {
    var version := AsStr(Field(v, "version"));
    var items := AsArr(Field(v, "resources"));
    if version.None? || items.None? then None
    else
      var resources := ReadResources(items.value);
      if resources.None? then None else Some(Ontology(version.value, resources.value))
  }

  ghost predicate ValidDocument(v: Value) {
    ReadOntology(v).Some? && Valid(ReadOntology(v).value)
  }

  method ValidateDocument(v: Value) returns (ok: bool)
    ensures ok <==> ValidDocument(v)
  {
    var o := ReadOntology(v);
    if o.None? {
      return false;
    }
    ok := ValidateOntology(o.value);
  }

  // ---- the id-keyed view ---------------------------------------------------

  const ROOT := "$ontology"

  /** Everything outside the resource list. */
  function Metadata(v: Value): Value
    requires v.Obj?
  {
    Obj(v.fields - {"resources"})
  }

  function ItemsOf(v: Value): seq<Value> {
    var items := AsArr(Field(v, "resources"));
    if items.Some? then items.value else []
  }

  const ID := "resource_id"

  /** Resources can be told apart by an id that is never the tag of the metadata. */
  ghost predicate Keyable(v: Value) {
    && v.Obj?
    && AsArr(Field(v, "resources")).Some?
    && (forall i :: 0 <= i < |ItemsOf(v)| ==> Identified(ItemsOf(v)[i]))
    && DistinctIds(ID, ItemsOf(v))
  }

  predicate Identified(v: Value) {
    HasId(ID, v) && IdIn(ID, v) != ROOT
  }

  /** The document as one object: a field per resource id, and the metadata under its own tag. */
  function Keyed(v: Value): Value
    requires v.Obj?
  {
    Obj(Index(ID, ItemsOf(v))[ROOT := Metadata(v)])
  }

  lemma RootIsNoId()
    ensures !ValidId(ROOT)
  {
    assert ROOT[0] == '$';
  }

  lemma DistinctResources(o: Ontology, i: nat, j: nat)
    requires Valid(o) && i < j < |o.resources|
    ensures o.resources[i].id != o.resources[j].id
  {
    assert Ids(o.resources)[i] != Ids(o.resources)[j];
  }

  lemma ValidIsKeyable(v: Value)
    requires ValidDocument(v)
    ensures Keyable(v)
  {
    hide ResourceOk, Acyclic, InheritedOk, EdgesOf, ReadResource;
    var o := ReadOntology(v).value;
    var items := ItemsOf(v);
    forall i | 0 <= i < |items| ensures IdIn(ID, items[i]) == o.resources[i].id && Identified(items[i]) {
      assert ReadResource(items[i]) == Some(o.resources[i]);
      assert o.resources[i] in o.resources;
      RootIsNoId();
    }
    forall i, j | 0 <= i < j < |items| ensures IdIn(ID, items[i]) != IdIn(ID, items[j]) {
      DistinctResources(o, i, j);
    }
  }

  /** A resource of a keyable document is an object that carries its own id. */
  lemma KeyedResource(v: Value, id: string)
    requires Keyable(v)
    ensures Get(Some(Keyed(v)), id).Some? && id != ROOT ==>
      IsObject(Get(Some(Keyed(v)), id)) && Get(Get(Some(Keyed(v)), id), "resource_id") == Some(Str(id))
  {
    if id in Index(ID, ItemsOf(v)) && id != ROOT {
      IndexKeys(ID, ItemsOf(v), id);
      var r := Index(ID, ItemsOf(v))[id];
      var i :| 0 <= i < |ItemsOf(v)| && ItemsOf(v)[i] == r;
      assert Identified(ItemsOf(v)[i]);
    }
  }

  lemma RootNotIndexed(v: Value)
    requires Keyable(v)
    ensures ROOT !in Index(ID, ItemsOf(v))
  {
    IndexKeys(ID, ItemsOf(v), ROOT);
    forall i | 0 <= i < |ItemsOf(v)| ensures IdIn(ID, ItemsOf(v)[i]) != ROOT {
      assert Identified(ItemsOf(v)[i]);
    }
  }

  // ---- semantic diff -------------------------------------------------------

  datatype Operation = AddResource | RemoveResource | SetField | RemoveField

  datatype SemanticChange = SemanticChange(
    resourceId: string, operation: Operation, path: Path, before: Option<Value>, after: Option<Value>)

  /** A semantic change as a change of the id-keyed view. */
  function Located(c: SemanticChange): Change {
    Change([c.resourceId] + c.path, c.before, c.after)
  }

  function LocatedAll(cs: seq<SemanticChange>): (r: seq<Change>)
    ensures |r| == |cs| && forall i :: 0 <= i < |cs| ==> r[i] == Located(cs[i])
  {
    seq(|cs|, i requires 0 <= i < |cs| => Located(cs[i]))
  }

  /** What an operation label means. */
  predicate Labelled(c: SemanticChange) {
    match c.operation
    case AddResource => c.path == [] && c.before.None? && c.after.Some?
    case RemoveResource => c.path == [] && c.before.Some? && c.after.None?
    case SetField => c.after.Some?
    case RemoveField => c.after.None? && c.path != []
  }

  /** The changes of one tagged value, as changes of the keyed view; a root `resource_id` is passed over. */
  ghost predicate TaggedChange(tag: string, prefix: Path, b: Option<Value>, a: Option<Value>, c: Change) {
    exists d :: d in Diff(b, a) && !Skipped(prefix, d) && c == Change([tag] + prefix + d.path, d.before, d.after)
  }

  predicate Skipped(prefix: Path, d: Change) {
    prefix == [] && d.path != [] && d.path[0] == "resource_id"
  }

  /** Appends the changes at and below one place. */
  method DiffValue(tag: string, path: Path, before: Value, after: Value, changes: seq<SemanticChange>)
    returns (changes': seq<SemanticChange>)
    ensures changes <= changes'
    ensures forall c :: c in LocatedAll(changes'[|changes|..]) <==> TaggedChange(tag, path, Some(before), Some(after), c)
    ensures forall c :: c in changes'[|changes|..] ==> Labelled(c) && c.resourceId == tag
    decreases before
  {
    changes' := changes;
    if before == after {
      return;
    }
    if before.Obj? && after.Obj? {
      var keys := before.fields.Keys + after.fields.Keys;
      var found: seq<SemanticChange> := [];
      while keys != {}
        invariant keys <= Keys(Some(before)) + Keys(Some(after))
        invariant changes' == changes + found
        invariant forall c :: c in LocatedAll(found) <==>
          FieldChange(tag, path, before, after, Keys(Some(before)) + Keys(Some(after)) - keys, c)
        invariant forall c :: c in found ==> Labelled(c) && c.resourceId == tag
        decreases keys
      {
        var key :| key in keys;
        ghost var seen := Keys(Some(before)) + Keys(Some(after)) - keys;
        var more: seq<SemanticChange> := [];
        if path == [] && key == "resource_id" {
        } else if key in before.fields && key in after.fields {
          changes' := DiffValue(tag, path + [key], before.fields[key], after.fields[key], changes');
          more := changes'[|changes| + |found|..];
        } else {
          var l, r := Get(Some(before), key), Get(Some(after), key);
          more := [SemanticChange(tag, if r.Some? then SetField else RemoveField, path + [key], l, r)];
          changes' := changes' + more;
        }
        forall c ensures c in LocatedAll(found + more) <==> FieldChange(tag, path, before, after, seen + {key}, c) {
          MoreChanges(tag, path, before, after, seen, key, found, more, c);
        }
        assert changes' == changes + (found + more);
        found := found + more;
        keys := keys - {key};
        assert Keys(Some(before)) + Keys(Some(after)) - keys == seen + {key};
      }
      assert changes'[|changes|..] == found;
      forall c ensures c in LocatedAll(found) <==> TaggedChange(tag, path, Some(before), Some(after), c) {
        FieldChangesAreAll(tag, path, before, after, c);
      }
      return;
    }
    var whole := SemanticChange(tag, SetField, path, Some(before), Some(after));
    changes' := changes + [whole];
    assert changes'[|changes|..] == [whole];
    forall c ensures c in LocatedAll([whole]) <==> TaggedChange(tag, path, Some(before), Some(after), c) {
      var d := Change([], Some(before), Some(after));
      assert Diff(Some(before), Some(after)) == {d};
      assert [tag] + path + [] == [tag] + path;
      assert LocatedAll([whole])[0] == Located(whole);
    }
  }

  ghost predicate FieldChange(tag: string, path: Path, b: Value, a: Value, seen: set<string>, c: Change) {
    exists k :: k in seen && !(path == [] && k == "resource_id") &&
      TaggedChange(tag, path + [k], Get(Some(b), k), Get(Some(a), k), c)
  }

  lemma MoreChanges(tag: string, path: Path, b: Value, a: Value, seen: set<string>, key: string,
                    found: seq<SemanticChange>, more: seq<SemanticChange>, c: Change)
    requires key in Keys(Some(b)) + Keys(Some(a))
    requires c in LocatedAll(found) <==> FieldChange(tag, path, b, a, seen, c)
    requires path == [] && key == "resource_id" ==> more == []
    requires !(path == [] && key == "resource_id") && key in Keys(Some(b)) && key in Keys(Some(a)) ==>
      (c in LocatedAll(more) <==> TaggedChange(tag, path + [key], Get(Some(b), key), Get(Some(a), key), c))
    requires !(path == [] && key == "resource_id") && !(key in Keys(Some(b)) && key in Keys(Some(a))) ==>
      |more| == 1 && Located(more[0]) == Change([tag] + (path + [key]), Get(Some(b), key), Get(Some(a), key))
    ensures c in LocatedAll(found + more) <==> FieldChange(tag, path, b, a, seen + {key}, c)
  {
    assert LocatedAll(found + more) == LocatedAll(found) + LocatedAll(more);
    if !(path == [] && key == "resource_id") && !(key in Keys(Some(b)) && key in Keys(Some(a))) {
      var x, y := Get(Some(b), key), Get(Some(a), key);
      assert Diff(x, y) == {Change([], x, y)};
      assert [tag] + (path + [key]) + [] == [tag] + (path + [key]);
      assert LocatedAll(more) == [Located(more[0])];
    }
  }

  lemma TagPath(tag: string, path: Path, k: string, rest: Path)
    ensures [tag] + (path + [k]) + rest == [tag] + path + ([k] + rest)
  {
  }

  lemma FieldChangesAreAll(tag: string, path: Path, b: Value, a: Value, c: Change)
    requires b.Obj? && a.Obj? && b != a
    ensures FieldChange(tag, path, b, a, Keys(Some(b)) + Keys(Some(a)), c) <==> TaggedChange(tag, path, Some(b), Some(a), c)
  {
    var all := Keys(Some(b)) + Keys(Some(a));
    if FieldChange(tag, path, b, a, all, c) {
      var k :| k in all && !(path == [] && k == "resource_id") && TaggedChange(tag, path + [k], Get(Some(b), k), Get(Some(a), k), c);
      var d :| d in Diff(Get(Some(b), k), Get(Some(a), k)) && c == Change([tag] + (path + [k]) + d.path, d.before, d.after);
      TagPath(tag, path, k, d.path);
      var up := Change([k] + d.path, d.before, d.after);
      assert up in Diff(Some(b), Some(a));
    }
    if TaggedChange(tag, path, Some(b), Some(a), c) {
      var e :| e in Diff(Some(b), Some(a)) && !Skipped(path, e) && c == Change([tag] + path + e.path, e.before, e.after);
      var k, d :| k in all && d in Diff(Get(Some(b), k), Get(Some(a), k)) && e == Change([k] + d.path, d.before, d.after);
      TagPath(tag, path, k, d.path);
      assert !Skipped(path + [k], d);
      assert TaggedChange(tag, path + [k], Get(Some(b), k), Get(Some(a), k), c);
    }
  }

  /** The field of the root metadata that the diff passes over. */
  function RootId(v: Value): Option<Value>
    requires v.Obj?
  {
    Field(Metadata(v), "resource_id")
  }

  predicate PassedOver(c: Change) {
    |c.path| > 1 && c.path[0] == ROOT && c.path[1] == "resource_id"
  }

  /** The changes of the keyed views, without those of a root `resource_id`. */
  ghost predicate Reported(base: Value, target: Value, c: Change)
    requires base.Obj? && target.Obj?
  {
    c in Diff(Some(Keyed(base)), Some(Keyed(target))) && !PassedOver(c)
  }

  ghost predicate TagReported(base: Value, target: Value, seen: set<string>, c: Change)
    requires base.Obj? && target.Obj?
  {
    exists id :: id in seen && TaggedChange(id, [], Get(Some(Keyed(base)), id), Get(Some(Keyed(target)), id), c)
  }

  lemma ResourceIdsAgree(base: Value, target: Value, id: string, d: Change)
    requires Keyable(base) && Keyable(target) && id != ROOT
    requires d in Diff(Get(Some(Keyed(base)), id), Get(Some(Keyed(target)), id))
    ensures !Skipped([], d)
  {
    var b, a := Get(Some(Keyed(base)), id), Get(Some(Keyed(target)), id);
    KeyedResource(base, id);
    KeyedResource(target, id);
    if IsObject(b) && IsObject(a) {
      UnchangedField(b, a, "resource_id", d);
    }
  }

  /** No change passes through a field that is equal on both sides. */
  lemma UnchangedField(b: Option<Value>, a: Option<Value>, k: string, d: Change)
    requires IsObject(b) && IsObject(a) && Get(b, k) == Get(a, k) && d in Diff(b, a)
    ensures d.path != [] && d.path[0] != k
  {
    var j, e :| j in Keys(b) + Keys(a) && e in Diff(Get(b, j), Get(a, j)) && d == Change([j] + e.path, e.before, e.after);
    assert d.path[0] == j;
  }

  lemma TaggedAtRoot(tag: string, b: Option<Value>, a: Option<Value>, c: Change)
    ensures TaggedChange(tag, [], b, a, c) <==>
      exists d :: d in Diff(b, a) && !Skipped([], d) && c == Change([tag] + d.path, d.before, d.after)
  {
    forall d ensures [tag] + [] + d == [tag] + d {}
  }

  lemma TagIsReported(base: Value, target: Value, id: string, c: Change)
    requires Keyable(base) && Keyable(target)
    requires TaggedChange(id, [], Get(Some(Keyed(base)), id), Get(Some(Keyed(target)), id), c)
    ensures Reported(base, target, c)
  {
    var b, a := Some(Keyed(base)), Some(Keyed(target));
    TaggedAtRoot(id, Get(b, id), Get(a, id), c);
    var d :| d in Diff(Get(b, id), Get(a, id)) && !Skipped([], d) && c == Change([id] + d.path, d.before, d.after);
    DiffField(b, a, id, d);
    assert c.path[0] == id && c.path[1..] == d.path;
  }

  lemma ReportedHasTag(base: Value, target: Value, c: Change) returns (id: string)
    requires Keyable(base) && Keyable(target) && Reported(base, target, c)
    ensures id in Keys(Some(Keyed(base))) + Keys(Some(Keyed(target)))
    ensures TaggedChange(id, [], Get(Some(Keyed(base)), id), Get(Some(Keyed(target)), id), c)
  {
    var b, a := Some(Keyed(base)), Some(Keyed(target));
    var k, d :| k in Keys(b) + Keys(a) && d in Diff(Get(b, k), Get(a, k)) && c == Change([k] + d.path, d.before, d.after);
    id := k;
    assert c.path[0] == id && c.path[1..] == d.path;
    if id != ROOT {
      ResourceIdsAgree(base, target, id, d);
    }
    TaggedAtRoot(id, Get(b, id), Get(a, id), c);
  }

  /** Collecting the changes tag by tag collects what is reported. */
  lemma TagsAreAll(base: Value, target: Value, seen: set<string>, c: Change)
    requires Keyable(base) && Keyable(target)
    requires seen == Keys(Some(Keyed(base))) + Keys(Some(Keyed(target)))
    ensures TagReported(base, target, seen, c) <==> Reported(base, target, c)
  {
    if TagReported(base, target, seen, c) {
      var id :| id in seen && TaggedChange(id, [], Get(Some(Keyed(base)), id), Get(Some(Keyed(target)), id), c);
      TagIsReported(base, target, id, c);
    }
    if Reported(base, target, c) {
      var id := ReportedHasTag(base, target, c);
    }
  }

  /** The changes of one resource, or of the metadata. */
  method DiffTag(tag: string, before: Option<Value>, after: Option<Value>, changes: seq<SemanticChange>)
    returns (changes': seq<SemanticChange>)
    ensures changes <= changes'
    ensures forall c :: c in LocatedAll(changes'[|changes|..]) <==> TaggedChange(tag, [], before, after, c)
    ensures forall c :: c in changes'[|changes|..] ==> Labelled(c) && c.resourceId == tag
  {
    changes' := changes;
    match (before, after)
    case (None, Some(_)) =>
      changes' := changes + [SemanticChange(tag, AddResource, [], before, after)];
      WholeChange(tag, before, after, changes, changes');
    case (Some(_), None) =>
      changes' := changes + [SemanticChange(tag, RemoveResource, [], before, after)];
      WholeChange(tag, before, after, changes, changes');
    case (Some(b), Some(a)) =>
      changes' := DiffValue(tag, [], b, a, changes);
    case (None, None) =>
  }

  lemma WholeChange(tag: string, before: Option<Value>, after: Option<Value>, changes: seq<SemanticChange>,
                    changes': seq<SemanticChange>)
    requires |changes'| == |changes| + 1 && changes <= changes' && before != after && (before.None? || after.None?)
    requires Located(changes'[|changes|]) == Change([tag], before, after)
    ensures forall c :: c in LocatedAll(changes'[|changes|..]) <==> TaggedChange(tag, [], before, after, c)
  {
    var d := Change([], before, after);
    assert Diff(before, after) == {d};
    assert [tag] + [] + [] == [tag];
    var tail := changes'[|changes|..];
    assert LocatedAll(tail) == [Located(changes'[|changes|])];
    forall c ensures c in LocatedAll(tail) <==> TaggedChange(tag, [], before, after, c) {
      if c == Change([tag], before, after) {
        assert d in Diff(before, after) && !Skipped([], d) && c == Change([tag] + [] + d.path, d.before, d.after);
      }
    }
  }

  /** Field-level changes between two valid ontologies. */
  method SemanticDiff(base: Value, target: Value) returns (r: Option<seq<SemanticChange>>)
    ensures r.Some? <==> ValidDocument(base) && ValidDocument(target)
    ensures r.Some? ==> forall c :: c in LocatedAll(r.value) <==> Reported(base, target, c)
    ensures r.Some? ==> forall c :: c in r.value ==> Labelled(c)
  {
    hide ValidDocument, Reported, TaggedChange, Index, DistinctIds;
    var left := ValidateDocument(base);
    var right := ValidateDocument(target);
    if !left || !right {
      return None;
    }
    ValidIsKeyable(base);
    ValidIsKeyable(target);
    RootNotIndexed(base);
    RootNotIndexed(target);
    var b, a := Index(ID, ItemsOf(base)), Index(ID, ItemsOf(target));
    var changes: seq<SemanticChange> := [];
    var ids := b.Keys + a.Keys;
    ghost var seen := {};
    while ids != {}
      invariant seen + ids == b.Keys + a.Keys && seen !! ids
      invariant forall c :: c in LocatedAll(changes) <==> TagReported(base, target, seen, c)
      invariant forall c :: c in changes ==> Labelled(c)
      decreases ids
    {
      var id :| id in ids;
      var l, r := Get(Some(Obj(b)), id), Get(Some(Obj(a)), id);
      ghost var before := changes;
      changes := DiffTag(id, l, r, changes);
      OneMoreTag(base, target, seen, id, before, changes);
      seen, ids := seen + {id}, ids - {id};
    }
    ghost var before := changes;
    changes := DiffTag(ROOT, Some(Metadata(base)), Some(Metadata(target)), changes);
    OneMoreTag(base, target, seen, ROOT, before, changes);
    forall c ensures c in LocatedAll(changes) <==> Reported(base, target, c) {
      TagsAreAll(base, target, seen + {ROOT}, c);
    }
    return Some(changes);
  }

  lemma OneMoreTag(base: Value, target: Value, seen: set<string>, id: string, before: seq<SemanticChange>, after: seq<SemanticChange>)
    requires base.Obj? && target.Obj? && before <= after
    requires forall c :: c in LocatedAll(before) <==> TagReported(base, target, seen, c)
    requires forall c :: c in LocatedAll(after[|before|..]) <==>
      TaggedChange(id, [], Get(Some(Keyed(base)), id), Get(Some(Keyed(target)), id), c)
    requires forall c :: c in before ==> Labelled(c)
    requires forall c :: c in after[|before|..] ==> Labelled(c)
    ensures forall c :: c in LocatedAll(after) <==> TagReported(base, target, seen + {id}, c)
    ensures forall c :: c in after ==> Labelled(c)
  {
    assert after == before + after[|before|..];
    assert LocatedAll(after) == LocatedAll(before) + LocatedAll(after[|before|..]);
  }

  // ---- a semantic diff is a patch, except for a root resource_id -----------

  /** The keyed view with the root `resource_id` of another document. */
  function WithRootId(v: Option<Value>, id: Option<Value>): Option<Value> {
    SetAt(v, [ROOT, "resource_id"], id)
  }

  lemma RootIdFields(v: Value, id: Option<Value>, k: string)
    requires v.Obj?
    ensures IsObject(WithRootId(Some(Keyed(v)), id))
    ensures k != ROOT ==> Get(WithRootId(Some(Keyed(v)), id), k) == Get(Some(Keyed(v)), k)
    ensures IsObject(Get(WithRootId(Some(Keyed(v)), id), ROOT))
    ensures Get(Get(WithRootId(Some(Keyed(v)), id), ROOT), k) ==
      if k == "resource_id" then id else Field(Metadata(v), k)
  {
    var x := Some(Keyed(v));
    SetAtField(x, [ROOT, "resource_id"], id, k);
    SetAtField(x, [ROOT, "resource_id"], id, ROOT);
    assert [ROOT, "resource_id"][1..] == ["resource_id"];
    SetAtField(Get(x, ROOT), ["resource_id"], id, k);
    assert ["resource_id"][1..] == [];
  }

  lemma SameRootId(v: Value, id: Option<Value>)
    requires v.Obj?
    ensures WithRootId(Some(Keyed(v)), id) == Some(Keyed(v)) <==> RootId(v) == id
  {
    var x, y := Some(Keyed(v)), WithRootId(Some(Keyed(v)), id);
    forall k ensures IsObject(y) && (k != ROOT ==> Get(y, k) == Get(x, k)) &&
                     IsObject(Get(y, ROOT)) && Get(Get(y, ROOT), k) == if k == "resource_id" then id else Field(Metadata(v), k) {
      RootIdFields(v, id, k);
    }
    if RootId(v) == id {
      ObjectsEqual(Get(y, ROOT), Get(x, ROOT));
      ObjectsEqual(y, x);
    }
  }

  /** What is reported is the exact difference to the target with the base's root `resource_id`. */
  lemma ReportedIsDiff(base: Value, target: Value, c: Change)
    requires Keyable(base) && Keyable(target)
    ensures Reported(base, target, c) <==> c in Diff(Some(Keyed(base)), WithRootId(Some(Keyed(target)), RootId(base)))
  {
    var b, a, a' := Some(Keyed(base)), Some(Keyed(target)), WithRootId(Some(Keyed(target)), RootId(base));
    RootIdFields(target, RootId(base), "");
    if c.path == [] {
      if c in Diff(b, a) { DiffPathsGoDown(b, a, c); }
      if c in Diff(b, a') { DiffPathsGoDown(b, a', c); }
    } else {
      var k, d := c.path[0], Change(c.path[1..], c.before, c.after);
      assert c == Change([k] + d.path, d.before, d.after);
      DiffField(b, a, k, d);
      DiffField(b, a', k, d);
      RootIdFields(target, RootId(base), k);
      if k == ROOT {
        MetadataDiff(base, target, d);
      }
    }
  }

  lemma MetadataDiff(base: Value, target: Value, d: Change)
    requires base.Obj? && target.Obj?
    ensures d in Diff(Get(Some(Keyed(base)), ROOT), Get(WithRootId(Some(Keyed(target)), RootId(base)), ROOT)) <==>
            d in Diff(Get(Some(Keyed(base)), ROOT), Get(Some(Keyed(target)), ROOT)) && !Skipped([], d)
  {
    var b, a := Get(Some(Keyed(base)), ROOT), Get(Some(Keyed(target)), ROOT);
    var a' := Get(WithRootId(Some(Keyed(target)), RootId(base)), ROOT);
    RootIdFields(target, RootId(base), "");
    if d.path == [] {
      if d in Diff(b, a) { DiffPathsGoDown(b, a, d); }
      if d in Diff(b, a') { DiffPathsGoDown(b, a', d); }
    } else {
      var k, e := d.path[0], Change(d.path[1..], d.before, d.after);
      assert d == Change([k] + e.path, e.before, e.after);
      DiffField(b, a, k, e);
      DiffField(b, a', k, e);
      RootIdFields(target, RootId(base), k);
    }
  }

  lemma ReportedElements(base: Value, target: Value, cs: seq<SemanticChange>)
    requires Keyable(base) && Keyable(target)
    requires forall c :: c in LocatedAll(cs) <==> Reported(base, target, c)
    ensures Elements(LocatedAll(cs)) == Diff(Some(Keyed(base)), WithRootId(Some(Keyed(target)), RootId(base)))
  {
    forall c ensures c in Elements(LocatedAll(cs)) <==>
                     c in Diff(Some(Keyed(base)), WithRootId(Some(Keyed(target)), RootId(base))) {
      ReportedIsDiff(base, target, c);
    }
  }

  /**
   Patching the base with the reported changes, in whatever order, yields the target exactly when both documents have
   the same root `resource_id` (in particular, when neither has one).
   */
  lemma DiffPatches(base: Value, target: Value, cs: seq<SemanticChange>)
    requires ValidDocument(base) && ValidDocument(target)
    requires forall c :: c in LocatedAll(cs) <==> Reported(base, target, c)
    ensures ApplyAll(Some(Keyed(base)), LocatedAll(cs)) == Some(Keyed(target)) <==> RootId(base) == RootId(target)
  {
    ValidIsKeyable(base);
    ValidIsKeyable(target);
    ReportedElements(base, target, cs);
    PatchDiff(Some(Keyed(base)), WithRootId(Some(Keyed(target)), RootId(base)), LocatedAll(cs));
    SameRootId(target, RootId(base));
  }

  /** The reported paths never lie inside one another. */
  lemma ReportedPathsIncomparable(base: Value, target: Value, c: Change, d: Change)
    requires Keyable(base) && Keyable(target)
    requires Reported(base, target, c) && Reported(base, target, d) && c.path <= d.path
    ensures c == d
  {
    DiffPathsIncomparable(Some(Keyed(base)), Some(Keyed(target)), c, d);
  }
}
