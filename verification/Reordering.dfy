/** Whether an ontology is valid does not depend on the order of its resources. */
module Reordering {
  import opened Json
  import opened Graphs
  import opened Indexing
  import opened Ontologies
  import opened OntologyDocuments

  ghost predicate SameMembers(a: seq<Resource>, b: seq<Resource>) {
    forall r :: r in a <==> r in b
  }

  lemma SameFind(a: seq<Resource>, b: seq<Resource>, id: string)
    requires SameMembers(a, b) && Distinct(Ids(a)) && Distinct(Ids(b))
    ensures Find(a, id) == Find(b, id)
  {
    hide Distinct;
    if Find(a, id).Some? { FindUnique(b, Find(a, id).value); }
    if Find(b, id).Some? { FindUnique(a, Find(b, id).value); }
  }

  lemma SameEdges(a: seq<Resource>, b: seq<Resource>, owners: bool)
    requires SameMembers(a, b) && Distinct(Ids(a)) && Distinct(Ids(b))
    ensures EdgesOf(a, owners) == EdgesOf(b, owners)
  {
    hide Distinct;
    var x, y := EdgesOf(a, owners), EdgesOf(b, owners);
    forall n | n in x ensures n in y && y[n] == x[n] {
      var r :| r in a && r.id == n;
      EdgesAt(a, owners, r);
      EdgesAt(b, owners, r);
    }
    forall n | n in y ensures n in x {
      var r :| r in b && r.id == n;
      assert r in a;
    }
  }

  lemma SameResourceOk(a: seq<Resource>, b: seq<Resource>, r: Resource)
    requires SameMembers(a, b) && Distinct(Ids(a)) && Distinct(Ids(b))
    ensures ResourceOk(a, r) <==> ResourceOk(b, r)
  {
    hide Distinct, SameMembers;
    forall id ensures Find(a, id) == Find(b, id) { SameFind(a, b, id); }
  }

  lemma ReorderedIsValid(a: Ontology, b: Ontology)
    requires Valid(a) && a.version == b.version && SameMembers(a.resources, b.resources) && Distinct(Ids(b.resources))
    ensures Valid(b)
  {
    hide ResourceOk, Acyclic, Inherits, Compatible, ValidId, KnownKind, Distinct;
    SameEdges(a.resources, b.resources, false);
    SameEdges(a.resources, b.resources, true);
    forall r | r in b.resources ensures ResourceOk(b.resources, r) {
      SameResourceOk(a.resources, b.resources, r);
    }
  }

  // ---- documents -----------------------------------------------------------

  lemma {:induction false} ReadsAll(items: seq<Value>)
    ensures ReadResources(items).Some? <==> forall v :: v in items ==> ReadResource(v).Some?
  {
    hide ReadResource;
    if items != [] {
      var front := items[..|items| - 1];
      ReadsAll(front);
      assert items == front + [items[|items| - 1]];
    }
  }

  lemma ReadMember(items: seq<Value>, r: Resource)
    requires ReadResources(items).Some?
    ensures r in ReadResources(items).value <==> exists v :: v in items && ReadResource(v) == Some(r)
  {
    hide ReadResource, ReadResources;
    var rs := ReadResources(items).value;
    if r in rs {
      var i :| 0 <= i < |rs| && rs[i] == r;
      assert items[i] in items;
    }
    if v :| v in items && ReadResource(v) == Some(r) {
      var i :| 0 <= i < |items| && items[i] == v;
      assert rs[i] == r;
    }
  }

  /** A keyable document is determined, up to the order of its items, by its view. */
  lemma ItemInView(v: Value, x: Value)
    requires Keyable(v)
    ensures x in ItemsOf(v) <==> exists id :: id != ROOT && Get(Some(Keyed(v)), id) == Some(x)
  {
    var items := ItemsOf(v);
    if x in items {
      var i :| 0 <= i < |items| && items[i] == x;
      IndexAt(ID, items, i);
      assert Identified(items[i]);
      assert Get(Some(Keyed(v)), IdIn(ID, x)) == Some(x);
    }
    if id :| id != ROOT && Get(Some(Keyed(v)), id) == Some(x) {
      IndexKeys(ID, items, id);
    }
  }

  lemma SameItems(a: Value, b: Value, x: Value)
    requires Keyable(a) && Keyable(b) && Keyed(a) == Keyed(b)
    ensures x in ItemsOf(a) <==> x in ItemsOf(b)
  {
    hide Keyable, Keyed;
    ItemInView(a, x) by { KeyableIsObject(a); }
    ItemInView(b, x);
  }

  lemma KeyableIsObject(v: Value)
    requires Keyable(v)
    ensures v.Obj?
  {
  }

  lemma SameVersion(a: Value, b: Value)
    requires a.Obj? && b.Obj? && Keyed(a) == Keyed(b)
    ensures Field(a, "version") == Field(b, "version")
  {
    assert Get(Some(Keyed(a)), ROOT) == Some(Metadata(a)) && Get(Some(Keyed(b)), ROOT) == Some(Metadata(b));
    assert Field(a, "version") == Field(Metadata(a), "version");
    assert Field(b, "version") == Field(Metadata(b), "version");
  }

  /** Documents with the same id-keyed view are both valid or both invalid. */
  lemma ViewDecidesValidity(a: Value, b: Value)
    requires Keyable(a) && Keyable(b) && Keyed(a) == Keyed(b) && ValidDocument(a)
    ensures ValidDocument(b)
  {
    hide Valid, ReadResource, ReadResources, Keyed, Keyable;
    KeyableIsObject(a);
    KeyableIsObject(b);
    SameVersion(a, b);
    var x, y := ItemsOf(a), ItemsOf(b);
    forall v ensures v in x <==> v in y { SameItems(a, b, v); }
    KeyableHasItems(b);
    ReadsAll(x);
    ReadsAll(y);
    var o, p := ReadOntology(a).value, ReadOntology(b).value;
    forall r ensures r in o.resources <==> r in p.resources {
      ReadMember(x, r);
      ReadMember(y, r);
    }
    DistinctRead(b);
    ReorderedIsValid(o, p);
  }

  lemma KeyableHasItems(v: Value)
    requires Keyable(v)
    ensures AsArr(Field(v, "resources")) == Some(ItemsOf(v))
  {
  }

  lemma DistinctRead(v: Value)
    requires Keyable(v) && ReadOntology(v).Some?
    ensures Distinct(Ids(ReadOntology(v).value.resources))
  {
    hide ReadResource, ReadResources;
    var items, rs := ItemsOf(v), ReadOntology(v).value.resources;
    forall i, j | 0 <= i < j < |rs| ensures Ids(rs)[i] != Ids(rs)[j] {
      assert ReadResource(items[i]) == Some(rs[i]) && ReadResource(items[j]) == Some(rs[j]);
      assert IdIn(ID, items[i]) == rs[i].id && IdIn(ID, items[j]) == rs[j].id;
    }
  }
}
