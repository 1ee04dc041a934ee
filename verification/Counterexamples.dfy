/** Concrete inputs on which a promise of the source does not hold; the exact conditions are proved elsewhere. */
module Counterexamples {
  import opened Json
  import opened Graphs
  import opened Text
  import opened Pipelines
  import opened Flow
  import opened Occurrences
  import opened Traces
  import opened Composition
  import opened CompiledGraph
  import C = CompiledCycles
  import T = TopologicalOrder

  /** A revision id of the least length. */
  const REVISION: string := seq(20, _ => 'r')

  const Plain := Settings("sink", NoReference, None, None, None, None, None, Null)

  /** A pipeline of one source and one step that consumes it. */
  function OneStep(source: Source, id: string, settings: Settings): Pipeline {
    Pipeline([source], [Step(id, [source.id], None, None, settings)])
  }

  const Child := OneStep(Source("in", None, Plain), "a", Plain)

  const Handover := Settings("pipeline", Pinned(Reference("child", REVISION, "in")), None, None, None, None, None, Null)

  /** The source hides its reserved id behind a `step` field of its own. */
  const Parent := OneStep(Source("__linked_1", Some("hidden"), Plain), "t", Handover)

  const Only: Library := map[("child", REVISION) := Child]

  lemma OneStepStructured(source: Source, id: string, settings: Settings)
    requires source.id != "" && id != "" && id != source.id && KnownKind(settings.kind) && settings.kind != "inference"
    requires settings.kind != "route"
    ensures Structured(OneStep(source, id, settings))
  {
    var p := OneStep(source, id, settings);
    var s := p.steps[0];
    assert p.steps[..0] == [];
    assert Dependencies(p.steps) == map[id := [source.id]];
    forall x | x in p.steps ensures RouteOk(p.steps, x) { assert x == s; }
    var d := Dependencies(p.steps);
    assert NodeIds(p) == [source.id, id];
    assert SourceIds(p) == {source.id};
    assert source.id in T.Nodes(SourceIds(p), d);
    var order := [source.id, id];
    assert order[..0] == [] && order[..1] == [source.id];
    OrderedIsAcyclic(d, order);
  }

  lemma BlocksOf(source: Source, id: string, settings: Settings)
    ensures Blocks(OneStep(source, id, settings)) ==
      [Block(if source.step.Some? then source.step.value else source.id, source.settings), Block(id, settings)]
  {
  }

  lemma NamesValid()
    ensures ValidRevision(REVISION) && ValidName("child") && ValidName("in")
  {
    LongEnough();
    assert ByteLength("in") == 1 + ByteLength("in"[1..]);
    assert ByteLength("in"[1..]) == 1 + ByteLength("in"[1..][1..]);
    var w := "child";
    assert ByteLength(w) == 1 + ByteLength(w[1..]);
    assert ByteLength(w[1..]) == 1 + ByteLength(w[1..][1..]);
    assert ByteLength(w[1..][1..]) == 1 + ByteLength(w[1..][1..][1..]);
    assert ByteLength(w[1..][1..][1..]) == 1 + ByteLength(w[1..][1..][1..][1..]);
  }

  lemma {:induction false} AsciiLength(s: string)
    requires forall i :: 0 <= i < |s| ==> s[i] == 'r'
    ensures ByteLength(s) == |s|
  {
    if s != "" { AsciiLength(s[1..]); }
  }

  lemma LongEnough()
    ensures ValidRevision(REVISION)
  {
    AsciiLength(REVISION);
  }

  lemma PinnedPair(a: Block, b: Block)
    requires a.settings.kind != "pipeline"
    ensures PinnedIn([a, b]) == if b.settings.kind == "pipeline" && b.settings.reference.Pinned? then [b.settings.reference.reference] else []
  {
    assert [a, b][..1] == [a] && [a][..0] == [];
    assert PinnedIn([a]) == PinnedIn([]);
  }

  lemma ParentAdmissible()
    ensures Admissible(Parent) && |PinnedReferences(Parent)| == 1
  {
    hide ValidName, ValidRevision;
    NamesValid();
    BlocksOf(Source("__linked_1", Some("hidden"), Plain), "t", Handover);
    PinnedPair(Block("hidden", Plain), Block("t", Handover));
  }

  lemma ChildAdmissible()
    ensures Admissible(Child) && |PinnedReferences(Child)| == 0
  {
    BlocksOf(Source("in", None, Plain), "a", Plain);
    PinnedPair(Block("in", Plain), Block("a", Plain));
  }

  lemma ChildReached()
    ensures Kept(Occurrence("child", REVISION, Child, Some("in")), "a")
    ensures forall s :: !Join(Child.steps, "in", s)
  {
    ReachedSelf(Child.steps, "in");
    assert Feeds(Child.steps, "in", "a") by { assert Child.steps[0] in Child.steps; }
    ReachedExtends(Child.steps, "in", "in", "a");
  }

  lemma ChildExpands(transfer: string, c: Counters)
    requires c.transfers <= MAX_TRANSFERS && "child" !in c.active && c.blocks + 2 <= MAX_BLOCKS
    ensures Expanded(Only, Occurrence("child", REVISION, Child, Some("in")), transfer, c).Ok?
  {
    hide Admissible, Structured, Join, Kept, Sound, LocalNames, LocallyRenamed;
    var occ := Occurrence("child", REVISION, Child, Some("in"));
    ChildAdmissible();
    OneStepStructured(Source("in", None, Plain), "a", Plain);
    ChildReached();
    assert occ.entry.value in SourceIds(Child) by { assert Child.sources[0] in Child.sources; }
    EnteredSound(occ, c);
    var named := LocalNames(occ, transfer, c.nextId);
    var start := Entered(occ, c).value.(nextId := named.1);
    assert StepsExpanded(Only, occ, named.0, 0, start, MAX_TRANSFERS - c.transfers) == Ok(start);
    assert StepsExpanded(Only, occ, named.0, 1, start, MAX_TRANSFERS - c.transfers) ==
           StepExpanded(Only, occ, named.0, 0, start, MAX_TRANSFERS - c.transfers);
  }

  lemma ParentExpands()
    ensures Compiled("parent", REVISION, Parent, Only).Ok?
  {
    hide Admissible, Structured, Join, Kept, Sound, LocalNames, LocallyRenamed;
    var occ := Root("parent", REVISION, Parent);
    var c := Counters({}, [], 0, 0, 0);
    ParentAdmissible();
    OneStepStructured(Source("__linked_1", Some("hidden"), Plain), "t", Handover);
    EnteredSound(occ, c);
    var named := LocalNames(occ, "", 0);
    var start := Entered(occ, c).value.(nextId := named.1);
    var out := LocallyRenamed(occ, named.0, Parent.steps[0]);
    ChildExpands(out.id, start.(steps := start.steps + [out]));
    assert StepsExpanded(Only, occ, named.0, 0, start, MAX_TRANSFERS) == Ok(start);
    assert StepsExpanded(Only, occ, named.0, 1, start, MAX_TRANSFERS) == StepExpanded(Only, occ, named.0, 0, start, MAX_TRANSFERS);
  }

  /** An admitted pipeline whose compiled form has two nodes called `__linked_1`, so that it no longer validates. */
  lemma ReservedNameCollides()
    ensures Admissible(Parent) && Structured(Parent)
    ensures Compiled("parent", REVISION, Parent, Only).Ok?
    ensures !Structured(Compiled("parent", REVISION, Parent, Only).value.definition)
  {
    hide Structured, Admissible, Compiled, Preserves, Budgeted, LinkedCount;
    ParentAdmissible();
    OneStepStructured(Source("__linked_1", Some("hidden"), Plain), "t", Handover);
    ParentExpands();
    var root, out := Root("parent", REVISION, Parent), Compiled("parent", REVISION, Parent, Only).value.definition;
    var tr := CompiledPreserves("parent", REVISION, Parent, Only);
    var n := FirstLinked(out, tr);
    StructuredIff(Only, root, out, tr);
    CountIsNumbered(Only, root, out, tr);
    Collides(|tr.numbered|);
  }

  /** The same pipeline: an edge that nobody authored leads from the linked block back to the transfer, closing a cycle. */
  lemma ReservedNameInventsCycle(out: Pipeline, tr: Trace)
    requires Preserves(Only, Root("parent", REVISION, Parent), out, tr)
    ensures !EdgesAgree(Only, Root("parent", REVISION, Parent), out, tr)
    ensures !Acyclic(Dependencies(out.steps))
  {
    hide Preserves, LinkedCount, EdgesAgree, Acyclic;
    var root := Root("parent", REVISION, Parent);
    var n := FirstLinked(out, tr);
    EdgesPreservedIff(Only, root, out, tr);
    CountIsNumbered(Only, root, out, tr);
    Consumes(|tr.numbered|);
    assert C.LeadsBack(Only, root, tr, Parent.steps[0], ["t", "a"], "t");
    assert Parent.steps[0] in root.pipeline.steps && Parent.steps[0].id == "t";
    assert C.Waits(Only, root, tr, "t", "t");
    assert C.WaitPath(Only, root, tr, ["t", "t"]);
    C.CompiledAcyclicIff(Only, root, out, tr);
  }

  lemma FirstLinked(out: Pipeline, tr: Trace) returns (n: nat)
    requires Preserves(Only, Root("parent", REVISION, Parent), out, tr)
    ensures IsBlock(Only, Root("parent", REVISION, Parent), ["t", "a"])
    ensures n == 0 && |tr.numbered| == 1 && NameOf(tr.names, ["t", "a"]) == "__linked_1"
  {
    hide Preserves, IsBlock;
    var root := Root("parent", REVISION, Parent);
    LinkedBlock();
    n := LinkedNumber(Only, root, out, tr, ["t", "a"]);
    forall i | 0 <= i < |tr.numbered| ensures tr.numbered[i] == ["t", "a"] {
      assert tr.numbered[i] in tr.numbered;
      NumberedIsLinked(Only, root, out, tr, tr.numbered[i]);
      OnlyLinkedBlock(tr.numbered[i]);
    }
    NumberedOnce(Only, root, out, tr);
    AtMostOne(tr.numbered, ["t", "a"]);
    assert Decimal(1) == "1";
    assert LinkedName(1) == "__linked_1";
  }

  lemma AtMostOne(s: seq<Address>, x: Address)
    requires Distinct(s) && forall i :: 0 <= i < |s| ==> s[i] == x
    ensures |s| <= 1
  {
    hide Distinct;
    if |s| > 1 { NotDistinct(s); }
  }

  lemma NotDistinct(s: seq<Address>)
    requires |s| > 1 && s[0] == s[1]
    ensures !Distinct(s)
  {
  }

  lemma NumberedOnce(lib: Library, root: Occurrence, out: Pipeline, tr: Trace)
    requires Preserves(lib, root, out, tr)
    ensures Distinct(tr.numbered)
  {
  }

  lemma OnlyLinkedBlock(a: Address)
    requires IsBlock(Only, Root("parent", REVISION, Parent), a) && |a| > 1
    ensures a == ["t", "a"]
  {
    hide Reached;
    var root := Root("parent", REVISION, Parent);
    BlockStart(Only, root, a);
    assert FindStep(Parent.steps, a[0]).value in Parent.steps;
    assert a[0] == "t";
    var child := Linked(Only, root, "t").value;
    assert child == Occurrence("child", REVISION, Child, Some("in"));
    var b := a[1..];
    BlockStart(Only, child, b);
    assert FindStep(Child.steps, b[0]).value in Child.steps;
    assert b[0] == "a";
    assert |b| == 1;
    assert a == ["t"] + b;
  }

  lemma Consumes(count: nat)
    requires count >= 1
    ensures !NoReservedInput(Parent, count)
  {
    assert Decimal(1) == "1";
    assert LinkedName(1) == "__linked_1";
    assert Parent.steps[0] in Parent.steps && LinkedName(1) in Parent.steps[0].inputs;
  }

  lemma LinkedBlock()
    ensures IsBlock(Only, Root("parent", REVISION, Parent), ["t", "a"])
  {
    hide Reached;
    var root := Root("parent", REVISION, Parent);
    var child := Occurrence("child", REVISION, Child, Some("in"));
    ChildReached();
    assert FindStep(Parent.steps, "t") == Some(Parent.steps[0]);
    assert Linked(Only, root, "t") == Some(child);
    BlockHere(Only, child, "a");
    assert ["t"] + ["a"] == ["t", "a"];
    BlockBelow(Only, root, "t", ["a"]);
  }

  lemma Collides(count: nat)
    requires count >= 1
    ensures !NoCollision(Parent, count)
  {
    assert Decimal(1) == "1";
    assert LinkedName(1) == "__linked_1";
    assert Parent.sources[0] in Parent.sources && Parent.sources[0].id == LinkedName(1);
  }
}

/** The same for ontologies. */
module OntologyCounterexamples {
  import opened Json
  import opened Graphs
  import opened Text
  import opened Ontologies
  import opened Slicing
  import opened Patches
  import D = OntologyDocuments
  import M = OntologyMerging
  import W = ThreeWay
  import I = Indexing

  const Type := Resource("t", "object_type", "T", None, None, [], [], [], Absent, Absent, Null)

  /** A property whose value type is a resource that nothing else mentions. */
  const Property := Resource("p", "property", "P", None, Some("t"), [], [], [], Absent, Absent, Null)

  const Typed := Ontology("1", [Type, Property])

  lemma NoEdges(owners: bool)
    ensures Acyclic(EdgesOf(Typed.resources, owners))
  {
    var rs := Typed.resources;
    assert rs[..1] == [Type] && [Type][..0] == [];
    assert EdgesOf(rs[..1], owners) == map["t" := []];
    assert EdgesOf(rs, owners) == map["t" := [], "p" := []];
    var order := ["t", "p"];
    OrderedIsAcyclic(EdgesOf(rs, owners), order);
  }

  lemma ShortId(s: string)
    requires s == "t" || s == "p"
    ensures ValidId(s)
  {
    assert s[1..] == "";
    assert ByteLength(s) == CharWidth(s[0]) + ByteLength(s[1..]);
  }

  lemma TypedValid()
    ensures Valid(Typed)
  {
    hide ValidId, Acyclic;
    var rs := Typed.resources;
    NoEdges(false);
    NoEdges(true);
    ShortId("t");
    ShortId("p");
    assert Ids(rs) == ["t", "p"];
    assert Type in rs && Property in rs;
    FindUnique(rs, Type);
    FindUnique(rs, Property);
    forall r, own, inherited | r in rs && own in rs && inherited in rs
      ensures Inherits(EdgesOf(rs, false), r, own, inherited) ==> Compatible(own, inherited) {}
  }

  /** The slice of just that property with its dependencies: closed, but no longer a valid ontology. */
  lemma SliceMissesValueType()
    ensures Valid(Typed) && SelectorOk(Typed.resources, ["p"], [])
    ensures IsClosure(Typed.resources, Selection(Typed.resources, ["p"], []), {"p"})
    ensures Sliced(Typed, ["p"], [], true) == Err(InvalidSlice)
  {
    hide Valid, Closure;
    var rs := Typed.resources;
    TypedValid();
    assert Property in rs && Type in rs;
    assert Ids(rs) == ["t", "p"];
    FindUnique(rs, Property);
    assert Selection(rs, ["p"], []) == {"p"};
    assert rs[..1] == [Type] && [Type][..0] == [];
    assert OwnedProperties([Type], "p") == [];
    assert OwnedProperties(rs, "p") == OwnedProperties(rs[..1], "p") + [];
    assert Dependencies(rs, Property) == [];
    SelectionKnown(rs, ["p"], []);
    ClosureIsLeast(rs, {"p"});
    FindUnique(rs, Type);
    SliceValidIff(Typed, {"p"});
  }

  const Before := Obj(map["version" := Str("1"), "resources" := Arr([])])

  const After := Obj(map["version" := Str("1"), "resources" := Arr([]), "resource_id" := Str("x")])

  lemma EmptyDocument(v: Value)
    requires v.Obj? && Field(v, "version") == Some(Str("1")) && Field(v, "resources") == Some(Arr([]))
    ensures D.ValidDocument(v)
  {
    var o := D.ReadOntology(v).value;
    assert o == Ontology("1", []);
    forall owners: bool ensures Acyclic(EdgesOf([], owners)) {
      OrderedIsAcyclic(EdgesOf([], owners), []);
    }
  }

  /** Two valid documents that differ in a root field called `resource_id`: the diff reports nothing, so it is no patch. */
  lemma DiffMissesRootId(cs: seq<D.SemanticChange>)
    requires forall c :: c in D.LocatedAll(cs) <==> D.Reported(Before, After, c)
    ensures D.ValidDocument(Before) && D.ValidDocument(After)
    ensures ApplyAll(Some(D.Keyed(Before)), D.LocatedAll(cs)) != Some(D.Keyed(After))
  {
    hide D.ValidDocument, D.Reported;
    EmptyDocument(Before);
    EmptyDocument(After);
    D.DiffPatches(Before, After, cs);
    assert D.RootId(Before) != D.RootId(After);
  }

  // ---- a merge without conflicts that is no ontology -----------------------

  function ParentField(parent: Option<string>): map<string, Value> {
    if parent.Some? then map["extends" := Str(parent.value)] else map[]
  }

  function TypeValue(id: string, parent: Option<string>): Value {
    Obj(map["resource_id" := Str(id), "kind" := Str("object_type"), "display_name" := Str("T"), "attributes" := Obj(ParentField(parent))])
  }

  /** Two types, each of which may extend another one. */
  function TwoTypes(a: Option<string>, b: Option<string>): Value {
    Obj(map["version" := Str("1"), "resources" := Arr([TypeValue("t", a), TypeValue("p", b)])])
  }

  function TypeResourceOf(id: string, parent: Option<string>): Resource {
    Resource(id, "object_type", "T", None, None, [], if parent.Some? then [parent.value] else [], [], Absent, Absent, TypeValue(id, parent))
  }

  function TwoResources(a: Option<string>, b: Option<string>): seq<Resource> {
    [TypeResourceOf("t", a), TypeResourceOf("p", b)]
  }

  lemma ReadsType(id: string, parent: Option<string>)
    ensures D.ReadResource(TypeValue(id, parent)) == Some(TypeResourceOf(id, parent))
  {
    var v := TypeValue(id, parent);
    var attributes := Field(v, "attributes");
    assert attributes == Some(Obj(ParentField(parent)));
    assert Get(attributes, "extends") == if parent.Some? then Some(Str(parent.value)) else None;
    assert Get(attributes, "interfaces") == None && Get(attributes, "source_type") == None && Get(attributes, "target_type") == None;
    assert Field(v, "references") == None && Field(v, "owner_id") == None && Field(v, "value_type") == None;
  }

  lemma ReadsTwo(a: Option<string>, b: Option<string>)
    ensures D.ReadOntology(TwoTypes(a, b)) == Some(Ontology("1", TwoResources(a, b)))
    ensures D.ItemsOf(TwoTypes(a, b)) == [TypeValue("t", a), TypeValue("p", b)]
  {
    hide D.ReadResource, TypeValue, TypeResourceOf;
    var items := [TypeValue("t", a), TypeValue("p", b)];
    assert Field(TwoTypes(a, b), "resources") == Some(Arr(items));
    ReadsType("t", a);
    ReadsType("p", b);
    assert items[..1] == [TypeValue("t", a)] && items[..1][..0] == [];
    var one := [TypeValue("t", a)];
    assert one[..0] == [];
    assert D.ReadResources([]) == Some([]);
    assert D.ReadResources(one).value == [TypeResourceOf("t", a)];
    assert D.ReadResources(items).value == TwoResources(a, b);
  }

  lemma EdgesOfTwo(a: Option<string>, b: Option<string>, owners: bool)
    ensures EdgesOf(TwoResources(a, b), owners) ==
      map["t" := if owners || a.None? then [] else [a.value], "p" := if owners || b.None? then [] else [b.value]]
  {
    var rs := TwoResources(a, b);
    assert rs[..1] == [rs[0]] && [rs[0]][..0] == [];
    assert Parents(rs[0]) == (if a.None? then [] else [a.value]) && Parents(rs[1]) == (if b.None? then [] else [b.value]);
    assert EdgesOf(rs[..1], owners) == map["t" := if owners || a.None? then [] else [a.value]];
  }

  lemma TwoValid(a: Option<string>, b: Option<string>)
    requires (a.None? && (b.None? || b == Some("t"))) || (a == Some("p") && b.None?)
    ensures D.ValidDocument(TwoTypes(a, b))
  {
    hide Acyclic, TypeValue, TwoResources, ResourceOk, InheritedOk, EdgesOf, WellFormed, D.ReadOntology;
    ReadsTwo(a, b);
    TwoWellFormed(a, b);
    TwoResourcesOk(a, b);
    TwoInherited(a, b);
    TwoAcyclic(a, b, false);
    TwoAcyclic(a, b, true);
  }

  lemma TwoWellFormed(a: Option<string>, b: Option<string>)
    ensures WellFormed(Ontology("1", TwoResources(a, b)))
  {
    hide ValidId, TypeValue;
    ShortId("t");
    ShortId("p");
    assert Ids(TwoResources(a, b)) == ["t", "p"];
  }

  lemma TwoAcyclic(a: Option<string>, b: Option<string>, owners: bool)
    requires (a.None? && (b.None? || b == Some("t"))) || (a == Some("p") && b.None?)
    ensures Acyclic(EdgesOf(TwoResources(a, b), owners))
  {
    hide EdgesOf, TypeValue, Acyclic;
    EdgesOfTwo(a, b, owners);
    var edges := EdgesOf(TwoResources(a, b), owners);
    var order := if a.Some? then ["p", "t"] else ["t", "p"];
    assert order[..0] == [] && order[..1] == [order[0]];
    OrderedIsAcyclic(edges, order);
  }

  lemma TwoResourcesOk(a: Option<string>, b: Option<string>)
    requires (a.None? || a == Some("p")) && (b.None? || b == Some("t"))
    ensures forall r :: r in TwoResources(a, b) ==> ResourceOk(TwoResources(a, b), r)
  {
    hide TypeValue;
    var rs := TwoResources(a, b);
    assert Ids(rs) == ["t", "p"];
    assert rs[0] in rs && rs[1] in rs;
    FindUnique(rs, rs[0]);
    FindUnique(rs, rs[1]);
    assert ResourceOk(rs, rs[0]) && ResourceOk(rs, rs[1]);
  }

  lemma TwoInherited(a: Option<string>, b: Option<string>)
    ensures InheritedOk(TwoResources(a, b))
  {
    hide TypeValue, EdgesOf, IsAncestor;
    var rs := TwoResources(a, b);
    forall own | own in rs ensures own.kind == "object_type" {}
  }

  lemma MutualInvalid()
    ensures !D.ValidDocument(TwoTypes(Some("p"), Some("t")))
  {
    hide TypeValue, TwoResources, WellFormed, ResourceOk, InheritedOk, EdgesOf, D.ReadOntology;
    ReadsTwo(Some("p"), Some("t"));
    MutualCycle();
  }

  lemma MutualCycle()
    ensures !Acyclic(EdgesOf(TwoResources(Some("p"), Some("t")), false))
  {
    hide TypeValue, EdgesOf;
    EdgesOfTwo(Some("p"), Some("t"), false);
    var edges := EdgesOf(TwoResources(Some("p"), Some("t")), false);
    assert Edge(edges, "t", "p") && Edge(edges, "p", "t");
    assert IsCycle(edges, ["t", "p", "t"]);
  }

  lemma KeyedTwo(a: Option<string>, b: Option<string>)
    ensures TwoTypes(a, b).Obj? && D.Keyable(TwoTypes(a, b))
    ensures D.Keyed(TwoTypes(a, b)) ==
      Obj(map["t" := TypeValue("t", a), "p" := TypeValue("p", b), D.ROOT := Obj(map["version" := Str("1")])])
  {
    hide D.ReadOntology;
    var v := TwoTypes(a, b);
    ReadsTwo(a, b);
    var items := D.ItemsOf(v);
    assert I.IdIn(D.ID, items[0]) == "t" && I.IdIn(D.ID, items[1]) == "p";
    assert items[..1] == [items[0]] && [items[0]][..0] == [];
    assert I.Index(D.ID, items[..1]) == map["t" := items[0]];
    assert I.Index(D.ID, items) == map["t" := items[0], "p" := items[1]];
    assert D.Metadata(v) == Obj(map["version" := Str("1")]);
    assert "t" != D.ROOT && "p" != D.ROOT;
  }

  /** Each side makes one type extend the other: no conflict, and the merge would be a cycle. */
  lemma MergeClosesCycle()
    ensures var base, left, right := TwoTypes(None, None), TwoTypes(Some("p"), None), TwoTypes(None, Some("t"));
      && D.ValidDocument(base) && D.ValidDocument(left) && D.ValidDocument(right)
      && base.Obj? && left.Obj? && right.Obj?
      && M.ViewConflicts(base, left, right) == {} && M.Unmergeable(base, left, right)
  {
    hide TypeValue, D.ValidDocument, D.Keyed, D.Keyable, W.Merge, W.Conflicts, M.Unmergeable;
    var base, left, right := TwoTypes(None, None), TwoTypes(Some("p"), None), TwoTypes(None, Some("t"));
    TwoValid(None, None);
    TwoValid(Some("p"), None);
    TwoValid(None, Some("t"));
    KeyedTwo(None, None);
    KeyedTwo(Some("p"), None);
    KeyedTwo(None, Some("t"));
    KeyedTwo(Some("p"), Some("t"));
    var b, l, r := M.View(base), M.View(left), M.View(right);
    var both := M.View(TwoTypes(Some("p"), Some("t")));
    forall k ensures W.Conflicts(Get(b, k), Get(l, k), Get(r, k)) == {} && W.Merge(Get(b, k), Get(l, k), Get(r, k)) == Get(both, k) {
      OneSideEach(Get(b, k), Get(l, k), Get(r, k));
    }
    forall c ensures c !in M.ViewConflicts(base, left, right) {
      if c in M.ViewConflicts(base, left, right) { W.ConflictsDown(b, l, r, c); }
    }
    W.MergeField(b, l, r, "");
    forall k ensures Get(W.Merge(b, l, r), k) == Get(both, k) { W.MergeField(b, l, r, k); }
    ObjectsEqual(W.Merge(b, l, r), both);
    MutualInvalid();
    M.OneDecides(base, left, right, TwoTypes(Some("p"), Some("t")));
  }

  lemma OneSideEach(b: Option<Value>, l: Option<Value>, r: Option<Value>)
    requires l == b || r == b
    ensures W.Conflicts(b, l, r) == {} && W.Merge(b, l, r) == if l == b then r else l
  {
  }
}
