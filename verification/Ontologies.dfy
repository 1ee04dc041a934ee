/** Ontology graphs and the validation every stored ontology passes, proved exact against a declarative statement. */
module Ontologies {
  import opened Json
  import opened Graphs
  import opened Text
  import C = CycleSearch

  /** An attribute that may hold one name or a list of names. */
  datatype NameField = Absent | One(name: string) | Many(names: seq<string>) | Malformed

  function NamesIn(f: NameField): seq<string> {
    match f
    case One(n) => [n]
    case Many(ns) => ns
    case _ => []
  }

  datatype Resource = Resource(
    id: string,
    kind: string,
    displayName: string,
    owner: Option<string>,
    valueType: Option<string>,
    references: seq<string>,
    supertypes: seq<string>,
    interfaces: seq<string>,
    sourceType: NameField,
    targetType: NameField,
    payload: Value)

  datatype Ontology = Ontology(version: string, resources: seq<Resource>)

  predicate KnownKind(kind: string) {
    kind in {"object_type", "event_type", "property", "link_type", "action", "function"}
  }

  predicate ScalarType(t: string) {
    t in {"boolean", "bytes", "date", "datetime", "decimal", "float", "geopoint", "integer", "json", "string", "uuid"}
  }

  predicate ValidId(s: string) {
    && 0 < ByteLength(s) <= 128
    && forall i :: 0 <= i < |s| ==> AsciiAlphanumeric(s[i]) || s[i] == '_' || s[i] == '-' || s[i] == '.' || s[i] == ':'
  }

  function Parents(r: Resource): seq<string> {
    r.supertypes + r.interfaces
  }

  function Owners(r: Resource): seq<string> {
    if r.owner.Some? then [r.owner.value] else []
  }

  function Find(rs: seq<Resource>, id: string): (f: Option<Resource>)
    ensures f.Some? ==> f.value in rs && f.value.id == id
    ensures f.None? <==> forall r :: r in rs ==> r.id != id
  {
    if rs == [] then None else if rs[0].id == id then Some(rs[0]) else Find(rs[1..], id)
  }

  function Ids(rs: seq<Resource>): (ids: seq<string>)
    ensures |ids| == |rs| && forall i :: 0 <= i < |rs| ==> ids[i] == rs[i].id
  {
    seq(|rs|, i requires 0 <= i < |rs| => rs[i].id)
  }

  lemma FindUnique(rs: seq<Resource>, r: Resource)
    requires Distinct(Ids(rs)) && r in rs
    ensures Find(rs, r.id) == Some(r)
  {
    var f := Find(rs, r.id).value;
    var i :| 0 <= i < |rs| && rs[i] == r;
    var j :| 0 <= j < |rs| && rs[j] == f;
    assert Ids(rs)[i] == Ids(rs)[j];
  }

  /** Inheritance edges, or ownership edges. */
  function EdgesOf(rs: seq<Resource>, owners: bool): (e: Edges)
    ensures forall n :: n in e <==> exists r :: r in rs && r.id == n
  {
    if rs == [] then map[]
    else
      var last := rs[|rs| - 1];
      EdgesOf(rs[..|rs| - 1], owners)[last.id := if owners then Owners(last) else Parents(last)]
  }

  lemma {:induction false} EdgesAt(rs: seq<Resource>, owners: bool, r: Resource)
    requires Distinct(Ids(rs)) && r in rs
    ensures r.id in EdgesOf(rs, owners) && EdgesOf(rs, owners)[r.id] == if owners then Owners(r) else Parents(r)
  {
    var front := rs[..|rs| - 1];
    if r != rs[|rs| - 1] {
      var i :| 0 <= i < |rs| && rs[i] == r;
      assert front[i] == r;
      assert Ids(rs)[i] != Ids(rs)[|rs| - 1];
      assert Distinct(Ids(front)) by {
        forall a, b | 0 <= a < b < |front| ensures Ids(front)[a] != Ids(front)[b] {
          assert Ids(rs)[a] == Ids(front)[a] && Ids(rs)[b] == Ids(front)[b];
        }
      }
      EdgesAt(front, owners, r);
    }
  }

  // ---- what a valid ontology is --------------------------------------------

  predicate TypeResource(rs: seq<Resource>, id: string) {
    Find(rs, id).Some? && Find(rs, id).value.kind in {"object_type", "event_type"}
  }

  predicate Known(rs: seq<Resource>, id: string) {
    Find(rs, id).Some?
  }

  predicate ResourceOk(rs: seq<Resource>, r: Resource) {
    && (r.owner.Some? ==> TypeResource(rs, r.owner.value))
    && (forall x :: x in r.references ==> Known(rs, x))
    && (forall x :: x in Parents(r) ==> TypeResource(rs, x))
    && (r.kind == "property" ==>
          r.valueType.Some? && r.valueType.value != "" && (ScalarType(r.valueType.value) || Known(rs, r.valueType.value)))
    && (r.kind == "link_type" ==>
          && r.sourceType.One? && TypeResource(rs, r.sourceType.name)
          && r.targetType.One? && TypeResource(rs, r.targetType.name))
  }

  ghost predicate IsAncestor(edges: Edges, n: string, ancestor: string) {
    exists p :: IsPath(edges, p) && |p| > 1 && p[0] == n && p[|p| - 1] == ancestor
  }

  predicate PropertyOf(r: Resource, owner: string) {
    r.kind == "property" && r.owner == Some(owner)
  }

  predicate Compatible(own: Resource, inherited: Resource) {
    own.displayName == inherited.displayName ==> own.valueType == inherited.valueType
  }

  /** `inherited` is a property of an ancestor of the type `r`, which owns the property `own`. */
  ghost predicate Inherits(edges: Edges, r: Resource, own: Resource, inherited: Resource) {
    && PropertyOf(own, r.id)
    && inherited.kind == "property" && inherited.owner.Some?
    && IsAncestor(edges, r.id, inherited.owner.value)
  }

  /** A property never changes the type of an inherited property with the same display name. */
  ghost predicate InheritedOk(rs: seq<Resource>) {
    forall r, own, inherited | r in rs && own in rs && inherited in rs ::
      Inherits(EdgesOf(rs, false), r, own, inherited) ==> Compatible(own, inherited)
  }

  predicate WellFormed(o: Ontology) {
    && o.version != ""
    && (forall r :: r in o.resources ==> ValidId(r.id) && KnownKind(r.kind) && r.displayName != "")
    && Distinct(Ids(o.resources))
  }

  ghost predicate Valid(o: Ontology) {
    && WellFormed(o)
    && (forall r :: r in o.resources ==> ResourceOk(o.resources, r))
    && Acyclic(EdgesOf(o.resources, false))
    && Acyclic(EdgesOf(o.resources, true))
    && InheritedOk(o.resources)
  }

  // ---- the checkers --------------------------------------------------------

  lemma AncestorStep(edges: Edges, n: string, m: string, x: string)
    requires n == m || IsAncestor(edges, n, m)
    requires Edge(edges, m, x)
    ensures IsAncestor(edges, n, x)
  {
    if n == m {
      assert IsPath(edges, [n, x]);
    } else {
      var p :| IsPath(edges, p) && |p| > 1 && p[0] == n && p[|p| - 1] == m;
      var q := p + [x];
      assert IsPath(edges, q);
      assert q[0] == n && q[|q| - 1] == x;
    }
  }

  lemma {:induction false} ClosedHoldsAncestors(edges: Edges, n: string, s: set<string>, p: seq<string>)
    requires IsPath(edges, p) && |p| > 1 && p[0] == n
    requires forall m, x :: (m == n || m in s) && Edge(edges, m, x) ==> x in s
    ensures p[|p| - 1] in s
  {
    var front := p[..|p| - 1];
    assert Edge(edges, p[|p| - 2], p[|p| - 1]);
    if |front| > 1 {
      assert IsPath(edges, front);
      ClosedHoldsAncestors(edges, n, s, front);
    }
  }

  /** Collects everything reachable along inheritance edges, dangling names included. */
  method Ancestors(edges: Edges, id: string) returns (result: set<string>)
    ensures forall x :: x in result <==> IsAncestor(edges, id, x)
  {
    result := {};
    var pending := [id];
    while pending != []
      invariant forall x :: x in result ==> IsAncestor(edges, id, x)
      invariant forall x :: x in pending ==> x == id || x in result
      invariant forall m, x :: (m == id || m in result) && m !in pending && Edge(edges, m, x) ==> x in result
      invariant result <= C.Universe(edges)
      decreases C.Universe(edges) - result, |pending|
    {
      var current := pending[|pending| - 1];
      ghost var before := pending;
      assert pending == pending[..|pending| - 1] + [current];
      pending := pending[..|pending| - 1];
      var parents := C.Targets(edges, current);
      result, pending := AddParents(edges, id, current, parents, result, pending);
    }
    forall x | IsAncestor(edges, id, x) ensures x in result {
      var p :| IsPath(edges, p) && |p| > 1 && p[0] == id && p[|p| - 1] == x;
      ClosedHoldsAncestors(edges, id, result, p);
    }
  }

  method AddParents(ghost edges: Edges, ghost id: string, ghost current: string, parents: seq<string>,
                    result: set<string>, pending: seq<string>)
    returns (result': set<string>, pending': seq<string>)
    requires parents == C.Targets(edges, current)
    requires current == id || IsAncestor(edges, id, current)
    requires result <= C.Universe(edges)
    requires forall x :: x in result ==> IsAncestor(edges, id, x)
    ensures forall x :: x in result' ==> IsAncestor(edges, id, x)
    ensures result <= result' <= C.Universe(edges) && result' == result + set x | x in parents
    ensures pending <= pending' && (result' == result ==> pending' == pending)
    ensures forall x :: x in pending' <==> x in pending || x in result' - result
  {
    result', pending' := result, pending;
    for i := 0 to |parents|
      invariant result' == result + set x | x in parents[..i]
      invariant result' <= C.Universe(edges)
      invariant forall x :: x in result' ==> IsAncestor(edges, id, x)
      invariant pending <= pending' && (result' == result ==> pending' == pending)
      invariant forall x :: x in pending' <==> x in pending || x in result' - result
    {
      assert parents[..i + 1] == parents[..i] + [parents[i]];
      assert Edge(edges, current, parents[i]);
      if parents[i] !in result' {
        AncestorStep(edges, id, current, parents[i]);
        result' := result' + {parents[i]};
        pending' := pending' + [parents[i]];
      }
    }
    assert parents[..|parents|] == parents;
  }

  predicate Clash(ancestors: set<string>, r: Resource, own: Resource, inherited: Resource) {
    && PropertyOf(own, r.id)
    && inherited.kind == "property" && inherited.owner.Some? && inherited.owner.value in ancestors
    && !Compatible(own, inherited)
  }

  /** Compares each property with the inherited ones of the same display name. */
  method ValidateInherited(rs: seq<Resource>) returns (ok: bool)
    ensures ok <==> InheritedOk(rs)
  {
    var edges := EdgesOf(rs, false);
    for i := 0 to |rs|
      invariant forall k, own, inherited | 0 <= k < i && own in rs && inherited in rs ::
        Inherits(edges, rs[k], own, inherited) ==> Compatible(own, inherited)
    {
      var ancestors := Ancestors(edges, rs[i].id);
      if exists own, inherited :: own in rs && inherited in rs && Clash(ancestors, rs[i], own, inherited) {
        assert rs[i] in rs;
        return false;
      }
    }
    return true;
  }

  method ValidateOntology(o: Ontology) returns (ok: bool)
    ensures ok <==> Valid(o)
  {
    if !WellFormed(o) {
      return false;
    }
    var rs := o.resources;
    for i := 0 to |rs|
      invariant forall k :: 0 <= k < i ==> ResourceOk(rs, rs[k])
    {
      if !ResourceOk(rs, rs[i]) {
        assert rs[i] in rs;
        return false;
      }
    }
    EdgeKeys(rs, false);
    EdgeKeys(rs, true);
    var inheritance := C.FindCycle(Ids(rs), EdgesOf(rs, false));
    var ownership := C.FindCycle(Ids(rs), EdgesOf(rs, true));
    var inherited := ValidateInherited(rs);
    return inheritance.None? && ownership.None? && inherited;
  }

  lemma EdgeKeys(rs: seq<Resource>, owners: bool)
    ensures forall n :: n in Ids(rs) <==> n in EdgesOf(rs, owners)
  {
    forall n ensures n in Ids(rs) <==> n in EdgesOf(rs, owners) {
      if n in Ids(rs) {
        var i :| 0 <= i < |rs| && Ids(rs)[i] == n;
        assert rs[i] in rs;
      }
      if n in EdgesOf(rs, owners) {
        var r :| r in rs && r.id == n;
        var i :| 0 <= i < |rs| && rs[i] == r;
        assert Ids(rs)[i] == n;
      }
    }
  }
}
