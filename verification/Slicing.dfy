/** Dependency-closed slices of an ontology. */
module Slicing {
  import opened Json
  import opened Graphs
  import opened Ontologies

  datatype SliceError = InvalidOntology | InvalidSelector | MalformedAttribute | InvalidSlice

  // ---- the specification ---------------------------------------------------

  predicate SelectorOk(rs: seq<Resource>, ids: seq<string>, kinds: seq<string>) {
    && (forall id :: id in ids ==> Known(rs, id))
    && (forall kind :: kind in kinds ==> KnownKind(kind))
    && (ids != [] || kinds != [])
  }

  function Selection(rs: seq<Resource>, ids: seq<string>, kinds: seq<string>): set<string> {
    set r | r in rs && (r.id in ids || r.kind in kinds) :: r.id
  }

  /** The properties a type owns. */
  function OwnedProperties(rs: seq<Resource>, owner: string): seq<string> {
    if rs == [] then []
    else OwnedProperties(rs[..|rs| - 1], owner) +
         if PropertyOf(rs[|rs| - 1], owner) then [rs[|rs| - 1].id] else []
  }

  /** Everything a resource pulls into a slice; its value type is not followed. */
  function Dependencies(rs: seq<Resource>, r: Resource): seq<string> {
    r.references + Owners(r) + Parents(r) + NamesIn(r.sourceType) + NamesIn(r.targetType) + OwnedProperties(rs, r.id)
  }

  ghost predicate DependsOn(rs: seq<Resource>, a: string, b: string) {
    Find(rs, a).Some? && b in Dependencies(rs, Find(rs, a).value) && Known(rs, b)
  }

  ghost predicate DependencyClosed(rs: seq<Resource>, s: set<string>) {
    forall a, b :: a in s && DependsOn(rs, a, b) ==> b in s
  }

  /** `s` is the least dependency-closed set that holds the selection. */
  ghost predicate IsClosure(rs: seq<Resource>, selection: set<string>, s: set<string>) {
    && selection <= s && DependencyClosed(rs, s)
    && forall t :: selection <= t && DependencyClosed(rs, t) ==> s <= t
  }

  /** The resources of a slice, in their original order. */
  function Restrict(rs: seq<Resource>, s: set<string>): seq<Resource> {
    if rs == [] then []
    else Restrict(rs[..|rs| - 1], s) + if rs[|rs| - 1].id in s then [rs[|rs| - 1]] else []
  }

  predicate MalformedResource(r: Resource) {
    r.sourceType.Malformed? || r.targetType.Malformed?
  }

  // ---- the worklist --------------------------------------------------------

  function AllIds(rs: seq<Resource>): set<string> {
    set r | r in rs :: r.id
  }

  /** The part of a closure found so far: justified by every closed superset, and closed except for `pending`. */
  ghost predicate Closing(rs: seq<Resource>, selection: set<string>, selected: set<string>, pending: seq<string>) {
    && selection <= selected <= AllIds(rs)
    && (forall x :: x in pending ==> x in selected)
    && (forall t :: selection <= t && DependencyClosed(rs, t) ==> selected <= t)
    && (forall a, b :: a in selected && a !in pending && DependsOn(rs, a, b) ==> b in selected)
  }

  method AddDependencies(rs: seq<Resource>, ghost id: string, dependencies: seq<string>, selected: set<string>, pending: seq<string>)
    returns (selected': set<string>, pending': seq<string>)
    ensures forall x :: x in selected' <==> x in selected || (x in dependencies && Known(rs, x))
    ensures pending <= pending' && (selected' == selected ==> pending' == pending)
    ensures forall x :: x in pending' <==> x in pending || x in selected' - selected
  {
    selected', pending' := selected, pending;
    for i := 0 to |dependencies|
      invariant forall x :: x in selected' <==> x in selected || (x in dependencies[..i] && Known(rs, x))
      invariant pending <= pending' && (selected' == selected ==> pending' == pending)
      invariant forall x :: x in pending' <==> x in pending || x in selected' - selected
    {
      assert dependencies[..i + 1] == dependencies[..i] + [dependencies[i]];
      if Known(rs, dependencies[i]) && dependencies[i] !in selected' {
        selected' := selected' + {dependencies[i]};
        pending' := pending' + [dependencies[i]];
      }
    }
    assert dependencies[..|dependencies|] == dependencies;
  }

  lemma ClosingStep(rs: seq<Resource>, selection: set<string>, selected: set<string>, rest: seq<string>, id: string,
                    selected': set<string>, pending': seq<string>)
    requires Closing(rs, selection, selected, rest + [id]) && Find(rs, id).Some?
    requires forall x :: x in selected' <==> x in selected || (x in Dependencies(rs, Find(rs, id).value) && Known(rs, x))
    requires forall x :: x in pending' <==> x in rest || x in selected' - selected
    ensures Closing(rs, selection, selected', pending')
  {
    assert id in rest + [id];
    forall x | x in selected' ensures x in AllIds(rs) {
      if x !in selected {
        var r := Find(rs, x).value;
      }
    }
    forall x | x in pending' ensures x in selected' {
      if x in rest { assert x in rest + [id]; }
    }
    forall t | selection <= t && DependencyClosed(rs, t) ensures selected' <= t {
      forall x | x in selected' ensures x in t {
        if x !in selected { assert DependsOn(rs, id, x); }
      }
    }
    forall a, b | a in selected' && a !in pending' && DependsOn(rs, a, b) ensures b in selected' {
      if a != id { assert a !in rest + [id]; }
    }
  }

  lemma Popped(s: seq<string>)
    requires s != []
    ensures s == s[..|s| - 1] + [s[|s| - 1]]
  {
  }

  /** Follows dependencies until nothing new appears; a malformed attribute on the way is an error. */
  method CloseSelection(rs: seq<Resource>, selection: set<string>) returns (r: Option<set<string>>)
    requires selection <= AllIds(rs)
    ensures r.Some? ==> IsClosure(rs, selection, r.value)
    ensures r.Some? ==> forall x :: x in r.value ==> Find(rs, x).Some? && !MalformedResource(Find(rs, x).value)
    ensures r.None? ==> exists x :: (forall t :: selection <= t && DependencyClosed(rs, t) ==> x in t) &&
                                    Find(rs, x).Some? && MalformedResource(Find(rs, x).value)
  {
    var selected := selection;
    var pending := [];
    var rest := selection;
    while rest != {}
      invariant rest <= selection && forall x :: x in pending <==> x in selection - rest
      decreases rest
    {
      var x :| x in rest;
      pending := pending + [x];
      rest := rest - {x};
    }
    while pending != []
      invariant Closing(rs, selection, selected, pending)
      invariant forall x :: x in selected && x !in pending ==> Find(rs, x).Some? && !MalformedResource(Find(rs, x).value)
      decreases AllIds(rs) - selected, |pending|
    {
      var id := pending[|pending| - 1];
      ghost var shorter := pending[..|pending| - 1];
      Popped(pending);
      assert id in selected;
      var resource := Find(rs, id).value;
      if MalformedResource(resource) {
        assert forall t :: selection <= t && DependencyClosed(rs, t) ==> id in t;
        return None;
      }
      ghost var before := selected;
      var selected', pending' := AddDependencies(rs, id, Dependencies(rs, resource), selected, pending[..|pending| - 1]);
      ClosingStep(rs, selection, selected, shorter, id, selected', pending');
      selected, pending := selected', pending';
      assert selected != before ==> AllIds(rs) - selected < AllIds(rs) - before;
    }
    return Some(selected);
  }

  // ---- restricting an ontology ---------------------------------------------

  lemma {:induction false} RestrictMember(rs: seq<Resource>, s: set<string>, r: Resource)
    ensures r in Restrict(rs, s) <==> r in rs && r.id in s
  {
    if rs != [] {
      RestrictMember(rs[..|rs| - 1], s, r);
      assert rs == rs[..|rs| - 1] + [rs[|rs| - 1]];
    }
  }

  lemma {:induction false} RestrictDistinct(rs: seq<Resource>, s: set<string>)
    requires Distinct(Ids(rs))
    ensures Distinct(Ids(Restrict(rs, s)))
  {
    if rs != [] {
      var front, last := rs[..|rs| - 1], rs[|rs| - 1];
      forall i, j | 0 <= i < j < |front| ensures Ids(front)[i] != Ids(front)[j] {
        assert Ids(rs)[i] == Ids(front)[i] && Ids(rs)[j] == Ids(front)[j];
      }
      RestrictDistinct(front, s);
      var kept := Restrict(front, s);
      forall i | 0 <= i < |kept| ensures kept[i].id != last.id {
        RestrictMember(front, s, kept[i]);
        var k :| 0 <= k < |front| && front[k] == kept[i];
        assert Ids(rs)[k] == front[k].id && Ids(rs)[|rs| - 1] == last.id;
      }
    }
  }

  lemma RestrictFind(rs: seq<Resource>, s: set<string>, id: string)
    requires Distinct(Ids(rs))
    ensures Find(Restrict(rs, s), id) == if id in s then Find(rs, id) else None
  {
    RestrictDistinct(rs, s);
    var f := Find(Restrict(rs, s), id);
    if f.Some? {
      RestrictMember(rs, s, f.value);
      FindUnique(rs, f.value);
    }
    if id in s && Find(rs, id).Some? {
      RestrictMember(rs, s, Find(rs, id).value);
    }
  }

  lemma RestrictEdge(rs: seq<Resource>, s: set<string>, owners: bool, a: string, b: string)
    requires Distinct(Ids(rs)) && Edge(EdgesOf(Restrict(rs, s), owners), a, b)
    ensures Edge(EdgesOf(rs, owners), a, b)
  {
    RestrictDistinct(rs, s);
    var r :| r in Restrict(rs, s) && r.id == a;
    RestrictMember(rs, s, r);
    EdgesAt(rs, owners, r);
    EdgesAt(Restrict(rs, s), owners, r);
  }

  lemma RestrictPath(rs: seq<Resource>, s: set<string>, owners: bool, p: seq<string>)
    requires Distinct(Ids(rs)) && IsPath(EdgesOf(Restrict(rs, s), owners), p)
    ensures IsPath(EdgesOf(rs, owners), p)
  {
    forall i | 0 <= i < |p| - 1 ensures Edge(EdgesOf(rs, owners), p[i], p[i + 1]) {
      RestrictEdge(rs, s, owners, p[i], p[i + 1]);
    }
  }

  lemma RestrictAcyclic(rs: seq<Resource>, s: set<string>, owners: bool)
    requires Distinct(Ids(rs)) && Acyclic(EdgesOf(rs, owners))
    ensures Acyclic(EdgesOf(Restrict(rs, s), owners))
  {
    forall p ensures !IsCycle(EdgesOf(Restrict(rs, s), owners), p) {
      if IsCycle(EdgesOf(Restrict(rs, s), owners), p) {
        RestrictPath(rs, s, owners, p);
        assert IsCycle(EdgesOf(rs, owners), p);
      }
    }
  }

  lemma RestrictInherited(rs: seq<Resource>, s: set<string>)
    requires Distinct(Ids(rs)) && InheritedOk(rs)
    ensures InheritedOk(Restrict(rs, s))
  {
    var kept := Restrict(rs, s);
    forall r, own, inherited | r in kept && own in kept && inherited in kept && Inherits(EdgesOf(kept, false), r, own, inherited)
      ensures Compatible(own, inherited)
    {
      RestrictMember(rs, s, r);
      RestrictMember(rs, s, own);
      RestrictMember(rs, s, inherited);
      var p :| IsPath(EdgesOf(kept, false), p) && |p| > 1 && p[0] == r.id && p[|p| - 1] == inherited.owner.value;
      RestrictPath(rs, s, false, p);
      assert Inherits(EdgesOf(rs, false), r, own, inherited);
    }
  }

  /** Every property of the slice has its value type in the slice, unless the type is scalar. */
  predicate ValueTypesCovered(rs: seq<Resource>, s: set<string>) {
    forall r :: r in rs && r.id in s && r.kind == "property" && r.valueType.Some? && !ScalarType(r.valueType.value) ==>
      r.valueType.value in s
  }

  /** A known name that a resource mentions, other than as its value type, is in every closed set with the resource. */
  lemma MentionedIsKept(rs: seq<Resource>, s: set<string>, r: Resource, x: string)
    requires Distinct(Ids(rs)) && DependencyClosed(rs, s) && r in rs && r.id in s && Known(rs, x)
    requires x in r.references || x in Owners(r) || x in Parents(r) || x in NamesIn(r.sourceType) || x in NamesIn(r.targetType)
    ensures x in s
  {
    FindUnique(rs, r);
    assert x in Dependencies(rs, r);
    assert DependsOn(rs, r.id, x);
  }

  lemma KeptKnown(rs: seq<Resource>, s: set<string>, x: string)
    requires Distinct(Ids(rs))
    ensures Known(Restrict(rs, s), x) <==> Known(rs, x) && x in s
    ensures TypeResource(Restrict(rs, s), x) <==> TypeResource(rs, x) && x in s
  {
    RestrictFind(rs, s, x);
  }

  lemma RestrictResource(rs: seq<Resource>, s: set<string>, r: Resource)
    requires Distinct(Ids(rs)) && DependencyClosed(rs, s) && r in rs && r.id in s && ResourceOk(rs, r)
    ensures ResourceOk(Restrict(rs, s), r) <==>
      (r.kind == "property" && !ScalarType(r.valueType.value) ==> r.valueType.value in s)
  {
    hide Known, TypeResource, DependencyClosed, Restrict, Distinct, Ids;
    var kept := Restrict(rs, s);
    forall x ensures (Known(kept, x) <==> Known(rs, x) && x in s) && (TypeResource(kept, x) <==> TypeResource(rs, x) && x in s) {
      KeptKnown(rs, s, x);
    }
    forall x ensures TypeResource(rs, x) ==> Known(rs, x) { TypeIsKnown(rs, x); }
    forall x | x in r.references ensures x in s { MentionedIsKept(rs, s, r, x); }
    forall x | x in Parents(r) ensures x in s { MentionedIsKept(rs, s, r, x); }
    if r.owner.Some? { MentionedIsKept(rs, s, r, r.owner.value); }
    if r.kind == "link_type" {
      MentionedIsKept(rs, s, r, r.sourceType.name);
      MentionedIsKept(rs, s, r, r.targetType.name);
    }
  }

  lemma TypeIsKnown(rs: seq<Resource>, x: string)
    ensures TypeResource(rs, x) ==> Known(rs, x)
  {
  }

  /** A dependency-closed slice of a valid ontology is valid exactly when it covers its value types. */
  lemma SliceValidIff(o: Ontology, s: set<string>)
    requires Valid(o) && DependencyClosed(o.resources, s)
    ensures Valid(o.(resources := Restrict(o.resources, s))) <==> ValueTypesCovered(o.resources, s)
  {
    var rs := o.resources;
    var kept := Restrict(rs, s);
    RestrictDistinct(rs, s);
    RestrictAcyclic(rs, s, false);
    RestrictAcyclic(rs, s, true);
    RestrictInherited(rs, s);
    forall r ensures r in kept <==> r in rs && r.id in s { RestrictMember(rs, s, r); }
    forall r | r in kept
      ensures ResourceOk(kept, r) <==> (r.kind == "property" && !ScalarType(r.valueType.value) ==> r.valueType.value in s)
    {
      RestrictResource(rs, s, r);
    }
  }

  /** Listing resource-valued types among the references is enough for every slice to be valid. */
  lemma ListedTypesAreCovered(o: Ontology, s: set<string>)
    requires Valid(o) && DependencyClosed(o.resources, s)
    requires forall r :: r in o.resources && r.kind == "property" && !ScalarType(r.valueType.value) ==>
               r.valueType.value in r.references
    ensures ValueTypesCovered(o.resources, s)
  {
    forall r | r in o.resources && r.id in s && r.kind == "property" && !ScalarType(r.valueType.value)
      ensures r.valueType.value in s
    {
      FindUnique(o.resources, r);
      assert ResourceOk(o.resources, r);
      assert DependsOn(o.resources, r.id, r.valueType.value);
    }
  }

  // ---- the closure ---------------------------------------------------------

  /** Every dependency-closed set that holds the selection holds `x`. */
  ghost predicate Forced(rs: seq<Resource>, selection: set<string>, x: string) {
    forall t :: selection <= t && DependencyClosed(rs, t) ==> x in t
  }

  ghost function Closure(rs: seq<Resource>, selection: set<string>): set<string> {
    set x | x in AllIds(rs) && Forced(rs, selection, x)
  }

  lemma AllIdsClosed(rs: seq<Resource>)
    ensures DependencyClosed(rs, AllIds(rs))
  {
    forall a, b | a in AllIds(rs) && DependsOn(rs, a, b) ensures b in AllIds(rs) {
      var r := Find(rs, b).value;
      assert r in rs;
    }
  }

  /** The forced resources are the least dependency-closed set that holds the selection, and the only such set. */
  lemma ClosureIsLeast(rs: seq<Resource>, selection: set<string>)
    requires selection <= AllIds(rs)
    ensures IsClosure(rs, selection, Closure(rs, selection))
    ensures forall s :: IsClosure(rs, selection, s) ==> s == Closure(rs, selection)
  {
    hide DependsOn;
    AllIdsClosed(rs);
    var c := Closure(rs, selection);
    forall a, b | a in c && DependsOn(rs, a, b) ensures b in c {
      assert b in AllIds(rs);
      forall t | selection <= t && DependencyClosed(rs, t) ensures b in t { assert a in t; }
    }
    assert IsClosure(rs, selection, c);
    forall s | IsClosure(rs, selection, s) ensures s == c {
      assert s <= c && c <= s;
    }
  }

  /** Selecting more never closes to less. */
  lemma ClosureMonotone(rs: seq<Resource>, small: set<string>, large: set<string>)
    requires small <= large
    ensures Closure(rs, small) <= Closure(rs, large)
  {
    hide DependencyClosed;
    forall x | x in Closure(rs, small) ensures x in Closure(rs, large) {
      forall t | large <= t && DependencyClosed(rs, t) ensures x in t { assert small <= t; }
    }
  }

  // ---- inside a slice ------------------------------------------------------

  lemma SelectionInside(rs: seq<Resource>, ids: seq<string>, kinds: seq<string>, t: set<string>)
    requires Selection(rs, ids, kinds) <= t
    ensures Selection(Restrict(rs, t), ids, kinds) == Selection(rs, ids, kinds)
  {
    forall r ensures r in Restrict(rs, t) <==> r in rs && r.id in t { RestrictMember(rs, t, r); }
  }

  /** The closure of a selection inside its own slice is what it was outside. */
  lemma ClosureInside(rs: seq<Resource>, selection: set<string>, t: set<string>)
    requires Distinct(Ids(rs)) && selection <= AllIds(rs) && t == Closure(rs, selection)
    ensures selection <= AllIds(Restrict(rs, t)) && Closure(Restrict(rs, t), selection) == t
  {
    hide DependsOn;
    ClosureIsLeast(rs, selection);
    var kept := Restrict(rs, t);
    forall r ensures r in kept <==> r in rs && r.id in t { RestrictMember(rs, t, r); }
    assert AllIds(kept) == t;
    forall a, b | a in t && DependsOn(kept, a, b) ensures b in t {
      DependsInSlice(rs, t, a, b);
    }
    forall u | selection <= u && DependencyClosed(kept, u) ensures t <= u {
      ClosedOutside(rs, t, u);
      assert selection <= u * t;
    }
    assert IsClosure(kept, selection, t);
    ClosureIsLeast(kept, selection);
  }

  lemma ClosedOutside(rs: seq<Resource>, t: set<string>, u: set<string>)
    requires Distinct(Ids(rs)) && DependencyClosed(rs, t) && DependencyClosed(Restrict(rs, t), u)
    ensures DependencyClosed(rs, u * t)
  {
    hide DependsOn;
    forall a, b | a in u * t && DependsOn(rs, a, b) ensures b in u * t {
      DependsIntoSlice(rs, t, a, b);
    }
  }

  lemma DependsIntoSlice(rs: seq<Resource>, s: set<string>, a: string, b: string)
    requires Distinct(Ids(rs)) && DependsOn(rs, a, b) && a in s && b in s
    ensures DependsOn(Restrict(rs, s), a, b)
  {
    RestrictFind(rs, s, a);
    RestrictFind(rs, s, b);
    var r := Find(rs, a).value;
    if b in OwnedProperties(rs, r.id) {
      OwnedKept(rs, s, a, b);
    }
  }

  lemma {:induction false} OwnedKept(rs: seq<Resource>, s: set<string>, owner: string, b: string)
    requires b in OwnedProperties(rs, owner) && b in s
    ensures b in OwnedProperties(Restrict(rs, s), owner)
  {
    var front, last := rs[..|rs| - 1], rs[|rs| - 1];
    var kept := Restrict(rs, s);
    if last.id in s {
      assert kept[..|kept| - 1] == Restrict(front, s) && kept[|kept| - 1] == last;
    } else {
      assert kept == Restrict(front, s);
    }
    if b in OwnedProperties(front, owner) {
      OwnedKept(front, s, owner, b);
    }
  }

  lemma DependsInSlice(rs: seq<Resource>, s: set<string>, a: string, b: string)
    requires Distinct(Ids(rs)) && DependsOn(Restrict(rs, s), a, b)
    ensures DependsOn(rs, a, b)
  {
    RestrictFind(rs, s, a);
    RestrictFind(rs, s, b);
    var r := Find(rs, a).value;
    if b in OwnedProperties(Restrict(rs, s), r.id) {
      OwnedInSlice(rs, s, a, b);
    }
  }

  lemma {:induction false} OwnedInSlice(rs: seq<Resource>, s: set<string>, owner: string, b: string)
    requires b in OwnedProperties(Restrict(rs, s), owner)
    ensures b in OwnedProperties(rs, owner)
  {
    if rs != [] {
      var front, last := rs[..|rs| - 1], rs[|rs| - 1];
      if last.id in s {
        var kept := Restrict(rs, s);
        assert kept[..|kept| - 1] == Restrict(front, s) && kept[|kept| - 1] == last;
        if b in OwnedProperties(Restrict(front, s), owner) {
          OwnedInSlice(front, s, owner, b);
        }
      } else {
        assert Restrict(rs, s) == Restrict(front, s);
        OwnedInSlice(front, s, owner, b);
      }
    }
  }

  lemma {:induction false} RestrictTwice(rs: seq<Resource>, s: set<string>, t: set<string>)
    requires t <= s
    ensures Restrict(Restrict(rs, s), t) == Restrict(rs, t)
  {
    if rs != [] {
      var front, last := rs[..|rs| - 1], rs[|rs| - 1];
      RestrictTwice(front, s, t);
      var kept := Restrict(rs, s);
      if last.id in s {
        assert kept[..|kept| - 1] == Restrict(front, s) && kept[|kept| - 1] == last;
      } else {
        assert kept == Restrict(front, s);
      }
    }
  }

  // ---- the operation -------------------------------------------------------

  /** What a selector takes: the selection itself, or everything it depends on. */
  ghost function Taken(rs: seq<Resource>, ids: seq<string>, kinds: seq<string>, includeDependencies: bool): set<string> {
    if includeDependencies then Closure(rs, Selection(rs, ids, kinds)) else Selection(rs, ids, kinds)
  }

  ghost predicate MalformedAmong(rs: seq<Resource>, s: set<string>) {
    exists x :: x in s && Find(rs, x).Some? && MalformedResource(Find(rs, x).value)
  }

  function Cut(o: Ontology, s: set<string>): Ontology {
    o.(resources := Restrict(o.resources, s))
  }

  /** The slice, or the reason why there is none. */
  ghost function Sliced(o: Ontology, ids: seq<string>, kinds: seq<string>, includeDependencies: bool): Result<Ontology, SliceError> {
    var s := Taken(o.resources, ids, kinds, includeDependencies);
    if !Valid(o) then Err(InvalidOntology)
    else if !SelectorOk(o.resources, ids, kinds) then Err(InvalidSelector)
    else if includeDependencies && MalformedAmong(o.resources, s) then Err(MalformedAttribute)
    else if !Valid(Cut(o, s)) then Err(InvalidSlice)
    else Ok(Cut(o, s))
  }

  lemma SelectionKnown(rs: seq<Resource>, ids: seq<string>, kinds: seq<string>)
    ensures Selection(rs, ids, kinds) <= AllIds(rs)
  {
  }

  /** Cuts the selected resources out of an ontology, with everything they depend on when asked to. */
  method Slice(o: Ontology, ids: seq<string>, kinds: seq<string>, includeDependencies: bool)
    returns (r: Result<Ontology, SliceError>)
    ensures r == Sliced(o, ids, kinds, includeDependencies)
  {
    hide Valid, DependsOn, Closure, DependencyClosed, SelectorOk, MalformedResource;
    var valid := ValidateOntology(o);
    if !valid {
      return Err(InvalidOntology);
    }
    if !SelectorOk(o.resources, ids, kinds) {
      return Err(InvalidSelector);
    }
    var selected := Selection(o.resources, ids, kinds);
    SelectionKnown(o.resources, ids, kinds);
    if includeDependencies {
      ClosureIsLeast(o.resources, selected);
      var closed := CloseSelection(o.resources, selected);
      if closed.None? {
        ForcedIsTaken(o.resources, selected);
        return Err(MalformedAttribute);
      }
      selected := closed.value;
    }
    var sliced := o.(resources := Restrict(o.resources, selected));
    valid := ValidateOntology(sliced);
    if !valid {
      return Err(InvalidSlice);
    }
    return Ok(sliced);
  }

  lemma ForcedIsTaken(rs: seq<Resource>, selection: set<string>)
    requires exists x :: (forall t :: selection <= t && DependencyClosed(rs, t) ==> x in t) &&
                         Find(rs, x).Some? && MalformedResource(Find(rs, x).value)
    ensures MalformedAmong(rs, Closure(rs, selection))
  {
    hide DependencyClosed, MalformedResource;
    var x :| (forall t :: selection <= t && DependencyClosed(rs, t) ==> x in t) &&
             Find(rs, x).Some? && MalformedResource(Find(rs, x).value);
    assert Find(rs, x).value in rs;
    assert x in Closure(rs, selection);
  }

  /** With dependencies, the final validation fails exactly if the closed selection leaves out a value type. */
  lemma SliceFailsIff(o: Ontology, ids: seq<string>, kinds: seq<string>)
    requires Valid(o) && SelectorOk(o.resources, ids, kinds)
    requires !MalformedAmong(o.resources, Closure(o.resources, Selection(o.resources, ids, kinds)))
    ensures Sliced(o, ids, kinds, true) == Err(InvalidSlice) <==>
            !ValueTypesCovered(o.resources, Closure(o.resources, Selection(o.resources, ids, kinds)))
  {
    hide Valid, Closure, SelectorOk, ValueTypesCovered, MalformedAmong;
    SelectionKnown(o.resources, ids, kinds);
    ClosureIsLeast(o.resources, Selection(o.resources, ids, kinds));
    SliceValidIff(o, Closure(o.resources, Selection(o.resources, ids, kinds)));
  }

  lemma ValidDistinct(o: Ontology)
    requires Valid(o)
    ensures Distinct(Ids(o.resources))
  {
  }

  lemma TakenInside(rs: seq<Resource>, ids: seq<string>, kinds: seq<string>, includeDependencies: bool)
    requires Distinct(Ids(rs))
    ensures var t := Taken(rs, ids, kinds, includeDependencies);
            Selection(rs, ids, kinds) <= t && Taken(Restrict(rs, t), ids, kinds, includeDependencies) == t
  {
    hide Closure;
    var selection, t := Selection(rs, ids, kinds), Taken(rs, ids, kinds, includeDependencies);
    SelectionKnown(rs, ids, kinds);
    ClosureIsLeast(rs, selection);
    SelectionInside(rs, ids, kinds, t);
    if includeDependencies {
      ClosureInside(rs, selection, t);
    }
  }

  lemma SelectorInside(rs: seq<Resource>, ids: seq<string>, kinds: seq<string>, t: set<string>)
    requires Distinct(Ids(rs)) && SelectorOk(rs, ids, kinds) && Selection(rs, ids, kinds) <= t
    ensures SelectorOk(Restrict(rs, t), ids, kinds)
  {
    forall id | id in ids ensures Known(Restrict(rs, t), id) {
      assert Find(rs, id).value in rs;
      assert id in Selection(rs, ids, kinds);
      RestrictFind(rs, t, id);
    }
  }

  lemma MalformedInside(rs: seq<Resource>, t: set<string>)
    requires Distinct(Ids(rs)) && MalformedAmong(Restrict(rs, t), t)
    ensures MalformedAmong(rs, t)
  {
    var x :| x in t && Find(Restrict(rs, t), x).Some? && MalformedResource(Find(Restrict(rs, t), x).value);
    RestrictFind(rs, t, x);
  }

  /** Slicing a slice by the same selector gives the slice back. */
  lemma SliceIdempotent(o: Ontology, ids: seq<string>, kinds: seq<string>, includeDependencies: bool)
    requires Sliced(o, ids, kinds, includeDependencies).Ok?
    ensures var v := Sliced(o, ids, kinds, includeDependencies).value; Sliced(v, ids, kinds, includeDependencies) == Ok(v)
  {
    hide Valid, Taken, SelectorOk, MalformedAmong, Selection;
    var rs, t := o.resources, Taken(o.resources, ids, kinds, includeDependencies);
    ValidDistinct(o);
    TakenInside(rs, ids, kinds, includeDependencies);
    SelectorInside(rs, ids, kinds, t);
    if MalformedAmong(Restrict(rs, t), t) { MalformedInside(rs, t); }
    RestrictTwice(rs, t, t);
  }

  /** A wider selector takes a wider slice: the smaller one is a slice of the larger one. */
  lemma SliceMonotone(o: Ontology, ids: seq<string>, kinds: seq<string>, ids': seq<string>, kinds': seq<string>, includeDependencies: bool)
    requires (forall x :: x in ids ==> x in ids') && (forall k :: k in kinds ==> k in kinds')
    requires Sliced(o, ids, kinds, includeDependencies).Ok? && Sliced(o, ids', kinds', includeDependencies).Ok?
    ensures var small := Sliced(o, ids, kinds, includeDependencies).value;
            var large := Sliced(o, ids', kinds', includeDependencies).value;
            && small == Cut(large, Taken(o.resources, ids, kinds, includeDependencies))
            && forall r :: r in small.resources ==> r in large.resources
  {
    hide Valid, Closure, SelectorOk, MalformedAmong;
    var rs := o.resources;
    var s, t := Taken(rs, ids, kinds, includeDependencies), Taken(rs, ids', kinds', includeDependencies);
    assert Selection(rs, ids, kinds) <= Selection(rs, ids', kinds');
    ClosureMonotone(rs, Selection(rs, ids, kinds), Selection(rs, ids', kinds'));
    RestrictTwice(rs, t, s);
    forall r | r in Restrict(rs, s) ensures r in Restrict(rs, t) {
      RestrictMember(rs, s, r);
      RestrictMember(rs, t, r);
    }
  }

  // ---- what a slice holds, resource by resource ----------------------------

  /** An attribute names `b`, alone or in a list. */
  predicate Names(f: NameField, b: string) {
    match f
    case One(n) => n == b
    case Many(ns) => b in ns
    case Absent => false
    case Malformed => false
  }

  /** The resource mentions `b` in one of the fields that a slice follows. */
  predicate Mentions(r: Resource, b: string) {
    || b in r.references
    || r.owner == Some(b)
    || b in r.supertypes || b in r.interfaces
    || Names(r.sourceType, b) || Names(r.targetType, b)
  }

  /** `q` is a property that belongs to the type `owner`. */
  predicate BelongsTo(q: Resource, owner: string) {
    q.kind == "property" && q.owner == Some(owner)
  }

  lemma {:induction false} OwnedMeans(rs: seq<Resource>, owner: string, b: string)
    ensures b in OwnedProperties(rs, owner) <==> exists q :: q in rs && q.id == b && BelongsTo(q, owner)
  {
    if rs != [] {
      var front, last := rs[..|rs| - 1], rs[|rs| - 1];
      OwnedMeans(front, owner, b);
      assert rs == front + [last];
      if last.id == b && BelongsTo(last, owner) { assert last in rs; }
    }
  }

  lemma DependencyListed(rs: seq<Resource>, r: Resource, b: string)
    ensures b in Dependencies(rs, r) <==> Mentions(r, b) || b in OwnedProperties(rs, r.id)
  {
    hide OwnedProperties;
    NamesListed(r.sourceType, b);
    NamesListed(r.targetType, b);
  }

  lemma NamesListed(f: NameField, b: string)
    ensures b in NamesIn(f) <==> Names(f, b)
  {
  }

  /** Exactly what one resource pulls into a slice with it. */
  lemma DependsOnMeans(rs: seq<Resource>, r: Resource, q: Resource)
    requires Distinct(Ids(rs)) && r in rs && q in rs
    ensures DependsOn(rs, r.id, q.id) <==> Mentions(r, q.id) || BelongsTo(q, r.id)
  {
    hide Distinct, OwnedProperties, Dependencies, Mentions;
    FindUnique(rs, r);
    FindUnique(rs, q);
    DependencyListed(rs, r, q.id);
    OwnedMeans(rs, r.id, q.id);
    if x :| x in rs && x.id == q.id && BelongsTo(x, r.id) { FindUnique(rs, x); }
  }

  lemma CutMember(o: Ontology, s: set<string>, r: Resource)
    ensures r in Cut(o, s).resources <==> r in o.resources && r.id in s
  {
    RestrictMember(o.resources, s, r);
  }

  /** Without dependencies a slice holds exactly the resources that the selector names by id or by kind. */
  lemma PlainSliceMeans(o: Ontology, ids: seq<string>, kinds: seq<string>, r: Resource)
    requires Sliced(o, ids, kinds, false).Ok?
    ensures r in Sliced(o, ids, kinds, false).value.resources <==> r in o.resources && (r.id in ids || r.kind in kinds)
  {
    hide SelectorOk;
    ValidDistinct(o);
    CutMember(o, Selection(o.resources, ids, kinds), r);
    if r in o.resources && r.id in Selection(o.resources, ids, kinds) {
      var q :| q in o.resources && (q.id in ids || q.kind in kinds) && q.id == r.id;
      FindUnique(o.resources, q);
      FindUnique(o.resources, r);
    }
  }

  /** A resource that every set holds which holds the selected ones and, with a resource, whatever it mentions or owns. */
  ghost predicate Needed(o: Ontology, ids: seq<string>, kinds: seq<string>, r: Resource) {
    forall t: set<Resource> :: Saturated(o, ids, kinds, t) ==> r in t
  }

  ghost predicate Saturated(o: Ontology, ids: seq<string>, kinds: seq<string>, t: set<Resource>) {
    && (forall r :: r in o.resources && (r.id in ids || r.kind in kinds) ==> r in t)
    && (forall r, q :: r in t && r in o.resources && q in o.resources && (Mentions(r, q.id) || BelongsTo(q, r.id)) ==> q in t)
  }

  /** With dependencies a slice holds what the selector names and, with each resource, whatever it mentions or owns. */
  lemma SliceIsSaturated(o: Ontology, ids: seq<string>, kinds: seq<string>)
    requires Sliced(o, ids, kinds, true).Ok?
    ensures Saturated(o, ids, kinds, set r | r in Sliced(o, ids, kinds, true).value.resources)
  {
    hide SelectorOk, Closure, DependsOn, MalformedAmong, Mentions, BelongsTo, Valid;
    var rs, s := o.resources, Closure(o.resources, Selection(o.resources, ids, kinds));
    ValidDistinct(o);
    SelectionKnown(rs, ids, kinds);
    ClosureIsLeast(rs, Selection(rs, ids, kinds));
    forall r ensures r in Cut(o, s).resources <==> r in rs && r.id in s { CutMember(o, s, r); }
    forall r, q | r in rs && r.id in s && q in rs && (Mentions(r, q.id) || BelongsTo(q, r.id)) ensures q.id in s {
      DependsOnMeans(rs, r, q);
    }
  }

  /** And it holds nothing else: the slice with dependencies is exactly what is needed. */
  lemma ClosedSliceMeans(o: Ontology, ids: seq<string>, kinds: seq<string>, r: Resource)
    requires Sliced(o, ids, kinds, true).Ok?
    ensures r in Sliced(o, ids, kinds, true).value.resources <==> r in o.resources && Needed(o, ids, kinds, r)
  {
    hide SelectorOk, Closure, DependsOn, MalformedAmong, Saturated, Valid;
    var rs, s := o.resources, Closure(o.resources, Selection(o.resources, ids, kinds));
    CutMember(o, s, r);
    SliceIsSaturated(o, ids, kinds);
    if r in rs && Needed(o, ids, kinds, r) {
      assert r in set x | x in Sliced(o, ids, kinds, true).value.resources;
    }
    if r in rs && r.id in s {
      ValidDistinct(o);
      forall t: set<Resource> | Saturated(o, ids, kinds, t) ensures r in t { TakenIsSaturated(o, ids, kinds, t, r); }
    }
  }

  lemma TakenIsSaturated(o: Ontology, ids: seq<string>, kinds: seq<string>, t: set<Resource>, r: Resource)
    requires Distinct(Ids(o.resources)) && Saturated(o, ids, kinds, t) && r in o.resources
    requires r.id in Closure(o.resources, Selection(o.resources, ids, kinds))
    ensures r in t
  {
    hide DependsOn, Mentions, BelongsTo, Distinct;
    var rs := o.resources;
    var named := set x | x in rs && x in t :: x.id;
    forall a, b | a in named && DependsOn(rs, a, b) ensures b in named {
      var x :| x in rs && x in t && x.id == a;
      var y := KnownTarget(rs, a, b);
      DependsOnMeans(rs, x, y);
    }
    assert Selection(rs, ids, kinds) <= named;
    assert DependencyClosed(rs, named);
    assert r.id in named;
    var x :| x in rs && x in t && x.id == r.id;
    FindUnique(rs, x);
    FindUnique(rs, r);
  }

  lemma KnownTarget(rs: seq<Resource>, a: string, b: string) returns (y: Resource)
    requires DependsOn(rs, a, b)
    ensures y in rs && y.id == b
  {
    y := Find(rs, b).value;
  }
}
