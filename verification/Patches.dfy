/** Structural differences between JSON documents, and what applying them does. */
module Patches {
  import opened Json

  type Path = seq<string>

  datatype Change = Change(path: Path, before: Option<Value>, after: Option<Value>)

  /** The value at a path, absent as soon as the path leaves the objects of the document. */
  function At(v: Option<Value>, p: Path): Option<Value>
    decreases |p|
  {
    if p == [] then v else At(Get(v, p[0]), p[1..])
  }

  function WithField(fields: map<string, Value>, key: string, x: Option<Value>): map<string, Value> {
    if x.Some? then fields[key := x.value] else fields - {key}
  }

  /** Puts `x` at a path, or removes what is there; a path that leaves the objects changes nothing. */
  function SetAt(v: Option<Value>, p: Path, x: Option<Value>): Option<Value>
    decreases |p|
  {
    if p == [] then x
    else if !IsObject(v) then v
    else Some(Obj(WithField(v.value.fields, p[0], SetAt(Get(v, p[0]), p[1..], x))))
  }

  function ApplyAll(v: Option<Value>, cs: seq<Change>): Option<Value>
    decreases |cs|
  {
    if cs == [] then v else ApplyAll(SetAt(v, cs[0].path, cs[0].after), cs[1..])
  }

  /** The changes that turn `b` into `a`, with paths relative to this place. */
  ghost function Diff(b: Option<Value>, a: Option<Value>): set<Change>
    decreases b.Some?, if b.Some? then b.value else Null
  {
    if b == a then {}
    else if IsObject(b) && IsObject(a) then
      set k, c | k in Keys(b) + Keys(a) && c in Diff(Get(b, k), Get(a, k)) :: Change([k] + c.path, c.before, c.after)
    else {Change([], b, a)}
  }

  ghost function Elements(cs: seq<Change>): set<Change> {
    set c | c in cs
  }

  // ---- objects are determined by their fields ------------------------------

  lemma ObjectsEqual(x: Option<Value>, y: Option<Value>)
    requires IsObject(x) && IsObject(y) && forall k :: Get(x, k) == Get(y, k)
    ensures x == y
  {
    var f, g := x.value.fields, y.value.fields;
    forall k ensures k in f <==> k in g && (k in f ==> f[k] == g[k]) {
      assert Get(x, k) == Get(y, k);
    }
    assert f == g;
  }

  lemma SetAtField(v: Option<Value>, p: Path, x: Option<Value>, k: string)
    requires IsObject(v) && p != []
    ensures IsObject(SetAt(v, p, x))
    ensures Get(SetAt(v, p, x), k) == if k == p[0] then SetAt(Get(v, k), p[1..], x) else Get(v, k)
  {
  }

  /** The changes below one field, relative to that field. */
  function Sub(cs: seq<Change>, k: string): seq<Change> {
    if cs == [] then []
    else
      var c := cs[0];
      (if c.path != [] && c.path[0] == k then [Change(c.path[1..], c.before, c.after)] else []) + Sub(cs[1..], k)
  }

  /** Applying changes to an object applies to each field the changes below it. */
  lemma {:induction false} ApplyByField(v: Option<Value>, cs: seq<Change>, k: string)
    requires IsObject(v) && forall c :: c in cs ==> c.path != []
    ensures IsObject(ApplyAll(v, cs))
    ensures Get(ApplyAll(v, cs), k) == ApplyAll(Get(v, k), Sub(cs, k))
    decreases |cs|
  {
    if cs != [] {
      var c := cs[0];
      assert c in cs;
      SetAtField(v, c.path, c.after, k);
      var v' := SetAt(v, c.path, c.after);
      ApplyByField(v', cs[1..], k);
      if c.path[0] == k {
        var below := Change(c.path[1..], c.before, c.after);
        assert Sub(cs, k) == [below] + Sub(cs[1..], k);
        assert Sub(cs, k)[1..] == Sub(cs[1..], k);
      } else {
        assert Sub(cs, k) == Sub(cs[1..], k);
      }
    }
  }

  lemma {:induction false} SubMember(cs: seq<Change>, k: string, c: Change)
    ensures c in Sub(cs, k) <==> Change([k] + c.path, c.before, c.after) in cs
  {
    if cs != [] {
      SubMember(cs[1..], k, c);
      var d := cs[0];
      assert cs == [d] + cs[1..];
      assert ([k] + c.path)[1..] == c.path;
      if d.path != [] && d.path[0] == k {
        assert d.path == [k] + d.path[1..];
      }
    }
  }

  /** Listing all changes lists, below every field, the changes of that field. */
  lemma SubDiff(b: Option<Value>, a: Option<Value>, cs: seq<Change>, k: string)
    requires IsObject(b) && IsObject(a) && Elements(cs) == Diff(b, a)
    ensures Elements(Sub(cs, k)) == Diff(Get(b, k), Get(a, k))
  {
    forall c ensures c in Sub(cs, k) <==> c in Diff(Get(b, k), Get(a, k)) {
      SubMember(cs, k, c);
      var up := Change([k] + c.path, c.before, c.after);
      assert up in cs <==> up in Diff(b, a);
      DiffField(b, a, k, c);
    }
  }

  lemma DiffField(b: Option<Value>, a: Option<Value>, k: string, c: Change)
    requires IsObject(b) && IsObject(a)
    ensures Change([k] + c.path, c.before, c.after) in Diff(b, a) <==> c in Diff(Get(b, k), Get(a, k))
  {
    var up := Change([k] + c.path, c.before, c.after);
    if b != a && up in Diff(b, a) {
      var j, d :| j in Keys(b) + Keys(a) && d in Diff(Get(b, j), Get(a, j)) && up == Change([j] + d.path, d.before, d.after);
      assert ([j] + d.path)[0] == j && ([j] + d.path)[1..] == d.path;
      assert ([k] + c.path)[0] == k && ([k] + c.path)[1..] == c.path;
    }
    if c in Diff(Get(b, k), Get(a, k)) {
      assert k in Keys(b) + Keys(a);
    }
  }

  lemma DiffPathsGoDown(b: Option<Value>, a: Option<Value>, c: Change)
    requires IsObject(b) && IsObject(a) && c in Diff(b, a)
    ensures c.path != []
  {
  }

  lemma {:induction false} LeafApplied(v: Option<Value>, cs: seq<Change>, b: Option<Value>, a: Option<Value>)
    requires cs != [] && forall c :: c in cs ==> c == Change([], b, a)
    ensures ApplyAll(v, cs) == a
    decreases |cs|
  {
    assert cs[0] in cs;
    if |cs| > 1 {
      forall c | c in cs[1..] ensures c == Change([], b, a) { assert c in cs; }
      LeafApplied(a, cs[1..], b, a);
    }
  }

  lemma NoChanges(cs: seq<Change>)
    ensures Elements(cs) == {} <==> cs == []
  {
    if cs != [] { assert cs[0] in Elements(cs); }
  }

  // ---- a difference is a patch ---------------------------------------------

  /** Applying the changes from `b` to `a`, in any order, turns `b` into `a`. */
  lemma {:induction false} PatchDiff(b: Option<Value>, a: Option<Value>, cs: seq<Change>)
    requires Elements(cs) == Diff(b, a)
    ensures ApplyAll(b, cs) == a
    decreases b.Some?, if b.Some? then b.value else Null
  {
    if b == a {
      NoChanges(cs);
    } else if IsObject(b) && IsObject(a) {
      forall c | c in cs ensures c.path != [] {
        assert c in Elements(cs);
        DiffPathsGoDown(b, a, c);
      }
      forall k ensures Get(ApplyAll(b, cs), k) == Get(a, k) && IsObject(ApplyAll(b, cs)) {
        ApplyByField(b, cs, k);
        SubDiff(b, a, cs, k);
        PatchDiff(Get(b, k), Get(a, k), Sub(cs, k));
      }
      ObjectsEqual(ApplyAll(b, cs), a);
    } else {
      Leaf(b, a, cs);
      LeafApplied(b, cs, b, a);
    }
  }

  lemma Leaf(b: Option<Value>, a: Option<Value>, cs: seq<Change>)
    requires b != a && !(IsObject(b) && IsObject(a)) && Elements(cs) == Diff(b, a)
    ensures cs != [] && forall c :: c in cs ==> c == Change([], b, a)
  {
    assert Change([], b, a) in Elements(cs);
    forall c | c in cs ensures c == Change([], b, a) { assert c in Elements(cs); }
  }

  /** Applying the changes from `b` to `a` where they already hold changes nothing. */
  lemma {:induction false} PatchAgain(b: Option<Value>, a: Option<Value>, cs: seq<Change>)
    requires Elements(cs) == Diff(b, a)
    ensures ApplyAll(a, cs) == a
    decreases b.Some?, if b.Some? then b.value else Null
  {
    if b == a {
      NoChanges(cs);
    } else if IsObject(b) && IsObject(a) {
      forall c | c in cs ensures c.path != [] {
        assert c in Elements(cs);
        DiffPathsGoDown(b, a, c);
      }
      forall k ensures Get(ApplyAll(a, cs), k) == Get(a, k) && IsObject(ApplyAll(a, cs)) {
        ApplyByField(a, cs, k);
        SubDiff(b, a, cs, k);
        PatchAgain(Get(b, k), Get(a, k), Sub(cs, k));
      }
      ObjectsEqual(ApplyAll(a, cs), a);
    } else {
      Leaf(b, a, cs);
      LeafApplied(a, cs, b, a);
    }
  }

  /** No changed place lies inside another, which is why the order of changes does not matter. */
  lemma {:induction false} DiffPathsIncomparable(b: Option<Value>, a: Option<Value>, c: Change, d: Change)
    requires c in Diff(b, a) && d in Diff(b, a) && c.path <= d.path
    ensures c == d
    decreases b.Some?, if b.Some? then b.value else Null
  {
    if IsObject(b) && IsObject(a) {
      var j, c' :| j in Keys(b) + Keys(a) && c' in Diff(Get(b, j), Get(a, j)) && c == Change([j] + c'.path, c'.before, c'.after);
      var k, d' :| k in Keys(b) + Keys(a) && d' in Diff(Get(b, k), Get(a, k)) && d == Change([k] + d'.path, d'.before, d'.after);
      assert j == c.path[0] == d.path[0] == k;
      assert c'.path == c.path[1..] && d'.path == d.path[1..];
      assert c'.path <= d'.path;
      DiffPathsIncomparable(Get(b, j), Get(a, j), c', d');
    }
  }
}
