/** The three-way merge of ontology values: what it computes, its conflicts and its laws. */
module ThreeWay {
  import opened Json
  import opened Patches

  datatype Conflict = Conflict(path: Path, base: Option<Value>, left: Option<Value>, right: Option<Value>)

  function AllKeys(b: Option<Value>, l: Option<Value>, r: Option<Value>): set<string> {
    Keys(b) + Keys(l) + Keys(r)
  }

  /** All three versions are objects, so the merge continues field by field. */
  predicate Fieldwise(b: Option<Value>, l: Option<Value>, r: Option<Value>) {
    l != r && l != b && r != b && IsObject(b) && IsObject(l) && IsObject(r)
  }

  /** The merged value; where the sides conflict, the left one. */
  ghost function Merge(b: Option<Value>, l: Option<Value>, r: Option<Value>): Option<Value>
    decreases b.Some?, if b.Some? then b.value else Null
  {
    if l == r then l
    else if l == b then r
    else if r == b then l
    else if IsObject(b) && IsObject(l) && IsObject(r) then
      Some(Obj(map k | k in AllKeys(b, l, r) && Merge(Get(b, k), Get(l, k), Get(r, k)).Some? ::
                 Merge(Get(b, k), Get(l, k), Get(r, k)).value))
    else l
  }

  ghost function Conflicts(b: Option<Value>, l: Option<Value>, r: Option<Value>): set<Conflict>
    decreases b.Some?, if b.Some? then b.value else Null
  {
    if l == r || l == b || r == b then {}
    else if IsObject(b) && IsObject(l) && IsObject(r) then
      set k, c | k in AllKeys(b, l, r) && c in Conflicts(Get(b, k), Get(l, k), Get(r, k)) :: Below(k, c)
    else {Conflict([], b, l, r)}
  }

  function Below(k: string, c: Conflict): Conflict {
    c.(path := [k] + c.path)
  }

  // ---- merging objects is merging fields -----------------------------------

  lemma MergeAbsent(b: Option<Value>, l: Option<Value>, r: Option<Value>, k: string)
    requires k !in AllKeys(b, l, r)
    ensures Merge(Get(b, k), Get(l, k), Get(r, k)) == None && Conflicts(Get(b, k), Get(l, k), Get(r, k)) == {}
  {
  }

  /** The shortcuts for equal objects agree with merging every field. */
  lemma MergeField(b: Option<Value>, l: Option<Value>, r: Option<Value>, k: string)
    requires IsObject(b) && IsObject(l) && IsObject(r)
    ensures IsObject(Merge(b, l, r))
    ensures Get(Merge(b, l, r), k) == Merge(Get(b, k), Get(l, k), Get(r, k))
  {
    if Fieldwise(b, l, r) && k !in AllKeys(b, l, r) {
      MergeAbsent(b, l, r, k);
    }
  }

  lemma ConflictField(b: Option<Value>, l: Option<Value>, r: Option<Value>, k: string, c: Conflict)
    requires IsObject(b) && IsObject(l) && IsObject(r)
    ensures Below(k, c) in Conflicts(b, l, r) <==> c in Conflicts(Get(b, k), Get(l, k), Get(r, k))
  {
    if Fieldwise(b, l, r) {
      if Below(k, c) in Conflicts(b, l, r) {
        var j, d :| j in AllKeys(b, l, r) && d in Conflicts(Get(b, j), Get(l, j), Get(r, j)) && Below(k, c) == Below(j, d);
        assert ([j] + d.path)[0] == j && ([j] + d.path)[1..] == d.path;
        assert ([k] + c.path)[0] == k && ([k] + c.path)[1..] == c.path;
      }
      if c in Conflicts(Get(b, k), Get(l, k), Get(r, k)) && k !in AllKeys(b, l, r) {
        MergeAbsent(b, l, r, k);
      }
    }
  }

  lemma ConflictsDown(b: Option<Value>, l: Option<Value>, r: Option<Value>, c: Conflict)
    requires IsObject(b) && IsObject(l) && IsObject(r) && c in Conflicts(b, l, r)
    ensures c.path != [] && c == Below(c.path[0], c.(path := c.path[1..]))
    ensures c.(path := c.path[1..]) in Conflicts(Get(b, c.path[0]), Get(l, c.path[0]), Get(r, c.path[0]))
  {
    var k, d :| k in AllKeys(b, l, r) && d in Conflicts(Get(b, k), Get(l, k), Get(r, k)) && c == Below(k, d);
    assert c.path[0] == k && c.path[1..] == d.path;
  }

  lemma NoFieldConflicts(b: Option<Value>, l: Option<Value>, r: Option<Value>, k: string)
    requires IsObject(b) && IsObject(l) && IsObject(r) && Conflicts(b, l, r) == {}
    ensures Conflicts(Get(b, k), Get(l, k), Get(r, k)) == {}
  {
    forall c | c in Conflicts(Get(b, k), Get(l, k), Get(r, k)) ensures false {
      ConflictField(b, l, r, k, c);
    }
  }

  /** Versions that differ pairwise and are not all objects conflict as a whole. */
  lemma Atomic(b: Option<Value>, l: Option<Value>, r: Option<Value>)
    ensures l == r || l == b || r == b || Fieldwise(b, l, r) || Conflict([], b, l, r) in Conflicts(b, l, r)
  {
  }

  // ---- laws ----------------------------------------------------------------

  /** A conflict records what the three versions hold at its path, and they differ pairwise. */
  lemma {:induction false} ConflictIsReal(b: Option<Value>, l: Option<Value>, r: Option<Value>, c: Conflict)
    requires c in Conflicts(b, l, r)
    ensures c.base == At(b, c.path) && c.left == At(l, c.path) && c.right == At(r, c.path)
    ensures c.left != c.right && c.left != c.base && c.right != c.base
    ensures !(IsObject(c.base) && IsObject(c.left) && IsObject(c.right))
    decreases |c.path|
  {
    if Fieldwise(b, l, r) {
      ConflictsDown(b, l, r, c);
      var k := c.path[0];
      ConflictIsReal(Get(b, k), Get(l, k), Get(r, k), c.(path := c.path[1..]));
    }
  }

  /** Without conflicts, a place one side left alone takes the other side's value. */
  lemma {:induction false} Pathwise(b: Option<Value>, l: Option<Value>, r: Option<Value>, p: Path)
    requires Conflicts(b, l, r) == {}
    ensures At(l, p) == At(b, p) ==> At(Merge(b, l, r), p) == At(r, p)
    ensures At(r, p) == At(b, p) ==> At(Merge(b, l, r), p) == At(l, p)
    ensures At(l, p) == At(r, p) ==> At(Merge(b, l, r), p) == At(l, p)
    decreases |p|
  {
    if Fieldwise(b, l, r) {
      if p != [] {
        NoFieldConflicts(b, l, r, p[0]);
        MergeField(b, l, r, p[0]);
        Pathwise(Get(b, p[0]), Get(l, p[0]), Get(r, p[0]), p[1..]);
      }
    } else {
      Atomic(b, l, r);
    }
  }

  function Swapped(c: Conflict): Conflict {
    Conflict(c.path, c.base, c.right, c.left)
  }

  /** Exchanging the sides exchanges the sides of every conflict ... */
  lemma {:induction false} SwapConflicts(b: Option<Value>, l: Option<Value>, r: Option<Value>, c: Conflict)
    requires c in Conflicts(b, l, r)
    ensures Swapped(c) in Conflicts(b, r, l)
    decreases |c.path|
  {
    if Fieldwise(b, l, r) {
      ConflictsDown(b, l, r, c);
      var k, d := c.path[0], c.(path := c.path[1..]);
      SwapConflicts(Get(b, k), Get(l, k), Get(r, k), d);
      ConflictField(b, r, l, k, Swapped(d));
      assert Below(k, Swapped(d)) == Swapped(c);
    }
  }

  /** ... and changes nothing else: a merge without conflicts is symmetric. */
  lemma {:induction false} SwapMerge(b: Option<Value>, l: Option<Value>, r: Option<Value>)
    requires Conflicts(b, l, r) == {}
    ensures Merge(b, l, r) == Merge(b, r, l)
    decreases b.Some?, if b.Some? then b.value else Null
  {
    if Fieldwise(b, l, r) {
      forall k ensures Get(Merge(b, l, r), k) == Get(Merge(b, r, l), k) {
        NoFieldConflicts(b, l, r, k);
        MergeField(b, l, r, k);
        MergeField(b, r, l, k);
        SwapMerge(Get(b, k), Get(l, k), Get(r, k));
      }
      MergeField(b, l, r, "");
      MergeField(b, r, l, "");
      ObjectsEqual(Merge(b, l, r), Merge(b, r, l));
    } else {
      Atomic(b, l, r);
    }
  }

  /** A merge without conflicts is the left side patched with what the right side changed. */
  lemma {:induction false} MergeIsPatch(b: Option<Value>, l: Option<Value>, r: Option<Value>, cs: seq<Change>)
    requires Conflicts(b, l, r) == {} && Elements(cs) == Diff(b, r)
    ensures ApplyAll(l, cs) == Merge(b, l, r)
    decreases b.Some?, if b.Some? then b.value else Null
  {
    if l == r {
      PatchAgain(b, r, cs);
    } else if l == b {
      PatchDiff(b, r, cs);
    } else if r == b {
      NoChanges(cs);
    } else if Fieldwise(b, l, r) {
      forall c | c in cs ensures c.path != [] {
        assert c in Elements(cs);
        DiffPathsGoDown(b, r, c);
      }
      forall k ensures IsObject(ApplyAll(l, cs)) && Get(ApplyAll(l, cs), k) == Get(Merge(b, l, r), k) {
        ApplyByField(l, cs, k);
        SubDiff(b, r, cs, k);
        NoFieldConflicts(b, l, r, k);
        MergeField(b, l, r, k);
        MergeIsPatch(Get(b, k), Get(l, k), Get(r, k), Sub(cs, k));
      }
      MergeField(b, l, r, "");
      ObjectsEqual(ApplyAll(l, cs), Merge(b, l, r));
    } else {
      Atomic(b, l, r);
    }
  }

  lemma {:induction false} SetSame(v: Option<Value>, p: Path)
    ensures SetAt(v, p, At(v, p)) == v
    decreases |p|
  {
    if p != [] && IsObject(v) {
      SetSame(Get(v, p[0]), p[1..]);
      assert WithField(v.value.fields, p[0], Get(v, p[0])) == v.value.fields;
    }
  }

  /** Everything that leads from `b` to `r` is already in `l`. */
  ghost predicate AlreadyThere(b: Option<Value>, l: Option<Value>, r: Option<Value>) {
    forall c :: c in Diff(b, r) ==> At(l, c.path) == c.after
  }

  lemma {:induction false} ApplyNothingNew(l: Option<Value>, cs: seq<Change>)
    requires forall c :: c in cs ==> At(l, c.path) == c.after
    ensures ApplyAll(l, cs) == l
  {
    if cs != [] {
      SetSame(l, cs[0].path);
      ApplyNothingNew(l, cs[1..]);
    }
  }

  lemma {:induction false} DiffAfter(b: Option<Value>, a: Option<Value>, c: Change)
    requires c in Diff(b, a)
    ensures At(a, c.path) == c.after
    decreases |c.path|
  {
    if IsObject(b) && IsObject(a) {
      DiffPathsGoDown(b, a, c);
      var k, d := c.path[0], Change(c.path[1..], c.before, c.after);
      assert c == Change([k] + d.path, d.before, d.after);
      DiffField(b, a, k, d);
      DiffAfter(Get(b, k), Get(a, k), d);
    }
  }

  /** A merge without conflicts takes over every change of the right side. */
  lemma {:induction false} MergeTakesChange(b: Option<Value>, l: Option<Value>, r: Option<Value>, c: Change)
    requires Conflicts(b, l, r) == {} && c in Diff(b, r)
    ensures At(Merge(b, l, r), c.path) == c.after
    decreases |c.path|
  {
    DiffAfter(b, r, c);
    if Fieldwise(b, l, r) {
      DiffPathsGoDown(b, r, c);
      var k, d := c.path[0], Change(c.path[1..], c.before, c.after);
      assert c == Change([k] + d.path, d.before, d.after);
      DiffField(b, r, k, d);
      NoFieldConflicts(b, l, r, k);
      MergeField(b, l, r, k);
      MergeTakesChange(Get(b, k), Get(l, k), Get(r, k), d);
    } else {
      Atomic(b, l, r);
    }
  }

  lemma {:induction false} Listing(s: set<Change>) returns (cs: seq<Change>)
    ensures Elements(cs) == s
  {
    if s == {} {
      cs := [];
    } else {
      var c :| c in s;
      var rest := Listing(s - {c});
      cs := rest + [c];
      forall d ensures d in Elements(cs) <==> d in s { assert d in Elements(cs) <==> d in Elements(rest) || d == c; }
    }
  }

  /** A merge without conflicts is the left side exactly if the right side brings nothing the left one does not have. */
  lemma MergeKeepsLeft(b: Option<Value>, l: Option<Value>, r: Option<Value>)
    requires Conflicts(b, l, r) == {}
    ensures Merge(b, l, r) == l <==> AlreadyThere(b, l, r)
  {
    hide Merge, Conflicts, Diff;
    var cs := Listing(Diff(b, r));
    MergeIsPatch(b, l, r, cs);
    if AlreadyThere(b, l, r) {
      forall c | c in cs ensures At(l, c.path) == c.after { assert c in Elements(cs); }
      ApplyNothingNew(l, cs);
    }
    if Merge(b, l, r) == l {
      forall c | c in Diff(b, r) ensures At(l, c.path) == c.after { MergeTakesChange(b, l, r, c); }
    }
  }

  /** A field on which all present versions agree survives every merge of objects. */
  lemma KeepsField(b: Option<Value>, l: Option<Value>, r: Option<Value>, k: string, v: Value)
    requires b.Some? ==> Get(b, k) == Some(v)
    requires l.Some? ==> Get(l, k) == Some(v)
    requires r.Some? ==> Get(r, k) == Some(v)
    ensures Merge(b, l, r).Some? ==> Get(Merge(b, l, r), k) == Some(v)
  {
    if Fieldwise(b, l, r) {
      MergeField(b, l, r, k);
    }
  }

  // ---- the recursive procedure ---------------------------------------------

  function Prefixed(path: Path, c: Conflict): Conflict {
    c.(path := path + c.path)
  }

  ghost function PrefixedAll(path: Path, cs: set<Conflict>): set<Conflict> {
    set c | c in cs :: Prefixed(path, c)
  }

  /** Merges one place of the document, appending the conflicts found at and below it. */
  method MergeValue(path: Path, base: Option<Value>, left: Option<Value>, right: Option<Value>, conflicts: seq<Conflict>)
    returns (value: Option<Value>, conflicts': seq<Conflict>)
    ensures value == Merge(base, left, right)
    ensures conflicts <= conflicts'
    ensures (set c | c in conflicts'[|conflicts|..]) == PrefixedAll(path, Conflicts(base, left, right))
    decreases base.Some?, if base.Some? then base.value else Null
  {
    conflicts' := conflicts;
    if left == right {
      return left, conflicts';
    }
    if left == base {
      return right, conflicts';
    }
    if right == base {
      return left, conflicts';
    }
    if IsObject(base) && IsObject(left) && IsObject(right) {
      var merged: map<string, Value> := map[];
      var keys := AllKeys(base, left, right);
      var found: seq<Conflict> := [];
      while keys != {}
        invariant keys <= AllKeys(base, left, right)
        invariant forall k :: k in merged <==>
          k in AllKeys(base, left, right) - keys && Merge(Get(base, k), Get(left, k), Get(right, k)).Some?
        invariant forall k :: k in merged ==> Some(merged[k]) == Merge(Get(base, k), Get(left, k), Get(right, k))
        invariant conflicts' == conflicts + found
        invariant forall c :: c in found <==> FoundBelow(path, base, left, right, AllKeys(base, left, right) - keys, c)
        decreases keys
      {
        var key :| key in keys;
        var child;
        ghost var before := conflicts';
        child, conflicts' := MergeValue(path + [key], Get(base, key), Get(left, key), Get(right, key), conflicts');
        if child.Some? {
          merged := merged[key := child.value];
        }
        var added := conflicts'[|conflicts| + |found|..];
        ghost var seen := AllKeys(base, left, right) - keys;
        forall c ensures c in found + added <==> FoundBelow(path, base, left, right, seen + {key}, c) {
          FreshConflicts(path, base, left, right, seen, key, added, c);
        }
        assert conflicts' == conflicts + (found + added);
        found := found + added;
        keys := keys - {key};
        assert AllKeys(base, left, right) - keys == seen + {key};
      }
      value := Some(Obj(merged));
      ObjectsEqual(value, Merge(base, left, right));
      assert conflicts'[|conflicts|..] == found;
      forall c ensures c in found <==> c in PrefixedAll(path, Conflicts(base, left, right)) {
        FoundAll(path, base, left, right, c);
      }
      return;
    }
    conflicts' := conflicts + [Conflict(path, base, left, right)];
    assert Prefixed(path, Conflict([], base, left, right)) == Conflict(path, base, left, right);
    return left, conflicts';
  }

  /** A conflict of one of the fields already merged. */
  ghost predicate FoundBelow(path: Path, b: Option<Value>, l: Option<Value>, r: Option<Value>, seen: set<string>, c: Conflict) {
    exists k, d :: k in seen && d in Conflicts(Get(b, k), Get(l, k), Get(r, k)) && c == Prefixed(path + [k], d)
  }

  lemma FreshConflicts(path: Path, b: Option<Value>, l: Option<Value>, r: Option<Value>, seen: set<string>, key: string,
                       added: seq<Conflict>, c: Conflict)
    requires (set c | c in added) == PrefixedAll(path + [key], Conflicts(Get(b, key), Get(l, key), Get(r, key)))
    ensures FoundBelow(path, b, l, r, seen + {key}, c) <==> FoundBelow(path, b, l, r, seen, c) || c in added
  {
    assert c in added <==> c in PrefixedAll(path + [key], Conflicts(Get(b, key), Get(l, key), Get(r, key))) by {
      assert c in added <==> c in (set c | c in added);
    }
  }

  lemma PrefixBelow(path: Path, k: string, d: Conflict)
    ensures Prefixed(path + [k], d) == Prefixed(path, Below(k, d))
  {
    assert (path + [k]) + d.path == path + ([k] + d.path);
  }

  lemma FoundAll(path: Path, b: Option<Value>, l: Option<Value>, r: Option<Value>, c: Conflict)
    requires Fieldwise(b, l, r)
    ensures FoundBelow(path, b, l, r, AllKeys(b, l, r), c) <==> c in PrefixedAll(path, Conflicts(b, l, r))
  {
    if FoundBelow(path, b, l, r, AllKeys(b, l, r), c) {
      var k, d :| k in AllKeys(b, l, r) && d in Conflicts(Get(b, k), Get(l, k), Get(r, k)) && c == Prefixed(path + [k], d);
      PrefixBelow(path, k, d);
      assert Below(k, d) in Conflicts(b, l, r);
    }
    if c in PrefixedAll(path, Conflicts(b, l, r)) {
      var e :| e in Conflicts(b, l, r) && c == Prefixed(path, e);
      var k, d :| k in AllKeys(b, l, r) && d in Conflicts(Get(b, k), Get(l, k), Get(r, k)) && e == Below(k, d);
      PrefixBelow(path, k, d);
    }
  }
}
