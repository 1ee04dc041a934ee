/** The block-aware three-way merge of pipeline definitions with explicit resolutions. */
module PipelineMerging {
  import opened Json
  import opened Patches
  import opened Indexing
  import P = Pointers

  datatype Choice = Target | Source

  datatype Conflict = Conflict(path: Path, base: Option<Value>, target: Option<Value>, source: Option<Value>)

  type Resolutions = map<string, Choice>

  const MAX_DEPTH := 32
  const MAX_RESOLUTIONS := 256

  predicate Mergeable(b: Option<Value>, t: Option<Value>, s: Option<Value>) {
    IsObject(t) && IsObject(s) && (b.None? || IsObject(b))
  }

  /** One side can be taken as it is. */
  predicate Settled(b: Option<Value>, t: Option<Value>, s: Option<Value>) {
    t == s || s == b || t == b
  }

  predicate Descends(b: Option<Value>, t: Option<Value>, s: Option<Value>) {
    !Settled(b, t, s) && Mergeable(b, t, s)
  }

  predicate Clash(b: Option<Value>, t: Option<Value>, s: Option<Value>) {
    !Settled(b, t, s) && !Mergeable(b, t, s)
  }

  function AllKeys(b: Option<Value>, t: Option<Value>, s: Option<Value>): set<string> {
    Keys(t) + Keys(s) + Keys(b)
  }

  /** The merged value at `path`: clashes take the chosen side, and main's side without a choice. */
  ghost function Merge(path: Path, b: Option<Value>, t: Option<Value>, s: Option<Value>, res: Resolutions): Option<Value>
    decreases t.Some?, if t.Some? then t.value else Null
  {
    if t == s || s == b then t
    else if t == b then s
    else if Mergeable(b, t, s) then
      Some(Obj(map k | k in AllKeys(b, t, s) && Merge(path + [k], Get(b, k), Get(t, k), Get(s, k), res).Some? ::
                 Merge(path + [k], Get(b, k), Get(t, k), Get(s, k), res).value))
    else if Chosen(path, res) then s
    else t
  }

  predicate Chosen(path: Path, res: Resolutions) {
    P.Pointer(path) in res && res[P.Pointer(path)].Source?
  }

  /** The clashes left without a choice, at full paths. */
  ghost function Conflicts(path: Path, b: Option<Value>, t: Option<Value>, s: Option<Value>, res: Resolutions): set<Conflict>
    decreases t.Some?, if t.Some? then t.value else Null
  {
    if Settled(b, t, s) then {}
    else if Mergeable(b, t, s) then
      set k, c | k in AllKeys(b, t, s) && c in Conflicts(path + [k], Get(b, k), Get(t, k), Get(s, k), res) :: c
    else if P.Pointer(path) in res then {}
    else {Conflict(path, b, t, s)}
  }

  /** The recursion would pass the depth limit. */
  ghost predicate TooDeep(b: Option<Value>, t: Option<Value>, s: Option<Value>, depth: nat)
    decreases t.Some?, if t.Some? then t.value else Null
  {
    depth > 32 ||
    (Descends(b, t, s) && exists k :: k in AllKeys(b, t, s) && TooDeep(Get(b, k), Get(t, k), Get(s, k), depth + 1))
  }

  // ---- merging objects is merging fields -----------------------------------

  lemma MergeField(path: Path, b: Option<Value>, t: Option<Value>, s: Option<Value>, res: Resolutions, k: string)
    requires Mergeable(b, t, s)
    ensures IsObject(Merge(path, b, t, s, res))
    ensures Get(Merge(path, b, t, s, res), k) == Merge(path + [k], Get(b, k), Get(t, k), Get(s, k), res)
  {
  }

  lemma NoFieldConflicts(path: Path, b: Option<Value>, t: Option<Value>, s: Option<Value>, res: Resolutions, k: string)
    requires Mergeable(b, t, s) && Conflicts(path, b, t, s, res) == {}
    ensures Conflicts(path + [k], Get(b, k), Get(t, k), Get(s, k), res) == {}
  {
    if Descends(b, t, s) && k in AllKeys(b, t, s) {
      forall c | c in Conflicts(path + [k], Get(b, k), Get(t, k), Get(s, k), res) ensures c in Conflicts(path, b, t, s, res) {}
    }
  }

  // ---- laws ----------------------------------------------------------------

  /** Without conflicts or choices, a place one side left alone takes the other side's value. */
  lemma {:induction false} Pathwise(path: Path, b: Option<Value>, t: Option<Value>, s: Option<Value>, p: Path)
    requires Conflicts(path, b, t, s, map[]) == {}
    ensures At(t, p) == At(b, p) ==> At(Merge(path, b, t, s, map[]), p) == At(s, p)
    ensures At(s, p) == At(b, p) ==> At(Merge(path, b, t, s, map[]), p) == At(t, p)
    ensures At(t, p) == At(s, p) ==> At(Merge(path, b, t, s, map[]), p) == At(t, p)
    decreases |p|
  {
    if Descends(b, t, s) {
      if p != [] {
        NoFieldConflicts(path, b, t, s, map[], p[0]);
        MergeField(path, b, t, s, map[], p[0]);
        Pathwise(path + [p[0]], Get(b, p[0]), Get(t, p[0]), Get(s, p[0]), p[1..]);
      }
    } else {
      Atomic(path, b, t, s);
    }
  }

  lemma Atomic(path: Path, b: Option<Value>, t: Option<Value>, s: Option<Value>)
    ensures Settled(b, t, s) || Descends(b, t, s) || Conflict(path, b, t, s) in Conflicts(path, b, t, s, map[])
  {
  }

  lemma {:induction false} ConflictsBelow(path: Path, b: Option<Value>, t: Option<Value>, s: Option<Value>, res: Resolutions, c: Conflict)
    requires c in Conflicts(path, b, t, s, res)
    ensures path <= c.path && c.target != c.source
    ensures c.target == At(t, c.path[|path|..]) && c.source == At(s, c.path[|path|..]) && c.base == At(b, c.path[|path|..])
    decreases t.Some?, if t.Some? then t.value else Null
  {
    if Descends(b, t, s) {
      var k :| k in AllKeys(b, t, s) && c in Conflicts(path + [k], Get(b, k), Get(t, k), Get(s, k), res);
      ConflictsBelow(path + [k], Get(b, k), Get(t, k), Get(s, k), res, c);
      assert c.path[|path|..][0] == k && c.path[|path|..][1..] == c.path[|path| + 1..];
    } else {
      assert c.path[|path|..] == [];
    }
  }

  /** The conflicts left by a resolution map are the preview's, minus those it addresses. */
  lemma {:induction false} ResolvedConflicts(path: Path, b: Option<Value>, t: Option<Value>, s: Option<Value>, res: Resolutions, c: Conflict)
    ensures c in Conflicts(path, b, t, s, res) <==>
            c in Conflicts(path, b, t, s, map[]) && P.Pointer(c.path) !in res
    decreases t.Some?, if t.Some? then t.value else Null
  {
    if Descends(b, t, s) {
      forall k | k in AllKeys(b, t, s)
        ensures c in Conflicts(path + [k], Get(b, k), Get(t, k), Get(s, k), res) <==>
                c in Conflicts(path + [k], Get(b, k), Get(t, k), Get(s, k), map[]) && P.Pointer(c.path) !in res
      {
        ResolvedConflicts(path + [k], Get(b, k), Get(t, k), Get(s, k), res, c);
      }
    }
  }

  /** The places where the source's side was chosen, relative to this one. */
  ghost function Overrides(path: Path, b: Option<Value>, t: Option<Value>, s: Option<Value>, res: Resolutions): set<Change>
    decreases t.Some?, if t.Some? then t.value else Null
  {
    if Descends(b, t, s) then
      set k, c | k in AllKeys(b, t, s) && c in Overrides(path + [k], Get(b, k), Get(t, k), Get(s, k), res) ::
        Change([k] + c.path, c.before, c.after)
    else if Clash(b, t, s) && Chosen(path, res) then {Change([], t, s)}
    else {}
  }

  /** The conflict `d` of the preview was resolved in favour of the source, which is what the change `c` does. */
  ghost predicate IsChoice(path: Path, d: Conflict, res: Resolutions, c: Change) {
    d.path == path + c.path && c.before == d.target && c.after == d.source && Chosen(d.path, res)
  }

  lemma PathBelow(path: Path, k: string, rest: Path)
    ensures (path + [k]) + rest == path + ([k] + rest)
  {
  }

  lemma ConflictUp(path: Path, b: Option<Value>, t: Option<Value>, s: Option<Value>, k: string, d: Conflict)
    requires Descends(b, t, s) && k in AllKeys(b, t, s) && d in Conflicts(path + [k], Get(b, k), Get(t, k), Get(s, k), map[])
    ensures d in Conflicts(path, b, t, s, map[])
  {
  }

  lemma {:induction false} OverrideHasConflict(path: Path, b: Option<Value>, t: Option<Value>, s: Option<Value>, res: Resolutions, c: Change)
    returns (d: Conflict)
    requires c in Overrides(path, b, t, s, res)
    ensures d in Conflicts(path, b, t, s, map[]) && IsChoice(path, d, res, c)
    decreases t.Some?, if t.Some? then t.value else Null
  {
    hide Chosen, Conflicts;
    if Descends(b, t, s) {
      var k, e :| k in AllKeys(b, t, s) && e in Overrides(path + [k], Get(b, k), Get(t, k), Get(s, k), res) &&
                  c == Change([k] + e.path, e.before, e.after);
      d := OverrideHasConflict(path + [k], Get(b, k), Get(t, k), Get(s, k), res, e);
      PathBelow(path, k, e.path);
      ConflictUp(path, b, t, s, k, d);
    } else {
      d := Conflict(path, b, t, s);
      Atomic(path, b, t, s);
      assert path + [] == path;
    }
  }

  lemma {:induction false} ConflictIsOverride(path: Path, b: Option<Value>, t: Option<Value>, s: Option<Value>, res: Resolutions,
                                              d: Conflict, c: Change)
    requires d in Conflicts(path, b, t, s, map[]) && IsChoice(path, d, res, c)
    ensures c in Overrides(path, b, t, s, res)
    decreases t.Some?, if t.Some? then t.value else Null
  {
    if Descends(b, t, s) {
      var k :| k in AllKeys(b, t, s) && d in Conflicts(path + [k], Get(b, k), Get(t, k), Get(s, k), map[]);
      ConflictsBelow(path + [k], Get(b, k), Get(t, k), Get(s, k), map[], d);
      var e := BelowKey(path, k, d, c);
      ConflictIsOverride(path + [k], Get(b, k), Get(t, k), Get(s, k), res, d, e);
    } else {
      assert c.path == [] by { assert |path + c.path| == |path|; }
    }
  }

  lemma BelowKey(path: Path, k: string, d: Conflict, c: Change) returns (e: Change)
    requires path + [k] <= d.path && d.path == path + c.path
    ensures c == Change([k] + e.path, e.before, e.after) && d.path == (path + [k]) + e.path
  {
    assert d.path[|path|] == c.path[0] && (path + [k])[|path|] == k;
    e := Change(c.path[1..], c.before, c.after);
    assert c.path == [k] + e.path;
    PathBelow(path, k, e.path);
  }

  /** Overrides are exactly the preview's conflicts for which the source was chosen, and bring the source's value. */
  lemma OverrideIsChoice(path: Path, b: Option<Value>, t: Option<Value>, s: Option<Value>, res: Resolutions, c: Change)
    ensures c in Overrides(path, b, t, s, res) <==>
      exists d :: d in Conflicts(path, b, t, s, map[]) && IsChoice(path, d, res, c)
  {
    if c in Overrides(path, b, t, s, res) {
      var d := OverrideHasConflict(path, b, t, s, res, c);
    }
    if d :| d in Conflicts(path, b, t, s, map[]) && IsChoice(path, d, res, c) {
      ConflictIsOverride(path, b, t, s, res, d, c);
    }
  }

  lemma SubOverrides(path: Path, b: Option<Value>, t: Option<Value>, s: Option<Value>, res: Resolutions, cs: seq<Change>, k: string)
    requires Descends(b, t, s) && Elements(cs) == Overrides(path, b, t, s, res)
    ensures Elements(Sub(cs, k)) == Overrides(path + [k], Get(b, k), Get(t, k), Get(s, k), res)
  {
    forall c ensures c in Sub(cs, k) <==> c in Overrides(path + [k], Get(b, k), Get(t, k), Get(s, k), res) {
      SubMember(cs, k, c);
      var up := Change([k] + c.path, c.before, c.after);
      assert up in cs <==> up in Elements(cs);
      if up in Overrides(path, b, t, s, res) {
        var j, d :| j in AllKeys(b, t, s) && d in Overrides(path + [j], Get(b, j), Get(t, j), Get(s, j), res) &&
                    up == Change([j] + d.path, d.before, d.after);
        assert ([j] + d.path)[0] == j && ([j] + d.path)[1..] == d.path;
        assert ([k] + c.path)[0] == k && ([k] + c.path)[1..] == c.path;
      }
    }
  }

  /** The resolved merge is the preview with the source's value put at the overridden places, and nowhere else. */
  lemma {:induction false} ResolvedMerge(path: Path, b: Option<Value>, t: Option<Value>, s: Option<Value>, res: Resolutions, cs: seq<Change>)
    requires Elements(cs) == Overrides(path, b, t, s, res)
    ensures ApplyAll(Merge(path, b, t, s, map[]), cs) == Merge(path, b, t, s, res)
    decreases t.Some?, if t.Some? then t.value else Null
  {
    var preview, resolved := Merge(path, b, t, s, map[]), Merge(path, b, t, s, res);
    if Descends(b, t, s) {
      forall c | c in cs ensures c.path != [] {
        assert c in Elements(cs);
      }
      MergeField(path, b, t, s, map[], "");
      MergeField(path, b, t, s, res, "");
      forall k ensures IsObject(ApplyAll(preview, cs)) && Get(ApplyAll(preview, cs), k) == Get(resolved, k) {
        ApplyByField(preview, cs, k);
        SubOverrides(path, b, t, s, res, cs, k);
        MergeField(path, b, t, s, map[], k);
        MergeField(path, b, t, s, res, k);
        ResolvedMerge(path + [k], Get(b, k), Get(t, k), Get(s, k), res, Sub(cs, k));
      }
      ObjectsEqual(ApplyAll(preview, cs), resolved);
    } else if Clash(b, t, s) && Chosen(path, res) {
      assert Change([], t, s) in Elements(cs);
      forall c | c in cs ensures c == Change([], t, s) { assert c in Elements(cs); }
      LeafApplied(preview, cs, t, s);
    } else {
      NoChanges(cs);
    }
  }

  // ---- choosing for every conflict -----------------------------------------

  ghost function Pointed(conflicts: set<Conflict>): set<string> {
    set c | c in conflicts :: P.Pointer(c.path)
  }

  /** A resolution map that makes the choice `f` for each of the conflicts. */
  ghost function ResolveAll(conflicts: set<Conflict>, f: Path -> Choice): Resolutions {
    map p | p in Pointed(conflicts) :: if p == [] || p[0] == '/' then f(P.Decode(p)) else Target
  }

  lemma {:induction false} PointedSize(conflicts: set<Conflict>)
    ensures |Pointed(conflicts)| <= |conflicts|
  {
    if conflicts == {} {
      assert Pointed(conflicts) == {};
    } else {
      var c :| c in conflicts;
      var rest := conflicts - {c};
      PointedSize(rest);
      assert Pointed(conflicts) == Pointed(rest) + {P.Pointer(c.path)};
    }
  }

  lemma ResolveAllAt(conflicts: set<Conflict>, f: Path -> Choice, c: Conflict)
    requires c in conflicts
    ensures P.Pointer(c.path) in ResolveAll(conflicts, f) && ResolveAll(conflicts, f)[P.Pointer(c.path)] == f(c.path)
  {
    P.RoundTrip(c.path);
  }

  /** Any combination of choices can be expressed, and choosing everywhere leaves no conflict. */
  lemma ChoosingSettles(b: Option<Value>, t: Option<Value>, s: Option<Value>, f: Path -> Choice)
    ensures var preview := Conflicts([], b, t, s, map[]);
            var res := ResolveAll(preview, f);
            && |res| <= |preview|
            && Conflicts([], b, t, s, res) == {}
            && forall c :: c in preview ==> P.Pointer(c.path) in res && res[P.Pointer(c.path)] == f(c.path)
  {
    hide Conflicts, Pointed;
    var preview := Conflicts([], b, t, s, map[]);
    var res := ResolveAll(preview, f);
    PointedSize(preview);
    assert res.Keys == Pointed(preview);
    assert |res| == |res.Keys|;
    forall c | c in preview ensures P.Pointer(c.path) in res && res[P.Pointer(c.path)] == f(c.path) {
      ResolveAllAt(preview, f, c);
    }
    forall c ensures c !in Conflicts([], b, t, s, res) {
      ResolvedConflicts([], b, t, s, res, c);
    }
  }
}
