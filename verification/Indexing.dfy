/** Lists of JSON objects seen as one object keyed by an identity field. */
module Indexing {
  import opened Json

  /** The identity a value carries in field `key`. */
  function IdIn(key: string, v: Value): string {
    var id := AsStr(Field(v, key));
    if id.Some? then id.value else ""
  }

  predicate HasId(key: string, v: Value) {
    v.Obj? && AsStr(Field(v, key)).Some?
  }

  function Index(key: string, items: seq<Value>): map<string, Value> {
    if items == [] then map[]
    else Index(key, items[..|items| - 1])[IdIn(key, items[|items| - 1]) := items[|items| - 1]]
  }

  predicate DistinctIds(key: string, items: seq<Value>) {
    forall i, j :: 0 <= i < j < |items| ==> IdIn(key, items[i]) != IdIn(key, items[j])
  }

  lemma {:induction false} IndexKeys(key: string, items: seq<Value>, id: string)
    ensures id in Index(key, items) <==> exists i :: 0 <= i < |items| && IdIn(key, items[i]) == id
    ensures id in Index(key, items) ==> IdIn(key, Index(key, items)[id]) == id && Index(key, items)[id] in items
  {
    if items != [] {
      var front, last := items[..|items| - 1], items[|items| - 1];
      IndexKeys(key, front, id);
      if IdIn(key, last) != id && id in Index(key, items) {
        var i :| 0 <= i < |front| && IdIn(key, front[i]) == id;
        assert items[i] == front[i];
      }
      if i :| 0 <= i < |items| && IdIn(key, items[i]) == id {
        if i < |front| { assert front[i] == items[i]; }
      }
    }
  }

  lemma {:induction false} IndexAt(key: string, items: seq<Value>, i: nat)
    requires DistinctIds(key, items) && i < |items|
    ensures IdIn(key, items[i]) in Index(key, items) && Index(key, items)[IdIn(key, items[i])] == items[i]
  {
    if i < |items| - 1 {
      var front := items[..|items| - 1];
      assert front[i] == items[i];
      IndexAt(key, front, i);
      assert IdIn(key, items[i]) != IdIn(key, items[|items| - 1]);
    }
  }

  /** Indexing one more item, which repeats an identity exactly if that is a key already. */
  lemma IndexStep(key: string, items: seq<Value>, i: nat)
    requires i < |items| && DistinctIds(key, items[..i])
    ensures Index(key, items[..i + 1]) == Index(key, items[..i])[IdIn(key, items[i]) := items[i]]
    ensures IdIn(key, items[i]) !in Index(key, items[..i]) <==> DistinctIds(key, items[..i + 1])
    ensures IdIn(key, items[i]) in Index(key, items[..i]) ==> !DistinctIds(key, items)
  {
    var id := IdIn(key, items[i]);
    assert items[..i + 1][..i] == items[..i];
    IndexKeys(key, items[..i], id);
    if id in Index(key, items[..i]) {
      var j :| 0 <= j < |items[..i]| && IdIn(key, items[..i][j]) == id;
      assert items[..i][j] == items[..i + 1][j] == items[j];
      assert items[..i + 1][i] == items[i];
    } else {
      var more := items[..i + 1];
      forall j | 0 <= j < i ensures IdIn(key, more[j]) != id { assert items[..i][j] == more[j]; }
    }
  }
}
