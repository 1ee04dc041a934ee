/** Shared value types: optional values, outcomes and the JSON documents the Registry stores. */
module Json {

  datatype Option<+T> = None | Some(value: T)

  datatype Result<+T, +E> = Ok(value: T) | Err(error: E)

  /** A JSON document.  Objects are unordered, so documents that differ only in key order are equal. */
  datatype Value =
    | Null
    | Bool(b: bool)
    | Num(n: int)
    | Str(s: string)
    | Arr(items: seq<Value>)
    | Obj(fields: map<string, Value>)

  /** The field `key` of an optional document; absent for everything that is not an object. */
  function Get(v: Option<Value>, key: string): Option<Value> {
    if v.Some? && v.value.Obj? && key in v.value.fields then Some(v.value.fields[key]) else None
  }

  function Keys(v: Option<Value>): set<string> {
    if v.Some? && v.value.Obj? then v.value.fields.Keys else {}
  }

  predicate IsObject(v: Option<Value>) {
    v.Some? && v.value.Obj?
  }

  function Field(v: Value, key: string): Option<Value> {
    Get(Some(v), key)
  }

  function AsStr(v: Option<Value>): Option<string> {
    if v.Some? && v.value.Str? then Some(v.value.s) else None
  }

  function AsArr(v: Option<Value>): Option<seq<Value>> {
    if v.Some? && v.value.Arr? then Some(v.value.items) else None
  }

  /** Absent or JSON null: the test `is_none_or(Value::is_null)`. */
  predicate Missing(v: Option<Value>) {
    v.None? || v.value.Null?
  }
}
