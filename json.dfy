/**
 * Parsed JSON / YAML documents. Both serde_json::Value, serde_yaml::Value
 * and the result of Python's json.loads are values of this one datatype;
 * parsing and printing are foreign and appear as function parameters.
 */
module JsonValue {
  import opened StrUtil

  datatype Value =
    | Null
    | Bool(b: bool)
    | Int(i: int)          // a number written without fraction or exponent
    | Float(f: real)       // any other number
    | Str(s: string)
    | Arr(items: seq<Value>)
    | Obj(members: seq<Member>)   // JSON objects (string keys) and YAML mappings (any key)

  datatype Member = Member(key: Value, val: Value)

  /**
   * Key lookup in an object. Duplicate keys resolve to the LAST occurrence,
   * as both serde_json and Python's json module keep the last duplicate.
   */
  function Lookup(members: seq<Member>, key: Value): (r: Option<Value>)
    ensures r.Some? ==> exists i :: 0 <= i < |members| && members[i] == Member(key, r.value)
    ensures r.None? <==> forall i :: 0 <= i < |members| ==> members[i].key != key
  {
    if members == [] then None
    else if members[|members| - 1].key == key then Some(members[|members| - 1].val)
    else Lookup(members[..|members| - 1], key)
  }

  /** serde_json `Value::get(key)` / Python `dict.get(key)`: None unless an object holds the key. */
  function Get(v: Value, key: string): (r: Option<Value>)
    ensures !v.Obj? ==> r.None?
  {
    if v.Obj? then Lookup(v.members, Str(key)) else None
  }

  /** serde_json `as_str`. */
  function AsStr(v: Option<Value>): (r: Option<string>)
    ensures r.Some? <==> v.Some? && v.value.Str?
  {
    if v.Some? && v.value.Str? then Some(v.value.s) else None
  }

  /** Python truth value of a decoded JSON value. */
  predicate Truthy(v: Value)
  {
    match v
    case Null => false
    case Bool(b) => b
    case Int(i) => i != 0
    case Float(f) => f != 0.0
    case Str(s) => s != []
    case Arr(items) => items != []
    case Obj(members) => members != []
  }

  lemma LookupLast(members: seq<Member>, key: Value, val: Value)
    ensures Lookup(members + [Member(key, val)], key) == Some(val)
  {
  }
}
