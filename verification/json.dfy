/** The parsed-document shape that json.loads produces: a tagged union in
    place of Python's dict/list/str/int/bool/None. Objects keep their key
    order, as Python dicts do. */
module Json {
  import opened Wrappers

  datatype Value =
    | Null
    | Bool(b: bool)
    | Num(n: int)
    | Str(s: string)
    | Arr(items: seq<Value>)
    | Obj(fields: seq<(string, Value)>)

  /** The value stored under `key`, taken from the first field that carries it. */
  function Lookup(fields: seq<(string, Value)>, key: string): (r: Option<Value>)
    ensures r.Some? <==> exists k :: 0 <= k < |fields| && fields[k].0 == key
    ensures r.Some? ==> exists k :: 0 <= k < |fields| && fields[k] == (key, r.value)
  {
    if fields == [] then None
    else if fields[0].0 == key then Some(fields[0].1)
    else
      var r := Lookup(fields[1..], key);
      assert r.Some? ==> exists k :: 0 <= k < |fields[1..]| && fields[1..][k] == (key, r.value);
      r
  }

  /** `key in v` for a dict `v` */
  predicate Has(v: Value, key: string) {
    v.Obj? && Lookup(v.fields, key).Some?
  }

  /** `v.get(key)`: None, which is JSON null, when the key is absent. */
  function Get(v: Value, key: string): Value
    requires v.Obj?
  {
    Lookup(v.fields, key).GetOr(Null)
  }

  /** Python truthiness: None, False, 0, "", [] and {} are false. */
  predicate Truthy(v: Value) {
    match v
    case Null => false
    case Bool(b) => b
    case Num(n) => n != 0
    case Str(s) => s != []
    case Arr(items) => items != []
    case Obj(fields) => fields != []
  }
}
