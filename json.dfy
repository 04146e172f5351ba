/**
 * JSON values as Python's `json.loads` returns them.  Objects keep their members in
 * insertion order, because Python dictionaries do and the rules canonicalisation takes the
 * first value of an object.  A parsed object has distinct keys.
 */
module Json {
  import opened Wrappers

  datatype Json =
    | Null
    | Bool(b: bool)
    | Number(n: real)
    | String(s: string)
    | Array(items: seq<Json>)
    | Object(members: seq<(string, Json)>)

  /** Python truthiness of the parsed value. */
  predicate Truthy(j: Json)
  {
    match j
    case Null => false
    case Bool(b) => b
    case Number(n) => n != 0.0
    case String(s) => s != ""
    case Array(items) => items != []
    case Object(members) => members != []
  }

  /** `key in d`. */
  predicate HasKey(members: seq<(string, Json)>, key: string)
  {
    exists i :: 0 <= i < |members| && members[i].0 == key
  }

  /** `d.get(key)`: the value stored under `key`, if any. */
  function Lookup(members: seq<(string, Json)>, key: string): (r: Option<Json>)
    ensures r.Some? <==> HasKey(members, key)
    ensures r.Some? ==> exists i :: 0 <= i < |members| && members[i] == (key, r.value)
  {
    if members == [] then None
    else if members[0].0 == key then Some(members[0].1)
    else
      var rest := Lookup(members[1..], key);
      assert HasKey(members, key) <==> HasKey(members[1..], key);
      rest
  }

  /** `d.get(key, default)`. */
  function GetOr(members: seq<(string, Json)>, key: string, default: Json): Json
  {
    match Lookup(members, key)
    case Some(v) => v
    case None => default
  }
}
