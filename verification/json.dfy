/** The JSON document model of `serde_json::Value` and the accessors the executor uses on it. */
module Json {
  import opened Wrappers

  /** A JSON value. Objects map member names to values, as `serde_json::Map` does. */
  datatype Json =
    | Null
    | Bool(b: bool)
    | Number(n: real)
    | Str(s: string)
    | Array(items: seq<Json>)
    | Object(members: map<string, Json>)

  /** `value.get(key)`: the member `key` of an object, absent for anything else. */
  function Get(v: Json, key: string): (r: Option<Json>)
    ensures r.Some? <==> v.Object? && key in v.members
    ensures r.Some? ==> r.value == v.members[key]
  {
    if v.Object? && key in v.members then Some(v.members[key]) else None
  }

  /** `value[key]`: like `Get`, but a missing member reads as `Null`. */
  function Field(v: Json, key: string): (r: Json)
    ensures Get(v, key).Some? ==> r == Get(v, key).value
    ensures Get(v, key).None? ==> r == Null
  {
    Get(v, key).GetOr(Null)
  }

  /** `value.as_str()`. */
  function AsStr(v: Json): (r: Option<string>)
    ensures r.Some? <==> v.Str?
  {
    if v.Str? then Some(v.s) else None
  }

  /** `value.as_bool()`. */
  function AsBool(v: Json): (r: Option<bool>)
    ensures r.Some? <==> v.Bool?
  {
    if v.Bool? then Some(v.b) else None
  }

  /** `value.as_array()`. */
  function AsArray(v: Json): (r: Option<seq<Json>>)
    ensures r.Some? <==> v.Array?
  {
    if v.Array? then Some(v.items) else None
  }
}
