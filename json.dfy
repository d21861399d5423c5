/** A decoded JSON document, and the lookups `v["key"]`, `v[i]` and
    `as_str()` of serde_json, which never fail but yield null instead. */
module Json {
  import opened Results

  /** JSON numbers are kept when they are integral; see README for the rest. */
  datatype Value =
    | Null
    | Bool(b: bool)
    | Number(n: int)
    | Str(s: string)
    | Array(items: seq<Value>)
    | Object(fields: map<string, Value>)

  /** `v[key]`: the member of an object, null for a missing key or for any other value. */
  function Member(v: Value, key: string): Value {
    if v.Object? && key in v.fields then v.fields[key] else Null
  }

  /** `v[i]`: the element of an array, null past its end or for any other value. */
  function Element(v: Value, i: nat): Value {
    if v.Array? && i < |v.items| then v.items[i] else Null
  }

  /** `v.as_str()`. */
  function AsStr(v: Value): Option<string> {
    if v.Str? then Some(v.s) else None
  }
}
