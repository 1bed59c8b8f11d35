/** Parsed JSON values, as `JSON.parse` and `request.json()` deliver them.
    Parsing and serialising themselves are outside the model: the adapters
    receive values of this type, and the endpoint receives each value
    together with its serialised text. */
module Json {
  import opened Dial

  datatype JsonValue =
    | JNull
    | JBool(b: bool)
    | JNumber(n: real)
    | JString(s: string)
    | JArray(items: seq<JsonValue>)
    | JObject(members: map<string, JsonValue>)

  /** `v[key]` for the keys the dial messages use ("type", "position",
      "delta"): an object's own member, and `undefined` (`None`) for anything
      else. Reading a property of `null` throws; callers rule `JNull` out
      first. */
  function Property(v: JsonValue, key: string): (r: Option<JsonValue>)
    requires v != JNull
    ensures r.Some? <==> v.JObject? && key in v.members
    ensures r.Some? ==> r.value == v.members[key]
  {
    match v
    case JObject(m) => if key in m then Some(m[key]) else None
    case _ => None
  }

  /** JavaScript truthiness of a property value; `undefined` is falsy. */
  predicate Truthy(v: Option<JsonValue>)
    ensures Truthy(v) <==> (v.Some? && v.value != JNull && v.value != JBool(false)
                            && v.value != JNumber(0.0) && v.value != JString(""))
  {
    match v
    case None => false
    case Some(JNull) => false
    case Some(JBool(b)) => b
    case Some(JNumber(n)) => n != 0.0
    case Some(JString(s)) => s != []
    case Some(JArray(_)) => true
    case Some(JObject(_)) => true
  }
}
