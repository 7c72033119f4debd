/** The JSON-like values the services return (dictionaries, lists, strings, numbers). */
module Json {
  datatype Json =
    | JNull
    | JBool(b: bool)
    | JInt(i: int)
    | JReal(r: real)
    | JStr(s: string)
    | JList(items: seq<Json>)
    | JObject(fields: map<string, Json>)

  /** An optional string: `None` is JSON null. */
  function OptStr(s: Option<string>): (j: Json)
    ensures s.None? <==> j == JNull
    ensures s.Some? ==> j == JStr(s.value)
  {
    if s.None? then JNull else JStr(s.value)
  }

  import opened Wrappers
}
