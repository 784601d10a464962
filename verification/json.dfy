/** The parsed JSON value the question loader receives from `response.json()`. */
module Json {
  import opened Wrappers

  /**
   * A JSON value. Numbers are kept as integers because the loader only ever
   * asks what kind of value it holds; an object is a key-to-value map, which
   * is what JSON parsing leaves behind (a repeated key keeps its last value).
   */
  datatype Json =
    | JNull
    | JBool(b: bool)
    | JNumber(n: int)
    | JString(str: string)
    | JArray(items: seq<Json>)
    | JObject(fields: map<string, Json>)

  /** Property read on a plain object: `None` plays the part of `undefined` for a missing key. */
  function Get(fields: map<string, Json>, key: string): (v: Option<Json>)
    ensures v.Some? <==> key in fields
    ensures v.Some? ==> v.value == fields[key]
  {
    if key in fields then Some(fields[key]) else None
  }
}
