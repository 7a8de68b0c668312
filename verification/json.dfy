/** Parsed JSON values, as the handlers see request bodies and upstream listings. */
module JsonValues {

  /** A JSON value. Numbers are kept as reals and never computed with; an
      object is a map from its keys to its values. */
  datatype Json =
    | JNull
    | JBool(b: bool)
    | JNumber(n: real)
    | JString(s: string)
    | JArray(items: seq<Json>)
    | JObject(fields: map<string, Json>)
}
