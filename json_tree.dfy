/** The JSON tree that Jackson's `JsonNode` hierarchy represents. */
module JsonTree {

  /** A JSON value. Numbers are kept as exact reals (Jackson's int, long,
      double and BigDecimal nodes alike); object members form a map, so the
      order in which Jackson would print them is not part of the value. */
  datatype Json =
    | JNull
    | JBool(b: bool)
    | JNumber(n: real)
    | JString(s: string)
    | JArray(items: seq<Json>)
    | JObject(fields: map<string, Json>)
}
