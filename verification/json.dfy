/** The values `json.loads` produces. Parsing and serialising are not modelled
    here: callers supply them. Numbers are reals, so Python's `18 == 18.0`
    holds of them as it does in the source. */
module Json {

  datatype JsonValue =
    | JNull
    | JBool(b: bool)
    | JNumber(n: real)
    | JString(s: string)
    | JArray(items: seq<JsonValue>)
    | JObject(fields: map<string, JsonValue>)

  /** A decoded message: Python's `dict` from field name to value. */
  type Fields = map<string, JsonValue>
}
