/**
  A decoded JSON document, as `json.loads` returns it: the values the code
  inspects with `isinstance`, `in` and indexing.
*/
module JsonValue {
  datatype Json =
    | JNull
    | JBool(b: bool)
    | JNumber(n: real)
    | JString(s: string)
    | JArray(items: seq<Json>)
    | JObject(fields: map<string, Json>)
}
