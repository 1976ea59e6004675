/**
 * JSON values, as a JSON decoder hands them to the response validator.
 * The decoder itself is a parameter of the pipeline; only its output shape is modelled.
 * An object is a map, so a key that appears twice keeps one value (the decoder's choice).
 */
module JsonValues {
  datatype Json =
    | JNull
    | JBool(b: bool)
    | JNumber(repr: string)
    | JString(str: string)
    | JArray(items: seq<Json>)
    | JObject(fields: map<string, Json>)
}
