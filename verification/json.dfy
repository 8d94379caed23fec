/** The dynamic values a JSON object decodes into. Numbers are kept as their
    integer value; fractional and exponent forms are not modelled. */
module JsonValues {

  datatype Json =
    | JNull
    | JBool(b: bool)
    | JNumber(n: int)
    | JString(s: string)
    | JArray(items: seq<Json>)
    | JObject(fields: map<string, Json>)
}
