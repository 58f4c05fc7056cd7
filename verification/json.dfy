/** The JSON values `json.loads` can produce, as Python objects. */
module Json {

  datatype Json =
    | JNull
    | JBool(b: bool)
    | JInt(i: int)
    | JFloat(f: real)
    | JStr(s: string)
    | JArray(items: seq<Json>)
    | JObject(fields: map<string, Json>)

  /** What `json.loads` does with a header value: a parsed value, a
      `JSONDecodeError`, or some other exception (a `RecursionError` on deeply
      nested input, say) with its message. */
  datatype Parse = Parsed(value: Json) | Malformed | Raised(message: string)

  /** The message of the `TypeError` Python raises for `v["epoch"] = t` when
      `v` is not a dict. */
  function ItemAssignmentError(v: Json): (msg: string)
    requires !v.JObject?
    ensures |msg| > 0
  {
    match v
    case JArray(_) => "list indices must be integers or slices, not str"
    case JNull => "'NoneType' object does not support item assignment"
    case JBool(_) => "'bool' object does not support item assignment"
    case JInt(_) => "'int' object does not support item assignment"
    case JFloat(_) => "'float' object does not support item assignment"
    case JStr(_) => "'str' object does not support item assignment"
  }
}
