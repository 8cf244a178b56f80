/** JSON values and the parts of Foundation's `JSONDecoder` the collector relies on:
keyed containers, required keys and optional keys.
 */
module Json {
  import opened Outcomes

  /** A JSON number, kept as the literal text: floating point is not modelled. */
  datatype Number = Number(literal: string)

  datatype Json =
    | JNull
    | JBool(b: bool)
    | JNumber(n: Number)
    | JString(s: string)
    | JArray(items: seq<Json>)
    | JObject(fields: map<string, Json>)

  /** The message body handed to the decoder: bytes that are or are not JSON text. */
  datatype Body = Malformed | Wellformed(json: Json)

  /** `decoder.container(keyedBy:)`: only an object has keys. */
  function Container(j: Json): (r: Result<map<string, Json>>)
    ensures r.Success? <==> j.JObject?
    ensures r.Success? ==> r.value == j.fields
    ensures j.JNull? ==> r == Failure(ValueNotFound)
  {
    match j
    case JObject(fields) => Success(fields)
    case JNull => Failure(ValueNotFound)
    case _ => Failure(TypeMismatch)
  }

  /** `container.decode(String.self, forKey: key)`. */
  function DecodeString(fields: map<string, Json>, key: string): (r: Result<string>)
    ensures r.Success? <==> key in fields && fields[key].JString?
    ensures r.Success? ==> r.value == fields[key].s
    ensures key !in fields ==> r == Failure(KeyNotFound(key))
  {
    if key !in fields then Failure(KeyNotFound(key))
    else match fields[key]
      case JString(s) => Success(s)
      case JNull => Failure(ValueNotFound)
      case _ => Failure(TypeMismatch)
  }

  /** `container.decodeIfPresent(String.self, forKey: key)`: absent and null both read as nil. */
  function DecodeStringIfPresent(fields: map<string, Json>, key: string): (r: Result<Option<string>>)
    ensures r.Failure? <==> key in fields && !fields[key].JNull? && !fields[key].JString?
    ensures r == Success(None) <==> key !in fields || fields[key].JNull?
    ensures r.Success? && r.value.Some? ==> fields[key] == JString(r.value.value)
  {
    if key !in fields then Success(None)
    else match fields[key]
      case JString(s) => Success(Some(s))
      case JNull => Success(None)
      case _ => Failure(TypeMismatch)
  }
}
