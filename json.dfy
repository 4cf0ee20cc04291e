/** The values `json.loads` produces, and what it returns as a whole. The
    decoder itself is not modelled: the parser receives it as a function from
    text to `Decoded`. */
module JsonValue {

  datatype Option<T> = None | Some(value: T)

  /** A decoded JSON value, as the Python object it becomes. Numbers with a
      fraction or an exponent become a finite `float` (`JFloat`) or, for
      `NaN`, `Infinity` and out-of-range literals, a non-finite one. */
  datatype Json =
    | JNull
    | JBool(b: bool)
    | JInt(i: int)
    | JFloat(x: real)
    | JNonFinite(isNaN: bool)
    | JString(s: string)
    | JArray(items: seq<Json>)
    | JObject(fields: map<string, Json>)

  /** `json.loads(text)`: a value, or the `JSONDecodeError` it raises. */
  datatype Decoded = DecodeError | Value(json: Json)

  /** `type(v).__name__` of the Python object a JSON value becomes. */
  function TypeName(j: Json): string {
    match j
    case JNull => "NoneType"
    case JBool(_) => "bool"
    case JInt(_) => "int"
    case JFloat(_) => "float"
    case JNonFinite(_) => "float"
    case JString(_) => "str"
    case JArray(_) => "list"
    case JObject(_) => "dict"
  }
}
