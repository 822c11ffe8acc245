/** The values Python's `json.loads` produces, and the ways it can end. */
module Json {

  /**
   * A decoded JSON document. Integers and floats are told apart as Python
   * tells them apart; a float carries its Python `str()`. An object keeps
   * its members in document order, duplicates included.
   */
  datatype Value =
    | JNull
    | JBool(b: bool)
    | JInt(i: int)
    | JFloat(repr: string)
    | JString(s: string)
    | JArray(items: seq<Value>)
    | JObject(members: seq<(string, Value)>)

  /**
   * What `json.loads(text)` does: returns a value, raises
   * `json.JSONDecodeError`, or raises some other exception (such as a
   * `RecursionError` on deeply nested input).
   */
  datatype ParseResult = Parsed(value: Value) | DecodeError | OtherError

  /** `type(v).__name__` of the Python object a JSON value decodes to. */
  function TypeName(v: Value): (name: string)
    ensures name == "dict" <==> v.JObject?
  {
    match v
    case JNull => "NoneType"
    case JBool(_) => "bool"
    case JInt(_) => "int"
    case JFloat(_) => "float"
    case JString(_) => "str"
    case JArray(_) => "list"
    case JObject(_) => "dict"
  }
}
