/** JSON values as Python's `json.loads` hands them to the importer, with the
    few Python operations the importer applies to them. */
module Json {

  datatype Option<+T> = None | Some(value: T)

  /** A decoded JSON value (`None`, `bool`, `int`, `float`, `str`, `list`, `dict`). */
  datatype Value =
    | Null
    | Bool(b: bool)
    | Int(i: int)
    | Float(f: real)
    | Str(s: string)
    | Arr(items: seq<Value>)
    | Obj(fields: map<string, Value>)

  /** A decoded JSON object: field name to value. */
  type Record = map<string, Value>

  /** Python truthiness: `None`, `False`, zero, and empty strings, lists and
      dicts are falsy. */
  predicate Truthy(v: Value)
  {
    match v
    case Null => false
    case Bool(b) => b
    case Int(i) => i != 0
    case Float(f) => f != 0.0
    case Str(s) => s != []
    case Arr(items) => items != []
    case Obj(fields) => fields != map[]
  }

  /** `data.get(key, default)` */
  function GetOr(data: Record, key: string, default: Value): Value
  {
    if key in data then data[key] else default
  }

  /** `data.get(key)`: an absent key reads as `None`. */
  function Get(data: Record, key: string): Value
  {
    GetOr(data, key, Null)
  }

  /** What `json.loads` does with one line: a value, or `JSONDecodeError`. */
  datatype Parsed = Parsed(value: Value) | Malformed
}
