/**
 * Values shared by the whole model: optional values, the outcome of a step
 * that may end the run with an uncaught exception, and decoded JSON.
 */
module Values {

  datatype Option<+T> = None | Some(value: T)

  /**
   * The result of a piece of the cleanup run. `Crashed` stands for a Python
   * exception that nothing catches (AttributeError, TypeError, KeyError):
   * the process stops with a traceback and no report is written.
   */
  datatype Outcome<+T> = Done(value: T) | Crashed

  /**
   * A value as `json.loads` returns it. Objects are dictionaries from
   * string keys to values; numbers are kept as reals (integers included).
   */
  datatype Json =
    | JNull
    | JBool(b: bool)
    | JNum(n: real)
    | JStr(s: string)
    | JArr(items: seq<Json>)
    | JObj(fields: map<string, Json>)

  /** What `json.loads` gave for a piece of text: a value, or JSONDecodeError. */
  datatype Decoded = Malformed | Parsed(value: Json)

  /**
   * Python truthiness of a decoded JSON value (`if not value`): false
   * exactly for null, `false`, zero, and the empty string, list and object.
   */
  predicate Truthy(v: Json)
    ensures Truthy(v) <==> v != JNull && v != JBool(false) && v != JNum(0.0)
                            && v != JStr([]) && v != JArr([]) && v != JObj(map[])
  {
    match v
    case JNull => false
    case JBool(b) => b
    case JNum(n) => n != 0.0
    case JStr(s) => s != []
    case JArr(items) => items != []
    case JObj(fields) => fields != map[]
  }

  /** `d.get(key, default)` on a dictionary. */
  function Get(fields: map<string, Json>, key: string, default: Json): (v: Json)
    ensures key in fields ==> v == fields[key]
    ensures key !in fields ==> v == default
  {
    if key in fields then fields[key] else default
  }
}
