/** Decoded JSON values as the rules see them, with Python's truth test. */
module Json {

  /** A value produced by the JSON decoder. Integers and floats are both numbers. */
  datatype Value =
    | Null
    | Bool(b: bool)
    | Num(n: real)
    | Str(s: string)
    | Arr(items: seq<Value>)
    | Obj(fields: map<string, Value>)

  /** A traveller record is a JSON object: a dictionary from field names to values. */
  type Record = map<string, Value>

  /** Python's truth value: `None`, `False`, zero and empty strings or containers are false. */
  predicate Truthy(v: Value) {
    match v
    case Null => false
    case Bool(b) => b
    case Num(n) => n != 0.0
    case Str(s) => s != ""
    case Arr(items) => |items| > 0
    case Obj(fields) => |fields| > 0
  }

  /** Values Python can hash; testing a list or a dict for set membership raises `TypeError`. */
  predicate Hashable(v: Value) {
    !v.Arr? && !v.Obj?
  }

  /** `d.get(key, default)` */
  function Get(d: map<string, Value>, key: string, default: Value): Value {
    if key in d then d[key] else default
  }
}
