/**
 * JSON values as the connector's Python code sees them after `response.json()`:
 * the scalars it copies into records, and containers (arrays and objects), which
 * Python cannot use as dictionary or set keys.
 */
module Json {

  datatype Value =
    | Null
    | Bool(b: bool)
    | Num(n: int)
    | Str(s: string)
    | Container(size: nat)  // a JSON array or object with `size` elements

  /** Python truthiness (`if value:`): null, false, 0, "" and empty containers are false. */
  predicate Truthy(v: Value) {
    match v
    case Null => false
    case Bool(b) => b
    case Num(n) => n != 0
    case Str(s) => s != []
    case Container(size) => size > 0
  }

  /** Whether Python can hash the value, i.e. use it as a `dict` key or `set` element. */
  predicate Hashable(v: Value) {
    !v.Container?
  }
}
