/**
  Values shared by the whole model: the Option/Result wrappers and the
  JSON-shaped payloads the upstream API returns and the cache stores.
 */
module Values {

  datatype Option<+T> = None | Some(value: T)

  datatype Result<+T, +E> = Ok(value: T) | Err(error: E)

  /** A decoded JSON document, as `response.json()` yields it. Numbers are
      integers only; floating point is not modelled. */
  datatype Json =
    | Null
    | Bool(b: bool)
    | Int(n: int)
    | Str(s: string)
    | Array(elems: seq<Json>)
    | Object(fields: map<string, Json>)

  /** Python truthiness of a decoded JSON value: `None`, `False`, `0`, `""`,
      `[]` and `{}` are falsy, everything else is truthy. */
  predicate Truthy(v: Json)
  {
    match v
    case Null => false
    case Bool(b) => b
    case Int(n) => n != 0
    case Str(s) => |s| > 0
    case Array(a) => |a| > 0
    case Object(f) => |f| > 0
  }

  /** Python truthiness of an optional string (`None` or `""` is falsy). */
  predicate Present(s: Option<string>)
  {
    s.Some? && |s.value| > 0
  }

  /** Python's `a or b` on optional strings: `a` when it is truthy, else `b`. */
  function Or(a: Option<string>, b: Option<string>): (r: Option<string>)
    ensures Present(a) ==> r == a
    ensures !Present(a) ==> r == b
    ensures Present(r) <==> Present(a) || Present(b)
  {
    if Present(a) then a else b
  }
}
