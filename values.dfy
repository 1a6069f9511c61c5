/**
 * The JavaScript values the scraper reads from JSON documents and GraphQL
 * payloads, with the two operators its code leans on everywhere: `a || b`
 * (falls back on any falsy value) and `a ?? b` (falls back only on null or
 * undefined). Numbers are integers: no floating point and no NaN.
 */
module Values {

  datatype Option<+T> = None | Some(value: T) {
    function GetOr(default: T): T {
      match this
      case Some(v) => v
      case None => default
    }
  }

  datatype Result<+R, +E> = Success(value: R) | Failure(error: E)

  /** A primitive JSON value; `Undefined` stands for a missing property. */
  datatype Value = Undefined | Null | Bool(b: bool) | Num(n: int) | Str(s: string)

  /** JavaScript truthiness of a primitive value. */
  predicate Truthy(v: Value) {
    match v
    case Bool(b) => b
    case Num(n) => n != 0
    case Str(s) => s != ""
    case _ => false
  }

  predicate Nullish(v: Value) {
    v == Undefined || v == Null
  }

  /** `a || b` */
  function Or(a: Value, b: Value): (r: Value)
    ensures r == a || r == b
    ensures Truthy(r) <==> Truthy(a) || Truthy(b)
    ensures Truthy(a) ==> r == a
    ensures !Truthy(a) ==> r == b
  {
    if Truthy(a) then a else b
  }

  /** `a ?? b` */
  function Coalesce(a: Value, b: Value): (r: Value)
    ensures !Nullish(a) ==> r == a
    ensures Nullish(a) ==> r == b
  {
    if Nullish(a) then b else a
  }

  /** A string that is present and not empty, as `!x` tests it. */
  predicate PresentString(o: Option<string>) {
    o.Some? && o.value != ""
  }
}
