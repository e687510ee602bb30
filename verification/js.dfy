/** JavaScript value semantics the source leans on: truthiness, the `||` operator,
    `String(v)` and template-literal interpolation. `""`, `0`, `null` and
    `undefined` are falsy; every array and object is truthy. */
module Js {
  import opened Wrappers
  import opened Text

  /** A JSON scalar as it arrives from a provider. */
  datatype Json = JNull | JStr(str: string) | JNum(num: int)

  predicate Truthy(o: Option<string>) {
    o.Some? && o.value != ""
  }

  predicate IntTruthy(o: Option<int>) {
    o.Some? && o.value != 0
  }

  predicate JsonTruthy(j: Json) {
    match j
    case JNull => false
    case JStr(s) => s != ""
    case JNum(n) => n != 0
  }

  predicate OptJsonTruthy(o: Option<Json>) {
    o.Some? && JsonTruthy(o.value)
  }

  /** `a || b` on optional strings: the first operand when truthy, else the second,
      which is returned even when it is falsy. */
  function Or(a: Option<string>, b: Option<string>): (r: Option<string>)
    ensures Truthy(r) <==> Truthy(a) || Truthy(b)
    ensures r == a || r == b
  {
    if Truthy(a) then a else b
  }

  /** `a || d` with a literal default `d`. */
  function OrElse(a: Option<string>, d: string): (r: string)
    ensures Truthy(a) ==> r == a.value
    ensures !Truthy(a) ==> r == d
  {
    if Truthy(a) then a.value else d
  }

  /** `String(v)`, which is also what `${v}` renders. */
  function JsonText(j: Json): string {
    match j
    case JNull => "null"
    case JStr(s) => s
    case JNum(n) => IntToString(n)
  }

  /** `${v}` for an optional string: a missing value renders as `undefined`. */
  function Interpolate(o: Option<string>): string {
    match o
    case Some(s) => s
    case None => "undefined"
  }
}
