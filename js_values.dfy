/** The JavaScript values that the consent gate and the adapter inspect,
    with the bits of JavaScript semantics they depend on: truthiness,
    property access and conversion to a string. */
module JsValues {

  datatype Option<+T> = None | Some(value: T)

  /** A JavaScript value. Numbers are integers (floating point is not
      modelled); `Obj` is a plain object, the only kind for which
      `utils.isObject` holds, given by its own enumerable properties. */
  datatype Js =
    | Undefined
    | Null
    | Bool(b: bool)
    | Num(n: int)
    | Str(s: string)
    | Obj(props: map<string, Js>)

  /** JavaScript truthiness: `undefined`, `null`, `false`, `0` and `''` are falsy. */
  predicate Truthy(v: Js): (t: bool)
    ensures !t <==> v == Undefined || v == Null || v == Bool(false) || v == Num(0) || v == Str("")
  {
    match v
    case Undefined => false
    case Null => false
    case Bool(b) => b
    case Num(n) => n != 0
    case Str(s) => s != ""
    case Obj(_) => true
  }

  /** `v[key]` for the property names the core reads: a missing property, or a
      property of a primitive, reads as `undefined`. */
  function Get(v: Js, key: string): (r: Js)
    ensures v.Obj? && key in v.props ==> r == v.props[key]
    ensures !(v.Obj? && key in v.props) ==> r == Undefined
  {
    if v.Obj? && key in v.props then v.props[key] else Undefined
  }

  /** The decimal digit for `d`. */
  function Digit(d: nat): (c: char)
    requires d < 10
    ensures '0' <= c <= '9'
  {
    "0123456789"[d]
  }

  /** The decimal numeral of a natural number, without leading zeros. */
  function NatToString(n: nat): (r: string)
    ensures |r| >= 1
    ensures forall i :: 0 <= i < |r| ==> '0' <= r[i] <= '9'
    ensures r[0] == '0' ==> n == 0
  {
    if n < 10 then [Digit(n)] else NatToString(n / 10) + [Digit(n % 10)]
  }

  /** `String(v)` for the values the core converts. */
  function JsToString(v: Js): (s: string)
    ensures v.Str? ==> s == v.s
    ensures v.Num? ==> |s| > 0 && (s[0] == '-' <==> v.n < 0) && forall i :: 0 < i < |s| ==> '0' <= s[i] <= '9'
  {
    match v
    case Undefined => "undefined"
    case Null => "null"
    case Bool(b) => if b then "true" else "false"
    case Num(n) => if n < 0 then "-" + NatToString(-n) else NatToString(n)
    case Str(s) => s
    case Obj(_) => "[object Object]"
  }
}
