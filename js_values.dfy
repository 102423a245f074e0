/** The JavaScript values that flow through configuration, settings and mounts. */
module JsValues {
  datatype Value =
    | Undefined
    | Null
    | Bool(b: bool)
    | Num(n: int)   // only integral numbers are modelled
    | Str(s: string)
    | Obj(id: nat)  // a plain object (no array, function or own `toString`); `id` is its identity

  /** JavaScript truthiness (`if (v)`, `!v`, `v || d`). */
  predicate Truthy(v: Value) {
    match v
    case Undefined => false
    case Null => false
    case Bool(b) => b
    case Num(n) => n != 0
    case Str(s) => s != ""
    case Obj(_) => true
  }

  function DigitChar(d: nat): char
    requires d < 10
  {
    (48 + d) as char
  }

  /** Decimal notation of a natural number. */
  function Digits(n: nat): string
    decreases n
  {
    if n < 10 then [DigitChar(n)] else Digits(n / 10) + [DigitChar(n % 10)]
  }

  /** The property key a value is coerced to when it indexes an object (`o[v]`). */
  function PropertyKey(v: Value): (r: string)
    ensures v.Str? ==> r == v.s
    ensures !v.Str? ==> r != ""
  {
    match v
    case Undefined => "undefined"
    case Null => "null"
    case Bool(b) => if b then "true" else "false"
    case Num(n) => if n < 0 then "-" + Digits(-n) else Digits(n)
    case Str(s) => s
    case Obj(_) => "[object Object]"
  }
}
