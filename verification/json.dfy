/**
 * The fields of a parsed JSON request body, seen the way the route
 * handlers see them: through JavaScript truthiness (`!name`) and string
 * coercion (`String(code)`).
 */
module Json {

  import opened Options
  import Text

  datatype Value =
    | Missing                                  // the key is absent: `undefined`
    | Str(s: string)
    | Num(n: int)                              // an integral JSON number
    // null, a boolean, a fractional number, an array or an object; `rendering`
    // is `String(v)`, or None when that throws (an object whose `toString`
    // and `valueOf` give no primitive, such as `{"toString": 1}`)
    | Other(truthy: bool, rendering: Option<string>)

  /** JavaScript truthiness: `!v` is false exactly for these values. */
  predicate Truthy(v: Value)
    ensures Truthy(v) ==> !v.Missing?
    ensures v.Str? ==> (Truthy(v) <==> ToJsString(v) != Some([]))
    ensures v.Num? && v.n >= 0 ==> (Truthy(v) <==> ToJsString(v) != Some("0"))
  {
    match v
    case Missing => false
    case Str(s) => s != []
    case Num(n) => n != 0
    case Other(t, _) => t
  }

  /** `String(v)`, or None when the conversion throws; only an `Other`
      value without a rendering throws. */
  function ToJsString(v: Value): (r: Option<string>)
    ensures r.None? <==> v.Other? && v.rendering.None?
    ensures v.Str? ==> r == Some(v.s)
    ensures v.Num? && v.n >= 0 ==> r == Some(Text.DecimalString(v.n))
  {
    match v
    case Missing => Some("undefined")
    case Str(s) => Some(s)
    case Num(n) => Some(Text.IntToString(n))
    case Other(_, rendering) => rendering
  }
}
