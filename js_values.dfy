/**
 * The few JavaScript value rules the core depends on: numbers may be NaN,
 * and `if (x)` tests truthiness, which differs from `x ?? d`, which only
 * replaces null and undefined.
 */
module JsValues {
  import opened Wrappers

  /** A JavaScript number: a (finite) value, or NaN, what `parseInt` and `Number` give for junk. */
  datatype Num = Num(value: real) | NaN

  /** `if (n)` on a number: false for 0 and for NaN. */
  predicate NumTruthy(n: Num)
  {
    n.Num? && n.value != 0.0
  }

  /** `if (s)` on an optional string: false for null/undefined and for "". */
  predicate StrTruthy(s: Option<string>)
  {
    s.Some? && s.value != ""
  }

  /** `if (n)` on an optional number. */
  predicate OptNumTruthy(n: Option<Num>)
  {
    n.Some? && NumTruthy(n.value)
  }

  /** A parsed JSON value, what `JSON.parse` gives. */
  datatype Json =
    | JNull
    | JBool(b: bool)
    | JNum(n: Num)
    | JStr(s: string)
    | JArr(items: seq<Json>)
    | JObj(fields: seq<(string, Json)>)
}
