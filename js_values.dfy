/**
 * JavaScript truthiness of the request and session values the handlers test
 * with `!x` or `x || fallback`. A missing field is `None`; the falsy values
 * that matter here are the empty string and the number 0.
 */
module JsValues {
  import opened Wrappers

  /** `!!s` for a string field that may be missing. */
  predicate StrTruthy(s: Option<string>) {
    s.Some? && s.value != ""
  }

  /** `!!n` for a numeric field that may be missing. */
  predicate IntTruthy(n: Option<int>) {
    n.Some? && n.value != 0
  }

  /** `s || fallback` for a string field. */
  function StrOr(s: Option<string>, fallback: string): (r: string)
    ensures StrTruthy(s) ==> r == s.value
    ensures !StrTruthy(s) ==> r == fallback
  {
    if StrTruthy(s) then s.value else fallback
  }

  /** `n || fallback` for a numeric field. */
  function IntOr(n: Option<int>, fallback: int): (r: int)
    ensures IntTruthy(n) ==> r == n.value
    ensures !IntTruthy(n) ==> r == fallback
  {
    if IntTruthy(n) then n.value else fallback
  }

  /** `s || null`: a falsy string is stored as SQL NULL. */
  function StrOrNull(s: Option<string>): (r: Option<string>)
    ensures r.Some? <==> StrTruthy(s)
    ensures r.Some? ==> r == s
  {
    if StrTruthy(s) then s else None
  }
}
