/** Optional values, and the JavaScript `x || default` idiom on them. */
module Wrappers {

  datatype Option<+T> = None | Some(value: T)

  /** `s || d` for a string that may be missing: a missing or empty string is falsy. */
  function StringOr(s: Option<string>, d: string): (r: string)
    ensures s.Some? && s.value != "" ==> r == s.value
    ensures s.None? || s.value == "" ==> r == d
  {
    if s.Some? && s.value != "" then s.value else d
  }

  /** `s || null` for a string that may be missing: an empty string becomes null as well. */
  function StringOrNull(s: Option<string>): (r: Option<string>)
    ensures r.Some? <==> s.Some? && s.value != ""
    ensures r.Some? ==> r == s
  {
    if s.Some? && s.value != "" then s else None
  }

  /** `x || null` for a number that may be missing: a missing value and 0 are falsy. */
  function NumberOrNull(x: Option<real>): (r: Option<real>)
    ensures r.Some? <==> x.Some? && x.value != 0.0
    ensures r.Some? ==> r.value == x.value
  {
    if x.Some? && x.value != 0.0 then x else None
  }
}
