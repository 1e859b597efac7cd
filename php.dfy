/** The few PHP built-ins the rewards models lean on, written out. */
module Php {
  import opened Wrappers

  predicate IsAsciiLower(c: char) {
    'a' <= c <= 'z'
  }

  /** `ucfirst`: upper-cases the first character when it is an ASCII lower-case letter. */
  function UcFirst(s: string): (r: string)
    ensures |r| == |s|
    ensures |s| > 0 ==> r[1..] == s[1..]
    ensures |s| > 0 && IsAsciiLower(s[0]) ==> r[0] == (s[0] as int - 32) as char
    ensures |s| > 0 && !IsAsciiLower(s[0]) ==> r == s
  {
    if |s| > 0 && IsAsciiLower(s[0]) then [(s[0] as int - 32) as char] + s[1..] else s
  }

  /** PHP truthiness of a `?string`: null, "" and "0" are false, every other string is true. */
  predicate Truthy(s: Option<string>) {
    s.Some? && s.value != "" && s.value != "0"
  }

  /** PHP's `%` on integers truncates toward zero, so the remainder takes the sign of the
      dividend (`-13 % 10` is `-3`); Dafny's `%` is Euclidean (`-13 % 10` is `7`). */
  function TruncMod(a: int, m: int): (r: int)
    requires m > 0
    ensures -m < r < m
    ensures a >= 0 ==> r == a % m
    ensures a < 0 ==> r == -((-a) % m)
  {
    if a >= 0 then a % m else -((-a) % m)
  }
}
