/**
 * The text of `str(uuid.uuid4())` and the prefix slices the models cut from
 * it. The uuid itself is random, so the models take it as a parameter and
 * rely only on its shape.
 */
module Identifiers {
  import opened Text

  predicate IsLowerHex(c: char) {
    IsDigit(c) || 'a' <= c <= 'f'
  }

  predicate IsUpperHex(c: char) {
    IsDigit(c) || 'A' <= c <= 'F'
  }

  /** Where `str(uuid)` puts its dashes: 8-4-4-4-12. */
  predicate IsDashIndex(k: int) {
    k == 8 || k == 13 || k == 18 || k == 23
  }

  /**
   * `str(uuid.uuid4())`: 36 characters, lower-case hexadecimal digits in
   * groups of 8, 4, 4, 4 and 12 joined by '-', version digit '4' and
   * variant digit one of 8, 9, a, b (section 4.4 of RFC 4122).
   */
  predicate IsUuid4Text(u: string) {
    && |u| == 36
    && (forall k :: 0 <= k < 36 ==> if IsDashIndex(k) then u[k] == '-' else IsLowerHex(u[k]))
    && u[14] == '4'
    && (u[19] == '8' || u[19] == '9' || u[19] == 'a' || u[19] == 'b')
  }

  /** Python `s[:n]`: the first n characters, or all of `s` when it is shorter. */
  function Take(s: string, n: nat): (t: string)
    ensures |t| == if |s| < n then |s| else n
    ensures StartsWith(s, t)
  {
    if |s| < n then s else s[..n]
  }

  /** Upper-casing turns lower-case hexadecimal digits into upper-case ones. */
  lemma UpperHex(s: string)
    requires forall k :: 0 <= k < |s| ==> IsLowerHex(s[k])
    ensures forall k :: 0 <= k < |s| ==> IsUpperHex(Upper(s)[k])
  {
  }
}
