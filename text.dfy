/**
 * String primitives that the Python views and the browser scripts rely on:
 * whitespace as each language defines it, strip/trim, ASCII lower-casing,
 * substring tests, `str.split` with its inverse, decimal rendering of
 * integers, Python `int()` parsing, the syntax Python `float()` accepts, and
 * the UTF-16 length that JavaScript's `.length` reports.
 */
module Text {
  import opened Wrappers

  /** Whose notion of whitespace is meant. */
  datatype Dialect = Python | JavaScript

  /**
   * Python's `str.isspace()` (the set `str.strip()` removes) and the
   * ECMAScript WhiteSpace and LineTerminator set (used by `trim()` and `\s`).
   * They differ in U+001C..U+001F and U+0085 (Python only) and U+FEFF
   * (JavaScript only).
   */
  predicate IsSpace(d: Dialect, c: char) {
    || c == ' ' || '\t' <= c <= '\r' || c == '\U{a0}' || c == '\U{1680}'
    || '\U{2000}' <= c <= '\U{200a}' || c == '\U{2028}' || c == '\U{2029}'
    || c == '\U{202f}' || c == '\U{205f}' || c == '\U{3000}'
    || (d == Python && ('\U{1c}' <= c <= '\U{1f}' || c == '\U{85}'))
    || (d == JavaScript && c == '\U{feff}')
  }

  predicate AllSpace(d: Dialect, s: string) {
    forall k :: 0 <= k < |s| ==> IsSpace(d, s[k])
  }

  /** Neither the first nor the last character is whitespace. */
  predicate NoEdgeSpace(d: Dialect, s: string) {
    s == [] || (!IsSpace(d, s[0]) && !IsSpace(d, s[|s| - 1]))
  }

  /** Index of the first character that is not whitespace (|s| if none). */
  function FirstNonSpace(d: Dialect, s: string): (i: nat)
    ensures i <= |s|
    ensures forall k :: 0 <= k < i ==> IsSpace(d, s[k])
    ensures i < |s| ==> !IsSpace(d, s[i])
  {
    if s == [] || !IsSpace(d, s[0]) then 0
    else 1 + FirstNonSpace(d, s[1..])
  }

  /** One past the last character that is not whitespace (0 if none). */
  function EndNonSpace(d: Dialect, s: string): (j: nat)
    ensures j <= |s|
    ensures forall k :: j <= k < |s| ==> IsSpace(d, s[k])
    ensures 0 < j ==> !IsSpace(d, s[j - 1])
  {
    if s == [] || !IsSpace(d, s[|s| - 1]) then |s|
    else EndNonSpace(d, s[..|s| - 1])
  }

  /**
   * Python `str.strip()` (d == Python) and JavaScript `String.prototype.trim`
   * (d == JavaScript): the text between the leading and trailing whitespace.
   */
  function Strip(d: Dialect, s: string): (r: string)
    ensures NoEdgeSpace(d, r)
    ensures r == [] <==> AllSpace(d, s)
    ensures !AllSpace(d, s) ==>
              var i, j := FirstNonSpace(d, s), EndNonSpace(d, s);
              i < j && r == s[i..j]
  {
    var i, j := FirstNonSpace(d, s), EndNonSpace(d, s);
    if i < |s| then s[i..j] else []
  }

  /** Stripping text that has no whitespace at its ends returns it as it is. */
  lemma StripNoEdgeSpace(d: Dialect, s: string)
    requires NoEdgeSpace(d, s)
    ensures Strip(d, s) == s
  {
    if s != [] {
      assert FirstNonSpace(d, s) == 0;
      assert EndNonSpace(d, s) == |s|;
      assert s[0..|s|] == s;
    }
  }

  /** Stripping twice is stripping once. */
  lemma StripIdempotent(d: Dialect, s: string)
    ensures Strip(d, Strip(d, s)) == Strip(d, s)
  {
    StripNoEdgeSpace(d, Strip(d, s));
  }

  /** A leading whitespace character before clean text is stripped away. */
  lemma StripLeadingSpace(d: Dialect, c: char, s: string)
    requires IsSpace(d, c) && s != [] && NoEdgeSpace(d, s)
    ensures Strip(d, [c] + s) == s
  {
    var t := [c] + s;
    assert t[1..] == s;
    assert FirstNonSpace(d, t) == 1;
    assert EndNonSpace(d, t) == |t|;
  }

  predicate IsAsciiUpper(c: char) { 'A' <= c <= 'Z' }
  predicate IsAsciiLower(c: char) { 'a' <= c <= 'z' }
  predicate IsDigit(c: char) { '0' <= c <= '9' }

  function LowerChar(c: char): char {
    if IsAsciiUpper(c) then (c as int + 32) as char else c
  }

  function UpperChar(c: char): char {
    if IsAsciiLower(c) then (c as int - 32) as char else c
  }

  /** Python `str.lower()` on the ASCII range. */
  function Lower(s: string): (r: string)
    ensures |r| == |s|
    ensures forall k :: 0 <= k < |s| ==> r[k] == LowerChar(s[k])
  {
    seq(|s|, k requires 0 <= k < |s| => LowerChar(s[k]))
  }

  /** Python `str.upper()` on the ASCII range. */
  function Upper(s: string): (r: string)
    ensures |r| == |s|
    ensures forall k :: 0 <= k < |s| ==> r[k] == UpperChar(s[k])
  {
    seq(|s|, k requires 0 <= k < |s| => UpperChar(s[k]))
  }

  /** Lower-casing never turns a non-space character into a space or back. */
  lemma LowerKeepsSpaces(d: Dialect, s: string)
    ensures forall k :: 0 <= k < |s| ==> (IsSpace(d, Lower(s)[k]) <==> IsSpace(d, s[k]))
  {
  }

  /** Lower-casing twice is lower-casing once. */
  lemma LowerIdempotent(s: string)
    ensures Lower(Lower(s)) == Lower(s)
  {
  }

  /** Lower-casing changes exactly the ASCII capitals. */
  lemma LowerFixesNonCapitals(s: string)
    ensures Lower(s) == s <==> forall k :: 0 <= k < |s| ==> !IsAsciiUpper(s[k])
  {
    if Lower(s) == s {
      forall k | 0 <= k < |s|
        ensures !IsAsciiUpper(s[k])
      {
        assert Lower(s)[k] == LowerChar(s[k]);
      }
    }
  }

  /** `s.rfind(c)`: the last index holding `c`, None exactly when there is none. */
  function LastIndexOf(s: string, c: char): (r: Option<nat>)
    ensures r.Some? ==> r.value < |s| && s[r.value] == c && forall k :: r.value < k < |s| ==> s[k] != c
    ensures r.None? <==> c !in s
  {
    if s == [] then None
    else if s[|s| - 1] == c then Some(|s| - 1)
    else
      var r := LastIndexOf(s[..|s| - 1], c);
      assert s == s[..|s| - 1] + [s[|s| - 1]];
      r
  }

  /** An index holding `c` with no `c` after it is LastIndexOf. */
  lemma LastIndexOfAt(s: string, c: char, i: nat)
    requires i < |s| && s[i] == c && forall k :: i < k < |s| ==> s[k] != c
    ensures LastIndexOf(s, c) == Some(i)
  {
  }

  predicate StartsWith(s: string, prefix: string) {
    |prefix| <= |s| && s[..|prefix|] == prefix
  }

  /** Python's `needle in hay` on strings. */
  predicate Contains(hay: string, needle: string)
    decreases |hay|
  {
    StartsWith(hay, needle) || (hay != [] && Contains(hay[1..], needle))
  }

  /** Every string contains itself (so equal tokens always match). */
  lemma ContainsSelf(s: string)
    ensures Contains(s, s)
  {
    assert s[..|s|] == s;
  }

  /**
   * Python `s.split(sep)` for a non-empty separator: cut at every
   * occurrence, found left to right without overlap; empty pieces are kept.
   */
  function Split(s: string, sep: string): (parts: seq<string>)
    requires sep != []
    ensures |parts| >= 1
    decreases |s|
  {
    if StartsWith(s, sep) then [[]] + Split(s[|sep|..], sep)
    else if s == [] then [[]]
    else
      var rest := Split(s[1..], sep);
      [[s[0]] + rest[0]] + rest[1..]
  }

  /** Text without the separator character is one piece. */
  lemma {:induction false} SplitWithoutSeparator(s: string, c: char)
    requires c !in s
    ensures Split(s, [c]) == [s]
    decreases |s|
  {
    if s != [] {
      assert !StartsWith(s, [c]) by { assert s[0] != c; }
      SplitWithoutSeparator(s[1..], c);
      assert [s[0]] + s[1..] == s;
    }
  }

  /** The first separator character cuts off the first piece. */
  lemma {:induction false} SplitAtFirst(a: string, c: char, b: string)
    requires c !in a
    ensures Split(a + [c] + b, [c]) == [a] + Split(b, [c])
    decreases |a|
  {
    var s := a + [c] + b;
    if a == [] {
      assert StartsWith(s, [c]);
      assert s[1..] == b;
    } else {
      assert !StartsWith(s, [c]) by { assert s[0] == a[0] != c; }
      assert s[1..] == a[1..] + [c] + b;
      SplitAtFirst(a[1..], c, b);
      assert [s[0]] + a[1..] == a;
    }
  }

  /** The last separator character cuts off the last piece. */
  lemma {:induction false} SplitAtLast(a: string, c: char, b: string)
    requires c !in b
    ensures Split(a + [c] + b, [c]) == Split(a, [c]) + [b]
    decreases |a|
  {
    var s := a + [c] + b;
    if a == [] {
      assert StartsWith(s, [c]);
      assert s[1..] == b;
      SplitWithoutSeparator(b, c);
    } else if a[0] == c {
      assert StartsWith(s, [c]) && StartsWith(a, [c]);
      assert s[1..] == a[1..] + [c] + b;
      SplitAtLast(a[1..], c, b);
    } else {
      assert !StartsWith(s, [c]) && !StartsWith(a, [c]);
      assert s[1..] == a[1..] + [c] + b;
      SplitAtLast(a[1..], c, b);
    }
  }

  /** Python `sep.join(parts)`. */
  function Join(parts: seq<string>, sep: string): string
  {
    if parts == [] then []
    else if |parts| == 1 then parts[0]
    else parts[0] + sep + Join(parts[1..], sep)
  }

  /** The separator occurrences that `Split` cuts at, counted left to right. */
  function Occurrences(s: string, sep: string): nat
    requires sep != []
    decreases |s|
  {
    if StartsWith(s, sep) then 1 + Occurrences(s[|sep|..], sep)
    else if s == [] then 0
    else Occurrences(s[1..], sep)
  }

  /** Joining a piece in front of a non-empty list puts one separator between. */
  lemma JoinCons(p: string, rest: seq<string>, sep: string)
    requires rest != []
    ensures Join([p] + rest, sep) == p + sep + Join(rest, sep)
  {
    assert ([p] + rest)[1..] == rest;
  }

  /** Joining the pieces with the separator gives back the original text. */
  lemma {:induction false} JoinSplit(s: string, sep: string)
    requires sep != []
    ensures Join(Split(s, sep), sep) == s
    decreases |s|
  {
    if StartsWith(s, sep) {
      var tail := s[|sep|..];
      var rest := Split(tail, sep);
      assert Split(s, sep) == [[]] + rest;
      JoinSplit(tail, sep);
      JoinCons([], rest, sep);
      assert s == sep + tail;
    } else if s != [] {
      var rest := Split(s[1..], sep);
      assert Split(s, sep) == [[s[0]] + rest[0]] + rest[1..];
      JoinSplit(s[1..], sep);
      JoinFrontChar(s[0], rest, sep);
      assert s == [s[0]] + s[1..];
    }
  }

  /** Gluing a character onto the first piece glues it onto the joined text. */
  lemma JoinFrontChar(c: char, parts: seq<string>, sep: string)
    requires parts != []
    ensures Join([[c] + parts[0]] + parts[1..], sep) == [c] + Join(parts, sep)
  {
    if |parts| > 1 {
      JoinCons([c] + parts[0], parts[1..], sep);
      JoinCons(parts[0], parts[1..], sep);
      assert [parts[0]] + parts[1..] == parts;
    }
  }

  /** Splitting yields one more piece than there are separator occurrences. */
  lemma {:induction false} SplitCount(s: string, sep: string)
    requires sep != []
    ensures |Split(s, sep)| == Occurrences(s, sep) + 1
    decreases |s|
  {
    if StartsWith(s, sep) {
      SplitCount(s[|sep|..], sep);
    } else if s == [] {
    } else {
      SplitCount(s[1..], sep);
    }
  }

  /** No piece produced by `Split` contains the separator. */
  lemma {:induction false} SplitPartsAvoidSeparator(s: string, sep: string)
    requires sep != []
    ensures forall k :: 0 <= k < |Split(s, sep)| ==> !Contains(Split(s, sep)[k], sep)
    decreases |s|
  {
    if StartsWith(s, sep) {
      SplitPartsAvoidSeparator(s[|sep|..], sep);
      var rest := Split(s[|sep|..], sep);
      assert Split(s, sep) == [[]] + rest;
      assert !Contains([], sep);
    } else if s == [] {
      assert !Contains([], sep);
    } else {
      SplitPartsAvoidSeparator(s[1..], sep);
      var rest := Split(s[1..], sep);
      var first := [s[0]] + rest[0];
      assert first[1..] == rest[0];
      PrefixOfFirstPart(s[1..], sep);
      assert StartsWith(s, first) by {
        assert s[..|first|] == [s[0]] + s[1..][..|rest[0]|];
      }
      PrefixTransitive(s, first, sep);
      assert !Contains(first, sep);
      assert Split(s, sep) == [first] + rest[1..];
      forall k | 1 <= k < |Split(s, sep)|
        ensures !Contains(Split(s, sep)[k], sep)
      {
        assert Split(s, sep)[k] == rest[k];
      }
    }
  }

  lemma PrefixTransitive(s: string, p: string, q: string)
    requires StartsWith(s, p)
    ensures StartsWith(p, q) ==> StartsWith(s, q)
  {
    if StartsWith(p, q) {
      assert s[..|q|] == p[..|q|];
    }
  }

  /** The first piece is a prefix of the text. */
  lemma {:induction false} PrefixOfFirstPart(s: string, sep: string)
    requires sep != []
    ensures StartsWith(s, Split(s, sep)[0])
    decreases |s|
  {
    if StartsWith(s, sep) {
    } else if s == [] {
    } else {
      PrefixOfFirstPart(s[1..], sep);
      var rest := Split(s[1..], sep);
      assert s[..1 + |rest[0]|] == [s[0]] + s[1..][..|rest[0]|];
    }
  }

  /** Text before the first occurrence of `c` (all of `s` if there is none). */
  function Before(s: string, c: char): (r: string)
    ensures StartsWith(s, r)
    ensures c !in r
    ensures |r| < |s| ==> s[|r|] == c
  {
    if s == [] || s[0] == c then []
    else
      var r := Before(s[1..], c);
      assert s[..1 + |r|] == [s[0]] + s[1..][..|r|];
      [s[0]] + r
  }

  /** Python `s.split(c)[0]` is the text before the first `c`. */
  lemma {:induction false} FirstPieceIsBefore(s: string, c: char)
    ensures Split(s, [c])[0] == Before(s, c)
    decreases |s|
  {
    if StartsWith(s, [c]) {
      assert s[0] == c;
    } else if s == [] {
    } else {
      assert s[..1] == [s[0]];
      FirstPieceIsBefore(s[1..], c);
    }
  }

  function DigitChar(d: nat): char
    requires d < 10
  {
    ('0' as int + d) as char
  }

  /** Python `str(n)` for a natural number. */
  function NatToString(n: nat): (s: string)
    ensures |s| >= 1
    ensures forall k :: 0 <= k < |s| ==> IsDigit(s[k])
    ensures |s| > 1 ==> s[0] != '0'
  {
    if n < 10 then [DigitChar(n)]
    else NatToString(n / 10) + [DigitChar(n % 10)]
  }

  /** The number a string of decimal digits denotes. */
  function DigitsValue(s: string): nat
    requires forall k :: 0 <= k < |s| ==> IsDigit(s[k])
  {
    if s == [] then 0
    else
      var last := s[|s| - 1];
      assert IsDigit(last);
      10 * DigitsValue(s[..|s| - 1]) + (last as int - '0' as int)
  }

  /** Reading back the rendered digits gives the number. */
  lemma {:induction false} NatToStringRoundTrip(n: nat)
    ensures DigitsValue(NatToString(n)) == n
  {
    if n >= 10 {
      NatToStringRoundTrip(n / 10);
      var s := NatToString(n);
      assert s[..|s| - 1] == NatToString(n / 10);
    }
  }

  /** Distinct numbers render as distinct strings. */
  lemma NatToStringInjective(m: nat, n: nat)
    requires NatToString(m) == NatToString(n)
    ensures m == n
  {
    NatToStringRoundTrip(m);
    NatToStringRoundTrip(n);
  }

  /** Python `str(i)` for any integer. */
  function IntToString(i: int): (s: string)
    ensures |s| >= 1
    ensures i >= 0 ==> s == NatToString(i)
    ensures i < 0 ==> s == "-" + NatToString(-i)
  {
    if i >= 0 then NatToString(i) else "-" + NatToString(-i)
  }

  predicate AllDigits(s: string) {
    forall k :: 0 <= k < |s| ==> IsDigit(s[k])
  }

  /**
   * Python `int(s)` on text: surrounding whitespace is ignored, then an
   * optional sign and at least one decimal digit; anything else is the
   * ValueError, here None.
   */
  function ParseInt(s: string): (r: Option<int>)
    ensures r.Some? <==>
              var t := Strip(Python, s);
              || (t != [] && AllDigits(t))
              || (|t| >= 2 && (t[0] == '+' || t[0] == '-') && AllDigits(t[1..]))
  {
    var t := Strip(Python, s);
    if t != [] && AllDigits(t) then Some(DigitsValue(t))
    else if |t| >= 2 && (t[0] == '+' || t[0] == '-') && AllDigits(t[1..]) then
      var v: int := DigitsValue(t[1..]);
      Some(if t[0] == '-' then -v else v)
    else None
  }

  /** `int(str(i)) == i`. */
  lemma ParseIntRoundTrip(i: int)
    ensures ParseInt(IntToString(i)) == Some(i)
  {
    var s := IntToString(i);
    StripNoEdgeSpace(Python, s);
    if i >= 0 {
      NatToStringRoundTrip(i);
    } else {
      assert s[1..] == NatToString(-i);
      NatToStringRoundTrip(-i);
    }
  }
  /** The index of the first character of `s` in `cs`, or |s| when there is none. */
  function FirstOf(s: string, cs: set<char>): (i: nat)
    ensures i <= |s|
    ensures forall k :: 0 <= k < i ==> s[k] !in cs
    ensures i < |s| ==> s[i] in cs
  {
    if s == [] || s[0] in cs then 0 else 1 + FirstOf(s[1..], cs)
  }

  /** The first index is determined by where the first member of `cs` sits. */
  lemma FirstOfAt(s: string, cs: set<char>, i: nat)
    requires i <= |s| && (forall k :: 0 <= k < i ==> s[k] !in cs) && (i < |s| ==> s[i] in cs)
    ensures FirstOf(s, cs) == i
  {
  }

  /**
   * The digits-and-point part of Python `float()` syntax: ASCII digits with
   * at most one '.', and at least one digit (`5`, `5.`, `.5`, `5.25`).
   */
  predicate IsDecimalMantissa(m: string) {
    var p := FirstOf(m, {'.'});
    if p == |m| then m != [] && AllDigits(m)
    else |m| >= 2 && AllDigits(m[..p]) && AllDigits(m[p + 1..])
  }

  /** An exponent: nothing, or 'e' or 'E', an optional sign and at least one digit. */
  predicate IsExponent(e: string) {
    || e == []
    || (|e| >= 2 && (e[0] == 'e' || e[0] == 'E') && AllDigits(e[1..]))
    || (|e| >= 3 && (e[0] == 'e' || e[0] == 'E') && (e[1] == '+' || e[1] == '-') && AllDigits(e[2..]))
  }

  /** An unsigned `float()` literal: a decimal and an optional exponent, or inf, infinity or nan in any case. */
  predicate IsUnsignedFloat(u: string) {
    var i := FirstOf(u, {'e', 'E'});
    || (IsDecimalMantissa(u[..i]) && IsExponent(u[i..]))
    || Lower(u) == "inf" || Lower(u) == "infinity" || Lower(u) == "nan"
  }

  /**
   * Python `float(s)` on text accepts `s`: surrounding whitespace is
   * ignored, then an optional sign and an unsigned literal; anything else
   * is the ValueError.
   */
  predicate IsFloatText(s: string) {
    var t := Strip(Python, s);
    || IsUnsignedFloat(t)
    || (t != [] && (t[0] == '+' || t[0] == '-') && IsUnsignedFloat(t[1..]))
  }

  /** The characters a finite `float()` literal is written with. */
  predicate IsFloatChar(c: char) {
    IsDigit(c) || c == '+' || c == '-' || c == '.' || c == 'e' || c == 'E'
  }

  /** Digits alone, with no exponent, are an unsigned literal. */
  lemma DigitsAreUnsignedFloat(u: string)
    requires u != [] && AllDigits(u)
    ensures IsUnsignedFloat(u)
  {
    FirstOfAt(u, {'e', 'E'}, |u|);
    FirstOfAt(u, {'.'}, |u|);
    assert u[..|u|] == u && u[|u|..] == [];
  }

  /** `float(str(i))` is accepted for every integer. */
  lemma IntTextIsFloatText(i: int)
    ensures IsFloatText(IntToString(i))
  {
    var s := IntToString(i);
    StripNoEdgeSpace(Python, s);
    if i >= 0 {
      DigitsAreUnsignedFloat(s);
    } else {
      assert s[1..] == NatToString(-i);
      DigitsAreUnsignedFloat(s[1..]);
    }
  }

  /** Whole digits, a point and fraction digits make a mantissa. */
  lemma PointedMantissa(m: string, whole: string, fraction: string)
    requires m == whole + "." + fraction
    requires whole != [] && AllDigits(whole) && fraction != [] && AllDigits(fraction)
    ensures IsDecimalMantissa(m)
    ensures forall k :: 0 <= k < |m| ==> m[k] == '.' || IsDigit(m[k])
  {
    forall k | 0 <= k < |m|
      ensures (k == |whole| && m[k] == '.') || (k != |whole| && IsDigit(m[k]))
    {
      if k < |whole| { assert m[k] == whole[k]; }
      else if k > |whole| { assert m[k] == fraction[k - |whole| - 1]; }
    }
    FirstOfAt(m, {'.'}, |whole|);
    assert m[..|whole|] == whole && m[|whole| + 1..] == fraction;
  }

  /** `float()` accepts whole digits, a point and fraction digits, as a form sends an amount like `25.50`. */
  lemma DecimalTextIsFloatText(whole: string, fraction: string)
    requires whole != [] && AllDigits(whole) && fraction != [] && AllDigits(fraction)
    ensures IsFloatText(whole + "." + fraction)
  {
    var t := whole + "." + fraction;
    PointedMantissa(t, whole, fraction);
    assert !IsSpace(Python, t[0]) && !IsSpace(Python, t[|t| - 1]);
    StripNoEdgeSpace(Python, t);
    FirstOfAt(t, {'e', 'E'}, |t|);
    assert t[..|t|] == t && t[|t|..] == [];
  }

  /** A mantissa is written with digits and at most one point. */
  lemma MantissaAlphabet(m: string)
    requires IsDecimalMantissa(m)
    ensures forall k :: 0 <= k < |m| ==> IsDigit(m[k]) || m[k] == '.'
  {
    var p := FirstOf(m, {'.'});
    if p < |m| {
      forall k | 0 <= k < |m|
        ensures IsDigit(m[k]) || m[k] == '.'
      {
        if k < p { assert m[k] == m[..p][k]; }
        else if k > p { assert m[k] == m[p + 1..][k - p - 1]; }
      }
    }
  }

  /** An exponent is written with 'e' or 'E', a sign and digits. */
  lemma ExponentAlphabet(e: string)
    requires IsExponent(e)
    ensures forall k :: 0 <= k < |e| ==> IsFloatChar(e[k])
  {
    forall k | 0 <= k < |e|
      ensures IsFloatChar(e[k])
    {
      if k >= 2 && !(e[1] == '+' || e[1] == '-') { assert e[k] == e[1..][k - 1]; }
      else if k >= 2 { assert e[k] == e[2..][k - 2]; }
      else if k == 1 && !(e[1] == '+' || e[1] == '-') { assert e[k] == e[1..][0]; }
    }
  }

  /** An unsigned literal other than inf, infinity or nan uses only float characters. */
  lemma UnsignedFloatAlphabet(u: string)
    requires IsUnsignedFloat(u)
    ensures Lower(u) == "inf" || Lower(u) == "infinity" || Lower(u) == "nan" || forall k :: 0 <= k < |u| ==> IsFloatChar(u[k])
  {
    var i := FirstOf(u, {'e', 'E'});
    if IsDecimalMantissa(u[..i]) && IsExponent(u[i..]) {
      MantissaAlphabet(u[..i]);
      ExponentAlphabet(u[i..]);
      forall k | 0 <= k < |u|
        ensures IsFloatChar(u[k])
      {
        if k < i { assert u[k] == u[..i][k]; } else { assert u[k] == u[i..][k - i]; }
      }
    }
  }

  /**
   * What `float()` accepts is, after stripping, written with digits, signs,
   * points and exponent letters, unless it is a signed inf, infinity or nan.
   */
  lemma FloatTextAlphabet(s: string)
    requires IsFloatText(s)
    ensures var t := Strip(Python, s);
            var u := if t != [] && (t[0] == '+' || t[0] == '-') then t[1..] else t;
            || Lower(u) == "inf" || Lower(u) == "infinity" || Lower(u) == "nan"
            || forall k :: 0 <= k < |t| ==> IsFloatChar(t[k])
  {
    var t := Strip(Python, s);
    if IsUnsignedFloat(t) {
      UnsignedFloatAlphabet(t);
      if t != [] && (t[0] == '+' || t[0] == '-') {
        var l := Lower(t);
        if !(forall k :: 0 <= k < |t| ==> IsFloatChar(t[k])) {
          // a sign is not the first letter of inf, infinity or nan
          assert l[0] == LowerChar(t[0]);
        }
      }
    } else {
      var u := t[1..];
      UnsignedFloatAlphabet(u);
      forall k | 1 <= k < |t|
        ensures u[k - 1] == t[k]
      {
      }
    }
  }

  /**
   * Text that starts with a lower-case letter other than those of inf,
   * infinity, nan and the exponent mark is not float syntax: `float()` raises
   * on it.
   */
  lemma WordIsNotFloatText(s: string)
    requires NoEdgeSpace(Python, s) && s != []
    requires 'a' <= s[0] <= 'z' && s[0] != 'e' && s[0] != 'i' && s[0] != 'n'
    ensures !IsFloatText(s)
  {
    StripNoEdgeSpace(Python, s);
    assert Lower(s)[0] == s[0];
    assert !IsFloatChar(s[0]);
    if IsFloatText(s) {
      FloatTextAlphabet(s);
      assert false;
    }
  }


  /** JavaScript's `.length`: characters beyond U+FFFF take two UTF-16 units. */
  function Utf16Length(s: string): (n: nat)
    ensures |s| <= n <= 2 * |s|
  {
    if s == [] then 0
    else Utf16Length(s[..|s| - 1]) + (if s[|s| - 1] as int > 0xFFFF then 2 else 1)
  }

  lemma {:induction false} Utf16LengthAppend(a: string, b: string)
    ensures Utf16Length(a + b) == Utf16Length(a) + Utf16Length(b)
    decreases |b|
  {
    if b != [] {
      Utf16LengthAppend(a, b[..|b| - 1]);
      assert (a + b)[..|a + b| - 1] == a + b[..|b| - 1];
    } else {
      assert a + b == a;
    }
  }
}
