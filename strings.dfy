/**
 * Text helpers for the registration form: the white-space set that
 * JavaScript's `\s` regular-expression class and `String.prototype.trim`
 * share, trimming, substring search, and the decimal text JavaScript gives a
 * price when it is interpolated into a template string.
 */
module Strings {
  import opened Wrappers

  /** The WhiteSpace and LineTerminator code points of ECMAScript (the set
      behind both `\s` and `trim`), written out one by one. */
  predicate IsWhitespace(c: char) {
    c == '\t' || c == '\n' || c == '\U{000B}' || c == '\U{000C}' || c == '\r' || c == ' '
    || c == '\U{00A0}' || c == '\U{1680}' || ('\U{2000}' <= c <= '\U{200A}')
    || c == '\U{2028}' || c == '\U{2029}' || c == '\U{202F}' || c == '\U{205F}'
    || c == '\U{3000}' || c == '\U{FEFF}'
  }

  /** Every character of s is white space (the empty string included). */
  predicate IsBlank(s: string) {
    forall i | 0 <= i < |s| :: IsWhitespace(s[i])
  }

  /** s with its leading white space removed. */
  function TrimStart(s: string): (r: string)
    ensures |r| <= |s| && r == s[|s| - |r|..]
    ensures IsBlank(s[..|s| - |r|])
    ensures r == [] || !IsWhitespace(r[0])
  {
    if s != [] && IsWhitespace(s[0]) then TrimStart(s[1..]) else s
  }

  /** s with its trailing white space removed. */
  function TrimEnd(s: string): (r: string)
    ensures |r| <= |s| && r == s[..|r|]
    ensures IsBlank(s[|r|..])
    ensures r == [] || !IsWhitespace(r[|r| - 1])
  {
    if s != [] && IsWhitespace(s[|s| - 1]) then TrimEnd(s[..|s| - 1]) else s
  }

  /** r is what remains of s once the blank prefix s[..i] and a blank suffix
      are cut off, and r itself neither starts nor ends with white space. */
  predicate StripsTo(s: string, i: int, r: string) {
    0 <= i && i + |r| <= |s| && r == s[i..i + |r|]
    && IsBlank(s[..i]) && IsBlank(s[i + |r|..])
    && (r == [] || (!IsWhitespace(r[0]) && !IsWhitespace(r[|r| - 1])))
  }

  /** `s.trim()`: white space removed from both ends. */
  function Trim(s: string): string {
    TrimEnd(TrimStart(s))
  }

  /** Cutting a blank prefix off s, leaving t, and then a blank suffix off
      t, leaving r, strips s to r. */
  lemma StripsInTwoSteps(s: string, t: string, r: string)
    requires |t| <= |s| && t == s[|s| - |t|..] && IsBlank(s[..|s| - |t|])
    requires t == [] || !IsWhitespace(t[0])
    requires |r| <= |t| && r == t[..|r|] && IsBlank(t[|r|..])
    requires r == [] || !IsWhitespace(r[|r| - 1])
    ensures StripsTo(s, |s| - |t|, r)
  {
    var i := |s| - |t|;
    assert r == s[i..i + |r|];
    assert t[|r|..] == s[i + |r|..];
    assert r != [] ==> r[0] == t[0];
  }

  /** Trimming cuts a blank prefix and a blank suffix off s and leaves text
      that neither starts nor ends with white space. */
  lemma TrimStrips(s: string)
    ensures StripsTo(s, |s| - |TrimStart(s)|, Trim(s))
  {
    StripsInTwoSteps(s, TrimStart(s), Trim(s));
  }

  /** Cutting white space off both ends leaves nothing exactly when there
      was nothing but white space. */
  lemma StripsToEmptyIffBlank(s: string, i: int, r: string)
    requires StripsTo(s, i, r)
    ensures r == [] <==> IsBlank(s)
  {
    if r == [] {
      assert s == s[..i] + s[i..];
      forall k | 0 <= k < |s| ensures IsWhitespace(s[k]) {
        if k < i {
          assert s[k] == s[..i][k];
        } else {
          assert s[k] == s[i..][k - i];
        }
      }
    } else {
      assert r[0] == s[i];
    }
  }

  /** A string trims to "" exactly when it is made only of white space; this
      is what makes `!s.trim()` a blankness test. */
  lemma TrimEmptyIffBlank(s: string)
    ensures Trim(s) == [] <==> IsBlank(s)
  {
    TrimStrips(s);
    StripsToEmptyIffBlank(s, |s| - |TrimStart(s)|, Trim(s));
  }

  /** t occurs in s as a contiguous substring. */
  predicate Contains(s: string, t: string) {
    exists i | 0 <= i <= |s| :: OccursAt(s, t, i)
  }

  /** t occurs in s starting at index i. */
  predicate OccursAt(s: string, t: string, i: int) {
    0 <= i <= |s| - |t| && s[i..i + |t|] == t
  }

  /** No character of s is c. */
  predicate Lacks(s: string, c: char) {
    forall i | 0 <= i < |s| :: s[i] != c
  }

  /** A character absent from both halves is absent from their concatenation. */
  lemma LacksConcat(a: string, b: string, c: char)
    requires Lacks(a, c) && Lacks(b, c)
    ensures Lacks(a + b, c)
  {
  }

  /** A decimal digit '0'..'9'. */
  predicate IsDigit(c: char) {
    '0' <= c <= '9'
  }

  predicate AllDigits(s: string) {
    forall i | 0 <= i < |s| :: IsDigit(s[i])
  }

  /** The character of the decimal digit d. */
  function DigitChar(d: nat): (c: char)
    requires d < 10
    ensures IsDigit(c) && (c as int) - ('0' as int) == d
  {
    (48 + d) as char
  }

  /** The value of a decimal digit character. */
  function DigitValue(c: char): nat
    requires IsDigit(c)
  {
    (c as int) - ('0' as int)
  }

  /** The value of a run of decimal digits, most significant first; 0 for
      the empty run. */
  function DigitsValue(s: string): nat
    requires AllDigits(s)
  {
    if s == [] then 0 else 10 * DigitsValue(s[..|s| - 1]) + DigitValue(s[|s| - 1])
  }

  /** The decimal text of n, as JavaScript writes a non-negative integer:
      no sign, no leading zero. */
  function NatToString(n: nat): (r: string)
    ensures |r| > 0 && AllDigits(r)
    ensures r[0] == '0' ==> n == 0
  {
    if n < 10 then [DigitChar(n)] else NatToString(n / 10) + [DigitChar(n % 10)]
  }

  /** Reading the digits back gives the number that was written. */
  lemma {:induction false} NatToStringRoundTrip(n: nat)
    ensures DigitsValue(NatToString(n)) == n
  {
    var r := NatToString(n);
    if n >= 10 {
      NatToStringRoundTrip(n / 10);
      assert r[..|r| - 1] == NatToString(n / 10);
    }
  }

  /** r is a run of digits, a '.', and n fraction digits of which the last is
      not '0'. */
  predicate DecimalWithFraction(r: string, n: nat) {
    |r| > n + 1 && r[|r| - n - 1] == '.'
    && AllDigits(r[..|r| - n - 1]) && AllDigits(r[|r| - n..])
    && r[|r| - 1] != '0'
  }

  /** The text `${x}` produces for a price of `cents` hundredths of a dollar
      (a JavaScript number with at most two decimals): the whole dollars and,
      only when the price is not whole, a '.' and the fraction without
      trailing zeros, so 15750 gives "157.5" and 10500 gives "105". */
  function FormatDollars(cents: nat): (r: string)
    ensures |r| > 0
    ensures r[0] == '0' ==> cents < 100
    ensures |r| > 1 && r[0] == '0' ==> r[1] == '.'
    ensures cents % 100 == 0 ==> AllDigits(r)
    ensures cents % 100 != 0 ==> DecimalWithFraction(r, if cents % 10 == 0 then 1 else 2)
  {
    var whole := NatToString(cents / 100);
    var frac := cents % 100;
    if frac == 0 then whole
    else if frac % 10 == 0 then whole + "." + [DigitChar(frac / 10)]
    else whole + "." + [DigitChar(frac / 10), DigitChar(frac % 10)]
  }

  /** Reads a dollar amount written as digits, optionally followed by '.' and
      one or two digits of fraction; the inverse of FormatDollars. */
  function ParseDollars(s: string): Option<nat> {
    if |s| >= 3 && s[|s| - 3] == '.' then ParseParts(s[..|s| - 3], s[|s| - 2..])
    else if |s| >= 2 && s[|s| - 2] == '.' then ParseParts(s[..|s| - 2], s[|s| - 1..])
    else ParseParts(s, "")
  }

  /** The cents denoted by whole dollars `w` and fraction digits `f` (at most two). */
  function ParseParts(w: string, f: string): Option<nat> {
    if w == [] || !AllDigits(w) || !AllDigits(f) || |f| > 2 then None
    else Some(100 * DigitsValue(w) + (if |f| == 0 then 0 else if |f| == 1 then 10 * DigitsValue(f) else DigitsValue(f)))
  }

  /** Whole dollars parse to their value in cents. */
  lemma ParseWhole(w: string)
    requires w != [] && AllDigits(w)
    ensures ParseDollars(w) == Some(100 * DigitsValue(w))
  {
    assert !(|w| >= 3 && w[|w| - 3] == '.') by {
      if |w| >= 3 { assert IsDigit(w[|w| - 3]); }
    }
    assert !(|w| >= 2 && w[|w| - 2] == '.') by {
      if |w| >= 2 { assert IsDigit(w[|w| - 2]); }
    }
  }

  /** Dollars with one digit of fraction parse to their value in cents. */
  lemma ParseOneDecimal(w: string, c: char)
    requires w != [] && AllDigits(w) && IsDigit(c)
    ensures ParseDollars(w + "." + [c]) == Some(100 * DigitsValue(w) + 10 * DigitValue(c))
  {
    var r := w + "." + [c];
    assert r[..|r| - 2] == w;
    assert r[|r| - 1..] == [c];
    assert [c][..0] == [];
    assert DigitsValue([c]) == DigitValue(c);
    assert !(|r| >= 3 && r[|r| - 3] == '.') by {
      assert IsDigit(w[|w| - 1]);
    }
    assert ParseDollars(r) == ParseParts(w, [c]);
  }

  /** Dollars with two digits of fraction parse to their value in cents. */
  lemma ParseTwoDecimals(w: string, c1: char, c2: char)
    requires w != [] && AllDigits(w) && IsDigit(c1) && IsDigit(c2)
    ensures ParseDollars(w + "." + [c1, c2]) == Some(100 * DigitsValue(w) + 10 * DigitValue(c1) + DigitValue(c2))
  {
    var r := w + "." + [c1, c2];
    assert r[..|r| - 3] == w;
    var f := [c1, c2];
    assert r[|r| - 2..] == f;
    assert f[..1] == [c1];
    assert f[..1][..0] == [];
    assert DigitsValue([c1]) == DigitValue(c1);
    assert DigitsValue(f) == 10 * DigitValue(c1) + DigitValue(c2);
    assert ParseDollars(r) == ParseParts(w, f);
  }

  /** Formatting a price loses nothing: distinct prices get distinct texts. */
  lemma FormatDollarsRoundTrip(cents: nat)
    ensures ParseDollars(FormatDollars(cents)) == Some(cents)
  {
    var whole := NatToString(cents / 100);
    NatToStringRoundTrip(cents / 100);
    var frac := cents % 100;
    if frac == 0 {
      ParseWhole(whole);
    } else if frac % 10 == 0 {
      ParseOneDecimal(whole, DigitChar(frac / 10));
      assert 10 * (frac / 10) == frac;
    } else {
      ParseTwoDecimals(whole, DigitChar(frac / 10), DigitChar(frac % 10));
    }
  }
}
