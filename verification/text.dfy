/**
 * Character and string rules used by the survey pipeline: Python's
 * whitespace stripping, ASCII lower-casing, leading-digit extraction and
 * the decimal rendering of integers.
 */
module Text {

  /** The characters Python's `str.isspace` accepts. */
  predicate IsSpace(c: char) {
    c == ' ' || ('\t' <= c <= '\r') || ('\U{1C}' <= c <= '\U{1F}') ||
    c == '\U{85}' || c == '\U{A0}' || c == '\U{1680}' ||
    ('\U{2000}' <= c <= '\U{200A}') || c == '\U{2028}' || c == '\U{2029}' ||
    c == '\U{202F}' || c == '\U{205F}' || c == '\U{3000}'
  }

  predicate IsDigit(c: char) { '0' <= c <= '9' }

  predicate AllDigits(s: string) { forall i :: 0 <= i < |s| ==> IsDigit(s[i]) }

  predicate StartsWith(s: string, prefix: string) {
    |prefix| <= |s| && s[..|prefix|] == prefix
  }

  /** Every character of `s` is whitespace. */
  predicate AllSpace(s: string) { forall k :: 0 <= k < |s| ==> IsSpace(s[k]) }

  /** `s` with its leading whitespace removed. */
  function TrimStart(s: string): (r: string)
    ensures |r| <= |s| && r == s[|s| - |r|..] && AllSpace(s[..|s| - |r|])
    ensures r != [] ==> !IsSpace(r[0])
  {
    if |s| > 0 && IsSpace(s[0]) then
      var r := TrimStart(s[1..]);
      assert s[..|s| - |r|] == [s[0]] + s[1..][..|s| - 1 - |r|];
      r
    else s
  }

  /** `s` with its trailing whitespace removed. */
  function TrimEnd(s: string): (r: string)
    ensures |r| <= |s| && r == s[..|r|] && AllSpace(s[|r|..])
    ensures r != [] ==> !IsSpace(r[|r| - 1])
  {
    if |s| > 0 && IsSpace(s[|s| - 1]) then
      var r := TrimEnd(s[..|s| - 1]);
      assert s[|r|..] == s[..|s| - 1][|r|..] + [s[|s| - 1]];
      r
    else s
  }

  /** Python's `str.strip()`: the slice between the outer runs of whitespace. */
  function Strip(s: string): (r: string)
    ensures exists i, j :: 0 <= i <= j <= |s| && r == s[i..j] && AllSpace(s[..i]) && AllSpace(s[j..])
    ensures r != [] ==> !IsSpace(r[0]) && !IsSpace(r[|r| - 1])
  {
    var t := TrimStart(s);
    var r := TrimEnd(t);
    StripSlice(s, |s| - |t|, t, r);
    r
  }

  /** The part TrimEnd keeps of a suffix of `s` is a slice of `s` followed by whitespace. */
  lemma StripSlice(s: string, i: nat, t: string, r: string)
    requires i <= |s| && t == s[i..] && |r| <= |t| && r == t[..|r|] && AllSpace(t[|r|..])
    ensures i + |r| <= |s| && r == s[i..i + |r|] && AllSpace(s[i + |r|..])
  {
    assert s[i + |r|..] == t[|r|..];
  }

  /** Leading whitespace in front of a non-space start is exactly what TrimStart removes. */
  lemma {:induction false} TrimStartPadded(pre: string, x: string)
    requires AllSpace(pre) && (x == [] || !IsSpace(x[0]))
    ensures TrimStart(pre + x) == x
  {
    if pre != [] {
      assert (pre + x)[1..] == pre[1..] + x;
      TrimStartPadded(pre[1..], x);
    }
  }

  /** Trailing whitespace after a non-space end is exactly what TrimEnd removes. */
  lemma {:induction false} TrimEndPadded(x: string, post: string)
    requires AllSpace(post) && (x == [] || !IsSpace(x[|x| - 1]))
    ensures TrimEnd(x + post) == x
  {
    if post != [] {
      var p := post[..|post| - 1];
      assert (x + post)[..|x + post| - 1] == x + p;
      TrimEndPadded(x, p);
    } else {
      assert x + post == x;
    }
  }

  /** Surrounding whitespace is all `strip` removes. */
  lemma StripPadded(pre: string, w: string, post: string)
    requires AllSpace(pre) && AllSpace(post)
    requires w != [] && !IsSpace(w[0]) && !IsSpace(w[|w| - 1])
    ensures Strip(pre + w + post) == w
  {
    assert pre + w + post == pre + (w + post);
    TrimStartPadded(pre, w + post);
    TrimEndPadded(w, post);
  }

  function LowerChar(c: char): char {
    if 'A' <= c <= 'Z' then (c as int + 32) as char else c
  }

  /** ASCII lower-casing, character by character. */
  function Lower(s: string): (r: string)
    ensures |r| == |s|
    ensures forall i :: 0 <= i < |s| ==> r[i] == LowerChar(s[i])
  {
    if s == [] then [] else [LowerChar(s[0])] + Lower(s[1..])
  }

  /** The longest prefix of `s` made of decimal digits (the regex `^(\d+)`). */
  function LeadingDigits(s: string): (r: string)
    ensures StartsWith(s, r) && AllDigits(r)
    ensures |r| < |s| ==> !IsDigit(s[|r|])
  {
    if |s| > 0 && IsDigit(s[0]) then [s[0]] + LeadingDigits(s[1..]) else []
  }

  function DigitValue(c: char): nat
    requires IsDigit(c)
  {
    c as int - '0' as int
  }

  /** The number a string of decimal digits denotes (leading zeros allowed). */
  function DigitsValue(s: string): nat
    requires AllDigits(s)
  {
    if s == [] then 0 else 10 * DigitsValue(s[..|s| - 1]) + DigitValue(s[|s| - 1])
  }

  function DigitChar(d: nat): (c: char)
    requires d < 10
    ensures IsDigit(c) && DigitValue(c) == d
  {
    ('0' as int + d) as char
  }

  /** The decimal rendering of a natural number, without leading zeros. */
  function NatToString(n: nat): (r: string)
    ensures r != [] && AllDigits(r)
    ensures |r| > 1 ==> r[0] != '0'
  {
    if n < 10 then [DigitChar(n)] else NatToString(n / 10) + [DigitChar(n % 10)]
  }

  /** Python's `str(n)` for an integer. */
  function IntToString(n: int): (r: string)
    ensures r != []
    ensures n >= 0 ==> AllDigits(r)
    ensures n < 0 ==> r[0] == '-' && AllDigits(r[1..])
  {
    if n >= 0 then NatToString(n) else "-" + NatToString(-n)
  }

  /** Reading a rendered natural number back gives the number. */
  lemma {:induction false} NatToStringRoundTrip(n: nat)
    ensures DigitsValue(NatToString(n)) == n
  {
    if n >= 10 {
      NatToStringRoundTrip(n / 10);
      var s := NatToString(n);
      assert s[..|s| - 1] == NatToString(n / 10);
    }
  }

  /** A rendered natural number is read back whole by the leading-digit rule. */
  lemma NatToStringLeading(n: nat, rest: string)
    requires rest == [] || !IsDigit(rest[0])
    ensures LeadingDigits(NatToString(n) + rest) == NatToString(n)
  {
    LeadingDigitsOfConcat(NatToString(n), rest);
  }

  lemma {:induction false} LeadingDigitsOfConcat(d: string, rest: string)
    requires AllDigits(d)
    requires rest == [] || !IsDigit(rest[0])
    ensures LeadingDigits(d + rest) == d
  {
    if d != [] {
      assert (d + rest)[1..] == d[1..] + rest;
      LeadingDigitsOfConcat(d[1..], rest);
    } else {
      assert d + rest == rest;
    }
  }
}
