/**
 * The string operations nicepro.py relies on: `upper()`, `in` on strings,
 * `split(..)[-1]`, `replace(.., "")`, `str()` of an integer and `int()` of
 * a string.
 */
module Text {
  import opened Wrappers

  function UpperChar(c: char): char {
    if 'a' <= c <= 'z' then (c as int - 32) as char else c
  }

  /** `s.upper()` on ASCII text. */
  function Upper(s: string): string {
    seq(|s|, i requires 0 <= i < |s| => UpperChar(s[i]))
  }

  predicate HasPrefix(s: string, p: string) {
    |p| <= |s| && s[..|p|] == p
  }

  /** `sub in s`. */
  predicate Contains(s: string, sub: string)
    decreases |s|
  {
    HasPrefix(s, sub) || (|s| > 0 && Contains(s[1..], sub))
  }

  /**
   * `s.split(sep)[-1]`: the text after the last `sep`, or all of `s` when
   * `sep` does not occur in it.
   */
  function LastSegment(s: string, sep: char): (r: string)
    ensures sep !in r
    ensures |r| <= |s| && r == s[|s| - |r|..]
    ensures |r| < |s| ==> s[|s| - |r| - 1] == sep
  {
    if s == [] then ""
    else if s[|s| - 1] == sep then ""
    else LastSegment(s[..|s| - 1], sep) + [s[|s| - 1]]
  }

  /**
   * `s.replace(pat, "")`: drops the non-overlapping occurrences of `pat`
   * found scanning from the left.
   */
  function RemoveAll(s: string, pat: string): (r: string)
    requires pat != ""
    ensures |r| <= |s|
    decreases |s|
  {
    if HasPrefix(s, pat) then RemoveAll(s[|pat|..], pat)
    else if s == [] then ""
    else [s[0]] + RemoveAll(s[1..], pat)
  }

  /** Text that cannot start an occurrence of `pat` anywhere is left as it is. */
  lemma {:induction false} RemoveAllAbsent(s: string, pat: string)
    requires pat != "" && pat[0] !in s
    ensures RemoveAll(s, pat) == s
  {
    if s != [] {
      assert s[0] != pat[0];
      assert !HasPrefix(s, pat);
      RemoveAllAbsent(s[1..], pat);
      assert s == [s[0]] + s[1..];
    }
  }

  /** The text after a separator that is not followed by another one is the last segment. */
  lemma {:induction false} LastSegmentAfter(a: string, b: string, sep: char)
    requires a != [] && a[|a| - 1] == sep && sep !in b
    ensures LastSegment(a + b, sep) == b
    decreases |b|
  {
    var ab := a + b;
    if b == [] {
      assert ab == a;
    } else {
      var last := b[|b| - 1];
      var init := b[..|b| - 1];
      assert ab[|ab| - 1] == last;
      assert last != sep;
      assert ab[..|ab| - 1] == a + init;
      assert LastSegment(ab, sep) == LastSegment(a + init, sep) + [last];
      LastSegmentAfter(a, init, sep);
      assert b == init + [last];
    }
  }

  /** One leading occurrence of `pat` is dropped, and the rest is kept when it holds no `pat[0]`. */
  lemma RemoveAllLeading(pat: string, s: string)
    requires pat != "" && pat[0] !in s
    ensures RemoveAll(pat + s, pat) == s
  {
    assert (pat + s)[..|pat|] == pat;
    assert (pat + s)[|pat|..] == s;
    RemoveAllAbsent(s, pat);
  }

  predicate IsDigit(c: char) {
    '0' <= c <= '9'
  }

  predicate AllDigits(s: string) {
    forall i :: 0 <= i < |s| ==> IsDigit(s[i])
  }

  function DigitChar(d: nat): (c: char)
    requires d < 10
    ensures IsDigit(c)
  {
    ('0' as int + d) as char
  }

  function DigitValue(c: char): nat
    requires IsDigit(c)
  {
    c as int - '0' as int
  }

  /** A run of digits without a superfluous leading zero. */
  predicate CanonicalDigits(s: string) {
    s != [] && AllDigits(s) && (s[0] == '0' ==> s == "0")
  }

  /** `str(n)` for a natural number: decimal, most significant digit first. */
  function NatToString(n: nat): (r: string)
    ensures CanonicalDigits(r)
    decreases n
  {
    if n < 10 then [DigitChar(n)] else NatToString(n / 10) + [DigitChar(n % 10)]
  }

  /** The value of a run of decimal digits. */
  function DigitsValue(s: string): nat
    requires AllDigits(s)
    decreases |s|
  {
    if s == [] then 0 else DigitsValue(s[..|s| - 1]) * 10 + DigitValue(s[|s| - 1])
  }

  /** `str(n)`. */
  function IntToString(n: int): string {
    if n < 0 then "-" + NatToString(-n) else NatToString(n)
  }

  /** Text `str()` can produce: canonical digits, with a minus sign unless zero. */
  predicate CanonicalInt(s: string) {
    CanonicalDigits(s) || (|s| > 1 && s[0] == '-' && CanonicalDigits(s[1..]) && s[1] != '0')
  }

  /**
   * `int(s)` on an optionally signed run of ASCII digits; `None` where
   * Python raises ValueError.
   */
  function ParseInt(s: string): Option<int> {
    if s != [] && (s[0] == '-' || s[0] == '+') then
      var ds := s[1..];
      if ds != [] && AllDigits(ds) then
        Some(if s[0] == '-' then 0 - DigitsValue(ds) as int else DigitsValue(ds) as int)
      else None
    else if s != [] && AllDigits(s) then Some(DigitsValue(s))
    else None
  }

  lemma {:induction false} NatToStringValue(n: nat)
    ensures DigitsValue(NatToString(n)) == n
    decreases n
  {
    if n >= 10 {
      var r := NatToString(n);
      assert r[..|r| - 1] == NatToString(n / 10);
      NatToStringValue(n / 10);
    }
  }

  lemma {:induction false} LeadingDigitPositive(s: string)
    requires s != [] && AllDigits(s) && s[0] != '0'
    ensures DigitsValue(s) >= 1
    decreases |s|
  {
    if |s| > 1 {
      LeadingDigitPositive(s[..|s| - 1]);
    }
  }

  lemma {:induction false} DigitsValueToString(s: string)
    requires CanonicalDigits(s)
    ensures NatToString(DigitsValue(s)) == s
    decreases |s|
  {
    if |s| > 1 {
      var init := s[..|s| - 1];
      LeadingDigitPositive(init);
      DigitsValueToString(init);
      assert s == init + [s[|s| - 1]];
    }
  }

  /** `int(str(n)) == n` for every integer. */
  lemma IntRoundTrip(n: int)
    ensures ParseInt(IntToString(n)) == Some(n)
  {
    if n < 0 {
      var s := IntToString(n);
      assert s[1..] == NatToString(-n);
      NatToStringValue(-n);
    } else {
      NatToStringValue(n);
    }
  }

  /** `str(n)` is made of decimal digits and at most a leading minus sign. */
  lemma IntToStringChars(n: int)
    ensures var s := IntToString(n);
      forall i :: 0 <= i < |s| ==> IsDigit(s[i]) || (i == 0 && s[i] == '-')
  {
    if n < 0 {
      var s := IntToString(n);
      assert s[1..] == NatToString(-n);
    }
  }

  /** `str(int(s)) == s` for every text `str()` could have produced. */
  lemma ParsePrintRoundTrip(s: string)
    requires CanonicalInt(s)
    ensures ParseInt(s).Some? && IntToString(ParseInt(s).value) == s
  {
    if CanonicalDigits(s) {
      DigitsValueToString(s);
    } else {
      var ds := s[1..];
      LeadingDigitPositive(ds);
      DigitsValueToString(ds);
      assert s == "-" + ds;
    }
  }
}
