/**
 * Base-10 rendering of signed integers, as Go's strconv.FormatInt(n, 10)
 * performs it: an optional '-' followed by the digits of |n| with no
 * leading zeros ("0" for zero).  A strict parser accepts exactly the
 * strings FormatInt produces, and the two are proved inverse.
 */
module Strconv {
  import opened Wrappers

  predicate IsDigit(c: char) {
    '0' <= c <= '9'
  }

  function DigitChar(d: nat): (c: char)
    requires d < 10
    ensures IsDigit(c) && DigitValue(c) == d
  {
    "0123456789"[d]
  }

  function DigitValue(c: char): (d: nat)
    requires IsDigit(c)
    ensures d < 10
  {
    (c as int - '0' as int) as nat
  }

  /** A canonical unsigned decimal: non-empty, all digits, no leading zero
      unless the whole string is "0". */
  predicate IsCanonicalDigits(s: string) {
    |s| > 0
    && (forall i :: 0 <= i < |s| ==> IsDigit(s[i]))
    && (s[0] == '0' ==> |s| == 1)
  }

  /** The digits of n, most significant first. */
  function NatToDigits(n: nat): (s: string)
    ensures IsCanonicalDigits(s)
    decreases n
  {
    if n < 10 then [DigitChar(n)]
    else NatToDigits(n / 10) + [DigitChar(n % 10)]
  }

  /** The value of a string of digits, most significant first. */
  function DigitsToNat(s: string): nat
    requires forall i :: 0 <= i < |s| ==> IsDigit(s[i])
    decreases |s|
  {
    if |s| == 0 then 0
    else DigitsToNat(s[..|s| - 1]) * 10 + DigitValue(s[|s| - 1])
  }

  /** strconv.FormatInt(n, 10). */
  function FormatInt(n: int): (s: string)
    ensures |s| > 0
    ensures s[0] == '-' <==> n < 0
  {
    if n < 0 then "-" + NatToDigits(-n) else NatToDigits(n)
  }

  /** Accepts exactly the canonical renderings: no '+', no "-0", no leading
      zeros, no empty digit string. */
  function ParseInt(s: string): Option<int> {
    if |s| > 0 && s[0] == '-' then
      if IsCanonicalDigits(s[1..]) && s[1..] != "0" then
        var magnitude: int := DigitsToNat(s[1..]);
        Some(-magnitude)
      else None
    else if IsCanonicalDigits(s) then Some(DigitsToNat(s))
    else None
  }

  lemma {:induction false} DigitsRoundTrip(n: nat)
    ensures DigitsToNat(NatToDigits(n)) == n
    decreases n
  {
    var s := NatToDigits(n);
    if n >= 10 {
      DigitsRoundTrip(n / 10);
      assert s[..|s| - 1] == NatToDigits(n / 10);
    }
  }

  /** A canonical digit string that does not start with '0' denotes a
      positive number. */
  lemma {:induction false} LeadingNonZeroPositive(s: string)
    requires IsCanonicalDigits(s) && s[0] != '0'
    ensures DigitsToNat(s) >= 1
    decreases |s|
  {
    if |s| > 1 {
      var p := s[..|s| - 1];
      assert p[0] == s[0];
      LeadingNonZeroPositive(p);
    }
  }

  lemma {:induction false} DigitsCanonicalRoundTrip(s: string)
    requires IsCanonicalDigits(s)
    ensures NatToDigits(DigitsToNat(s)) == s
    decreases |s|
  {
    var n := DigitsToNat(s);
    var last := s[|s| - 1];
    if |s| == 1 {
      assert DigitsToNat(s[..0]) == 0;
      assert n == DigitsToNat(s[..0]) * 10 + DigitValue(last);
      assert DigitChar(n) == last;
    } else {
      var p := s[..|s| - 1];
      assert p[0] == s[0];
      assert s[0] != '0';
      LeadingNonZeroPositive(p);
      DigitsCanonicalRoundTrip(p);
      assert n / 10 == DigitsToNat(p) && n % 10 == DigitValue(last);
      assert DigitChar(DigitValue(last)) == last;
      assert s == p + [last];
    }
  }

  /** Parsing the rendering of any integer gives the integer back. */
  lemma FormatIntRoundTrip(n: int)
    ensures ParseInt(FormatInt(n)) == Some(n)
  {
    var s := FormatInt(n);
    if n < 0 {
      var d := NatToDigits(-n);
      assert s == "-" + d && s[1..] == d;
      DigitsRoundTrip(-n);
    } else {
      DigitsRoundTrip(n);
      assert IsDigit(s[0]);
    }
  }

  /** Every string the parser accepts is the rendering of what it parses to,
      so FormatInt is a bijection onto the accepted strings. */
  lemma ParseIntCanonical(s: string, n: int)
    requires ParseInt(s) == Some(n)
    ensures FormatInt(n) == s
  {
    if |s| > 0 && s[0] == '-' {
      var t := s[1..];
      DigitsCanonicalRoundTrip(t);
      LeadingNonZeroPositive(t);
      assert s == "-" + t;
    } else {
      DigitsCanonicalRoundTrip(s);
    }
  }

  /** Distinct integers render to distinct strings. */
  lemma FormatIntInjective(m: int, n: int)
    requires FormatInt(m) == FormatInt(n)
    ensures m == n
  {
    FormatIntRoundTrip(m);
    FormatIntRoundTrip(n);
  }

  /** The rendering uses only '-' and decimal digits, and '-' only first. */
  lemma FormatIntAlphabet(n: int)
    ensures var s := FormatInt(n);
      forall i :: 0 <= i < |s| ==> IsDigit(s[i]) || (i == 0 && s[i] == '-')
  {
    var s := FormatInt(n);
    if n < 0 {
      assert s[1..] == NatToDigits(-n);
      assert forall i :: 1 <= i < |s| ==> s[i] == s[1..][i - 1];
    }
  }
}
