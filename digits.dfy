/** Decimal digit strings: the rendering of naturals and integers that
    the Decimal9 and record renderings share, and its inverse. */
module Digits {

  function Pow10(e: nat): (r: nat)
    ensures r >= 1
  {
    if e == 0 then 1 else 10 * Pow10(e - 1)
  }

  predicate IsDigit(c: char) { '0' <= c <= '9' }

  predicate AllDigits(s: string) {
    forall i | 0 <= i < |s| :: IsDigit(s[i])
  }

  /** A character that is not a digit does not occur in a digit string. */
  lemma AllDigitsHasNo(s: string, c: char)
    requires AllDigits(s) && !IsDigit(c)
    ensures c !in s
  {
    forall i | 0 <= i < |s|
      ensures s[i] != c
    {
      assert IsDigit(s[i]);
    }
  }

  function DigitChar(d: nat): (c: char)
    requires d < 10
    ensures IsDigit(c)
  {
    ('0' as int + d) as char
  }

  function DigitValue(c: char): (d: nat)
    requires IsDigit(c)
    ensures d < 10 && DigitChar(d) == c
  {
    c as int - '0' as int
  }

  /** The value of a string of decimal digits, most significant first. */
  function DigitsValue(s: string): nat
    requires AllDigits(s)
  {
    if s == [] then 0 else 10 * DigitsValue(s[..|s| - 1]) + DigitValue(s[|s| - 1])
  }

  /** The shortest decimal rendering of n: no leading zero except for 0 itself. */
  function NatToString(n: nat): (s: string)
    ensures |s| >= 1 && AllDigits(s)
    ensures |s| > 1 ==> s[0] != '0'
    ensures n < 10 <==> |s| == 1
  {
    if n < 10 then [DigitChar(n)] else NatToString(n / 10) + [DigitChar(n % 10)]
  }

  /** Reading back a rendered natural gives the natural. */
  lemma {:induction false} NatToStringValue(n: nat)
    ensures DigitsValue(NatToString(n)) == n
  {
    if n >= 10 {
      var s := NatToString(n);
      assert s[..|s| - 1] == NatToString(n / 10);
      NatToStringValue(n / 10);
    }
  }

  /** Two naturals with the same rendering are equal. */
  lemma NatToStringInjective(m: nat, n: nat)
    requires NatToString(m) == NatToString(n)
    ensures m == n
  {
    NatToStringValue(m);
    NatToStringValue(n);
  }

  /** An integer rendered with a leading '-' when negative. */
  function IntToString(i: int): (s: string)
    ensures |s| >= 1
    ensures (s[0] == '-') <==> i < 0
  {
    if i < 0 then "-" + NatToString(-i) else NatToString(i)
  }

  /** The k-digit rendering of v, zero-padded on the left. */
  function Padded(v: nat, k: nat): (s: string)
    requires v < Pow10(k)
    ensures |s| == k && AllDigits(s)
  {
    if k == 0 then [] else Padded(v / 10, k - 1) + [DigitChar(v % 10)]
  }

  lemma {:induction false} PaddedValue(v: nat, k: nat)
    requires v < Pow10(k)
    ensures DigitsValue(Padded(v, k)) == v
  {
    if k > 0 {
      var s := Padded(v, k);
      assert s[..|s| - 1] == Padded(v / 10, k - 1);
      PaddedValue(v / 10, k - 1);
    }
  }

  lemma MulTen(v: nat, x: nat)
    ensures v * (10 * x) == 10 * (v * x)
  {
  }

  /** Removes trailing '0' characters but keeps at least one character. */
  function StripTrailingZeros(s: string): (t: string)
    requires |s| >= 1
    ensures 1 <= |t| <= |s| && t == s[..|t|]
    ensures |t| > 1 ==> t[|t| - 1] != '0'
  {
    if |s| > 1 && s[|s| - 1] == '0' then StripTrailingZeros(s[..|s| - 1]) else s
  }

  /** Stripping k trailing zeros divides the value by 10^k exactly. */
  lemma {:induction false} StripTrailingZerosValue(s: string)
    requires |s| >= 1 && AllDigits(s)
    ensures AllDigits(StripTrailingZeros(s))
    ensures DigitsValue(StripTrailingZeros(s)) * Pow10(|s| - |StripTrailingZeros(s)|) == DigitsValue(s)
  {
    if |s| > 1 && s[|s| - 1] == '0' {
      var p := s[..|s| - 1];
      assert AllDigits(p) by {
        forall i | 0 <= i < |p| ensures IsDigit(p[i]) { assert p[i] == s[i]; }
      }
      StripTrailingZerosValue(p);
      var t := StripTrailingZeros(p);
      assert StripTrailingZeros(s) == t;
      assert DigitsValue(s) == 10 * DigitsValue(p);
      var k := |p| - |t|;
      var v := DigitsValue(t);
      assert |s| - |t| == k + 1;
      assert Pow10(k + 1) == 10 * Pow10(k);
      assert v * Pow10(k) == DigitsValue(p);
      MulTen(v, Pow10(k));
    }
  }
}
