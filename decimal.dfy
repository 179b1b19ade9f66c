/** Decimal rendering of integers, as Go's `%d` verb prints an `int`:
    an optional '-' followed by the digits of the magnitude, no leading zeros. */
module Decimal {

  predicate IsDigit(c: char) {
    '0' <= c <= '9'
  }

  predicate AllDigits(s: string) {
    forall i :: 0 <= i < |s| ==> IsDigit(s[i])
  }

  function DigitChar(d: nat): (c: char)
    requires d < 10
    ensures IsDigit(c) && DigitValue(c) == d
  {
    ('0' as int + d) as char
  }

  function DigitValue(c: char): (d: nat)
    requires IsDigit(c)
    ensures d < 10
  {
    c as int - '0' as int
  }

  /** The decimal digits of `n`, most significant first. */
  function NatToDecimal(n: nat): (s: string)
    ensures |s| > 0 && AllDigits(s)
    ensures s[0] == '0' ==> n == 0 && s == "0"
  {
    if n < 10 then [DigitChar(n)] else NatToDecimal(n / 10) + [DigitChar(n % 10)]
  }

  /** The value of a string of decimal digits. */
  function DecimalToNat(s: string): nat
    requires AllDigits(s)
  {
    if s == [] then 0 else DecimalToNat(s[..|s| - 1]) * 10 + DigitValue(s[|s| - 1])
  }

  /** `%d` of a Go `int`: a '-' exactly for negative values, then the digits
      of the magnitude, which read back as that magnitude. */
  function IntToDecimal(i: int): (s: string)
    ensures |s| > 0 && (s[0] == '-' <==> i < 0)
    ensures var digits := if i < 0 then s[1..] else s;
      |digits| > 0 && AllDigits(digits) && (digits[0] == '0' ==> digits == "0")
      && DecimalToNat(digits) == if i < 0 then -i else i
  {
    var magnitude := if i < 0 then -i else i;
    DecimalRoundTrip(magnitude);
    if i < 0 then "-" + NatToDecimal(magnitude) else NatToDecimal(magnitude)
  }

  /** The two shapes `IntToDecimal` produces, for callers that build on them. */
  lemma IntToDecimalShape(i: int)
    ensures i >= 0 ==> IntToDecimal(i) == NatToDecimal(i)
    ensures i < 0 ==> IntToDecimal(i) == "-" + NatToDecimal(-i)
  {
  }

  lemma {:induction false} DecimalRoundTrip(n: nat)
    ensures DecimalToNat(NatToDecimal(n)) == n
  {
    if n >= 10 {
      var s := NatToDecimal(n);
      assert s[..|s| - 1] == NatToDecimal(n / 10);
      DecimalRoundTrip(n / 10);
    }
  }

  /** Where the run of digits that ends `t` begins. */
  function DigitRunStart(t: string): (k: nat)
    ensures k <= |t| && AllDigits(t[k..])
    ensures k > 0 ==> !IsDigit(t[k - 1])
  {
    if |t| > 0 && IsDigit(t[|t| - 1]) then
      var k := DigitRunStart(t[..|t| - 1]);
      assert t[k..] == t[..|t| - 1][k..] + [t[|t| - 1]];
      k
    else
      |t|
  }

  /** A digit string after a non-digit is exactly the trailing run. */
  lemma {:induction false} DigitRunAfterNonDigit(a: string, d: string)
    requires |a| > 0 && !IsDigit(a[|a| - 1]) && AllDigits(d)
    ensures DigitRunStart(a + d) == |a|
  {
    if d == [] {
      assert a + d == a;
    } else {
      var t := a + d;
      assert t[..|t| - 1] == a + d[..|d| - 1];
      DigitRunAfterNonDigit(a, d[..|d| - 1]);
    }
  }
}
