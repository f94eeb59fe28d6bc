/**
 Python's `int()` on a run of decimal digits and `str()` on a natural number,
 the two conversions between score values and their text.
 */
module Decimal {
  import opened Chars

  /** `int(d)` for a string of ASCII digits: most significant digit first,
      leading zeros allowed. */
  function DecimalValue(d: string): (v: nat)
    requires AllDigits(d)
    ensures v < Pow10(|d|)
  {
    if d == [] then 0
    else
      var v := DecimalValue(d[..|d| - 1]);
      v * 10 + DigitValue(d[|d| - 1])
  }

  function Pow10(n: nat): (p: nat)
    ensures p >= 1
  {
    if n == 0 then 1 else 10 * Pow10(n - 1)
  }

  /** `str(n)`: shortest decimal rendering, no leading zeros. */
  function NatToDecimal(n: nat): (d: string)
    ensures AllDigits(d) && |d| >= 1
    ensures n < 10 <==> |d| == 1
    ensures |d| > 1 ==> d[0] != '0'
  {
    if n < 10 then [('0' as int + n) as char]
    else NatToDecimal(n / 10) + [('0' as int + n % 10) as char]
  }

  /** A value of at most three decimal digits is rendered in at most three characters. */
  lemma {:induction false} NatToDecimalLength(n: nat)
    ensures n < 1000 ==> |NatToDecimal(n)| <= 3
    ensures |NatToDecimal(n)| <= 3 ==> n < 1000
  {
    if n >= 10 {
      NatToDecimalLength(n / 10);
    }
  }

  /** `int(str(n)) == n`. */
  lemma {:induction false} DecimalRoundTrip(n: nat)
    ensures DecimalValue(NatToDecimal(n)) == n
  {
    var d := NatToDecimal(n);
    if n >= 10 {
      DecimalRoundTrip(n / 10);
      assert d[..|d| - 1] == NatToDecimal(n / 10);
    }
  }
}
