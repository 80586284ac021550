/** Decimal text of the item numbers and of the item count that the menu
    prints (`operator<<` on a `size_t`), with the parse that inverts it. */
module Decimal {

  predicate IsDigit(c: char) { '0' <= c <= '9' }

  predicate AllDigits(s: string) { forall i :: 0 <= i < |s| ==> IsDigit(s[i]) }

  /** The character of one decimal digit. */
  function DigitChar(d: nat): (c: char)
    requires d < 10
    ensures IsDigit(c) && c as int - '0' as int == d
  {
    "0123456789"[d]
  }

  /** Decimal rendering of `n`, most significant digit first. */
  function NatToString(n: nat): string
  {
    if n < 10 then [DigitChar(n)] else NatToString(n / 10) + [DigitChar(n % 10)]
  }

  /** A printed number is a non-empty run of digits with no leading zero. */
  lemma {:induction false} NatToStringIsDecimal(n: nat)
    ensures var s := NatToString(n);
            |s| > 0 && AllDigits(s) &&
            ((s[0] == '0') <==> (n == 0)) && (n < 10 <==> |s| == 1)
  {
    if n >= 10 {
      NatToStringIsDecimal(n / 10);
      var s := NatToString(n);
      assert s[0] == NatToString(n / 10)[0];
    }
  }

  /** Value of a string of decimal digits; the reference reading of `NatToString`. */
  function DecimalValue(s: string): nat
    requires AllDigits(s)
  {
    if s == [] then 0
    else
      assert IsDigit(s[|s| - 1]);
      DecimalValue(s[..|s| - 1]) * 10 + (s[|s| - 1] as int - '0' as int)
  }

  /** Reading back the printed number gives the number. */
  lemma {:induction false} DecimalRoundTrip(n: nat)
    ensures AllDigits(NatToString(n)) && DecimalValue(NatToString(n)) == n
  {
    NatToStringIsDecimal(n);
    var s := NatToString(n);
    if n >= 10 {
      var prefix := NatToString(n / 10);
      assert s[..|s| - 1] == prefix;
      DecimalRoundTrip(n / 10);
    }
  }

  /** Different numbers print differently, so the number in a message determines the count. */
  lemma NatToStringInjective(m: nat, n: nat)
    requires NatToString(m) == NatToString(n)
    ensures m == n
  {
    DecimalRoundTrip(m);
    DecimalRoundTrip(n);
  }
}
