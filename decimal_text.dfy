/**
 * Decimal rendering of integers, as JavaScript's `Number.prototype.toString()`
 * produces it for integral values: optional '-' followed by the digits of the
 * magnitude, without leading zeros. Used for capture ids (`Date.now().toString()`)
 * and for the timer display.
 */
module DecimalText {

  predicate IsDigit(c: char) {
    '0' <= c <= '9'
  }

  predicate AllDigits(s: string) {
    forall i :: 0 <= i < |s| ==> IsDigit(s[i])
  }

  function DigitChar(d: nat): (c: char)
    requires d < 10
  {
    (48 + d) as char
  }

  function DigitValue(c: char): nat
    requires IsDigit(c)
  {
    c as int - 48
  }

  /** The number a string of decimal digits denotes (most significant digit first). */
  function Value(s: string): nat
    requires AllDigits(s)
  {
    if s == [] then 0 else Value(s[..|s| - 1]) * 10 + DigitValue(s[|s| - 1])
  }

  /** The decimal spelling of `n`, most significant digit first. */
  function FromNat(n: nat): string
    decreases n
  {
    if n < 10 then [DigitChar(n)] else FromNat(n / 10) + [DigitChar(n % 10)]
  }

  /** The spelling is canonical: at least one digit, no leading zero, and it denotes `n`. */
  lemma {:induction false} FromNatSound(n: nat)
    ensures var s := FromNat(n);
            |s| >= 1 && AllDigits(s) && Value(s) == n && (|s| > 1 ==> s[0] != '0')
    decreases n
  {
    if n >= 10 {
      FromNatSound(n / 10);
      var prefix := FromNat(n / 10);
      var s := prefix + [DigitChar(n % 10)];
      assert s[..|s| - 1] == prefix;
    }
  }

  /**
   * `i.toString()` for an integral JavaScript number: a '-' exactly for negative
   * numbers, then the canonical digits of the magnitude.
   */
  function FromInt(i: int): (r: string)
    ensures |r| >= 1 && (r[0] == '-' <==> i < 0)
    ensures i >= 0 ==> AllDigits(r) && Value(r) == i && (|r| > 1 ==> r[0] != '0')
    ensures i < 0 ==> |r| >= 2 && AllDigits(r[1..]) && Value(r[1..]) == -i && (|r| > 2 ==> r[1] != '0')
  {
    if i < 0 then
      FromNatSound(-i);
      assert ("-" + FromNat(-i))[1..] == FromNat(-i);
      "-" + FromNat(-i)
    else
      FromNatSound(i);
      FromNat(i)
  }

}
