/** Decimal digit strings: the building blocks of `int(...)` parsing and of the
    zero-padded numeric fields that `strftime` writes. */
module Decimal {

  predicate IsDigit(c: char) {
    '0' <= c <= '9'
  }

  predicate AllDigits(s: string) {
    forall i :: 0 <= i < |s| ==> IsDigit(s[i])
  }

  function DigitValue(c: char): (d: nat)
    requires IsDigit(c)
    ensures d < 10
  {
    c as int - '0' as int
  }

  function DigitChar(d: nat): (c: char)
    requires d < 10
    ensures IsDigit(c) && DigitValue(c) == d
  {
    ('0' as int + d) as char
  }

  /** The number a string of decimal digits denotes, most significant digit first. */
  function Value(s: string): nat
    requires AllDigits(s)
  {
    if s == [] then 0 else Value(s[..|s| - 1]) * 10 + DigitValue(s[|s| - 1])
  }

  function Pow10(n: nat): (p: nat)
    ensures p >= 1
  {
    if n == 0 then 1 else 10 * Pow10(n - 1)
  }

  /** `n` written with exactly `width` digits, padded on the left with zeros
      (the `%02d`-style fields of `strftime`). */
  function Pad(n: nat, width: nat): (s: string)
    requires n < Pow10(width)
    ensures |s| == width && AllDigits(s) && Value(s) == n
  {
    if width == 0 then []
    else
      var s := Pad(n / 10, width - 1) + [DigitChar(n % 10)];
      assert s[..|s| - 1] == Pad(n / 10, width - 1);
      s
  }

  /** `n` in canonical decimal: no leading zeros, "0" for zero (Python's `str(n)` for `n >= 0`). */
  function Canonical(n: nat): (s: string)
    ensures |s| > 0 && AllDigits(s) && Value(s) == n
    ensures |s| > 1 ==> s[0] != '0'
  {
    if n < 10 then [DigitChar(n)]
    else
      var s := Canonical(n / 10) + [DigitChar(n % 10)];
      assert s[..|s| - 1] == Canonical(n / 10);
      s
  }
}
