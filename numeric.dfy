/**
 * Decimal-digit helpers shared by the validators: the "is numeric" test the
 * validators rely on, the value of a digit character (`c - '0'`), the decimal
 * rendering of a non-negative int (`String.valueOf`), the value of a string
 * of digits, and Java's `int` remainder and 32-bit addition.
 */
module Numeric {

  predicate IsDigit(c: char) {
    '0' <= c <= '9'
  }

  predicate AllDigits(s: string) {
    forall i :: 0 <= i < |s| ==> IsDigit(s[i])
  }

  /** The "numeric" test: non-empty and made of ASCII digits only. */
  predicate IsNumeric(s: string) {
    |s| > 0 && AllDigits(s)
  }

  /** Java's `c - '0'`, defined for every character. */
  function DigitValue(c: char): int {
    c as int - '0' as int
  }

  function DigitChar(v: int): (c: char)
    requires 0 <= v <= 9
    ensures IsDigit(c) && DigitValue(c) == v
  {
    ('0' as int + v) as char
  }

  function Pow10(n: nat): (p: nat)
    ensures p >= 1
  {
    if n == 0 then 1 else 10 * Pow10(n - 1)
  }

  /** The number a string of digits denotes, most significant digit first. */
  function DecimalValue(s: string): (v: nat)
    requires AllDigits(s)
    ensures v < Pow10(|s|)
  {
    if s == [] then 0
    else DecimalValue(s[..|s| - 1]) * 10 + DigitValue(s[|s| - 1])
  }

  /** `String.valueOf(n)` for a non-negative int: no sign, no leading zero. */
  function NatToString(n: nat): (s: string)
    ensures |s| > 0 && AllDigits(s)
    ensures DecimalValue(s) == n
    ensures n > 0 ==> s[0] != '0'
    ensures n == 0 ==> s == "0"
  {
    if n < 10 then [DigitChar(n)]
    else
      var s := NatToString(n / 10) + [DigitChar(n % 10)];
      assert s[..|s| - 1] == NatToString(n / 10);
      s
  }

  /** `n` written with exactly `width` digits, padded with leading zeros. */
  function PadDigits(n: nat, width: nat): (s: string)
    requires n < Pow10(width)
    ensures |s| == width && AllDigits(s)
    ensures DecimalValue(s) == n
  {
    if width == 0 then []
    else
      var s := PadDigits(n / 10, width - 1) + [DigitChar(n % 10)];
      assert s[..|s| - 1] == PadDigits(n / 10, width - 1);
      s
  }

  /** A string of digits is the padded rendering of its own value. */
  lemma {:induction false} PadDecimalValue(s: string)
    requires AllDigits(s)
    ensures PadDigits(DecimalValue(s), |s|) == s
  {
    if s != [] {
      var init, last := s[..|s| - 1], s[|s| - 1];
      PadDecimalValue(init);
      var v := DecimalValue(s);
      assert v == DecimalValue(init) * 10 + DigitValue(last);
      assert v / 10 == DecimalValue(init) && v % 10 == DigitValue(last);
      assert DigitChar(v % 10) == last;
      assert PadDigits(v, |s|) == PadDigits(DecimalValue(init), |init|) + [last];
      assert s == init + [last];
    }
  }

  /** Between 1000 and 9999 the decimal rendering has exactly four digits. */
  lemma NatToStringFourDigits(n: nat)
    requires 1000 <= n <= 9999
    ensures |NatToString(n)| == 4
    ensures NatToString(n) == PadDigits(n, 4)
  {
    assert |NatToString(n / 1000)| == 1;
    assert |NatToString(n / 100)| == 2 by { assert (n / 100) / 10 == n / 1000; }
    assert |NatToString(n / 10)| == 3 by { assert (n / 10) / 10 == n / 100; }
    PadDecimalValue(NatToString(n));
  }

  /** The value of a two- and a four-digit field, digit by digit. */
  lemma DecimalValueOfFields(a: char, b: char, c: char, d: char)
    requires IsDigit(a) && IsDigit(b) && IsDigit(c) && IsDigit(d)
    ensures DecimalValue([c, d]) == 10 * DigitValue(c) + DigitValue(d)
    ensures DecimalValue([a, b, c, d]) == 1000 * DigitValue(a) + 100 * DigitValue(b) + 10 * DigitValue(c) + DigitValue(d)
  {
    assert [a][..0] == [] && [c][..0] == [];
    assert DecimalValue([a]) == DigitValue(a);
    assert DecimalValue([c]) == DigitValue(c);
    assert [c, d][..1] == [c];
    assert [a, b][..1] == [a];
    assert DecimalValue([a, b]) == 10 * DigitValue(a) + DigitValue(b);
    assert [a, b, c][..2] == [a, b];
    assert DecimalValue([a, b, c]) == 100 * DigitValue(a) + 10 * DigitValue(b) + DigitValue(c);
    assert [a, b, c, d][..3] == [a, b, c];
  }

  /**
   * Java's `%` on int: the quotient is truncated toward zero, so the
   * remainder takes the sign of the dividend and `a - r` is a multiple of `b`.
   */
  function JavaRem(a: int, b: int): (r: int)
    requires b > 0
    ensures -b < r < b
    ensures a >= 0 ==> r >= 0
    ensures a < 0 ==> r <= 0
    ensures (a - r) % b == 0
    ensures r == 0 <==> a % b == 0
  {
    if a >= 0 then
      RemOfNonNegative(a, b);
      a % b
    else
      RemOfNegative(a, b);
      -((-a) % b)
  }

  lemma RemOfNonNegative(a: int, b: int)
    requires a >= 0 && b > 0
    ensures (a - a % b) % b == 0
  {
    ModUnique(b * (a / b), b, a / b, 0);
  }

  lemma RemOfNegative(a: int, b: int)
    requires a < 0 && b > 0
    ensures (a + (-a) % b) % b == 0
    ensures (-a) % b == 0 <==> a % b == 0
  {
    var q, m := (-a) / b, (-a) % b;
    assert a + m == b * -q;
    ModUnique(b * -q, b, -q, 0);
    if a % b == 0 {
      ModUnique(-a, b, -(a / b), 0);
    }
  }

  lemma MulAtLeast(b: int, e: int)
    requires b > 0 && e >= 1
    ensures b * e >= b
  {
  }

  /** Euclidean division is unique: a quotient and a remainder in range are the ones `/` and `%` give. */
  lemma ModUnique(x: int, b: int, d: int, r: int)
    requires b > 0 && 0 <= r < b && x == b * d + r
    ensures x % b == r && x / b == d
  {
    var d', r' := x / b, x % b;
    assert b * (d - d') == r' - r;
    if d - d' >= 1 {
      MulAtLeast(b, d - d');
    } else if d' - d >= 1 {
      MulAtLeast(b, d' - d);
    }
  }

  const TwoTo31: int := 0x8000_0000
  const TwoTo32: int := 0x1_0000_0000

  /** A Java `int`: the value of `x` wrapped to 32-bit two's complement. */
  function Wrap32(x: int): (w: int)
    ensures -0x8000_0000 <= w < 0x8000_0000
    ensures -0x8000_0000 <= x < 0x8000_0000 ==> w == x
    ensures 0x8000_0000 <= x < 0x1_0000_0000 ==> w == x - 0x1_0000_0000
  {
    (x + 0x8000_0000) % 0x1_0000_0000 - 0x8000_0000
  }

  /** Wrapping changes a value by a multiple of 2^32. */
  lemma Wrap32Congruent(x: int)
    ensures (x - Wrap32(x)) % 0x1_0000_0000 == 0
  {
    var y := x + 0x8000_0000;
    assert x - Wrap32(x) == 0x1_0000_0000 * (y / 0x1_0000_0000);
  }

  /** Adding to a wrapped int and wrapping again is wrapping the exact sum. */
  lemma Wrap32Add(a: int, k: int)
    ensures Wrap32(Wrap32(a) + k) == Wrap32(a + k)
  {
    var x, y := Wrap32(a) + k + 0x8000_0000, a + k + 0x8000_0000;
    var q := (a + 0x8000_0000) / 0x1_0000_0000;
    assert y == x + 0x1_0000_0000 * q;
    var qx := x / 0x1_0000_0000;
    assert y == 0x1_0000_0000 * (qx + q) + x % 0x1_0000_0000;
  }
}
