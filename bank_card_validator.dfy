/**
 * The bank-card validator, a Luhn-family check digit. Every character but
 * the last is summed; a digit whose position counted from the left (from 0)
 * is odd is doubled and its two decimal digits added. The last character
 * must be the digit that brings the sum to a multiple of 10. The sum is a
 * Java `int`, so on cards of more than 238,609,295 digits it can wrap.
 */
module BankCardValidator {
  import opened Wrappers
  import opened Numeric

  /** `k / 10 + k % 10`: the sum of the decimal digits of `k` when `0 <= k < 100`. */
  function Fold(k: int): int {
    k / 10 + k % 10
  }

  /** What one digit adds to the sum, doubled and folded or as it is. */
  function Contribution(doubled: bool, c: char): (k: int)
    requires IsDigit(c)
    ensures 0 <= k <= 9
    ensures !doubled ==> k == DigitValue(c)
    ensures doubled ==> k == if DigitValue(c) < 5 then 2 * DigitValue(c) else 2 * DigitValue(c) - 9
  {
    var k := DigitValue(c);
    if doubled then Fold(2 * k) else k
  }

  /** The digit at index `i` is doubled when `i & 1 != 0`, that is when `i` is odd. */
  function Term(i: nat, c: char): int
    requires IsDigit(c)
  {
    Contribution(i % 2 != 0, c)
  }

  /** The sum of the terms of the characters at indices `lo` to `hi - 1`. */
  function LuhnSum(s: string, lo: nat, hi: nat): (sum: int)
    requires lo <= hi <= |s| && AllDigits(s)
    ensures 0 <= sum <= 9 * (hi - lo)
    decreases hi - lo
  {
    if lo == hi then 0 else Term(lo, s[lo]) + LuhnSum(s, lo + 1, hi)
  }

  /** The digit that brings a non-negative sum up to a multiple of 10. */
  function CheckDigit(sum: int): (c: char)
    requires sum >= 0
    ensures IsDigit(c)
    ensures (sum + DigitValue(c)) % 10 == 0
  {
    if sum % 10 == 0 then '0' else DigitChar(10 - sum % 10)
  }

  /**
   * The longest card whose sum is exact in a Java `int`: its payload of
   * 238,609,294 digits sums to at most 2,147,483,646.
   */
  const MaxUnwrappedLength: nat := 238_609_295

  /**
   * The character `getCheckCode` returns for its final `int` sum, with Java's
   * `%`: the completing digit for a non-negative sum; for a negative sum that
   * is not a multiple of 10, a character past '9'.
   */
  function CheckCharacter(luhmSum: int): (c: char)
    ensures luhmSum >= 0 ==> c == CheckDigit(luhmSum)
    ensures IsDigit(c) <==> luhmSum >= 0 || luhmSum % 10 == 0
  {
    var r := JavaRem(luhmSum, 10);
    if r == 0 then '0' else ((10 - r) + '0' as int) as char
  }

  /**
   * `getCheckCode`: the character for the sum over every character but the
   * last, that sum accumulated in a 32-bit `int`.
   */
  function CheckCode(bankCard: string): (c: char)
    requires IsNumeric(bankCard)
    ensures |bankCard| <= MaxUnwrappedLength ==> c == CheckDigit(LuhnSum(bankCard, 0, |bankCard| - 1))
  {
    CheckCharacter(Wrap32(LuhnSum(bankCard, 0, |bankCard| - 1)))
  }

  /** The private `getCheckCode`: the loop from the second-to-last character down to the first. */
  method GetCheckCode(bankCard: string) returns (checkCode: char)
    requires IsNumeric(bankCard)
    ensures checkCode == CheckCode(bankCard)
    ensures |bankCard| <= MaxUnwrappedLength ==> IsDigit(checkCode)
  {
    var chs := bankCard;
    var luhmSum := 0;
    var i := |chs| - 2;
    while i >= 0
      invariant -1 <= i <= |chs| - 2
      invariant luhmSum == Wrap32(LuhnSum(chs, i + 1, |chs| - 1))
    {
      var k := DigitValue(chs[i]);
      if i % 2 != 0 {
        k := k * 2;
        k := k / 10 + k % 10;
      }
      LuhnStep(chs, i, k);
      luhmSum := Wrap32(luhmSum + k);
      assert luhmSum == Wrap32(LuhnSum(chs, i, |chs| - 1));
      i := i - 1;
    }
    assert i == -1;
    assert luhmSum == Wrap32(LuhnSum(bankCard, 0, |bankCard| - 1));
    var r := JavaRem(luhmSum, 10);
    if r == 0 {
      checkCode := '0';
    } else {
      checkCode := ((10 - r) + '0' as int) as char;
    }
    assert checkCode == CheckCharacter(luhmSum);
  }

  /** One step of the loop: the 32-bit sum after adding the term of the digit at `i`. */
  lemma LuhnStep(chs: string, i: nat, k: int)
    requires i < |chs| - 1 && IsNumeric(chs)
    requires k == if i % 2 != 0 then (2 * DigitValue(chs[i])) / 10 + (2 * DigitValue(chs[i])) % 10 else DigitValue(chs[i])
    ensures Wrap32(Wrap32(LuhnSum(chs, i + 1, |chs| - 1)) + k) == Wrap32(LuhnSum(chs, i, |chs| - 1))
  {
    assert k == Term(i, chs[i]);
    Wrap32Add(LuhnSum(chs, i + 1, |chs| - 1), k);
  }

  /** `validate`: numeric (so neither null nor empty), and the last character is the computed check digit. */
  predicate Validate(bankCard: Option<string>) {
    && bankCard.Some?
    && IsNumeric(bankCard.value)
    && bankCard.value[|bankCard.value| - 1] == CheckCode(bankCard.value)
  }
}
