/**
 * Properties of the bank-card validator: acceptance is exactly the Luhn
 * condition over the doubling positions `getCheckCode` uses, appending the
 * computed digit always yields an accepted number, and those doubling
 * positions agree with the textbook right-to-left rule only when the payload
 * length is even. Cards long enough for the Java `int` sum to wrap are
 * treated apart.
 */
module BankCardProperties {
  import opened Wrappers
  import opened Numeric
  import opened BankCardValidator

  /** The sum over a range depends only on the characters in that range. */
  lemma {:induction false} LuhnSumLocal(s: string, t: string, lo: nat, hi: nat)
    requires lo <= hi <= |s| && hi <= |t| && AllDigits(s) && AllDigits(t)
    requires forall i :: lo <= i < hi ==> s[i] == t[i]
    ensures LuhnSum(s, lo, hi) == LuhnSum(t, lo, hi)
    decreases hi - lo
  {
    if lo < hi {
      LuhnSumLocal(s, t, lo + 1, hi);
    }
  }

  /** The last character never takes part in computing the check digit. */
  lemma LastCharacterIgnored(s: string, t: string)
    requires IsNumeric(s) && IsNumeric(t) && |s| == |t|
    requires s[..|s| - 1] == t[..|t| - 1]
    ensures CheckCode(s) == CheckCode(t)
  {
    assert forall i :: 0 <= i < |s| - 1 ==> s[i] == s[..|s| - 1][i] && t[i] == t[..|t| - 1][i];
    LuhnSumLocal(s, t, 0, |s| - 1);
  }

  /** A sum has exactly one completing digit. */
  lemma CheckDigitUnique(sum: int, c: char)
    requires sum >= 0 && IsDigit(c)
    ensures (sum + DigitValue(c)) % 10 == 0 <==> c == CheckDigit(sum)
  {
    var d := DigitValue(CheckDigit(sum));
    if (sum + DigitValue(c)) % 10 == 0 {
      assert (DigitValue(c) - d) % 10 == 0;
      assert c as int - CheckDigit(sum) as int == DigitValue(c) - d;
    }
  }

  /** A digit matches the character computed from an `int` sum exactly when it completes a sum that is non-negative or a multiple of 10. */
  lemma CheckCharacterMatches(w: int, c: char)
    requires IsDigit(c)
    ensures CheckCharacter(w) == c <==> (w >= 0 || w % 10 == 0) && (w + DigitValue(c)) % 10 == 0
  {
    if w >= 0 {
      CheckDigitUnique(w, c);
    } else if w % 10 == 0 {
      assert CheckCharacter(w) == '0';
      assert (w + DigitValue(c)) % 10 == DigitValue(c) % 10;
    }
  }

  /**
   * For every input, `validate` holds exactly when the input is numeric, the
   * 32-bit sum plus the last digit is a multiple of 10, and the 32-bit sum is
   * non-negative or itself a multiple of 10.
   */
  lemma ValidateIsWrappedLuhnCondition(s: string)
    ensures Validate(Some(s)) <==>
      IsNumeric(s) &&
      var w := Wrap32(LuhnSum(s, 0, |s| - 1));
      (w >= 0 || w % 10 == 0) && (w + DigitValue(s[|s| - 1])) % 10 == 0
  {
    if IsNumeric(s) {
      CheckCharacterMatches(Wrap32(LuhnSum(s, 0, |s| - 1)), s[|s| - 1]);
    }
  }

  /** `validate` holds exactly for numeric strings whose whole sum, last digit included, is a multiple of 10. */
  lemma ValidateIsLuhnCondition(s: string)
    requires |s| <= MaxUnwrappedLength
    ensures Validate(Some(s)) <==>
      IsNumeric(s) && (LuhnSum(s, 0, |s| - 1) + DigitValue(s[|s| - 1])) % 10 == 0
  {
    if IsNumeric(s) {
      CheckDigitUnique(LuhnSum(s, 0, |s| - 1), s[|s| - 1]);
    }
  }

  /**
   * A sum from 2^31 to 2^32 - 1 wraps to a negative `int`, and unless it ends
   * in 6 (2^32 ends in 6) the character computed is past '9', so no digit
   * matches it.
   */
  lemma OverflowingSumRejected(s: string)
    requires IsNumeric(s)
    requires TwoTo31 <= LuhnSum(s, 0, |s| - 1) < TwoTo32 && LuhnSum(s, 0, |s| - 1) % 10 != 6
    ensures !Validate(Some(s))
  {
    var sum := LuhnSum(s, 0, |s| - 1);
    WrappedSumNegative(sum);
    ValidateIsWrappedLuhnCondition(s);
  }

  /** Between 2^31 and 2^32 - 1 the wrapped sum is the sum less 2^32: negative, and a multiple of 10 only for sums ending in 6. */
  lemma WrappedSumNegative(sum: int)
    requires TwoTo31 <= sum < TwoTo32 && sum % 10 != 6
    ensures Wrap32(sum) < 0 && Wrap32(sum) % 10 != 0
  {
    var w := Wrap32(sum);
    assert w == 10 * (sum / 10 - 429_496_730) + (sum % 10 + 4);
  }

  /** Null input and input with a non-digit character, empty input included, are rejected. */
  lemma NonNumericRejected(s: string)
    requires !IsNumeric(s)
    ensures !Validate(Some(s)) && !Validate(None)
  {
  }

  /** Appending the check digit of any digit string yields an accepted number. */
  lemma RoundTrip(payload: string)
    requires AllDigits(payload) && |payload| < MaxUnwrappedLength
    ensures Validate(Some(payload + [CheckDigit(LuhnSum(payload, 0, |payload|))]))
  {
    AppendedDigit(payload, CheckDigit(LuhnSum(payload, 0, |payload|)));
  }

  /** Appending a digit keeps the input numeric and leaves the sum over the payload unchanged. */
  lemma AppendedDigit(payload: string, c: char)
    requires AllDigits(payload) && IsDigit(c)
    ensures IsNumeric(payload + [c])
    ensures LuhnSum(payload + [c], 0, |payload|) == LuhnSum(payload, 0, |payload|)
  {
    var s := payload + [c];
    assert AllDigits(s);
    LuhnSumLocal(s, payload, 0, |payload|);
  }

  /** A single digit has an empty sum, so only "0" is accepted. */
  lemma SingleDigit(c: char)
    ensures Validate(Some([c])) <==> c == '0'
  {
  }

  /** Adding the check digit's value to the sum always gives a multiple of 10, and the check digit is a digit. */
  lemma CheckCodeCompletesSum(s: string)
    requires IsNumeric(s) && |s| <= MaxUnwrappedLength
    ensures IsDigit(CheckCode(s))
    ensures (LuhnSum(s, 0, |s| - 1) + DigitValue(CheckCode(s))) % 10 == 0
  {
  }

  // ---------------------------------------------------------------------
  // The textbook right-to-left rule
  // ---------------------------------------------------------------------

  /** The textbook sum: a digit is doubled when its distance from the check digit is odd. */
  function RightToLeftSum(s: string, lo: nat, hi: nat): int
    requires lo <= hi <= |s| && AllDigits(s)
    decreases hi - lo
  {
    if lo == hi then 0 else Contribution((hi - lo) % 2 == 1, s[lo]) + RightToLeftSum(s, lo + 1, hi)
  }

  predicate TextbookLuhnValid(s: string) {
    IsNumeric(s) && (RightToLeftSum(s, 0, |s| - 1) + DigitValue(s[|s| - 1])) % 10 == 0
  }

  lemma {:induction false} SameParityAgrees(s: string, lo: nat, hi: nat)
    requires lo <= hi <= |s| && AllDigits(s) && hi % 2 == 0
    ensures LuhnSum(s, lo, hi) == RightToLeftSum(s, lo, hi)
    decreases hi - lo
  {
    if lo < hi {
      SameParityAgrees(s, lo + 1, hi);
      ParityFromEitherEnd(lo, hi);
    }
  }

  lemma ParityFromEitherEnd(i: nat, n: nat)
    requires i < n && n % 2 == 0
    ensures (i % 2 != 0) == ((n - i) % 2 == 1)
  {
  }

  /** When all but the last character make an even count, the rule of `getCheckCode` is the textbook one. */
  lemma EvenPayloadIsTextbookLuhn(s: string)
    requires IsNumeric(s) && (|s| - 1) % 2 == 0 && |s| <= MaxUnwrappedLength
    ensures Validate(Some(s)) <==> TextbookLuhnValid(s)
  {
    ValidateIsLuhnCondition(s);
    SameParityAgrees(s, 0, |s| - 1);
  }

  /** The card number 4111111111111111: a 4 followed by fifteen 1s. */
  predicate IsVisaTestCard(s: string) {
    |s| == 16 && s[0] == '4' && forall i :: 1 <= i < 16 ==> s[i] == '1'
  }

  /** With a 15-digit payload the rules differ: the textbook-valid 4111111111111111 is rejected. */
  lemma SixteenDigitCardDiffers(card: string)
    requires IsVisaTestCard(card)
    ensures TextbookLuhnValid(card)
    ensures !Validate(Some(card))
  {
    assert CheckDigit(25) == '5';
    assert AllDigits(card);
    VisaLeftToRightSum(card);
    VisaTextbookSum(card);
  }

  /** The sum `getCheckCode` forms over the payload of 4111111111111111. */
  lemma VisaLeftToRightSum(s: string)
    requires IsVisaTestCard(s) && AllDigits(s)
    ensures LuhnSum(s, 0, 15) == 25
  {
    VisaLeftToRightTail(s);
    assert LuhnSum(s, 7, 15) == 12;
    assert LuhnSum(s, 6, 15) == 13;
    assert LuhnSum(s, 5, 15) == 15;
    assert LuhnSum(s, 4, 15) == 16;
    assert LuhnSum(s, 3, 15) == 18;
    assert LuhnSum(s, 2, 15) == 19;
    assert LuhnSum(s, 1, 15) == 21;
    assert LuhnSum(s, 0, 15) == 25;
  }

  lemma VisaLeftToRightTail(s: string)
    requires IsVisaTestCard(s) && AllDigits(s)
    ensures LuhnSum(s, 8, 15) == 10
  {
    assert LuhnSum(s, 14, 15) == 1;
    assert LuhnSum(s, 13, 15) == 3;
    assert LuhnSum(s, 12, 15) == 4;
    assert LuhnSum(s, 11, 15) == 6;
    assert LuhnSum(s, 10, 15) == 7;
    assert LuhnSum(s, 9, 15) == 9;
  }

  /** The textbook sum over the payload of 4111111111111111. */
  lemma VisaTextbookSum(s: string)
    requires IsVisaTestCard(s) && AllDigits(s)
    ensures RightToLeftSum(s, 0, 15) == 29
  {
    assert RightToLeftSum(s, 14, 15) == 2;
    assert RightToLeftSum(s, 13, 15) == 3;
    assert RightToLeftSum(s, 12, 15) == 5;
    assert RightToLeftSum(s, 11, 15) == 6;
    assert RightToLeftSum(s, 10, 15) == 8;
    assert RightToLeftSum(s, 9, 15) == 9;
    assert RightToLeftSum(s, 8, 15) == 11;
    assert RightToLeftSum(s, 7, 15) == 12;
    assert RightToLeftSum(s, 6, 15) == 14;
    assert RightToLeftSum(s, 5, 15) == 15;
    assert RightToLeftSum(s, 4, 15) == 17;
    assert RightToLeftSum(s, 3, 15) == 18;
    assert RightToLeftSum(s, 2, 15) == 20;
    assert RightToLeftSum(s, 1, 15) == 21;
    assert RightToLeftSum(s, 0, 15) == 29;
  }

  // ---------------------------------------------------------------------
  // Worked examples
  // ---------------------------------------------------------------------

  /** The card 621228880200000?666 of the test suite, with `sixteenth` in place of the sixteenth digit. */
  predicate IsSampleCard(card: string, sixteenth: char) {
    |card| == 19
    && card[0] == '6' && card[1] == '2' && card[2] == '1' && card[3] == '2' && card[4] == '2'
    && card[5] == '8' && card[6] == '8' && card[7] == '8' && card[8] == '0' && card[9] == '2'
    && card[10] == '0' && card[11] == '0' && card[12] == '0' && card[13] == '0' && card[14] == '0'
    && card[15] == sixteenth && card[16] == '6' && card[17] == '6' && card[18] == '6'
  }

  /** The payload sum of 6212288802000001666. */
  lemma AcceptedCardSum(card: string)
    requires IsSampleCard(card, '1') && AllDigits(card)
    ensures LuhnSum(card, 0, 18) == 54
  {
    assert LuhnSum(card, 17, 18) == 3;
    assert LuhnSum(card, 16, 18) == 9;
    assert LuhnSum(card, 15, 18) == 11;
    assert LuhnSum(card, 14, 18) == 11;
    assert LuhnSum(card, 13, 18) == 11;
    assert LuhnSum(card, 12, 18) == 11;
    assert LuhnSum(card, 11, 18) == 11;
    assert LuhnSum(card, 10, 18) == 11;
    assert LuhnSum(card, 9, 18) == 15;
    assert LuhnSum(card, 8, 18) == 15;
    assert LuhnSum(card, 7, 18) == 22;
    assert LuhnSum(card, 6, 18) == 30;
    assert LuhnSum(card, 5, 18) == 37;
    assert LuhnSum(card, 4, 18) == 39;
    assert LuhnSum(card, 3, 18) == 43;
    assert LuhnSum(card, 2, 18) == 44;
    assert LuhnSum(card, 1, 18) == 48;
  }

  /** The payload sum of 6212288802000002666. */
  lemma RejectedCardSum(card: string)
    requires IsSampleCard(card, '2') && AllDigits(card)
    ensures LuhnSum(card, 0, 18) == 56
  {
    assert LuhnSum(card, 17, 18) == 3;
    assert LuhnSum(card, 16, 18) == 9;
    assert LuhnSum(card, 15, 18) == 13;
    assert LuhnSum(card, 14, 18) == 13;
    assert LuhnSum(card, 13, 18) == 13;
    assert LuhnSum(card, 12, 18) == 13;
    assert LuhnSum(card, 11, 18) == 13;
    assert LuhnSum(card, 10, 18) == 13;
    assert LuhnSum(card, 9, 18) == 17;
    assert LuhnSum(card, 8, 18) == 17;
    assert LuhnSum(card, 7, 18) == 24;
    assert LuhnSum(card, 6, 18) == 32;
    assert LuhnSum(card, 5, 18) == 39;
    assert LuhnSum(card, 4, 18) == 41;
    assert LuhnSum(card, 3, 18) == 45;
    assert LuhnSum(card, 2, 18) == 46;
    assert LuhnSum(card, 1, 18) == 50;
  }

  /** 6212288802000001666 is accepted: its payload sum is 54 and its last digit 6. */
  lemma AcceptedCardExample(card: string)
    requires IsSampleCard(card, '1')
    ensures Validate(Some(card))
  {
    assert CheckDigit(54) == '6';
    assert AllDigits(card);
    AcceptedCardSum(card);
  }

  /** 6212288802000002666 is rejected: its payload sum is 56, which calls for 4, not 6. */
  lemma RejectedCardExample(card: string)
    requires IsSampleCard(card, '2')
    ensures !Validate(Some(card))
  {
    assert CheckDigit(56) == '4';
    assert AllDigits(card);
    RejectedCardSum(card);
  }
}
