/**
 * Properties of the identity-card validator: the check character is the
 * ISO 7064 MOD 11-2 character that GB 11643-1999 prescribes, and `validate`
 * accepts exactly the numbers whose region, birthday and check character are
 * right, with the expansion of 15-character numbers agreeing with that.
 */
module IdcardProperties {
  import opened Wrappers
  import opened Numeric
  import opened Calendar
  import opened IdcardValidator

  // ---------------------------------------------------------------------
  // The check character
  // ---------------------------------------------------------------------

  /** The weights, entry by entry. */
  lemma PowerEntries()
    ensures Power[0] == 7
    ensures Power[1] == 9
    ensures Power[2] == 10
    ensures Power[3] == 5
    ensures Power[4] == 8
    ensures Power[5] == 4
    ensures Power[6] == 2
    ensures Power[7] == 1
    ensures Power[8] == 6
    ensures Power[9] == 3
    ensures Power[10] == 7
    ensures Power[11] == 9
    ensures Power[12] == 10
    ensures Power[13] == 5
    ensures Power[14] == 8
    ensures Power[15] == 4
    ensures Power[16] == 2
  {
  }

  /** The weighted sum of 17 values, written out term by term. */
  lemma WeightedSumExpanded(bits: seq<int>)
    requires |bits| == 17
    ensures WeightedSumTo(bits, Power, 17) == 7 * bits[0] + 9 * bits[1] + 10 * bits[2] + 5 * bits[3] + 8 * bits[4] + 4 * bits[5] + 2 * bits[6] + 1 * bits[7] + 6 * bits[8] + 3 * bits[9] + 7 * bits[10] + 9 * bits[11] + 10 * bits[12] + 5 * bits[13] + 8 * bits[14] + 4 * bits[15] + 2 * bits[16]
  {
    PowerEntries();
    assert WeightedSumTo(bits, Power, 1) == 7 * bits[0];
    assert WeightedSumTo(bits, Power, 2) == WeightedSumTo(bits, Power, 1) + 9 * bits[1];
    assert WeightedSumTo(bits, Power, 3) == WeightedSumTo(bits, Power, 2) + 10 * bits[2];
    assert WeightedSumTo(bits, Power, 4) == WeightedSumTo(bits, Power, 3) + 5 * bits[3];
    assert WeightedSumTo(bits, Power, 5) == WeightedSumTo(bits, Power, 4) + 8 * bits[4];
    assert WeightedSumTo(bits, Power, 6) == WeightedSumTo(bits, Power, 5) + 4 * bits[5];
    assert WeightedSumTo(bits, Power, 7) == WeightedSumTo(bits, Power, 6) + 2 * bits[6];
    assert WeightedSumTo(bits, Power, 8) == WeightedSumTo(bits, Power, 7) + 1 * bits[7];
    assert WeightedSumTo(bits, Power, 9) == WeightedSumTo(bits, Power, 8) + 6 * bits[8];
    assert WeightedSumTo(bits, Power, 10) == WeightedSumTo(bits, Power, 9) + 3 * bits[9];
    assert WeightedSumTo(bits, Power, 11) == WeightedSumTo(bits, Power, 10) + 7 * bits[10];
    assert WeightedSumTo(bits, Power, 12) == WeightedSumTo(bits, Power, 11) + 9 * bits[11];
    assert WeightedSumTo(bits, Power, 13) == WeightedSumTo(bits, Power, 12) + 10 * bits[12];
    assert WeightedSumTo(bits, Power, 14) == WeightedSumTo(bits, Power, 13) + 5 * bits[13];
    assert WeightedSumTo(bits, Power, 15) == WeightedSumTo(bits, Power, 14) + 8 * bits[14];
    assert WeightedSumTo(bits, Power, 16) == WeightedSumTo(bits, Power, 15) + 4 * bits[15];
    assert WeightedSumTo(bits, Power, 17) == WeightedSumTo(bits, Power, 16) + 2 * bits[16];
  }

  /** On 17 digits the check character is the table entry at the weighted sum modulo 11. */
  lemma CheckCodeOfDigits(idcard17: string)
    requires |idcard17| == 17 && AllDigits(idcard17)
    ensures WeightedSumTo(Values(idcard17), Power, 17) >= 0
    ensures CheckCode(idcard17) == Ok(VerifyCode[WeightedSumTo(Values(idcard17), Power, 17) % 11])
    ensures CheckCode(idcard17).value in "0123456789X"
  {
    DigitsHaveNonNegativeSum(idcard17);
  }

  /** Any input that is not 17 characters long has weighted sum 0 and so check character '1'. */
  lemma CheckCodeOfOtherLength(s: string)
    requires |s| != 17
    ensures CheckCode(s) == Ok('1')
  {
  }

  /** Seventeen spaces give a negative sum, a negative Java remainder and an index exception. */
  lemma CheckCodeOfSpacesThrows()
    ensures CheckCode("                 ") == Err(IndexOutOfBounds)
  {
    var s := "                 ";
    WeightedSumExpanded(Values(s));
    assert WeightedSumTo(Values(s), Power, 17) == -1600;
  }

  /** A negative sum that is a multiple of 11 leaves Java remainder 0: two slashes at weights 10 and 1 give -11 and so '1'. */
  lemma CheckCodeOfNegativeMultipleOf11()
    ensures CheckCode("00/0000/000000000") == Ok('1')
  {
    var s := "00/0000/000000000";
    WeightedSumExpanded(Values(s));
    assert WeightedSumTo(Values(s), Power, 17) == -11;
  }

  function Pow2(n: nat): nat {
    if n == 0 then 1 else 2 * Pow2(n - 1)
  }

  /** Each weight is 2 raised to the distance from the check position, modulo 11, as MOD 11-2 prescribes. */
  lemma PowerIsMod11_2Weights()
    ensures forall i :: 0 <= i < 17 ==> Power[i] == Pow2(17 - i) % 11
  {
    PowerEntries();
    PowersOfTwo();
  }

  lemma PowersOfTwo()
    ensures Pow2(1) == 2
    ensures Pow2(2) == 4
    ensures Pow2(3) == 8
    ensures Pow2(4) == 16
    ensures Pow2(5) == 32
    ensures Pow2(6) == 64
    ensures Pow2(7) == 128
    ensures Pow2(8) == 256
    ensures Pow2(9) == 512
    ensures Pow2(10) == 1024
    ensures Pow2(11) == 2048
    ensures Pow2(12) == 4096
    ensures Pow2(13) == 8192
    ensures Pow2(14) == 16384
    ensures Pow2(15) == 32768
    ensures Pow2(16) == 65536
    ensures Pow2(17) == 131072
  {
    assert Pow2(1) == 2 * Pow2(0);
    assert Pow2(2) == 2 * Pow2(1);
    assert Pow2(3) == 2 * Pow2(2);
    assert Pow2(4) == 2 * Pow2(3);
    assert Pow2(5) == 2 * Pow2(4);
    assert Pow2(6) == 2 * Pow2(5);
    assert Pow2(7) == 2 * Pow2(6);
    assert Pow2(8) == 2 * Pow2(7);
    assert Pow2(9) == 2 * Pow2(8);
    assert Pow2(10) == 2 * Pow2(9);
    assert Pow2(11) == 2 * Pow2(10);
    assert Pow2(12) == 2 * Pow2(11);
    assert Pow2(13) == 2 * Pow2(12);
    assert Pow2(14) == 2 * Pow2(13);
    assert Pow2(15) == 2 * Pow2(14);
    assert Pow2(16) == 2 * Pow2(15);
    assert Pow2(17) == 2 * Pow2(16);
  }

  /** The value a check character stands for in MOD 11-2: 'X' (either case) is 10. */
  function CheckValue(c: char): int {
    if c == 'X' || c == 'x' then 10 else DigitValue(c)
  }

  predicate IsCheckChar(c: char) {
    IsDigit(c) || c == 'X' || c == 'x'
  }

  /**
   * The table entry at `sum % 11` is, ignoring case, exactly the character
   * whose value brings the sum to 1 modulo 11.
   */
  lemma CheckCharacterCompletesMod11_2(sum: nat, c: char)
    ensures EqualsIgnoreCase(c, VerifyCode[sum % 11]) <==> IsCheckChar(c) && (sum + CheckValue(c)) % 11 == 1
  {
    var r := sum % 11;
    CheckCharacterOfResidue(r, c);
    var v := CheckValue(c);
    assert sum + v == 11 * (sum / 11) + (r + v);
    ModuloOfMultiplePlus(sum / 11, r + v);
  }

  lemma ModuloOfMultiplePlus(q: int, x: int)
    ensures (11 * q + x) % 11 == x % 11
  {
  }

  /** The table entry at residue `r` is the character whose value brings `r` to 1 modulo 11. */
  lemma CheckCharacterOfResidue(r: int, c: char)
    requires 0 <= r < 11
    ensures EqualsIgnoreCase(c, VerifyCode[r]) <==> IsCheckChar(c) && (r + CheckValue(c)) % 11 == 1
  {
    VerifyCodeEntries();
  }

  /** The check characters, entry by entry. */
  lemma VerifyCodeEntries()
    ensures VerifyCode[0] == '1' && VerifyCode[1] == '0' && VerifyCode[2] == 'X' && VerifyCode[3] == '9'
    ensures VerifyCode[4] == '8' && VerifyCode[5] == '7' && VerifyCode[6] == '6' && VerifyCode[7] == '5'
    ensures VerifyCode[8] == '4' && VerifyCode[9] == '3' && VerifyCode[10] == '2'
  {
  }

  /** `validateCheckCode` is the MOD 11-2 acceptance test on 17 digits and a check character. */
  lemma ValidateCheckCodeIsMod11_2(idcard: string)
    requires |idcard| == 18
    ensures ValidateCheckCode(idcard) == Ok(true) <==>
      AllDigits(idcard[..17]) && IsCheckChar(idcard[17])
      && (WeightedSumTo(Values(idcard[..17]), Power, 17) + CheckValue(idcard[17])) % 11 == 1
  {
    if AllDigits(idcard[..17]) {
      CheckCodeOfDigits(idcard[..17]);
      CheckCharacterCompletesMod11_2(WeightedSumTo(Values(idcard[..17]), Power, 17), idcard[17]);
    }
  }

  lemma {:induction false} WeightedSumDifference(a: seq<int>, b: seq<int>, n: nat, k: nat)
    requires n <= |a| && n <= |b| && n <= |Power|
    requires forall i :: 0 <= i < n && i != k ==> a[i] == b[i]
    ensures WeightedSumTo(a, Power, n) - WeightedSumTo(b, Power, n) == if k < n then (a[k] - b[k]) * Power[k] else 0
  {
    if n > 0 {
      WeightedSumDifference(a, b, n - 1, k);
    }
  }

  lemma NotMultipleOf11(d: int, w: int)
    requires -9 <= d <= 9 && d != 0 && 1 <= w <= 10
    ensures (d * w) % 11 != 0
  {
    if w == 1 {} else if w == 2 {} else if w == 3 {} else if w == 4 {} else if w == 5 {}
    else if w == 6 {} else if w == 7 {} else if w == 8 {} else if w == 9 {} else {}
  }

  /** Sums that differ by a non-multiple of 11 select different check characters. */
  lemma DistinctResiduesDistinctCodes(sp: int, sq: int)
    requires sp >= 0 && sq >= 0 && (sp - sq) % 11 != 0
    ensures VerifyCode[sp % 11] != VerifyCode[sq % 11]
  {
    assert sp % 11 != sq % 11;
    assert forall i, j :: 0 <= i < j < 11 ==> VerifyCode[i] != VerifyCode[j];
  }

  /** Changing any one of the 17 digits always changes the check character. */
  lemma SingleSubstitutionDetected(p: string, q: string, k: nat)
    requires |p| == 17 && |q| == 17 && AllDigits(p) && AllDigits(q)
    requires k < 17 && p[k] != q[k]
    requires forall i :: 0 <= i < 17 && i != k ==> p[i] == q[i]
    ensures CheckCode(p) != CheckCode(q)
  {
    CheckCodeOfDigits(p);
    CheckCodeOfDigits(q);
    var sp := WeightedSumTo(Values(p), Power, 17);
    var sq := WeightedSumTo(Values(q), Power, 17);
    WeightedSumDifference(Values(p), Values(q), 17, k);
    var d := DigitValue(p[k]) - DigitValue(q[k]);
    NotMultipleOf11(d, Power[k]);
    assert (sp - sq) % 11 != 0;
    DistinctResiduesDistinctCodes(sp, sq);
  }

  /** Every key of the province table is two digits. */
  lemma CityCodeTable()
    ensures forall code :: code in CityCodes ==> |code| == 2 && AllDigits(code)
  {
  }

  // ---------------------------------------------------------------------
  // validate on 18-character numbers
  // ---------------------------------------------------------------------

  /** On 18 characters, `validate` holds exactly when region, birthday and check character are right; it never throws. */
  lemma Validate18Characterization(idcard: string, parseYear: YearParser, now: Moment)
    requires |idcard| == 18
    ensures Validate(Some(idcard), parseYear, now) == Ok(
      ValidateCityCode(idcard) && ValidateBirthday(idcard, now)
      && AllDigits(idcard[..17]) && EqualsIgnoreCase(idcard[17], CheckCode(idcard[..17]).value))
  {
  }

  /** Null, empty and wrong-length input is rejected without an exception. */
  lemma WrongLengthRejected(idcard: Option<string>, parseYear: YearParser, now: Moment)
    requires idcard.None? || (|idcard.value| != 15 && |idcard.value| != 18)
    ensures Validate(idcard, parseYear, now) == Ok(false)
  {
  }

  /** A region code outside the table rules the number out, whatever else it holds. */
  lemma UnknownRegionRejected(idcard: string, parseYear: YearParser, now: Moment)
    requires |idcard| >= 2 && idcard[..2] !in CityCodes
    ensures Validate(Some(idcard), parseYear, now) != Ok(true)
  {
    if |idcard| == 15 {
      if IsNumeric(idcard) && parseYear(idcard[6..12]).Some? {
        var idcard17 := Convert15Bit217Bit(idcard, parseYear).value;
        var idcard18 := idcard17 + [CheckCode(idcard17).value];
        assert idcard18[..2] == idcard[..2];
        assert Validate(Some(idcard), parseYear, now) == IsValidate18Idcard(idcard18, now);
      }
    } else {
      assert Validate(Some(idcard), parseYear, now) == IsValidate18Idcard(idcard, now);
    }
  }

  /** An impossible birth date, or one whose midnight is not before now, rules the number out. */
  lemma BadBirthdayRejected(idcard: string, parseYear: YearParser, now: Moment)
    requires |idcard| == 18
    requires GetBirthday(idcard).None? || !StartsBefore(GetBirthday(idcard).value, now)
    ensures Validate(Some(idcard), parseYear, now) == Ok(false)
  {
  }

  /** A character outside the first 17 that is not a digit rules the number out. */
  lemma NonNumericBodyRejected(idcard: string, parseYear: YearParser, now: Moment)
    requires |idcard| == 18 && !AllDigits(idcard[..17])
    ensures Validate(Some(idcard), parseYear, now) == Ok(false)
  {
  }

  /** An 18th character other than the computed one (ignoring case) rules the number out. */
  lemma WrongCheckCharacterRejected(idcard: string, parseYear: YearParser, now: Moment)
    requires |idcard| == 18 && AllDigits(idcard[..17])
    requires !EqualsIgnoreCase(idcard[17], CheckCode(idcard[..17]).value)
    ensures Validate(Some(idcard), parseYear, now) == Ok(false)
  {
  }

  /** Appending the computed check character to a body with a known region and a past birthday gives a valid number; 'x' serves for 'X'. */
  lemma RoundTrip(idcard17: string, parseYear: YearParser, now: Moment)
    requires |idcard17| == 17 && AllDigits(idcard17)
    requires idcard17[..2] in CityCodes
    requires ParseYyyyMMdd(idcard17[6..14]).Some? && StartsBefore(ParseYyyyMMdd(idcard17[6..14]).value, now)
    ensures Validate(Some(idcard17 + [CheckCode(idcard17).value]), parseYear, now) == Ok(true)
    ensures CheckCode(idcard17).value == 'X' ==> Validate(Some(idcard17 + ['x']), parseYear, now) == Ok(true)
  {
    var code := CheckCode(idcard17).value;
    var idcard := idcard17 + [code];
    assert idcard[..17] == idcard17 && idcard[..2] == idcard17[..2] && idcard[6..14] == idcard17[6..14];
    var lower := idcard17 + ['x'];
    assert lower[..17] == idcard17 && lower[..2] == idcard17[..2] && lower[6..14] == idcard17[6..14];
  }

  // ---------------------------------------------------------------------
  // 15-character numbers
  // ---------------------------------------------------------------------

  /** A non-numeric 15-character input expands to null, on which the length test throws. */
  lemma NonNumericFifteenThrows(idcard: string, parseYear: YearParser, now: Moment)
    requires |idcard| == 15 && !IsNumeric(idcard)
    ensures Validate(Some(idcard), parseYear, now) == Err(NullPointer)
  {
  }

  /** A birth fragment the date library cannot parse makes `validate` throw. */
  lemma UnparsableFragmentThrows(idcard: string, parseYear: YearParser, now: Moment)
    requires |idcard| == 15 && IsNumeric(idcard) && parseYear(idcard[6..12]).None?
    ensures Validate(Some(idcard), parseYear, now) == Err(DateParse)
  {
  }

  /**
   * With a four-digit year, the expansion keeps characters 0 to 5, inserts
   * the year, keeps characters 8 to 14 and appends their check character, so
   * it always passes the check-character test.
   */
  lemma ExpansionShape(idcard: string, parseYear: YearParser)
    requires |idcard| == 15 && IsNumeric(idcard)
    requires parseYear(idcard[6..12]).Some? && 1000 <= parseYear(idcard[6..12]).value <= 9999
    ensures Convert15Bit218Bit(idcard, parseYear).Ok?
    ensures Convert15Bit218Bit(idcard, parseYear).value.Some?
    ensures var t := Convert15Bit218Bit(idcard, parseYear).value.value;
      && |t| == 18
      && t[..6] == idcard[..6]
      && AllDigits(t[6..10]) && DecimalValue(t[6..10]) == parseYear(idcard[6..12]).value
      && t[10..17] == idcard[8..]
      && AllDigits(t[..17]) && t[17] == CheckCode(t[..17]).value
      && ValidateCheckCode(t) == Ok(true)
  {
    var year := parseYear(idcard[6..12]).value;
    NatToStringFourDigits(year);
    var idcard17 := idcard[..6] + NatToString(year) + idcard[8..];
    assert Convert15Bit217Bit(idcard, parseYear) == Ok(idcard17);
    assert forall i :: 0 <= i < 17 ==> IsDigit(idcard17[i]) by {
      forall i | 0 <= i < 17 ensures IsDigit(idcard17[i]) {
        if i < 6 { assert idcard17[i] == idcard[i]; }
        else if i < 10 { assert idcard17[i] == NatToString(year)[i - 6]; }
        else { assert idcard17[i] == idcard[i - 2]; }
      }
    }
    var t := idcard17 + [CheckCode(idcard17).value];
    assert t[..17] == idcard17;
    assert t[6..10] == NatToString(year);
  }

  /** `validate` of a 15-character number agrees with `validate` of its 18-character expansion. */
  lemma FifteenAgreesWithExpansion(idcard: string, parseYear: YearParser, now: Moment)
    requires |idcard| == 15 && IsNumeric(idcard)
    requires parseYear(idcard[6..12]).Some? && 1000 <= parseYear(idcard[6..12]).value <= 9999
    ensures Convert15Bit218Bit(idcard, parseYear).Ok? && Convert15Bit218Bit(idcard, parseYear).value.Some?
    ensures Validate(Some(idcard), parseYear, now) == Validate(Some(Convert15Bit218Bit(idcard, parseYear).value.value), parseYear, now)
  {
    ExpansionShape(idcard, parseYear);
  }

  // ---------------------------------------------------------------------
  // Worked examples
  // ---------------------------------------------------------------------

  /** The body 342401 19900401 234 has check character '0'. */
  lemma BodyCheckCode()
    ensures CheckCode("34240119900401234") == Ok('0')
  {
    var s := "34240119900401234";
    WeightedSumExpanded(Values(s));
    assert WeightedSumTo(Values(s), Power, 17) == 243;
  }

  /** 342401199004012340, the body above followed by '0', is valid once 1 April 1990 has begun. */
  lemma TrueIdcardExample(parseYear: YearParser, now: Moment)
    requires StartsBefore(Date(1990, 4, 1), now)
    ensures CheckCode("34240119900401234") == Ok('0')
    ensures Validate(Some("34240119900401234" + ['0']), parseYear, now) == Ok(true)
  {
    var body := "34240119900401234";
    assert AllDigits(body) && body[0] == '3' && body[1] == '4';
    AnhuiRegion(body);
    BodyCheckCode();
    TrueIdcardBirthday();
    RoundTrip(body, parseYear, now);
  }

  /** The birth date field of 34240119900401234 is 1 April 1990. */
  lemma TrueIdcardBirthday()
    ensures ParseYyyyMMdd("34240119900401234"[6..14]) == Some(Date(1990, 4, 1))
  {
    var field := "34240119900401234"[6..14];
    assert field == "19900401" && AllDigits(field);
    ParseDigits(field);
  }

  /** Region 34 (Anhui) is in the table. */
  lemma AnhuiRegion(idcard: string)
    requires |idcard| >= 2 && idcard[0] == '3' && idcard[1] == '4'
    ensures idcard[..2] in CityCodes
  {
    assert idcard[..2] == "34";
  }

  /** Region 38 is not in the table, so 382322 19900412 234 is rejected whatever its check character. */
  lemma FalseCityCodeExample(check: char, parseYear: YearParser, now: Moment)
    ensures Validate(Some("38232219900412234" + [check]), parseYear, now) == Ok(false)
  {
    var id := "38232219900412234" + [check];
    assert id[..2] == "38";
    UnknownRegionRejected(id, parseYear, now);
  }

  /** Day 66 does not exist, so 342401 19900466 234 is rejected whatever its check character. */
  lemma FalseDateExample(check: char, parseYear: YearParser, now: Moment)
    ensures Validate(Some("34240119900466234" + [check]), parseYear, now) == Ok(false)
  {
    var id := "34240119900466234" + [check];
    assert id[6..14] == "19900466";
    DayBeyondMonthRejected();
    BadBirthdayRejected(id, parseYear, now);
  }

  /** A birthday on 1 April 2090 is rejected, whatever the check character, at any instant up to that day's midnight. */
  lemma FalseUnbornExample(check: char, parseYear: YearParser, now: Moment)
    requires !StartsBefore(Date(2090, 4, 1), now)
    ensures Validate(Some("34240120900401234" + [check]), parseYear, now) == Ok(false)
  {
    var field := "20900401";
    assert AllDigits(field);
    ParseDigits(field);
    var id := "34240120900401234" + [check];
    assert id[6..14] == field;
    BadBirthdayRejected(id, parseYear, now);
  }

  /** The expanded body 342401 19900714 192 has check character '2'. */
  lemma ExpandedBodyCheckCode()
    ensures CheckCode("34240119900714192") == Ok('2')
  {
    var s := "34240119900714192";
    WeightedSumExpanded(Values(s));
    assert WeightedSumTo(Values(s), Power, 17) == 307;
  }

  /** `String.valueOf(1990)`. */
  lemma YearText()
    ensures NatToString(1990) == "1990"
  {
    assert DigitChar(1) == '1' && DigitChar(9) == '9' && DigitChar(0) == '0';
    assert NatToString(1) == "1";
    assert NatToString(19) == NatToString(1) + "9" == "19";
    assert NatToString(199) == NatToString(19) + "9" == "199";
    assert NatToString(1990) == NatToString(199) + "0" == "1990";
  }

  /** With the library reading "900714" as 1990, 342401900714192 widens to the body 34240119900714192. */
  lemma True15IdcardBody(parseYear: YearParser)
    requires parseYear("900714") == Some(1990)
    ensures Convert15Bit217Bit("342401900714192", parseYear) == Ok("34240119900714192")
  {
    var idcard := "342401900714192";
    assert idcard[6..12] == "900714";
    YearText();
    assert idcard[..6] + NatToString(1990) + idcard[8..] == "34240119900714192";
  }

  /** With the library reading "900714" as 1990, 342401900714192 expands to 342401199007141922. */
  lemma True15IdcardExpansion(parseYear: YearParser)
    requires parseYear("900714") == Some(1990)
    ensures Convert15Bit218Bit("342401900714192", parseYear) == Ok(Some("34240119900714192" + ['2']))
  {
    assert IsNumeric("342401900714192");
    True15IdcardBody(parseYear);
    ExpandedBodyCheckCode();
  }

  /** The birth date field of the expanded body 34240119900714192 is 14 July 1990. */
  lemma ExpandedBirthday()
    ensures ParseYyyyMMdd("34240119900714192"[6..14]) == Some(Date(1990, 7, 14))
  {
    var field := "34240119900714192"[6..14];
    assert field == "19900714" && AllDigits(field);
    ParseDigits(field);
  }

  /** The expansion 342401199007141922 passes every 18-character test once 14 July 1990 has begun. */
  lemma ExpandedIdcardValid(parseYear: YearParser, now: Moment)
    requires StartsBefore(Date(1990, 7, 14), now)
    ensures IsValidate18Idcard("34240119900714192" + ['2'], now) == Ok(true)
  {
    var body := "34240119900714192";
    assert AllDigits(body) && body[0] == '3' && body[1] == '4';
    AnhuiRegion(body);
    ExpandedBodyCheckCode();
    ExpandedBirthday();
    RoundTrip(body, parseYear, now);
    assert |body + ['2']| == 18;
  }

  /** The legacy number 342401900714192 is valid once 14 July 1990 has begun, when the library reads "900714" as 1990. */
  lemma True15IdcardExample(parseYear: YearParser, now: Moment)
    requires parseYear("900714") == Some(1990)
    requires StartsBefore(Date(1990, 7, 14), now)
    ensures Validate(Some("342401900714192"), parseYear, now) == Ok(true)
  {
    True15IdcardExpansion(parseYear);
    ExpandedIdcardValid(parseYear, now);
  }
}
