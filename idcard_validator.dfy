/**
 * The identity-card validator. An 18-character number is six characters of
 * region code, eight of birth date (`yyyyMMdd`), three of sequence number and
 * one check character; a legacy 15-character number has a two-digit year and
 * no check character and is first expanded to the 18-character form.
 */
module IdcardValidator {
  import opened Wrappers
  import opened Numeric
  import opened Calendar

  /** The Java exceptions that can escape `validate` or `getCheckCode`. */
  datatype Exception = NullPointer | DateParse | IndexOutOfBounds

  /**
   * The date library's `yyMMdd` parse, reduced to what the validator keeps
   * of it: the calendar year of the parsed date (the two-digit year expanded
   * by the library's century rule), or `None` when the parse throws.
   */
  type YearParser = string -> Option<nat>

  /** The weight of each of the first 17 characters. */
  const Power: seq<int> := [7, 9, 10, 5, 8, 4, 2, 1, 6, 3, 7, 9, 10, 5, 8, 4, 2]

  /** The check character for each value of the weighted sum modulo 11. */
  const VerifyCode: seq<char> := ['1', '0', 'X', '9', '8', '7', '6', '5', '4', '3', '2']

  /** The keys of the province table; the region names play no part in validation. */
  const CityCodes: set<string> := {
    "11", "12", "13", "14", "15",
    "21", "22", "23",
    "31", "32", "33", "34", "35", "36", "37",
    "41", "42", "43", "44", "45", "46",
    "50", "51", "52", "53", "54",
    "61", "62", "63", "64", "65",
    "71",
    "81", "82",
    "91"
  }

  // ---------------------------------------------------------------------
  // Check character
  // ---------------------------------------------------------------------

  /** `c - '0'` for every character, as `converCharToInt` stores it. */
  function Values(chs: seq<char>): seq<int> {
    seq(|chs|, i requires 0 <= i < |chs| => DigitValue(chs[i]))
  }

  /** The sum of `bits[i] * weights[i]` over the first `n` positions. */
  function WeightedSumTo(bits: seq<int>, weights: seq<int>, n: nat): int
    requires n <= |bits| && n <= |weights|
  {
    if n == 0 then 0 else WeightedSumTo(bits, weights, n - 1) + bits[n - 1] * weights[n - 1]
  }

  /**
   * `getCheckCode`: the weighted sum of the 17 values (0 when the input is
   * not 17 characters long) indexes the check-character table through Java's
   * `%`. A negative sum, which only characters below '0' can produce, gives a
   * negative remainder and so an array index out of bounds, unless it is a
   * multiple of 11: then the remainder is 0 and the character is '1'.
   */
  function CheckCode(idcard17: string): (r: Result<char, Exception>)
    ensures AllDigits(idcard17) ==> r.Ok?
    ensures r.Err? <==> |idcard17| == 17 && WeightedSumTo(Values(idcard17), Power, 17) < 0
                        && WeightedSumTo(Values(idcard17), Power, 17) % 11 != 0
    ensures r.Ok? ==> r.value in VerifyCode
  {
    DigitsHaveNonNegativeSum(idcard17);
    var bits := Values(idcard17);
    var sum17 := if |bits| == |Power| then WeightedSumTo(bits, Power, |bits|) else 0;
    var index := JavaRem(sum17, |VerifyCode|);
    if index >= 0 then Ok(VerifyCode[index]) else Err(IndexOutOfBounds)
  }

  lemma {:induction false} WeightedSumNonNegative(bits: seq<int>, weights: seq<int>, n: nat)
    requires n <= |bits| && n <= |weights|
    requires forall i :: 0 <= i < n ==> bits[i] >= 0 && weights[i] >= 0
    ensures WeightedSumTo(bits, weights, n) >= 0
  {
    if n > 0 {
      WeightedSumNonNegative(bits, weights, n - 1);
    }
  }

  lemma DigitsHaveNonNegativeSum(s: string)
    ensures AllDigits(s) && |s| == |Power| ==> WeightedSumTo(Values(s), Power, |s|) >= 0
  {
    if AllDigits(s) && |s| == |Power| {
      WeightedSumNonNegative(Values(s), Power, |s|);
    }
  }

  /** `converCharToInt`: a new int array holding `c - '0'` for every character. */
  method ConvertCharToInt(chArray: array<char>) returns (intArray: array<int>)
    ensures fresh(intArray)
    ensures intArray[..] == Values(chArray[..])
  {
    intArray := new int[chArray.Length];
    for i := 0 to chArray.Length
      invariant forall j :: 0 <= j < i ==> intArray[j] == DigitValue(chArray[j])
    {
      intArray[i] := DigitValue(chArray[i]);
    }
  }

  /** `getPowerSum`: the weighted sum of 17 values, and 0 for any other number of values. */
  method GetPowerSum(bit: array<int>) returns (sum: int)
    ensures sum == if bit.Length == |Power| then WeightedSumTo(bit[..], Power, |Power|) else 0
  {
    sum := 0;
    if |Power| != bit.Length {
      return;
    }
    for i := 0 to bit.Length
      invariant sum == WeightedSumTo(bit[..], Power, i)
    {
      sum := sum + bit[i] * Power[i];
    }
  }

  /** The public `getCheckCode`, computed through the character and int arrays. */
  method GetCheckCode(idcard17: string) returns (checkCode: Result<char, Exception>)
    ensures checkCode == CheckCode(idcard17)
  {
    var chs := new char[|idcard17|](i requires 0 <= i < |idcard17| => idcard17[i]);
    assert chs[..] == idcard17;
    var bit := ConvertCharToInt(chs);
    var sum17 := GetPowerSum(bit);
    var index := JavaRem(sum17, |VerifyCode|);
    if index < 0 {
      checkCode := Err(IndexOutOfBounds);
    } else {
      checkCode := Ok(VerifyCode[index]);
    }
  }

  // ---------------------------------------------------------------------
  // The three checks on an 18-character number
  // ---------------------------------------------------------------------

  /** `validateCityCode`: the first two characters are a key of the province table. */
  predicate ValidateCityCode(idcard: string)
    requires |idcard| >= 2
  {
    idcard[..2] in CityCodes
  }

  /** `getBirthday`: the strict `yyyyMMdd` parse of characters 6 to 13. */
  function GetBirthday(idcard: string): Option<Date>
    requires |idcard| >= 14
  {
    ParseYyyyMMdd(idcard[6..14])
  }

  /** `validateBirthday`: the birthday parses and its midnight is before now. */
  predicate ValidateBirthday(idcard: string, now: Moment)
    requires |idcard| >= 14
  {
    var birthday := GetBirthday(idcard);
    birthday.Some? && StartsBefore(birthday.value, now)
  }

  function ToUpperAscii(c: char): char {
    if 'a' <= c <= 'z' then (c as int - 32) as char else c
  }

  /** `String.equalsIgnoreCase` on two one-character strings (ASCII case folding). */
  predicate EqualsIgnoreCase(a: char, b: char) {
    a == b || ToUpperAscii(a) == ToUpperAscii(b)
  }

  /** `validateCheckCode`: the first 17 characters are numeric and the 18th matches their check character. */
  function ValidateCheckCode(idcard: string): (r: Result<bool, Exception>)
    requires |idcard| == 18
    ensures r.Ok?
    ensures r == Ok(true) ==> AllDigits(idcard[..17]) && EqualsIgnoreCase(idcard[17], CheckCode(idcard[..17]).value)
  {
    var idcard17 := idcard[..17];
    if !IsNumeric(idcard17) then Ok(false)
    else
      match CheckCode(idcard17)
      case Err(e) => Err(e)
      case Ok(checkCode) => Ok(EqualsIgnoreCase(idcard[17], checkCode))
  }

  /** `isValidate18Idcard`: length 18, then region, birthday and check character, in that order. */
  function IsValidate18Idcard(idcard: string, now: Moment): (r: Result<bool, Exception>)
    ensures r.Ok?
    ensures r == Ok(true) ==> |idcard| == 18 && ValidateCityCode(idcard) && ValidateBirthday(idcard, now)
  {
    if |idcard| != 18 then Ok(false)
    else if !ValidateCityCode(idcard) then Ok(false)
    else if !ValidateBirthday(idcard, now) then Ok(false)
    else ValidateCheckCode(idcard)
  }

  // ---------------------------------------------------------------------
  // Legacy 15-character numbers
  // ---------------------------------------------------------------------

  /** `convert15Bit217Bit`: region prefix, the parsed four-digit year, then characters 8 to 14. */
  function Convert15Bit217Bit(idcard: string, parseYear: YearParser): (r: Result<string, Exception>)
    requires |idcard| == 15
    ensures r.Err? <==> parseYear(idcard[6..12]).None?
    ensures r.Err? ==> r.error == DateParse
  {
    match parseYear(idcard[6..12])
    case None => Err(DateParse)
    case Some(year) => Ok(idcard[..6] + NatToString(year) + idcard[8..])
  }

  /** `convert15Bit218Bit`: `None` (Java null) for non-numeric input, else the 17 characters and their check character. */
  function Convert15Bit218Bit(idcard: string, parseYear: YearParser): (r: Result<Option<string>, Exception>)
    requires |idcard| == 15
    ensures r == Ok(None) <==> !IsNumeric(idcard)
    ensures r.Err? ==> r.error == DateParse
  {
    if !IsNumeric(idcard) then Ok(None)
    else
      match Convert15Bit217Bit(idcard, parseYear)
      case Err(e) => Err(e)
      case Ok(idcard17) =>
        match CheckCode(idcard17)
        case Err(e) => Err(e)
        case Ok(checkCode) => Ok(Some(idcard17 + [checkCode]))
  }

  /**
   * `validate`: null and empty input are rejected; a 15-character input is
   * expanded first (a null expansion makes the length test throw); the
   * result must pass `isValidate18Idcard`.
   */
  function Validate(idcard: Option<string>, parseYear: YearParser, now: Moment): (r: Result<bool, Exception>)
    ensures r.Err? ==> idcard.Some? && |idcard.value| == 15
    ensures r == Ok(true) ==> idcard.Some? && (|idcard.value| == 15 || |idcard.value| == 18)
  {
    if idcard.None? || |idcard.value| == 0 then Ok(false)
    else if |idcard.value| == 15 then
      match Convert15Bit218Bit(idcard.value, parseYear)
      case Err(e) => Err(e)
      case Ok(None) => Err(NullPointer)
      case Ok(Some(idcard18)) => IsValidate18Idcard(idcard18, now)
    else IsValidate18Idcard(idcard.value, now)
  }
}
