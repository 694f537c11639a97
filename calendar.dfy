/**
 * Calendar dates as the identity-card validator uses them: a strict
 * (non-lenient) `yyyyMMdd` parse on the proleptic Gregorian calendar, and the
 * current instant, which the validator compares a birthday against.
 */
module Calendar {
  import opened Wrappers
  import opened Numeric

  datatype Date = Date(year: int, month: int, day: int)

  /** The current instant: a local calendar date and the milliseconds elapsed since its midnight. */
  datatype Moment = Moment(date: Date, millisOfDay: nat)

  predicate IsLeapYear(y: int) {
    (y % 4 == 0 && y % 100 != 0) || y % 400 == 0
  }

  function DaysInMonth(y: int, m: int): (n: int)
    requires 1 <= m <= 12
    ensures 28 <= n <= 31
    ensures n == 29 <==> m == 2 && IsLeapYear(y)
  {
    if m == 2 then (if IsLeapYear(y) then 29 else 28)
    else if m == 4 || m == 6 || m == 9 || m == 11 then 30
    else 31
  }

  /** A real date: years start at 1 (there is no year 0), months 1 to 12, days within the month. */
  predicate IsValidDate(d: Date) {
    1 <= d.year && 1 <= d.month <= 12 && 1 <= d.day <= DaysInMonth(d.year, d.month)
  }

  /** Strict chronological order on dates. */
  predicate Precedes(a: Date, b: Date) {
    a.year < b.year
    || (a.year == b.year && a.month < b.month)
    || (a.year == b.year && a.month == b.month && a.day < b.day)
  }

  /** `birthday.before(now)`, where the parsed birthday is midnight at the start of day `d`. */
  predicate StartsBefore(d: Date, now: Moment) {
    Precedes(d, now.date) || (d == now.date && now.millisOfDay > 0)
  }

  /**
   * The strict `yyyyMMdd` parse of an eight-character field: four digits of
   * year, two of month, two of day, and the date they name must exist.
   */
  function ParseYyyyMMdd(s: string): (r: Option<Date>)
    requires |s| == 8
    ensures r.Some? ==> IsValidDate(r.value) && r.value.year <= 9999
  {
    if !AllDigits(s) then None
    else
      var d := Date(DecimalValue(s[..4]), DecimalValue(s[4..6]), DecimalValue(s[6..]));
      if IsValidDate(d) then Some(d) else None
  }

  /** The inverse of the parse: a date written as `yyyyMMdd` with leading zeros. */
  function FormatYyyyMMdd(d: Date): (s: string)
    requires 0 <= d.year <= 9999 && 0 <= d.month <= 99 && 0 <= d.day <= 99
    ensures |s| == 8 && AllDigits(s)
  {
    PadDigits(d.year, 4) + PadDigits(d.month, 2) + PadDigits(d.day, 2)
  }

  /** Every date of years 1 to 9999 survives formatting and parsing. */
  lemma ParseFormat(d: Date)
    requires IsValidDate(d) && d.year <= 9999
    ensures ParseYyyyMMdd(FormatYyyyMMdd(d)) == Some(d)
  {
    var s := FormatYyyyMMdd(d);
    assert s[..4] == PadDigits(d.year, 4);
    assert s[4..6] == PadDigits(d.month, 2);
    assert s[6..] == PadDigits(d.day, 2);
  }

  /** Whatever the parse accepts is exactly the formatting of the date it returns. */
  lemma FormatParse(s: string)
    requires |s| == 8 && ParseYyyyMMdd(s).Some?
    ensures FormatYyyyMMdd(ParseYyyyMMdd(s).value) == s
  {
    PadDecimalValue(s[..4]);
    PadDecimalValue(s[4..6]);
    PadDecimalValue(s[6..]);
    assert s == s[..4] + s[4..6] + s[6..];
  }

  /** The parse of eight digits, with the value of each field written out digit by digit. */
  lemma ParseDigits(s: string)
    requires |s| == 8 && AllDigits(s)
    ensures ParseYyyyMMdd(s) ==
      var d := Date(1000 * DigitValue(s[0]) + 100 * DigitValue(s[1]) + 10 * DigitValue(s[2]) + DigitValue(s[3]),
                    10 * DigitValue(s[4]) + DigitValue(s[5]),
                    10 * DigitValue(s[6]) + DigitValue(s[7]));
      if IsValidDate(d) then Some(d) else None
  {
    assert s[..4] == [s[0], s[1], s[2], s[3]] && s[4..6] == [s[4], s[5]] && s[6..] == [s[6], s[7]];
    DecimalValueOfFields(s[0], s[1], s[2], s[3]);
    DecimalValueOfFields(s[0], s[1], s[4], s[5]);
    DecimalValueOfFields(s[0], s[1], s[6], s[7]);
  }

  /** A day number beyond the month, such as day 66, never parses; 29 February only in a leap year. */
  lemma ImpossibleDayRejected()
    ensures ParseYyyyMMdd("19900466") == None
    ensures ParseYyyyMMdd("19900229") == None
    ensures ParseYyyyMMdd("20000229") == Some(Date(2000, 2, 29))
  {
    DayBeyondMonthRejected();
    NonLeapFebruary29Rejected();
    LeapFebruary29Accepted();
  }

  lemma DayBeyondMonthRejected()
    ensures ParseYyyyMMdd("19900466") == None
  {
    var s := "19900466";
    assert AllDigits(s);
    ParseDigits(s);
  }

  lemma NonLeapFebruary29Rejected()
    ensures ParseYyyyMMdd("19900229") == None
  {
    var s := "19900229";
    assert AllDigits(s);
    ParseDigits(s);
  }

  lemma LeapFebruary29Accepted()
    ensures ParseYyyyMMdd("20000229") == Some(Date(2000, 2, 29))
  {
    var s := "20000229";
    assert AllDigits(s);
    ParseDigits(s);
  }
}
