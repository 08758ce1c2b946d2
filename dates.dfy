/**
 * Calendar dates as pandas sees them after `pd.to_datetime`: a
 * proleptic-Gregorian (year, month, day) with a day number for ordering and
 * for the `.dt.days` of a difference, the `strftime` renderings the
 * pipeline uses (`%Y-%m-%d`, `%Y-%m`, `%Y%m%d_%H%M%S`) and the ISO form
 * it reads back.
 */
module Dates {
  import opened Wrappers
  import opened Text

  datatype Date = Date(year: int, month: int, day: int)

  predicate IsLeapYear(y: int) {
    y % 4 == 0 && (y % 100 != 0 || y % 400 == 0)
  }

  function DaysInYear(y: int): int {
    if IsLeapYear(y) then 366 else 365
  }

  function DaysInMonth(y: int, m: int): int
    requires 1 <= m <= 12
  {
    if m == 2 then (if IsLeapYear(y) then 29 else 28)
    else if m == 4 || m == 6 || m == 9 || m == 11 then 30
    else 31
  }

  /** A real calendar date with a four-digit year. */
  predicate ValidDate(d: Date) {
    1 <= d.year <= 9999 && 1 <= d.month <= 12 && 1 <= d.day <= DaysInMonth(d.year, d.month)
  }

  /** A date as pandas holds it once parsed (a `Timestamp`, never `NaT`). */
  type CalendarDate = d: Date | ValidDate(d) witness Date(1, 1, 1)

  function DaysBeforeYear(y: int): int
    requires y >= 1
  {
    var p := y - 1;
    365 * p + p / 4 - p / 100 + p / 400
  }

  function DaysBeforeMonth(y: int, m: int): int
    requires 1 <= m <= 12
  {
    [0, 31, 59, 90, 120, 151, 181, 212, 243, 273, 304, 334][m - 1]
    + (if m > 2 && IsLeapYear(y) then 1 else 0)
  }

  /** Days elapsed since 0001-01-01, the scale on which pandas compares and subtracts dates. */
  function DayNumber(d: Date): int
    requires ValidDate(d)
  {
    DaysBeforeYear(d.year) + DaysBeforeMonth(d.year, d.month) + d.day - 1
  }

  /** Calendar order: by year, then month, then day. */
  predicate Before(d1: Date, d2: Date) {
    d1.year < d2.year
    || (d1.year == d2.year && d1.month < d2.month)
    || (d1.year == d2.year && d1.month == d2.month && d1.day < d2.day)
  }

  lemma YearLength(y: int)
    requires y >= 1
    ensures DaysBeforeYear(y + 1) == DaysBeforeYear(y) + DaysInYear(y)
  {
    var p := y - 1;
    assert (p + 1) / 4 == p / 4 + (if y % 4 == 0 then 1 else 0);
    assert (p + 1) / 100 == p / 100 + (if y % 100 == 0 then 1 else 0);
    assert (p + 1) / 400 == p / 400 + (if y % 400 == 0 then 1 else 0);
  }

  lemma {:induction false} YearsMonotone(y1: int, y2: int)
    requires 1 <= y1 < y2
    ensures DaysBeforeYear(y1) + DaysInYear(y1) <= DaysBeforeYear(y2)
    decreases y2 - y1
  {
    YearLength(y1);
    if y1 + 1 < y2 {
      YearsMonotone(y1 + 1, y2);
    }
  }

  lemma MonthStep(y: int, m: int)
    requires 1 <= m < 12
    ensures DaysBeforeMonth(y, m + 1) == DaysBeforeMonth(y, m) + DaysInMonth(y, m)
  {
  }

  lemma {:induction false} MonthsMonotone(y: int, m1: int, m2: int)
    requires 1 <= m1 < m2 <= 12
    ensures DaysBeforeMonth(y, m1) + DaysInMonth(y, m1) <= DaysBeforeMonth(y, m2)
    decreases m2 - m1
  {
    MonthStep(y, m1);
    if m1 + 1 < m2 {
      MonthsMonotone(y, m1 + 1, m2);
      assert DaysInMonth(y, m1 + 1) >= 0;
    }
  }

  lemma DaysOfYearFit(d: Date)
    requires ValidDate(d)
    ensures DaysBeforeMonth(d.year, d.month) + d.day <= DaysInYear(d.year)
  {
  }

  /** The day number is strictly increasing in calendar order, so sorting by it is sorting by date. */
  lemma DayNumberMonotone(d1: Date, d2: Date)
    requires ValidDate(d1) && ValidDate(d2) && Before(d1, d2)
    ensures DayNumber(d1) < DayNumber(d2)
  {
    if d1.year < d2.year {
      DaysOfYearFit(d1);
      YearsMonotone(d1.year, d2.year);
    } else if d1.month < d2.month {
      MonthsMonotone(d1.year, d1.month, d2.month);
    }
  }

  /** Every four-digit-year date numbers below the first day of year 10000. */
  lemma DayNumberBound(d: Date)
    requires ValidDate(d)
    ensures 0 <= DayNumber(d) < DaysBeforeYear(10000)
  {
    DaysOfYearFit(d);
    if d.year < 10000 - 1 {
      YearsMonotone(d.year, 10000);
    } else {
      YearLength(d.year);
    }
  }

  // ---------------------------------------------------------------------
  // Renderings and the ISO reading
  // ---------------------------------------------------------------------

  /** `strftime('%Y-%m-%d')`. */
  function FormatIsoDate(d: Date): string
    requires ValidDate(d)
  {
    PadDigits(d.year, 4) + "-" + PadDigits(d.month, 2) + "-" + PadDigits(d.day, 2)
  }

  /** `strftime('%Y-%m')`, the `year_month` key. */
  function FormatYearMonth(d: Date): string
    requires ValidDate(d)
  {
    PadDigits(d.year, 4) + "-" + PadDigits(d.month, 2)
  }

  /** `strftime('%Y%m%d')`, the stamp in report file names. */
  function FormatCompactDate(d: Date): string
    requires ValidDate(d)
  {
    PadDigits(d.year, 4) + PadDigits(d.month, 2) + PadDigits(d.day, 2)
  }

  /** `strftime('%Y%m%d_%H%M%S')`, the stamp in downloaded file names. */
  function FormatTimestamp(d: Date, hour: nat, minute: nat, second: nat): string
    requires ValidDate(d) && hour < 24 && minute < 60 && second < 60
  {
    FormatCompactDate(d) + "_" + PadDigits(hour, 2) + PadDigits(minute, 2) + PadDigits(second, 2)
  }

  /** Reads `YYYY-MM-DD`; anything else, or an impossible date, is `None`. */
  function ParseIsoDate(s: string): (r: Option<Date>)
    ensures r.Some? ==> ValidDate(r.value)
  {
    if |s| == 10 && s[4] == '-' && s[7] == '-'
       && AllDigits(s[..4]) && AllDigits(s[5..7]) && AllDigits(s[8..])
    then
      var d := Date(DigitsValue(s[..4]), DigitsValue(s[5..7]), DigitsValue(s[8..]));
      if ValidDate(d) then Some(d) else None
    else None
  }

  /** Every valid date is read back from its ISO rendering. */
  lemma FormatThenParse(d: Date)
    requires ValidDate(d)
    ensures ParseIsoDate(FormatIsoDate(d)) == Some(d)
  {
    var y, m, dd := PadDigits(d.year, 4), PadDigits(d.month, 2), PadDigits(d.day, 2);
    var s := FormatIsoDate(d);
    assert s == y + "-" + m + "-" + dd;
    assert s[..4] == y && s[5..7] == m && s[8..] == dd;
    assert s[4] == '-' && s[7] == '-';
    assert Pow10(2) == 100 && Pow10(4) == 10000;
    PadDigitsValue(d.year, 4);
    PadDigitsValue(d.month, 2);
    PadDigitsValue(d.day, 2);
  }

  /**
   * The first and last midnights a nanosecond `Timestamp` can hold: the
   * `int64` nanoseconds around 1970-01-01 reach from 1677-09-21 00:12:43
   * to 2262-04-11 23:47:16.
   */
  const TimestampMin := Date(1677, 9, 22)
  const TimestampMax := Date(2262, 4, 11)

  predicate InTimestampRange(d: Date) {
    !Before(d, TimestampMin) && !Before(TimestampMax, d)
  }

  /**
   * `pd.to_datetime` of a non-empty text: its ISO reading, which raises
   * `OutOfBoundsDatetime` (`None` here) for a date a `Timestamp` cannot hold.
   */
  function ToTimestamp(s: string): (r: Option<Date>)
    ensures r.Some? ==> ValidDate(r.value) && InTimestampRange(r.value)
  {
    match ParseIsoDate(s)
    case Some(d) => if InTimestampRange(d) then Some(d) else None
    case None => None
  }

  /** A text converts exactly when it reads as an ISO date a `Timestamp` can hold, and then to that date. */
  lemma ToTimestampIff(s: string)
    ensures ToTimestamp(s).Some? <==> ParseIsoDate(s).Some? && InTimestampRange(ParseIsoDate(s).value)
    ensures ToTimestamp(s).Some? ==> ToTimestamp(s) == ParseIsoDate(s)
  {
  }

  /** Every date a `Timestamp` holds converts back from its ISO rendering. */
  lemma FormatThenTimestamp(d: Date)
    requires ValidDate(d) && InTimestampRange(d)
    ensures ToTimestamp(FormatIsoDate(d)) == Some(d)
  {
    FormatThenParse(d);
  }

  /** A well-formed ISO date before the `Timestamp` range, 1600-01-01, does not convert. */
  lemma OutOfBoundsDate()
    ensures ParseIsoDate("1600-01-01") == Some(Date(1600, 1, 1))
    ensures ToTimestamp("1600-01-01").None?
  {
    var s := "1600-01-01";
    assert s[..4] == "1600" && s[5..7] == "01" && s[8..] == "01";
    DigitsOfYear();
    DigitsOfOne();
  }

  lemma DigitsOfYear()
    ensures AllDigits("1600") && DigitsValue("1600") == 1600
  {
    DigitsValueSnoc("", '1');
    DigitsValueSnoc("1", '6');
    DigitsValueSnoc("16", '0');
    DigitsValueSnoc("160", '0');
    assert "" + ['1'] == "1" && "1" + ['6'] == "16" && "16" + ['0'] == "160" && "160" + ['0'] == "1600";
  }

  lemma DigitsOfOne()
    ensures AllDigits("01") && DigitsValue("01") == 1
  {
    DigitsValueSnoc("", '0');
    DigitsValueSnoc("0", '1');
    assert "" + ['0'] == "0" && "0" + ['1'] == "01";
  }

  /** A string that reads as a date is exactly that date's ISO rendering. */
  lemma ParseThenFormat(s: string)
    requires ParseIsoDate(s).Some?
    ensures FormatIsoDate(ParseIsoDate(s).value) == s
  {
    PadDigitsOfValue(s[..4]);
    PadDigitsOfValue(s[5..7]);
    PadDigitsOfValue(s[8..]);
    assert s == s[..4] + "-" + s[5..7] + "-" + s[8..];
  }

  /** The `year_month` key is the first seven characters of the ISO date it came from. */
  lemma YearMonthIsIsoPrefix(s: string)
    requires ParseIsoDate(s).Some?
    ensures FormatYearMonth(ParseIsoDate(s).value) == s[..7]
  {
    var d := ParseIsoDate(s).value;
    ParseThenFormat(s);
    assert FormatIsoDate(d)[..7] == FormatYearMonth(d);
  }

  /** `year_month` has the shape `YYYY-MM`. */
  lemma YearMonthShape(d: Date)
    requires ValidDate(d)
    ensures var k := FormatYearMonth(d);
      |k| == 7 && k[4] == '-' && AllDigits(k[..4]) && AllDigits(k[5..])
      && DigitsValue(k[..4]) == d.year && DigitsValue(k[5..]) == d.month
  {
    var k := FormatYearMonth(d);
    assert k[..4] == PadDigits(d.year, 4);
    assert k[5..] == PadDigits(d.month, 2);
    PadDigitsValue(d.year, 4);
    PadDigitsValue(d.month, 2);
  }

  /** Two dates share a `year_month` key exactly when they share year and month. */
  lemma YearMonthKeyIff(d1: Date, d2: Date)
    requires ValidDate(d1) && ValidDate(d2)
    ensures FormatYearMonth(d1) == FormatYearMonth(d2) <==> (d1.year == d2.year && d1.month == d2.month)
  {
    YearMonthShape(d1);
    YearMonthShape(d2);
    var k1, k2 := FormatYearMonth(d1), FormatYearMonth(d2);
    if k1 == k2 {
      assert k1[..4] == k2[..4] && k1[5..] == k2[5..];
    }
  }
}
