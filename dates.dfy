/**
 * Proleptic Gregorian dates and clock times, their `%Y-%m-%d` and `%H:%M:%S`
 * renderings, and the two rules that attribute a timestamp to a calendar date.
 */
module Dates {
  import opened Wrappers
  import opened Text

  datatype Date = Date(year: int, month: int, day: int)
  datatype Time = Time(hour: int, minute: int, second: int)
  /** A naive local timestamp; sub-second parts are not represented. */
  datatype DateTime = DateTime(date: Date, time: Time)

  /** The whole years inside the range of a nanosecond pandas Timestamp (1677-09-21 .. 2262-04-11). */
  const MinTimestampYear := 1678
  const MaxTimestampYear := 2261

  /** The default of the `noon_cutoff` parameter. */
  const DefaultNoonCutoff := 12

  predicate IsLeapYear(y: int)
  {
    y % 4 == 0 && (y % 100 != 0 || y % 400 == 0)
  }

  function DaysInMonth(y: int, m: int): int
    requires 1 <= m <= 12
  {
    if m == 2 then (if IsLeapYear(y) then 29 else 28)
    else if m == 4 || m == 6 || m == 9 || m == 11 then 30
    else 31
  }

  function DaysInYear(y: int): int
  {
    if IsLeapYear(y) then 366 else 365
  }

  /** Python's `datetime.date` range: years 1..9999. */
  predicate ValidDate(d: Date)
  {
    1 <= d.year <= 9999 && 1 <= d.month <= 12 && 1 <= d.day <= DaysInMonth(d.year, d.month)
  }

  predicate ValidTime(t: Time)
  {
    0 <= t.hour < 24 && 0 <= t.minute < 60 && 0 <= t.second < 60
  }

  predicate ValidDateTime(t: DateTime)
  {
    ValidDate(t.date) && MinTimestampYear <= t.date.year <= MaxTimestampYear && ValidTime(t.time)
  }

  /** Days in the years before `y`, counted from 1 January of year 1. */
  function DaysBeforeYear(y: int): (n: int)
    requires y >= 1
    ensures n >= 0
  {
    var p := y - 1;
    365 * p + p / 4 - p / 100 + p / 400
  }

  /** The divisors of the leap-year rule. */
  predicate LeapDivisor(k: int)
  {
    k == 4 || k == 100 || k == 400
  }

  /** Quotient and remainder are determined by any decomposition `y == k * q + r` with `0 <= r < k`. */
  lemma DivModUnique(y: int, k: int, q: int, r: int)
    requires LeapDivisor(k) && y == k * q + r && 0 <= r < k
    ensures y / k == q && y % k == r
  {
    if k == 4 {
      assert y == 4 * q + r;
    } else if k == 100 {
      assert y == 100 * q + r;
    } else {
      assert y == 400 * q + r;
    }
  }

  /** Stepping from `y - 1` to `y` raises `y / k` by one exactly when `k` divides `y`. */
  lemma DivStep(y: int, k: int)
    requires LeapDivisor(k)
    ensures y / k == (y - 1) / k + (if y % k == 0 then 1 else 0)
  {
    var p := y - 1;
    var a, b := p / k, p % k;
    if b == k - 1 {
      DivModUnique(y, k, a + 1, 0);
    } else {
      DivModUnique(y, k, a, b + 1);
    }
  }

  /** Each year adds its own length to the count: the closed form agrees with year-by-year counting. */
  lemma YearStep(y: int)
    requires y >= 1
    ensures DaysBeforeYear(y + 1) == DaysBeforeYear(y) + DaysInYear(y)
  {
    DivStep(y, 4);
    DivStep(y, 100);
    DivStep(y, 400);
    if y % 400 == 0 {
      DivModUnique(y, 100, 4 * (y / 400), 0);
    }
    if y % 100 == 0 {
      DivModUnique(y, 4, 25 * (y / 100), 0);
    }
  }

  function DaysBeforeMonth(y: int, m: int): (n: int)
    requires 1 <= m <= 12
    ensures n >= 0
  {
    if m == 1 then 0 else DaysBeforeMonth(y, m - 1) + DaysInMonth(y, m - 1)
  }

  /** The proleptic Gregorian ordinal, 1 for 0001-01-01 (Python's `date.toordinal`). */
  function DayNumber(d: Date): int
    requires ValidDate(d)
  {
    DaysBeforeYear(d.year) + DaysBeforeMonth(d.year, d.month) + d.day
  }

  lemma {:induction false} MonthsFillYear(y: int, m: int)
    requires 1 <= m <= 12
    ensures DaysBeforeMonth(y, m) + DaysInMonth(y, m) <= DaysInYear(y)
    ensures DaysBeforeMonth(y, 12) + 31 == DaysInYear(y)
  {
    assert DaysBeforeMonth(y, 12) == DaysBeforeMonth(y, 11) + 30;
    assert DaysBeforeMonth(y, 11) == DaysBeforeMonth(y, 10) + 31;
    assert DaysBeforeMonth(y, 10) == DaysBeforeMonth(y, 9) + 30;
    assert DaysBeforeMonth(y, 9) == DaysBeforeMonth(y, 8) + 31;
    assert DaysBeforeMonth(y, 8) == DaysBeforeMonth(y, 7) + 31;
    assert DaysBeforeMonth(y, 7) == DaysBeforeMonth(y, 6) + 30;
    assert DaysBeforeMonth(y, 6) == DaysBeforeMonth(y, 5) + 31;
    assert DaysBeforeMonth(y, 5) == DaysBeforeMonth(y, 4) + 30;
    assert DaysBeforeMonth(y, 4) == DaysBeforeMonth(y, 3) + 31;
    assert DaysBeforeMonth(y, 3) == DaysBeforeMonth(y, 2) + DaysInMonth(y, 2);
    assert DaysBeforeMonth(y, 2) == 31;
    MonthEndsWithinYear(y, m);
  }

  /** The month `m` ends no later than the year does. */
  lemma {:induction false} MonthEndsWithinYear(y: int, m: int)
    requires 1 <= m <= 12
    ensures DaysBeforeMonth(y, m) + DaysInMonth(y, m) <= DaysBeforeMonth(y, 12) + 31
    decreases 12 - m
  {
    if m < 12 {
      MonthEndsWithinYear(y, m + 1);
    }
  }

  /** Later months start later: every day of month `m1` precedes the start of any later month `m2`. */
  lemma {:induction false} MonthsAscend(y: int, m1: int, m2: int)
    requires 1 <= m1 < m2 <= 12
    ensures DaysBeforeMonth(y, m1) + DaysInMonth(y, m1) <= DaysBeforeMonth(y, m2)
    decreases m2 - m1
  {
    if m1 + 1 < m2 {
      MonthsAscend(y, m1, m2 - 1);
    }
  }

  lemma {:induction false} YearsAscend(y1: int, y2: int)
    requires 1 <= y1 < y2
    ensures DaysBeforeYear(y1) + DaysInYear(y1) <= DaysBeforeYear(y2)
    decreases y2 - y1
  {
    YearStep(y1);
    if y1 + 1 < y2 {
      YearsAscend(y1 + 1, y2);
      YearStep(y1 + 1);
    }
  }

  /** The day before `d`: the `dt - timedelta(days=1)` of the bedtime rule. */
  function PrevDay(d: Date): (p: Date)
    requires ValidDate(d) && d.year >= 2
    ensures ValidDate(p)
  {
    if d.day > 1 then Date(d.year, d.month, d.day - 1)
    else if d.month > 1 then Date(d.year, d.month - 1, DaysInMonth(d.year, d.month - 1))
    else Date(d.year - 1, 12, 31)
  }

  /** `PrevDay` is the day whose ordinal is one less, across month, year and leap-day boundaries. */
  lemma PrevDayIsDayBefore(d: Date)
    requires ValidDate(d) && d.year >= 2
    ensures DayNumber(PrevDay(d)) == DayNumber(d) - 1
  {
    var p := PrevDay(d);
    if d.day > 1 {
      assert p == Date(d.year, d.month, d.day - 1);
    } else if d.month > 1 {
      assert p == Date(d.year, d.month - 1, DaysInMonth(d.year, d.month - 1));
      assert DaysBeforeMonth(d.year, d.month) == DaysBeforeMonth(d.year, d.month - 1) + DaysInMonth(d.year, d.month - 1);
    } else {
      assert p == Date(d.year - 1, 12, 31);
      NewYearStep(d.year);
    }
  }

  /** 31 December of the year before `y` is the day before 1 January of `y`. */
  lemma NewYearStep(y: int)
    requires y >= 2
    ensures DaysBeforeYear(y - 1) + DaysBeforeMonth(y - 1, 12) + 31 == DaysBeforeYear(y)
  {
    MonthsFillYear(y - 1, 12);
    YearStep(y - 1);
  }

  /** Calendar order: by year, then month, then day. */
  predicate DateLess(a: Date, b: Date)
  {
    a.year < b.year || (a.year == b.year && (a.month < b.month || (a.month == b.month && a.day < b.day)))
  }

  /** Comparing (year, month, day) is comparing ordinals: the calendar order is chronological. */
  lemma ChronologicalOrder(a: Date, b: Date)
    requires ValidDate(a) && ValidDate(b)
    ensures DateLess(a, b) <==> DayNumber(a) < DayNumber(b)
  {
    if a.year < b.year {
      MonthsFillYear(a.year, a.month);
      YearsAscend(a.year, b.year);
    } else if b.year < a.year {
      MonthsFillYear(b.year, b.month);
      YearsAscend(b.year, a.year);
    } else if a.month < b.month {
      MonthsAscend(a.year, a.month, b.month);
    } else if b.month < a.month {
      MonthsAscend(a.year, b.month, a.month);
    }
  }

  /** `strftime("%Y-%m-%d")`. */
  function FormatDate(d: Date): (s: string)
    requires ValidDate(d)
    ensures |s| == 10
  {
    PadDigits(d.year, 4) + ("-" + (PadDigits(d.month, 2) + ("-" + PadDigits(d.day, 2))))
  }

  /** Reads an ISO `YYYY-MM-DD` string back into its fields. */
  function ParseDate(s: string): Option<Date>
  {
    if |s| == 10 && s[4] == '-' && s[7] == '-' && AllDigits(s[..4]) && AllDigits(s[5..7]) && AllDigits(s[8..])
    then Some(Date(DigitsValue(s[..4]), DigitsValue(s[5..7]), DigitsValue(s[8..])))
    else None
  }

  lemma FormatDateRoundTrip(d: Date)
    requires ValidDate(d)
    ensures ParseDate(FormatDate(d)) == Some(d)
  {
    JoinThree(PadDigits(d.year, 4), PadDigits(d.month, 2), PadDigits(d.day, 2), '-');
    PadDigitsRoundTrip(d.year, 4);
    PadDigitsRoundTrip(d.month, 2);
    PadDigitsRoundTrip(d.day, 2);
  }

  /** ISO date strings sort as strings exactly as their dates sort in time. */
  lemma IsoOrderIsChronological(a: Date, b: Date)
    requires ValidDate(a) && ValidDate(b)
    ensures StrLess(FormatDate(a), FormatDate(b)) <==> DayNumber(a) < DayNumber(b)
  {
    var ya, yb := PadDigits(a.year, 4), PadDigits(b.year, 4);
    var ma, mb := PadDigits(a.month, 2), PadDigits(b.month, 2);
    var da, db := PadDigits(a.day, 2), PadDigits(b.day, 2);
    StrLessConcat(ma, "-" + da, mb, "-" + db);
    StrLessConcat("-", ma + ("-" + da), "-", mb + ("-" + db));
    StrLessConcat("-", da, "-", db);
    StrLessConcat(ya, "-" + (ma + ("-" + da)), yb, "-" + (mb + ("-" + db)));
    PadDigitsOrder(a.year, b.year, 4);
    PadDigitsOrder(a.month, b.month, 2);
    PadDigitsOrder(a.day, b.day, 2);
    PadDigitsRoundTrip(a.year, 4);
    PadDigitsRoundTrip(b.year, 4);
    PadDigitsRoundTrip(a.month, 2);
    PadDigitsRoundTrip(b.month, 2);
    ChronologicalOrder(a, b);
  }

  /** `strftime("%H:%M:%S")`: the `fmt_time` helper. */
  function FmtTime(t: Time): (s: string)
    requires ValidTime(t)
    ensures |s| == 8
  {
    PadDigits(t.hour, 2) + (":" + (PadDigits(t.minute, 2) + (":" + PadDigits(t.second, 2))))
  }

  function ParseTime(s: string): Option<Time>
  {
    if |s| == 8 && s[2] == ':' && s[5] == ':' && AllDigits(s[..2]) && AllDigits(s[3..5]) && AllDigits(s[6..])
    then Some(Time(DigitsValue(s[..2]), DigitsValue(s[3..5]), DigitsValue(s[6..])))
    else None
  }

  lemma FmtTimeRoundTrip(t: Time)
    requires ValidTime(t)
    ensures ParseTime(FmtTime(t)) == Some(t)
  {
    JoinThree(PadDigits(t.hour, 2), PadDigits(t.minute, 2), PadDigits(t.second, 2), ':');
    PadDigitsRoundTrip(t.hour, 2);
    PadDigitsRoundTrip(t.minute, 2);
    PadDigitsRoundTrip(t.second, 2);
  }

  /** `calendar_date_for_wakeup`: a wake timestamp belongs to its own date, whatever the cutoff. */
  function CalendarDateForWakeup(t: DateTime): (key: string)
    requires ValidDateTime(t)
    ensures |key| == 10
  {
    FormatDate(t.date)
  }

  /**
   * `calendar_date_for_inbed`: a bedtime at or after the cutoff hour belongs to
   * its own date, one before the cutoff to the previous evening's date.
   */
  function CalendarDateForInBed(t: DateTime, noonCutoff: int): (key: string)
    requires ValidDateTime(t)
    ensures |key| == 10
  {
    if t.time.hour < noonCutoff then FormatDate(PrevDay(t.date)) else FormatDate(t.date)
  }

  /** The wake-up key names the timestamp's own date, whatever the cutoff. */
  lemma WakeupAttribution(t: DateTime)
    requires ValidDateTime(t)
    ensures ParseDate(CalendarDateForWakeup(t)) == Some(t.date)
  {
    FormatDateRoundTrip(t.date);
  }

  /**
   * The bedtime key names the timestamp's own date from the cutoff hour on, and
   * the date whose ordinal is one less before it.
   */
  lemma InBedAttribution(t: DateTime, noonCutoff: int)
    requires ValidDateTime(t)
    ensures t.time.hour >= noonCutoff ==> CalendarDateForInBed(t, noonCutoff) == CalendarDateForWakeup(t)
    ensures t.time.hour < noonCutoff ==>
      var d := ParseDate(CalendarDateForInBed(t, noonCutoff));
      d.Some? && ValidDate(d.value) && DayNumber(d.value) == DayNumber(t.date) - 1
  {
    if t.time.hour < noonCutoff {
      FormatDateRoundTrip(PrevDay(t.date));
      PrevDayIsDayBefore(t.date);
    }
  }

  lemma YearExample()
    ensures PadDigits(2025, 4) == "2025"
  {
    assert PadDigits(2, 1) == "2";
    assert PadDigits(20, 2) == "20";
    assert PadDigits(202, 3) == "202";
  }

  lemma DayExample()
    ensures PadDigits(1, 2) == "01" && PadDigits(2, 2) == "02"
  {
    assert PadDigits(0, 1) == "0";
  }

  lemma IsoExamples()
    ensures FormatDate(Date(2025, 1, 1)) == "2025-01-01"
    ensures FormatDate(Date(2025, 1, 2)) == "2025-01-02"
  {
    YearExample();
    DayExample();
  }

  /** `fmt_time` pads each field to two digits. */
  lemma FmtTimeExample()
    ensures FmtTime(Time(22, 0, 0)) == "22:00:00"
  {
    assert PadDigits(2, 1) == "2" && PadDigits(22, 2) == "22";
    assert PadDigits(0, 1) == "0" && PadDigits(0, 2) == "00";
  }

  /** The worked examples: a 01:30 bedtime on 2 January goes to 1 January, a 13:30 one stays, a 01:30 wake-up stays. */
  lemma MidnightCrossingExamples()
    ensures CalendarDateForInBed(DateTime(Date(2025, 1, 2), Time(1, 30, 0)), DefaultNoonCutoff) == "2025-01-01"
    ensures CalendarDateForInBed(DateTime(Date(2025, 1, 2), Time(13, 30, 0)), DefaultNoonCutoff) == "2025-01-02"
    ensures CalendarDateForWakeup(DateTime(Date(2025, 1, 2), Time(1, 30, 0))) == "2025-01-02"
  {
    IsoExamples();
    assert PrevDay(Date(2025, 1, 2)) == Date(2025, 1, 1);
  }
}
