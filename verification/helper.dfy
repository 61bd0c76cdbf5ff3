/** The calendar helpers the lottery derives its deadlines from: a block time
    as a UTC date-time, the last day of its week, month or year, and the
    seconds of 22:00 UTC on a date. */
module Helper {

  import opened Cosmos
  import opened Calendar

  /** `DateTime<Utc>` with whole seconds: seconds since 1970-01-01T00:00:00Z. */
  datatype UtcDateTime = UtcDateTime(secs: int)

  /** The day count of a date-time's date: division rounding down. */
  lemma DayOfSecs(k: int, t: int)
    requires 0 <= t < 86400
    ensures (k * 86400 + t) / 86400 == k
    ensures (k * 86400 + t) % 86400 == t
  {
  }

  /** `date_naive`: the calendar date the instant falls on. */
  function DateNaive(dt: UtcDateTime): (d: Date)
    ensures ValidDate(d)
    ensures DaysFromCivil(d) * 86400 <= dt.secs < (DaysFromCivil(d) + 1) * 86400
  {
    CivilFromDays(dt.secs / 86400)
  }

  /** A valid date at a time of day given in seconds after midnight. */
  function At(d: Date, timeOfDay: int): (dt: UtcDateTime)
    requires ValidDate(d)
    requires 0 <= timeOfDay < 86400
    ensures DateNaive(dt) == d
    ensures dt.secs % 86400 == timeOfDay
  {
    var dt := UtcDateTime(DaysFromCivil(d) * 86400 + timeOfDay);
    DayOfSecs(DaysFromCivil(d), timeOfDay);
    CivilRoundTrip(d);
    dt
  }

  /** `timestamp_to_utc`: the whole seconds of the block time as a UTC
      date-time. The sub-second part is dropped before the conversion. */
  function TimestampToUtc(ts: Timestamp): (dt: UtcDateTime)
    ensures dt.secs == ts.Seconds()
    ensures DaysFromCivil(DateNaive(dt)) == ts.Seconds() / 86400
    ensures DateNaive(dt).year >= 1970
  {
    var dt := UtcDateTime(ts.Seconds());
    FromEpochOn(DateNaive(dt));
    dt
  }

  /** A date with a non-negative day count is in 1970 or later. */
  lemma FromEpochOn(d: Date)
    requires ValidDate(d) && DaysFromCivil(d) >= 0
    ensures d.year >= 1970
  {
    if d.year < 1970 {
      DaysBeforeYearMonotone(d.year, 1970);
    }
  }

  /** `get_last_day_week`: the Saturday that ends the Sunday-started week
      holding the date. */
  function LastDayOfWeek(dt: UtcDateTime): (r: Date)
    ensures ValidDate(r)
    ensures 0 <= DaysFromCivil(r) - DaysFromCivil(DateNaive(dt)) <= 6
    ensures WeekdayFromSunday(DaysFromCivil(r)) == 6
  {
    var n := DaysFromCivil(DateNaive(dt));
    var firstDay := n - WeekdayFromSunday(n);
    SaturdayOfWeek(n);
    CivilFromDays(firstDay + 6)
  }

  /** Only one date is a Saturday no earlier and at most six days later. */
  lemma LastDayOfWeekUnique(dt: UtcDateTime, e: Date)
    requires ValidDate(e)
    requires 0 <= DaysFromCivil(e) - DaysFromCivil(DateNaive(dt)) <= 6
    requires WeekdayFromSunday(DaysFromCivil(e)) == 6
    ensures e == LastDayOfWeek(dt)
  {
    var r := LastDayOfWeek(dt);
    var n := DaysFromCivil(DateNaive(dt));
    var a, b := DaysFromCivil(e), DaysFromCivil(r);
    SameWeekdayClose(a, b);
    DaysFromCivilInjective(e, r);
  }

  /** A Saturday is the last day of its own week. */
  lemma SaturdayEndsItsWeek(dt: UtcDateTime)
    requires WeekdayFromSunday(DaysFromCivil(DateNaive(dt))) == 6
    ensures LastDayOfWeek(dt) == DateNaive(dt)
  {
    LastDayOfWeekUnique(dt, DateNaive(dt));
  }

  /** One day before 22:00 on `next` is the date the day before it. */
  lemma DayBefore22h(next: Date, prev: Date)
    requires ValidDate(next) && ValidDate(prev)
    requires DaysFromCivil(prev) == DaysFromCivil(next) - 1
    ensures DateNaive(UtcDateTime(At(next, 79200).secs - 86400)) == prev
  {
    var k := DaysFromCivil(next);
    var s := At(next, 79200).secs - 86400;
    assert s / 86400 == DaysFromCivil(prev) by {
      assert s == (k - 1) * 86400 + 79200;
      DayOfSecs(k - 1, 79200);
    }
    CivilRoundTrip(prev);
  }

  /** `get_last_day_month`: 22:00 on the first of the following month (January
      of the next year after December), minus one day, as a date. */
  function LastDayOfMonth(dt: UtcDateTime): (r: Date)
    ensures ValidDate(r)
    ensures r.year == DateNaive(dt).year && r.month == DateNaive(dt).month
    ensures r.day == MonthLength(r.year, r.month)
  {
    var d := DateNaive(dt);
    var (year, month) := (d.year, d.month);
    var next := Date(year + month / 12, month % 12 + 1, 1);
    var last := Date(year, month, MonthLength(year, month));
    LastDayOfMonthIsDayBefore(year, month);
    DayBefore22h(next, last);
    DateNaive(UtcDateTime(At(next, 79200).secs - 86400))
  }

  /** The first of the month the source builds comes one day after the month's
      last day, in December as well. */
  lemma LastDayOfMonthIsDayBefore(year: int, month: int)
    requires 1 <= month <= 12
    ensures ValidDate(Date(year + month / 12, month % 12 + 1, 1))
    ensures DaysFromCivil(Date(year, month, MonthLength(year, month)))
         == DaysFromCivil(Date(year + month / 12, month % 12 + 1, 1)) - 1
  {
    if month < 12 {
      assert month / 12 == 0 && month % 12 + 1 == month + 1;
      assert DaysBeforeMonth(year, month + 1) == DaysBeforeMonth(year, month) + MonthLength(year, month);
    } else {
      assert month / 12 == 1 && month % 12 + 1 == 1;
      DaysBeforeNextYear(year);
      MonthsFillYear(year);
      assert DaysBeforeMonth(year, 13) == DaysBeforeMonth(year, 12) + MonthLength(year, 12);
    }
  }

  /** `get_last_day_year`: 22:00 on January 1 of the next year, minus one day. */
  function LastDayOfYear(dt: UtcDateTime): (r: Date)
    ensures r == Date(DateNaive(dt).year, 12, 31)
  {
    var year := DateNaive(dt).year;
    var next := Date(year + 1, 1, 1);
    LastDayOfMonthIsDayBefore(year, 12);
    DayBefore22h(next, Date(year, 12, 31));
    DateNaive(UtcDateTime(At(next, 79200).secs - 86400))
  }

  /** `get_secs_of_hour_22`: the Unix time of 22:00 UTC on the date, cast from
      `i64` to `u64`, so a date before 1970 wraps around. */
  function SecsOfHour22(nd: Date): (r: u64)
    requires ValidDate(nd)
    ensures DaysFromCivil(nd) >= 0 && At(nd, 79200).secs < TWO_64
            ==> r == At(nd, 79200).secs
    ensures DaysFromCivil(nd) < 0 && At(nd, 79200).secs >= -TWO_64
            ==> r == At(nd, 79200).secs + TWO_64
  {
    var secs := At(nd, 79200).secs;
    CastToU64(secs);
    secs % TWO_64
  }

  /** `i64 as u64` keeps non-negative values and adds 2^64 to negative ones. */
  lemma CastToU64(x: int)
    ensures 0 <= x < TWO_64 ==> x % TWO_64 == x
    ensures -TWO_64 <= x < 0 ==> x % TWO_64 == x + TWO_64
  {
  }

  /** For a date from 1970 on, the seconds returned fall on that date, at 22:00. */
  lemma SecsOfHour22OnDate(nd: Date)
    requires ValidDate(nd) && DaysFromCivil(nd) >= 0
    requires DaysFromCivil(nd) * 86400 + 79200 < TWO_64
    ensures DateNaive(UtcDateTime(SecsOfHour22(nd))) == nd
    ensures SecsOfHour22(nd) % 86400 == 79200
    ensures SecsOfHour22(nd) == DaysFromCivil(nd) * 86400 + 79200
  {
  }

  /** 22:00 UTC on the day of a block time, in seconds, is the whole days of
      that time scaled back up plus 22 hours. */
  lemma BlockDayAt22h(ts: Timestamp)
    ensures SecsOfHour22(DateNaive(TimestampToUtc(ts)))
         == ts.Seconds() / 86400 * 86400 + 79200
  {
    var n := ts.Seconds() / 86400;
    assert n * 86400 <= ts.Seconds() < TWO_64;
  }

  /* ---------------- examples ---------------- */

  /** Any date's month ends on the day given by the month's length. */
  lemma LastDayOfMonthOf(d: Date)
    requires ValidDate(d)
    ensures LastDayOfMonth(At(d, 0)) == Date(d.year, d.month, MonthLength(d.year, d.month))
  {
  }

  /** The month tests, for every date of February, August and December 2023 at
      midnight: February ends on the 28th, August and December on the 31st,
      each in its own month. */
  lemma LastDayOfMonthExamples(d: Date)
    requires ValidDate(d) && d.year == 2023
    ensures d.month == 2 ==> LastDayOfMonth(At(d, 0)) == Date(2023, 2, 28)
    ensures d.month == 8 ==> LastDayOfMonth(At(d, 0)) == Date(2023, 8, 31)
    ensures d.month == 12 ==> LastDayOfMonth(At(d, 0)) == Date(2023, 12, 31)
  {
    assert !IsLeapYear(2023);
    LastDayOfMonthOf(d);
  }

  /** The year tests: any date of 2023 gives December 31, 2023. */
  lemma LastDayOfYearExamples(d: Date)
    requires ValidDate(d) && d.year == 2023
    ensures LastDayOfYear(At(d, 0)) == Date(2023, 12, 31)
  {
  }

  /** The last day of 1969 at 22:00 is two hours before the epoch, which the
      cast turns into a value near 2^64. */
  lemma PreEpochWrapExample()
    ensures SecsOfHour22(Date(1969, 12, 31)) == TWO_64 - 7200
  {
    assert DaysBeforeYear(1969) == -365;
    assert DaysFromCivil(Date(1969, 12, 31)) == -1 by {
      assert DaysBeforeMonth(1969, 12) == 334;
    }
  }
}
