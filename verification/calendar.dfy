/**
 * Proleptic Gregorian dates and the UTC calendar day of a Unix timestamp, as Python's
 * `datetime.utcfromtimestamp` computes it.
 */
module Calendar {

  datatype Date = Date(year: int, month: int, day: int)

  /** A naive `datetime`: a date and a time of day. */
  datatype DateTime = DateTime(date: Date, hour: int, minute: int, second: int)

  predicate IsLeap(y: int)
  {
    y % 4 == 0 && (y % 100 != 0 || y % 400 == 0)
  }

  function DaysInMonth(y: int, m: int): int
    requires 1 <= m <= 12
  {
    if m == 2 then (if IsLeap(y) then 29 else 28)
    else if m == 4 || m == 6 || m == 9 || m == 11 then 30
    else 31
  }

  function DaysInYear(y: int): int
  {
    if IsLeap(y) then 366 else 365
  }

  /** A date `datetime.date` accepts: month 1 to 12 and a day that exists in that month. */
  predicate ValidDate(d: Date)
  {
    1 <= d.month <= 12 && 1 <= d.day <= DaysInMonth(d.year, d.month)
  }

  predicate ValidDateTime(t: DateTime)
  {
    ValidDate(t.date) && 0 <= t.hour < 24 && 0 <= t.minute < 60 && 0 <= t.second < 60
  }

  /** An integer that orders valid dates as `datetime.date` compares them. */
  function Key(d: Date): int
  {
    d.year * 10000 + d.month * 100 + d.day
  }

  lemma KeyInjective(a: Date, b: Date)
    requires ValidDate(a) && ValidDate(b) && Key(a) == Key(b)
    ensures a == b
  {
  }

  /** The days from month `m` to the end of year `y`. */
  function DaysFrom(y: int, m: int): int
    requires 1 <= m <= 13
    decreases 13 - m
  {
    if m == 13 then 0 else DaysInMonth(y, m) + DaysFrom(y, m + 1)
  }

  lemma DaysFromJanuary(y: int)
    ensures DaysFrom(y, 1) == DaysInYear(y)
  {
    assert DaysFrom(y, 12) == 31;
    assert DaysFrom(y, 10) == 92;
    assert DaysFrom(y, 7) == 184;
    assert DaysFrom(y, 4) == 275;
    assert DaysFrom(y, 3) == 306;
  }

  /** The year holding day `n` counted from 1 January of year `y`, and its day within that year. */
  function YearAndDay(y: int, n: int): (r: (int, int))
    ensures 0 <= r.1 < DaysInYear(r.0)
    ensures n >= 0 ==> r.0 >= y
    decreases if n < 0 then 1000 - n else n
  {
    if n < 0 then YearAndDay(y - 1, n + DaysInYear(y - 1))
    else if n >= DaysInYear(y) then YearAndDay(y + 1, n - DaysInYear(y))
    else (y, n)
  }

  /** The month and day of month holding day `n` (0-based) counted from the first of month `m`. */
  function MonthAndDay(y: int, m: int, n: int): (r: (int, int))
    requires 1 <= m <= 12 && 0 <= n < DaysFrom(y, m)
    ensures 1 <= r.0 <= 12 && 1 <= r.1 <= DaysInMonth(y, r.0)
    decreases 13 - m
  {
    if n < DaysInMonth(y, m) then (m, n + 1) else MonthAndDay(y, m + 1, n - DaysInMonth(y, m))
  }

  /** The calendar date `n` days after 1 January 1970. */
  function CivilFromDays(n: int): (d: Date)
    ensures ValidDate(d)
    ensures n >= 0 ==> d.year >= 1970
  {
    var (y, doy) := YearAndDay(1970, n);
    YearDayDate(y, doy)
  }

  /** The calendar date of day `k` (0-based) of year `y`. */
  function YearDayDate(y: int, k: int): (d: Date)
    requires 0 <= k < DaysInYear(y)
    ensures ValidDate(d) && d.year == y
  {
    DaysFromJanuary(y);
    var (m, dd) := MonthAndDay(y, 1, k);
    Date(y, m, dd)
  }

  /** `d + timedelta(days=1)`: the next day of the month, else the first of the next month, else 1 January. */
  function NextDay(d: Date): (r: Date)
    requires ValidDate(d)
    ensures ValidDate(r) && Key(d) < Key(r)
  {
    if d.day < DaysInMonth(d.year, d.month) then Date(d.year, d.month, d.day + 1)
    else if d.month < 12 then Date(d.year, d.month + 1, 1)
    else Date(d.year + 1, 1, 1)
  }

  /** The day after day `k` of year `y`: the next day of that year, or the first of the next. */
  function NextYearDay(r: (int, int)): (int, int)
  {
    if r.1 + 1 < DaysInYear(r.0) then (r.0, r.1 + 1) else (r.0 + 1, 0)
  }

  /** The day after day `dd` of month `m`: `dd + 1`, or the first of the next month. */
  function NextMonthDay(y: int, r: (int, int)): (int, int)
    requires 1 <= r.0 <= 12
  {
    if r.1 < DaysInMonth(y, r.0) then (r.0, r.1 + 1) else (r.0 + 1, 1)
  }

  /** Counting one more day from the same origin moves to the next day of the year. */
  lemma {:induction false} YearAndDayNext(y: int, n: int)
    ensures YearAndDay(y, n + 1) == NextYearDay(YearAndDay(y, n))
    decreases if n < 0 then 1000 - n else n
  {
    if n < 0 {
      if n + 1 < 0 {
        YearAndDayNext(y - 1, n + DaysInYear(y - 1));
      } else {
        assert YearAndDay(y - 1, n + DaysInYear(y - 1)) == (y - 1, DaysInYear(y - 1) - 1);
      }
    } else if n >= DaysInYear(y) {
      YearAndDayNext(y + 1, n - DaysInYear(y));
    } else if n + 1 == DaysInYear(y) {
      assert YearAndDay(y + 1, 0) == (y + 1, 0);
    }
  }

  /** Within a year, the day after a month's day `dd` is `dd + 1`, or the first of the next month. */
  lemma {:induction false} MonthAndDayNext(y: int, m: int, n: int)
    requires 1 <= m <= 12 && 0 <= n && n + 1 < DaysFrom(y, m)
    ensures MonthAndDay(y, m, n + 1) == NextMonthDay(y, MonthAndDay(y, m, n))
    decreases 13 - m
  {
    var dim := DaysInMonth(y, m);
    assert DaysFrom(y, m) == dim + DaysFrom(y, m + 1);
    if n >= dim {
      assert MonthAndDay(y, m, n) == MonthAndDay(y, m + 1, n - dim);
      assert MonthAndDay(y, m, n + 1) == MonthAndDay(y, m + 1, n - dim + 1);
      MonthAndDayNext(y, m + 1, n - dim);
    } else if n + 1 == dim {
      assert MonthAndDay(y, m, n) == (m, dim);
      assert MonthAndDay(y, m, n + 1) == MonthAndDay(y, m + 1, 0);
      assert MonthAndDay(y, m + 1, 0) == (m + 1, 1);
    } else {
      assert MonthAndDay(y, m, n) == (m, n + 1);
      assert MonthAndDay(y, m, n + 1) == (m, n + 2);
    }
  }

  /** The last day counted from month `m` is 31 December. */
  lemma {:induction false} LastDayOfYear(y: int, m: int)
    requires 1 <= m <= 12
    ensures DaysFrom(y, m) >= 31
    ensures MonthAndDay(y, m, DaysFrom(y, m) - 1) == (12, 31)
    decreases 13 - m
  {
    if m < 12 {
      LastDayOfYear(y, m + 1);
    }
  }

  /** Day `n + 1` after the epoch is the calendar day after day `n`. */
  lemma CivilFromDaysNext(n: int)
    ensures CivilFromDays(n + 1) == NextDay(CivilFromDays(n))
  {
    var r := YearAndDay(1970, n);
    YearAndDayNext(1970, n);
    YearDayDateNext(r.0, r.1);
  }

  /** The date of the next day of the year is the day after the date. */
  lemma YearDayDateNext(y: int, k: int)
    requires 0 <= k < DaysInYear(y)
    ensures var r := NextYearDay((y, k)); YearDayDate(r.0, r.1) == NextDay(YearDayDate(y, k))
  {
    if k + 1 < DaysInYear(y) {
      NextDayInYear(y, k);
    } else {
      NextDayNewYear(y);
    }
  }

  lemma NextDayInYear(y: int, k: int)
    requires 0 <= k && k + 1 < DaysInYear(y)
    ensures YearDayDate(y, k + 1) == NextDay(YearDayDate(y, k))
  {
    DaysFromJanuary(y);
    MonthAndDayNext(y, 1, k);
  }

  /** The day after the last day of a year is 1 January of the next. */
  lemma NextDayNewYear(y: int)
    ensures YearDayDate(y + 1, 0) == NextDay(YearDayDate(y, DaysInYear(y) - 1))
  {
    DaysFromJanuary(y);
    DaysFromJanuary(y + 1);
    LastDayOfYear(y, 1);
    assert YearDayDate(y, DaysInYear(y) - 1) == Date(y, 12, 31);
    assert MonthAndDay(y + 1, 1, 0) == (1, 1);
  }

  /** Later days after the epoch are later calendar dates. */
  lemma {:induction false} CivilFromDaysMonotone(a: int, b: int)
    requires a <= b
    ensures Key(CivilFromDays(a)) <= Key(CivilFromDays(b))
    decreases b - a
  {
    if a < b {
      CivilFromDaysMonotone(a, b - 1);
      CivilFromDaysNext(b - 1);
    }
  }

  /** `datetime.utcfromtimestamp(ts)`: Python floors the division, as Dafny does for a positive divisor. */
  function DateTimeOfTimestamp(ts: int): (t: DateTime)
    ensures ValidDateTime(t)
    ensures t.hour * 3600 + t.minute * 60 + t.second == ts % 86400
  {
    var secs := ts % 86400;
    DateTime(CivilFromDays(ts / 86400), secs / 3600, secs % 3600 / 60, secs % 60)
  }

  /** The UTC calendar day of a Unix timestamp. */
  function DateOfTimestamp(ts: int): (d: Date)
    ensures ValidDate(d)
    ensures ts >= 0 ==> d.year >= 1970
  {
    DateTimeOfTimestamp(ts).date
  }

  /** A timestamp one day later falls on the next calendar day. */
  lemma NextDayOfTimestamp(ts: int)
    ensures DateOfTimestamp(ts + 86400) == NextDay(DateOfTimestamp(ts))
  {
    assert (ts + 86400) / 86400 == ts / 86400 + 1;
    CivilFromDaysNext(ts / 86400);
  }

  /** A later timestamp never falls on an earlier calendar day. */
  lemma DateOfTimestampMonotone(t1: int, t2: int)
    requires t1 <= t2
    ensures Key(DateOfTimestamp(t1)) <= Key(DateOfTimestamp(t2))
  {
    assert t1 / 86400 <= t2 / 86400;
    CivilFromDaysMonotone(t1 / 86400, t2 / 86400);
  }

  /** Timestamps 86400 seconds apart fall on consecutive calendar days: 0 is 1970-01-01, 86400 is 1970-01-02. */
  lemma EpochDays()
    ensures DateOfTimestamp(0) == Date(1970, 1, 1)
    ensures DateOfTimestamp(86399) == Date(1970, 1, 1)
    ensures DateOfTimestamp(86400) == Date(1970, 1, 2)
    ensures DateOfTimestamp(-1) == Date(1969, 12, 31)
  {
    FirstDaysOf1970();
    DayBeforeEpoch();
  }

  lemma FirstDaysOf1970()
    ensures DateOfTimestamp(0) == Date(1970, 1, 1)
    ensures DateOfTimestamp(86399) == Date(1970, 1, 1)
    ensures DateOfTimestamp(86400) == Date(1970, 1, 2)
  {
    assert YearAndDay(1970, 0) == (1970, 0);
    assert YearAndDay(1970, 1) == (1970, 1);
  }

  lemma DayBeforeEpoch()
    ensures DateOfTimestamp(-1) == Date(1969, 12, 31)
  {
    assert -1 / 86400 == -1;
    DayMinusOne();
  }

  lemma DayMinusOne()
    ensures CivilFromDays(-1) == Date(1969, 12, 31)
  {
    assert YearAndDay(1970, -1) == (1969, 364) by {
      assert !IsLeap(1969);
      assert YearAndDay(1970, -1) == YearAndDay(1969, 364);
    }
    LastDayOf1969();
  }

  /** Day 364 of 1969, counted from 0, is 31 December. */
  lemma LastDayOf1969()
    ensures DaysFrom(1969, 1) == 365
    ensures MonthAndDay(1969, 1, 364) == (12, 31)
  {
    DaysFromJanuary(1969);
    assert !IsLeap(1969);
    assert MonthAndDay(1969, 1, 364) == (12, 31);
  }
}
