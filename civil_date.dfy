/** Civil (proleptic Gregorian) dates and wall-clock times.
    The source keeps dates as "YYYY-MM-DD" strings and times as "HH:MM" strings and
    compares them as strings; with fixed-width fields that is the lexicographic order
    on (year, month, day) and on minutes of the day, which is what this module uses. */
module CivilDate {

  datatype Date = Date(year: int, month: int, day: int)

  datatype Clock = Clock(hour: int, minute: int)

  const MinutesPerDay: int := 1440

  predicate IsLeapYear(y: int) {
    y % 4 == 0 && (y % 100 != 0 || y % 400 == 0)
  }

  function YearLength(y: int): int {
    if IsLeapYear(y) then 366 else 365
  }

  /** Number of days in month m (1 = January) of year y. */
  function DaysInMonth(y: int, m: int): (n: int)
    ensures 28 <= n <= 31
  {
    if m == 2 then (if IsLeapYear(y) then 29 else 28)
    else if m == 4 || m == 6 || m == 9 || m == 11 then 30
    else 31
  }

  predicate ValidDate(d: Date) {
    1 <= d.month <= 12 && 1 <= d.day <= DaysInMonth(d.year, d.month)
  }

  predicate ValidClock(t: Clock) {
    0 <= t.hour < 24 && 0 <= t.minute < 60
  }

  /** Minutes since midnight; what `new Date("2000-01-01T" + hhmm)` differences measure. */
  function Minutes(t: Clock): int {
    t.hour * 60 + t.minute
  }

  /** Days from 0001-01-01 to January 1st of year y (negative before year 1). */
  function DaysBeforeYear(y: int): int
    decreases if y >= 1 then y - 1 else 1 - y
  {
    if y == 1 then 0
    else if y > 1 then DaysBeforeYear(y - 1) + YearLength(y - 1)
    else DaysBeforeYear(y + 1) - YearLength(y)
  }

  /** Days from January 1st of year y to the 1st of month m. */
  function DaysBeforeMonth(y: int, m: int): int
    decreases m
  {
    if m <= 1 then 0 else DaysBeforeMonth(y, m - 1) + DaysInMonth(y, m - 1)
  }

  /** Days since 0001-01-01 (day 0). */
  function DayNumber(d: Date): int {
    DaysBeforeYear(d.year) + DaysBeforeMonth(d.year, d.month) + d.day - 1
  }

  /** Day of the week as JavaScript's getDay numbers it: 0 = Sunday, ..., 6 = Saturday.
      0001-01-01 of the proleptic Gregorian calendar is a Monday. */
  function Weekday(d: Date): (w: int)
    ensures 0 <= w < 7
  {
    (DayNumber(d) + 1) % 7
  }

  /** Lexicographic order on (year, month, day): the order of the ISO strings. */
  predicate DateLessEq(a: Date, b: Date) {
    a.year < b.year || (a.year == b.year && (a.month < b.month || (a.month == b.month && a.day <= b.day)))
  }

  function PrevMonthYear(y: int, m: int): int { if m == 1 then y - 1 else y }
  function PrevMonth(m: int): int { if m == 1 then 12 else m - 1 }
  function NextMonthYear(y: int, m: int): int { if m == 12 then y + 1 else y }
  function NextMonth(m: int): int { if m == 12 then 1 else m + 1 }

  /** The following calendar day; what `setDate(getDate() + 1)` produces. */
  function NextDay(d: Date): (r: Date)
    requires ValidDate(d)
    ensures ValidDate(r)
  {
    if d.day < DaysInMonth(d.year, d.month) then Date(d.year, d.month, d.day + 1)
    else Date(NextMonthYear(d.year, d.month), NextMonth(d.month), 1)
  }

  /** `setDate(n)` on a date of year y, month m: day n of that month, where a day
      before the 1st or after the last day moves into the neighbouring months. */
  function SetDate(d: Date, n: int): (r: Date)
    requires 1 <= d.month <= 12
    ensures ValidDate(r)
    decreases if n < 1 then 1 - n else 0, if n > 0 then n else 0
  {
    var py, pm := PrevMonthYear(d.year, d.month), PrevMonth(d.month);
    if n < 1 then SetDate(Date(py, pm, 1), n + DaysInMonth(py, pm))
    else if n > DaysInMonth(d.year, d.month) then
      SetDate(Date(NextMonthYear(d.year, d.month), NextMonth(d.month), 1), n - DaysInMonth(d.year, d.month))
    else Date(d.year, d.month, n)
  }

  lemma DaysBeforeYearStep(y: int)
    ensures DaysBeforeYear(y + 1) == DaysBeforeYear(y) + YearLength(y)
  {
  }

  /** The twelve months of a year add up to the year's length. */
  lemma DaysBeforeMonthYear(y: int)
    ensures DaysBeforeMonth(y, 13) == YearLength(y)
  {
    assert DaysBeforeMonth(y, 2) == 31;
    assert DaysBeforeMonth(y, 3) == 31 + DaysInMonth(y, 2);
    assert DaysBeforeMonth(y, 4) == 62 + DaysInMonth(y, 2);
    assert DaysBeforeMonth(y, 5) == 92 + DaysInMonth(y, 2);
    assert DaysBeforeMonth(y, 6) == 123 + DaysInMonth(y, 2);
    assert DaysBeforeMonth(y, 7) == 153 + DaysInMonth(y, 2);
    assert DaysBeforeMonth(y, 8) == 184 + DaysInMonth(y, 2);
    assert DaysBeforeMonth(y, 9) == 215 + DaysInMonth(y, 2);
    assert DaysBeforeMonth(y, 10) == 245 + DaysInMonth(y, 2);
    assert DaysBeforeMonth(y, 11) == 276 + DaysInMonth(y, 2);
    assert DaysBeforeMonth(y, 12) == 306 + DaysInMonth(y, 2);
  }

  lemma {:induction false} DaysBeforeMonthMonotone(y: int, m1: int, m2: int)
    requires m1 <= m2
    ensures DaysBeforeMonth(y, m1) <= DaysBeforeMonth(y, m2)
    decreases m2 - m1
  {
    if m1 < m2 {
      DaysBeforeMonthMonotone(y, m1, m2 - 1);
    }
  }

  lemma {:induction false} DaysBeforeYearMonotone(y1: int, y2: int)
    requires y1 <= y2
    ensures DaysBeforeYear(y1) <= DaysBeforeYear(y2)
    decreases y2 - y1
  {
    if y1 < y2 {
      DaysBeforeYearMonotone(y1, y2 - 1);
      DaysBeforeYearStep(y2 - 1);
    }
  }

  /** A valid date lies inside its own year's day-number range. */
  lemma DayNumberWithinYear(d: Date)
    requires ValidDate(d)
    ensures DaysBeforeYear(d.year) <= DayNumber(d) < DaysBeforeYear(d.year + 1)
  {
    DaysBeforeMonthMonotone(d.year, d.month + 1, 13);
    DaysBeforeMonthYear(d.year);
    DaysBeforeYearStep(d.year);
  }

  /** Strictly earlier in the string order means a strictly smaller day number. */
  lemma DayNumberStrictlyMonotone(a: Date, b: Date)
    requires ValidDate(a) && ValidDate(b)
    requires DateLessEq(a, b) && a != b
    ensures DayNumber(a) < DayNumber(b)
  {
    if a.year < b.year {
      EarlierYear(a, b);
    } else if a.month < b.month {
      EarlierMonth(a, b);
    }
  }

  lemma EarlierYear(a: Date, b: Date)
    requires ValidDate(a) && ValidDate(b) && a.year < b.year
    ensures DayNumber(a) < DayNumber(b)
  {
    DayNumberWithinYear(a);
    DayNumberWithinYear(b);
    DaysBeforeYearMonotone(a.year + 1, b.year);
  }

  lemma EarlierMonth(a: Date, b: Date)
    requires ValidDate(a) && ValidDate(b) && a.year == b.year && a.month < b.month
    ensures DayNumber(a) < DayNumber(b)
  {
    DaysBeforeMonthMonotone(a.year, a.month + 1, b.month);
    assert DaysBeforeMonth(a.year, a.month + 1) == DaysBeforeMonth(a.year, a.month) + DaysInMonth(a.year, a.month);
  }

  /** The day number is an order isomorphism from valid dates, in the order of their
      ISO strings, onto the integers: this ties `currentDay <= endDate` (a time
      comparison) and `event.date >= today` (a string comparison) together. */
  lemma DayNumberOrder(a: Date, b: Date)
    requires ValidDate(a) && ValidDate(b)
    ensures DateLessEq(a, b) <==> DayNumber(a) <= DayNumber(b)
    ensures DayNumber(a) == DayNumber(b) <==> a == b
  {
    if a != b {
      if DateLessEq(a, b) {
        DayNumberStrictlyMonotone(a, b);
      } else {
        DayNumberStrictlyMonotone(b, a);
      }
    }
  }

  /** Stepping one day advances the day number by exactly one. */
  lemma NextDayNumber(d: Date)
    requires ValidDate(d)
    ensures DayNumber(NextDay(d)) == DayNumber(d) + 1
  {
    if d.day == DaysInMonth(d.year, d.month) {
      if d.month == 12 {
        DaysBeforeMonthYear(d.year);
        DaysBeforeYearStep(d.year);
      }
    }
  }

  /** The 1st of the next month is as many days after the 1st of this month as this
      month has days. */
  lemma MonthStartStep(y: int, m: int)
    requires 1 <= m <= 12
    ensures DayNumber(Date(NextMonthYear(y, m), NextMonth(m), 1))
            == DayNumber(Date(y, m, 1)) + DaysInMonth(y, m)
  {
    if m == 12 {
      DaysBeforeMonthYear(y);
      DaysBeforeYearStep(y);
    }
  }

  /** `setDate(n)` lands n - 1 days after the 1st of the month, whatever n is. */
  lemma {:induction false} SetDateNumber(d: Date, n: int)
    requires 1 <= d.month <= 12
    ensures DayNumber(SetDate(d, n)) == DayNumber(Date(d.year, d.month, 1)) + n - 1
    decreases if n < 1 then 1 - n else 0, if n > 0 then n else 0
  {
    var py, pm := PrevMonthYear(d.year, d.month), PrevMonth(d.month);
    if n < 1 {
      SetDateNumber(Date(py, pm, 1), n + DaysInMonth(py, pm));
      MonthStartStep(py, pm);
      assert NextMonthYear(py, pm) == d.year && NextMonth(pm) == d.month;
    } else if n > DaysInMonth(d.year, d.month) {
      SetDateNumber(Date(NextMonthYear(d.year, d.month), NextMonth(d.month), 1), n - DaysInMonth(d.year, d.month));
      MonthStartStep(d.year, d.month);
    }
  }

  /** DaysBeforeYear agrees with the closed form of the Gregorian leap rule. */
  lemma {:induction false} DaysBeforeYearClosedForm(y: int)
    ensures DaysBeforeYear(y) == 365 * (y - 1) + (y - 1) / 4 - (y - 1) / 100 + (y - 1) / 400
    decreases if y >= 1 then y - 1 else 1 - y
  {
    if y > 1 {
      DaysBeforeYearClosedForm(y - 1);
      LeapCountStep(y - 1);
    } else if y < 1 {
      DaysBeforeYearClosedForm(y + 1);
      LeapCountStep(y);
    }
  }

  lemma LeapCountStep(y: int)
    ensures y / 4 - y / 100 + y / 400 - ((y - 1) / 4 - (y - 1) / 100 + (y - 1) / 400)
            == (if IsLeapYear(y) then 1 else 0)
  {
    DivStep(y, 4);
    DivStep(y, 100);
    DivStep(y, 400);
    if y % 400 == 0 {
      MultipleOfHundred(y);
    } else if y % 100 == 0 {
      MultipleOfFour(y);
    }
  }

  lemma MultipleOfHundred(y: int)
    requires y % 400 == 0
    ensures y % 100 == 0 && y % 4 == 0
  {
    var t := y / 400;
    assert y == 100 * (4 * t);
    assert y == 4 * (100 * t);
  }

  lemma MultipleOfFour(y: int)
    requires y % 100 == 0
    ensures y % 4 == 0
  {
    var t := y / 100;
    assert y == 4 * (25 * t);
  }

  lemma DivStep(y: int, k: int)
    requires k == 4 || k == 100 || k == 400
    ensures y / k - (y - 1) / k == (if y % k == 0 then 1 else 0)
  {
  }

  /** An anchor the weekday formula can be checked against: 2025-01-01 was a Wednesday. */
  lemma WeekdayOfNewYear2025()
    ensures Weekday(Date(2025, 1, 1)) == 3
  {
    DaysBeforeYearClosedForm(2025);
    assert DaysBeforeYear(2025) == 739251;
    assert DayNumber(Date(2025, 1, 1)) + 1 == 7 * 105607 + 3;
  }
}
