/** The sales calendar page (src/components/pages/SalesCalendar.tsx): the month grid
    of day cells, the per-type event counts and the list of upcoming events. */
module SalesCalendar {

  import opened CivilDate
  import opened CrmTypes
  import opened Seqs

  /** The grid the page lays out for month m of year y: whole weeks from the Sunday on
      or before the 1st to the Saturday on or after the last day, one cell per day.
      w is the weekday of the 1st, so the month's days sit at indexes w .. w + DIM - 1,
      preceded by the last w days of the previous month and followed by the first days
      of the next. */
  ghost predicate IsMonthGrid(days: seq<Date>, y: int, m: int)
    requires 1 <= m <= 12
  {
    var w, dim := Weekday(Date(y, m, 1)), DaysInMonth(y, m);
    && 28 <= |days| <= 42 && |days| % 7 == 0
    && w + dim <= |days| < w + dim + 7
    && Weekday(days[0]) == 0 && Weekday(days[|days| - 1]) == 6
    && (forall i :: 0 <= i < |days| ==> ValidDate(days[i]))
    && (forall i :: 0 <= i < |days| - 1 ==> days[i + 1] == NextDay(days[i]))
    && (forall i, j :: 0 <= i < j < |days| ==> days[i] != days[j])
    && (forall i :: w <= i < w + dim ==> days[i] == Date(y, m, i - w + 1))
    && (forall i :: 0 <= i < w ==>
          days[i] == Date(PrevMonthYear(y, m), PrevMonth(m), DaysInMonth(PrevMonthYear(y, m), PrevMonth(m)) - w + 1 + i))
    && (forall i :: w + dim <= i < |days| ==>
          days[i] == Date(NextMonthYear(y, m), NextMonth(m), i - w - dim + 1))
  }

  /** The `calendar-days` IIFE: start and end of the grid by `setDate`, then one cell per
      day while the current day is not after the end. Date objects compare by their
      time value, which orders days like their day numbers. */
  method CalendarDays(selected: Date) returns (days: seq<Date>)
    requires ValidDate(selected)
    ensures IsMonthGrid(days, selected.year, selected.month)
  {
    var year, month := selected.year, selected.month;
    var firstDay := Date(year, month, 1);
    // new Date(year, month + 1, 0): day 0 of the next month
    var lastDay := SetDate(Date(NextMonthYear(year, month), NextMonth(month), 1), 0);
    var startDate := SetDate(firstDay, firstDay.day - Weekday(firstDay));
    var endDate := SetDate(lastDay, lastDay.day + (6 - Weekday(lastDay)));

    ghost var f := DayNumber(firstDay);
    ghost var dim := DaysInMonth(year, month);
    GridEnds(year, month, lastDay, startDate, endDate);

    days := [];
    var currentDay := startDate;
    while DayNumber(currentDay) <= DayNumber(endDate)
      invariant ValidDate(currentDay)
      invariant DayNumber(currentDay) == DayNumber(startDate) + |days|
      invariant DayNumber(currentDay) <= DayNumber(endDate) + 1
      invariant forall i :: 0 <= i < |days| ==> ValidDate(days[i]) && DayNumber(days[i]) == DayNumber(startDate) + i
      invariant forall i :: 0 <= i < |days| - 1 ==> days[i + 1] == NextDay(days[i])
      invariant days != [] ==> currentDay == NextDay(days[|days| - 1])
      decreases DayNumber(endDate) - DayNumber(currentDay)
    {
      ghost var before := days;
      days := days + [currentDay];
      ExtendRun(before, currentDay, DayNumber(startDate));
      NextDayNumber(currentDay);
      currentDay := NextDay(currentDay);
    }
    GridShape(year, month, days, f - Weekday(firstDay));
  }

  /** One more day at the end of a run of consecutive days keeps it a run. */
  lemma ExtendRun(run: seq<Date>, d: Date, s: int)
    requires forall i :: 0 <= i < |run| ==> ValidDate(run[i]) && DayNumber(run[i]) == s + i
    requires forall i :: 0 <= i < |run| - 1 ==> run[i + 1] == NextDay(run[i])
    requires ValidDate(d) && DayNumber(d) == s + |run|
    requires run != [] ==> d == NextDay(run[|run| - 1])
    ensures var longer := run + [d];
            && (forall i :: 0 <= i < |longer| ==> ValidDate(longer[i]) && DayNumber(longer[i]) == s + i)
            && (forall i :: 0 <= i < |longer| - 1 ==> longer[i + 1] == NextDay(longer[i]))
  {
    var longer := run + [d];
    assert forall i :: 0 <= i < |run| ==> longer[i] == run[i];
  }

  /** Where the grid starts and ends, in day numbers: w days before the 1st, and
      6 - (weekday of the last day) days after the last day. */
  lemma GridEnds(y: int, m: int, lastDay: Date, startDate: Date, endDate: Date)
    requires 1 <= m <= 12
    requires lastDay == SetDate(Date(NextMonthYear(y, m), NextMonth(m), 1), 0)
    requires startDate == SetDate(Date(y, m, 1), 1 - Weekday(Date(y, m, 1)))
    requires endDate == SetDate(lastDay, lastDay.day + (6 - Weekday(lastDay)))
    ensures lastDay == Date(y, m, DaysInMonth(y, m))
    ensures DayNumber(startDate) == DayNumber(Date(y, m, 1)) - Weekday(Date(y, m, 1))
    ensures DayNumber(endDate) == DayNumber(lastDay) + 6 - Weekday(lastDay)
  {
    var first := Date(y, m, 1);
    SetDateNumber(Date(NextMonthYear(y, m), NextMonth(m), 1), 0);
    MonthStartStep(y, m);
    DayNumberOrder(lastDay, Date(y, m, DaysInMonth(y, m)));
    SetDateNumber(first, 1 - Weekday(first));
    SetDateNumber(lastDay, lastDay.day + (6 - Weekday(lastDay)));
  }

  /** x == 7 * q + r with 0 <= r < 7 determines x / 7 and x % 7. */
  lemma DivModSeven(x: int, q: int, r: int)
    requires x == 7 * q + r && 0 <= r < 7
    ensures x / 7 == q && x % 7 == r
  {
  }

  /** The arithmetic of the grid's length: with w the weekday of the 1st (day number f)
      and wl that of the last day, the grid has w + dim + 6 - wl cells, a whole number
      of weeks between 4 and 6. */
  lemma GridLength(f: int, dim: int)
    requires 28 <= dim <= 31
    ensures var w, wl := (f + 1) % 7, (f + dim) % 7;
            var n := w + dim + 6 - wl;
            && 28 <= n <= 42 && n % 7 == 0
            && w + dim <= n < w + dim + 7
            && (f - w + 1) % 7 == 0
            && (f - w + n) % 7 == 6
  {
    var w, q := (f + 1) % 7, (f + 1) / 7;
    var k := w + dim - 1;
    var wl, q2 := k % 7, k / 7;
    DivModSeven(f + dim, q + q2, wl);
    var n := w + dim + 6 - wl;
    assert n == 7 * (q2 + 1);
    DivModSeven(n, q2 + 1, 0);
    DivModSeven(f - w + 1, q, 0);
    DivModSeven(f - w + n, q + q2, 6);
  }

  /** Turns the loop's facts (consecutive day numbers from the start) into the shape of
      the grid. */
  lemma GridShape(y: int, m: int, days: seq<Date>, s: int)
    requires 1 <= m <= 12
    requires s == DayNumber(Date(y, m, 1)) - Weekday(Date(y, m, 1))
    requires |days| == DayNumber(Date(y, m, DaysInMonth(y, m))) + 6 - Weekday(Date(y, m, DaysInMonth(y, m))) - s + 1
    requires forall i :: 0 <= i < |days| ==> ValidDate(days[i]) && DayNumber(days[i]) == s + i
    requires forall i :: 0 <= i < |days| - 1 ==> days[i + 1] == NextDay(days[i])
    ensures IsMonthGrid(days, y, m)
  {
    GridWeeks(y, m, days, s);
    GridDistinct(days, s);
    GridRegions(y, m, days, s);
  }

  /** The grid is whole weeks, Sunday to Saturday, covering the month with under a
      week to spare. */
  lemma GridWeeks(y: int, m: int, days: seq<Date>, s: int)
    requires 1 <= m <= 12
    requires s == DayNumber(Date(y, m, 1)) - Weekday(Date(y, m, 1))
    requires |days| == DayNumber(Date(y, m, DaysInMonth(y, m))) + 6 - Weekday(Date(y, m, DaysInMonth(y, m))) - s + 1
    requires forall i :: 0 <= i < |days| ==> DayNumber(days[i]) == s + i
    ensures var w, dim := Weekday(Date(y, m, 1)), DaysInMonth(y, m);
            && 28 <= |days| <= 42 && |days| % 7 == 0
            && w + dim <= |days| < w + dim + 7
            && Weekday(days[0]) == 0 && Weekday(days[|days| - 1]) == 6
  {
    var f := DayNumber(Date(y, m, 1));
    var dim := DaysInMonth(y, m);
    var w := Weekday(Date(y, m, 1));
    assert w == (f + 1) % 7;
    var last := Date(y, m, dim);
    assert DayNumber(last) == f + dim - 1;
    var wl := Weekday(last);
    assert wl == (f + dim) % 7;
    var n := |days|;
    WeekSpan(f, dim, s, n, w, wl);
    assert Weekday(days[0]) == (s + 1) % 7;
    assert Weekday(days[n - 1]) == (s + n) % 7;
  }

  /** The arithmetic of GridWeeks on plain integers. */
  lemma WeekSpan(f: int, dim: int, s: int, n: int, w: int, wl: int)
    requires 28 <= dim <= 31
    requires w == (f + 1) % 7 && wl == (f + dim) % 7
    requires s == f - w && n == f + dim - 1 + 6 - wl - s + 1
    ensures 28 <= n <= 42 && n % 7 == 0
    ensures w + dim <= n < w + dim + 7
    ensures (s + 1) % 7 == 0 && (s + n) % 7 == 6
  {
    GridLength(f, dim);
  }

  /** Cells with distinct day numbers are distinct days. */
  lemma GridDistinct(days: seq<Date>, s: int)
    requires forall i :: 0 <= i < |days| ==> DayNumber(days[i]) == s + i
    ensures forall i, j :: 0 <= i < j < |days| ==> days[i] != days[j]
  {
    forall i, j | 0 <= i < j < |days|
      ensures days[i] != days[j]
    {
      assert DayNumber(days[i]) != DayNumber(days[j]);
    }
  }

  /** The previous month's tail, the month's own days, then the next month's head. */
  lemma GridRegions(y: int, m: int, days: seq<Date>, s: int)
    requires 1 <= m <= 12
    requires s == DayNumber(Date(y, m, 1)) - Weekday(Date(y, m, 1))
    requires |days| < Weekday(Date(y, m, 1)) + DaysInMonth(y, m) + 7
    requires forall i :: 0 <= i < |days| ==> ValidDate(days[i]) && DayNumber(days[i]) == s + i
    ensures var w, dim := Weekday(Date(y, m, 1)), DaysInMonth(y, m);
            var py, pm := PrevMonthYear(y, m), PrevMonth(m);
            && (forall i :: w <= i < w + dim && i < |days| ==> days[i] == Date(y, m, i - w + 1))
            && (forall i :: 0 <= i < w && i < |days| ==> days[i] == Date(py, pm, DaysInMonth(py, pm) - w + 1 + i))
            && (forall i :: w + dim <= i < |days| ==> days[i] == Date(NextMonthYear(y, m), NextMonth(m), i - w - dim + 1))
  {
    forall i | 0 <= i < |days|
      ensures var w, dim := Weekday(Date(y, m, 1)), DaysInMonth(y, m);
              var py, pm := PrevMonthYear(y, m), PrevMonth(m);
              && (w <= i < w + dim ==> days[i] == Date(y, m, i - w + 1))
              && (i < w ==> days[i] == Date(py, pm, DaysInMonth(py, pm) - w + 1 + i))
              && (w + dim <= i ==> days[i] == Date(NextMonthYear(y, m), NextMonth(m), i - w - dim + 1))
    {
      CellOfIndex(y, m, days[i], i);
    }
  }

  /** The date whose day number is i days after the grid's start is the expected day of
      the previous, the current or the next month. */
  lemma CellOfIndex(y: int, m: int, x: Date, i: int)
    requires 1 <= m <= 12 && ValidDate(x)
    requires 0 <= i < Weekday(Date(y, m, 1)) + DaysInMonth(y, m) + 7
    requires DayNumber(x) == DayNumber(Date(y, m, 1)) - Weekday(Date(y, m, 1)) + i
    ensures var w, dim := Weekday(Date(y, m, 1)), DaysInMonth(y, m);
            var py, pm := PrevMonthYear(y, m), PrevMonth(m);
            && (w <= i < w + dim ==> x == Date(y, m, i - w + 1))
            && (i < w ==> x == Date(py, pm, DaysInMonth(py, pm) - w + 1 + i))
            && (w + dim <= i ==> x == Date(NextMonthYear(y, m), NextMonth(m), i - w - dim + 1))
  {
    var w, dim := Weekday(Date(y, m, 1)), DaysInMonth(y, m);
    var py, pm := PrevMonthYear(y, m), PrevMonth(m);
    if i < w {
      var c := Date(py, pm, DaysInMonth(py, pm) - w + 1 + i);
      MonthStartStep(py, pm);
      assert NextMonthYear(py, pm) == y && NextMonth(pm) == m;
      DayNumberOrder(x, c);
    } else if i < w + dim {
      DayNumberOrder(x, Date(y, m, i - w + 1));
    } else {
      MonthStartStep(y, m);
      DayNumberOrder(x, Date(NextMonthYear(y, m), NextMonth(m), i - w - dim + 1));
    }
  }

  /** A cell of the grid as the page renders it. */
  datatype DayCell = DayCell(date: Date, events: seq<CalendarEvent>, isToday: bool, isCurrentMonth: bool, isSelected: bool)

  function OnDate(d: Date): CalendarEvent -> bool {
    (e: CalendarEvent) => e.date == d
  }

  /** One cell: its events by exact date match, and its flags. `isCurrentMonth` compares
      the month only, as `getMonth() === month` does. */
  function Cell(day: Date, selected: Date, today: Date, events: seq<CalendarEvent>): (c: DayCell)
    ensures c.date == day && |c.events| <= |events|
  {
    DayCell(day, Filter(events, OnDate(day)), day == today, day.month == selected.month, day == selected)
  }

  function Cells(days: seq<Date>, selected: Date, today: Date, events: seq<CalendarEvent>): (cells: seq<DayCell>)
    ensures |cells| == |days|
    ensures forall i :: 0 <= i < |days| ==> cells[i] == Cell(days[i], selected, today, events)
  {
    seq(|days|, i requires 0 <= i < |days| => Cell(days[i], selected, today, events))
  }

  /** A cell's events are exactly the events dated that day, in their original order. */
  lemma CellEvents(day: Date, selected: Date, today: Date, events: seq<CalendarEvent>)
    ensures var c := Cell(day, selected, today, events);
            && (forall e :: e in c.events <==> e in events && e.date == day)
            && IsSubsequence(c.events, events)
  {
    FilterMembership(events, OnDate(day));
    FilterIsSubsequence(events, OnDate(day));
  }

  /** In the grid of the selected month exactly one cell is selected, the one at index
      w + day - 1, and exactly the month's own days are flagged as the current month. */
  lemma SelectedCell(days: seq<Date>, selected: Date, today: Date, events: seq<CalendarEvent>)
    requires ValidDate(selected) && IsMonthGrid(days, selected.year, selected.month)
    ensures var cells, w := Cells(days, selected, today, events), Weekday(Date(selected.year, selected.month, 1));
            && w + selected.day - 1 < |cells|
            && (forall i :: 0 <= i < |cells| ==> (cells[i].isSelected <==> i == w + selected.day - 1))
            && (forall i :: 0 <= i < |cells| ==>
                  (cells[i].isCurrentMonth <==> w <= i < w + DaysInMonth(selected.year, selected.month)))
  {
    var y, m := selected.year, selected.month;
    var w, dim := Weekday(Date(y, m, 1)), DaysInMonth(y, m);
    assert days[w + selected.day - 1] == selected;
    forall i | 0 <= i < |days|
      ensures days[i].month == m <==> w <= i < w + dim
    {
      if i < w {
        assert days[i].month == PrevMonth(m);
      } else if i >= w + dim {
        assert days[i].month == NextMonth(m);
      }
    }
  }

  // ---------------------------------------------------------------------------
  // The week summary counts

  function OfType(t: EventType): CalendarEvent -> bool {
    (e: CalendarEvent) => e.eventType == t
  }

  function OfTypeIn(ts: set<EventType>): CalendarEvent -> bool {
    (e: CalendarEvent) => e.eventType in ts
  }

  /** `calendarEvents.filter(e => e.type === t).length`. */
  function TypeCount(events: seq<CalendarEvent>, t: EventType): (n: nat)
    ensures n <= |events|
  {
    |Filter(events, OfType(t))|
  }

  /** Visits, meetings and demos are counted disjointly: together never more than the
      total shown beside them. */
  lemma TypeCountsBounded(events: seq<CalendarEvent>)
    ensures TypeCount(events, Visit) + TypeCount(events, Meeting) + TypeCount(events, Demo) <= |events|
  {
    FilterDisjointCount(events, OfType(Visit), OfType(Meeting), OfTypeIn({Visit, Meeting}));
    FilterDisjointCount(events, OfTypeIn({Visit, Meeting}), OfType(Demo), OfTypeIn({Visit, Meeting, Demo}));
  }

  // ---------------------------------------------------------------------------
  // Upcoming events

  /** `new Date(date + ' ' + startTime).getTime()` up to a constant factor and offset:
      minutes since 0001-01-01 00:00. */
  function EventTime(e: CalendarEvent): int {
    DayNumber(e.date) * MinutesPerDay + Minutes(e.startTime)
  }

  /** The event key orders by date first, then by start time. */
  lemma EventTimeOrder(a: CalendarEvent, b: CalendarEvent)
    requires ValidDate(a.date) && ValidDate(b.date) && ValidClock(a.startTime) && ValidClock(b.startTime)
    ensures EventTime(a) <= EventTime(b) <==>
            (a.date != b.date && DateLessEq(a.date, b.date))
            || (a.date == b.date && Minutes(a.startTime) <= Minutes(b.startTime))
  {
    DayNumberOrder(a.date, b.date);
    var da, db := DayNumber(a.date), DayNumber(b.date);
    if da < db {
      assert da * MinutesPerDay + MinutesPerDay <= db * MinutesPerDay;
    } else if db < da {
      assert db * MinutesPerDay + MinutesPerDay <= da * MinutesPerDay;
    }
  }

  /** `event.date >= today`, a comparison of ISO date strings. */
  function OnOrAfter(today: Date): CalendarEvent -> bool {
    (e: CalendarEvent) => DateLessEq(today, e.date)
  }

  /** The events dated today or later, earliest first. */
  function UpcomingOrder(events: seq<CalendarEvent>, today: Date): seq<CalendarEvent> {
    SortBy(Filter(events, OnOrAfter(today)), EventTime)
  }

  /** The `upcoming-events` list: filter, sort by time, first five. */
  function UpcomingEvents(events: seq<CalendarEvent>, today: Date): (r: seq<CalendarEvent>)
    ensures |r| <= 5
    ensures |r| == if |UpcomingOrder(events, today)| < 5 then |UpcomingOrder(events, today)| else 5
    ensures forall i :: 0 <= i < |r| ==> r[i] in events && DateLessEq(today, r[i].date)
    ensures SortedBy(r, EventTime)
  {
    var candidates := Filter(events, OnOrAfter(today));
    var sorted := SortBy(candidates, EventTime);
    FilterMembership(events, OnOrAfter(today));
    SortBySorted(candidates, EventTime);
    SortByElements(candidates, EventTime);
    SortByPermutation(candidates, EventTime);
    var r := Take(sorted, 5);
    assert forall i :: 0 <= i < |r| ==> r[i] == sorted[i];
    r
  }

  /** The list shows the earliest upcoming events: the first five of them, or all when
      there are fewer, and every upcoming event left out is no earlier than every one
      shown. */
  lemma UpcomingAreEarliest(events: seq<CalendarEvent>, today: Date)
    ensures var r, all := UpcomingEvents(events, today), UpcomingOrder(events, today);
            && r <= all
            && |r| == (if |all| < 5 then |all| else 5)
            && (forall i, k :: 0 <= i < |r| <= k < |all| ==> EventTime(r[i]) <= EventTime(all[k]))
            && multiset(all) == multiset(Filter(events, OnOrAfter(today)))
            && (|Filter(events, OnOrAfter(today))| <= 5 ==> r == all)
  {
    var candidates := Filter(events, OnOrAfter(today));
    SortByPermutation(candidates, EventTime);
    SortBySorted(candidates, EventTime);
  }
}
