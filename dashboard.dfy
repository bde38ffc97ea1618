/** The CRM dashboard (src/components/pages/Dashboard.tsx): the sales-team ranking, the
    communication timeline, the open tasks with their completion rate, and today's
    schedule. */
module Dashboard {

  import opened Wrappers
  import opened CivilDate
  import opened CrmTypes
  import opened Seqs
  import opened Text

  /** The dashboard renders only once analytics are loaded. */
  datatype View<T> = LoadingAnalytics | Ready(content: T)

  function WhenLoaded(analytics: Option<Analytics>): (v: View<Analytics>)
    ensures v.LoadingAnalytics? <==> analytics.None?
    ensures v.Ready? ==> v.content == analytics.value
  {
    match analytics
    case None => LoadingAnalytics
    case Some(a) => Ready(a)
  }

  // ---------------------------------------------------------------------------
  // Sales-team ranking

  /** `(a, b) => b.progress - a.progress` as an ascending key. */
  function ByProgressDescending(m: TeamMember): int {
    -m.progress
  }

  /** `salesTeam.sort((a, b) => b.progress - a.progress)`, which reorders the analytics'
      own array in place. The engine's sort is stable; its result is SortBy. */
  method RankSalesTeam(team: array<TeamMember>)
    modifies team
    ensures team[..] == SortBy(old(team[..]), ByProgressDescending)
  {
    var ranked := SortBy(team[..], ByProgressDescending);
    SortByPermutation(team[..], ByProgressDescending);
    forall i | 0 <= i < team.Length {
      team[i] := ranked[i];
    }
  }

  /** The ranking: progress never increases along the list, it holds the same members,
      and members with equal progress keep their order. */
  lemma RankingSpec(team: seq<TeamMember>)
    ensures var ranked := SortBy(team, ByProgressDescending);
            && (forall i, j :: 0 <= i < j < |ranked| ==> ranked[i].progress >= ranked[j].progress)
            && multiset(ranked) == multiset(team)
            && (forall k :: WithKey(ranked, ByProgressDescending, k) == WithKey(team, ByProgressDescending, k))
  {
    SortBySorted(team, ByProgressDescending);
    SortByPermutation(team, ByProgressDescending);
    forall k
      ensures WithKey(SortBy(team, ByProgressDescending), ByProgressDescending, k) == WithKey(team, ByProgressDescending, k)
    {
      SortByStable(team, ByProgressDescending, k);
    }
  }

  // ---------------------------------------------------------------------------
  // Communication timeline

  /** `communications.slice(0, 12)`. */
  function TimelineEntries(communications: seq<Communication>): (r: seq<Communication>)
    ensures |r| <= 12 && r <= communications
    ensures |r| == if |communications| < 12 then |communications| else 12
    ensures |communications| <= 12 ==> r == communications
  {
    Take(communications, 12)
  }

  /** The participants line: the first two names joined with ", ", and "他N名" for the
      N others when there are more than two. Nothing is shown for no participants. */
  datatype ParticipantsLine = NoParticipants | Participants(shown: string, more: Option<nat>)

  function ParticipantsShown(participants: seq<string>): (line: ParticipantsLine)
    ensures line.NoParticipants? <==> participants == []
    ensures line.Participants? ==> line.shown == Join(Take(participants, 2), ", ")
    ensures line.Participants? ==> (line.more.Some? <==> |participants| > 2)
    ensures line.Participants? ==>
              |Take(participants, 2)| + (if line.more.Some? then line.more.value else 0) == |participants|
  {
    if participants == [] then NoParticipants
    else Participants(Join(Take(participants, 2), ", "),
                      if |participants| > 2 then Some(|participants| - 2) else None)
  }

  // ---------------------------------------------------------------------------
  // Tasks

  /** The status of a finished task. */
  const Done: string := "完了"

  function IsOpen(): Task -> bool {
    (t: Task) => t.status != Done
  }

  function IsDone(): Task -> bool {
    (t: Task) => t.status == Done
  }

  /** `tasks.filter(t => t.status !== '完了')`. */
  function OpenTasks(tasks: seq<Task>): (r: seq<Task>)
    ensures |r| <= |tasks|
  {
    Filter(tasks, IsOpen())
  }

  /** `tasks.filter(t => t.status !== '完了').slice(0, 8)`. */
  function TaskList(tasks: seq<Task>): (r: seq<Task>)
    ensures |r| <= 8 && r <= OpenTasks(tasks)
    ensures |r| == if |OpenTasks(tasks)| < 8 then |OpenTasks(tasks)| else 8
  {
    Take(OpenTasks(tasks), 8)
  }

  /** The open count is the number of tasks not done, the open and done tasks make up
      all tasks, and the task list shows open tasks only, in their order. */
  lemma OpenTasksSpec(tasks: seq<Task>)
    ensures |OpenTasks(tasks)| + |Filter(tasks, IsDone())| == |tasks|
    ensures forall t :: t in OpenTasks(tasks) <==> t in tasks && t.status != Done
    ensures forall i :: 0 <= i < |TaskList(tasks)| ==> TaskList(tasks)[i].status != Done && TaskList(tasks)[i] in tasks
    ensures IsSubsequence(OpenTasks(tasks), tasks)
  {
    FilterComplementCount(tasks, IsDone(), IsOpen());
    FilterMembership(tasks, IsOpen());
    FilterIsSubsequence(tasks, IsOpen());
    assert forall i :: 0 <= i < |TaskList(tasks)| ==> TaskList(tasks)[i] == OpenTasks(tasks)[i];
  }

  /** `Math.round(done / total * 100)` for a non-empty list, in whole numbers: the
      percentage nearest to done/total, halves rounded up. */
  function CompletionRate(tasks: seq<Task>): (rate: int)
    requires |tasks| > 0
    ensures 0 <= rate <= 100
    ensures var done, total := |Filter(tasks, IsDone())|, |tasks|;
            2 * total * rate - total <= 200 * done < 2 * total * rate + total
  {
    var done, total := |Filter(tasks, IsDone())|, |tasks|;
    RoundedPercentage(done, total)
  }

  function RoundedPercentage(done: nat, total: nat): (rate: int)
    requires 0 < total && done <= total
    ensures 0 <= rate <= 100
    ensures 2 * total * rate - total <= 200 * done < 2 * total * rate + total
  {
    var a, b := 200 * done + total, 2 * total;
    var rate := a / b;
    DivBounds(a, b, rate);
    RateAtMostHundred(done, total, rate);
    rate
  }

  lemma RateAtMostHundred(done: nat, total: nat, q: int)
    requires 0 < total && done <= total && 2 * total * q <= 200 * done + total
    ensures q <= 100
  {
    if q > 100 {
      MulMonotone(2 * total, 101, q);
    }
  }

  lemma MulMonotone(b: int, x: int, y: int)
    requires b >= 0 && x <= y
    ensures b * x <= b * y
  {
  }

  lemma DivBounds(a: int, b: int, q: int)
    requires b > 0 && a >= 0 && q == a / b
    ensures b * q <= a < b * q + b && q >= 0
  {
  }

  // ---------------------------------------------------------------------------
  // Today's schedule

  function IsOn(today: Date): CalendarEvent -> bool {
    (e: CalendarEvent) => e.date == today
  }

  /** `a.startTime.localeCompare(b.startTime)` on "HH:MM" strings. */
  function StartMinutes(e: CalendarEvent): int {
    Minutes(e.startTime)
  }

  /** The schedule: today's events, by start time, ties in their original order. */
  function TodaySchedule(events: seq<CalendarEvent>, today: Date): (r: seq<CalendarEvent>)
    ensures forall i :: 0 <= i < |r| ==> r[i] in events && r[i].date == today
    ensures SortedBy(r, StartMinutes)
    ensures multiset(r) == multiset(Filter(events, IsOn(today)))
  {
    var todays := Filter(events, IsOn(today));
    FilterMembership(events, IsOn(today));
    SortBySorted(todays, StartMinutes);
    SortByPermutation(todays, StartMinutes);
    var r := SortBy(todays, StartMinutes);
    forall i | 0 <= i < |r|
      ensures r[i] in events && r[i].date == today
    {
      assert r[i] in multiset(todays);
      assert r[i] in todays;
    }
    r
  }

  /** Events of today with the same start time keep their original order. */
  lemma TodayScheduleStable(events: seq<CalendarEvent>, today: Date, t: int)
    ensures WithKey(TodaySchedule(events, today), StartMinutes, t)
            == WithKey(Filter(events, IsOn(today)), StartMinutes, t)
  {
    SortByStable(Filter(events, IsOn(today)), StartMinutes, t);
  }

  /** "今日の予定はありません" is shown iff no event is dated today, which is also
      exactly when the schedule is empty. */
  function ShowsNoSchedule(events: seq<CalendarEvent>, today: Date): (none: bool)
    ensures none <==> forall i :: 0 <= i < |events| ==> events[i].date != today
  {
    var todays := Filter(events, IsOn(today));
    FilterMembership(events, IsOn(today));
    assert todays != [] ==> todays[0] in todays;
    assert forall i :: 0 <= i < |events| ==> events[i] in events;
    |todays| == 0
  }

  lemma NoScheduleSpec(events: seq<CalendarEvent>, today: Date)
    ensures ShowsNoSchedule(events, today) <==> forall i :: 0 <= i < |events| ==> events[i].date != today
    ensures ShowsNoSchedule(events, today) <==> TodaySchedule(events, today) == []
  {
    FilterMembership(events, IsOn(today));
    var r := TodaySchedule(events, today);
    if !ShowsNoSchedule(events, today) {
      var todays := Filter(events, IsOn(today));
      assert todays[0] in multiset(todays);
      assert r != [];
    } else {
      assert |multiset(r)| == 0;
    }
    if exists i :: 0 <= i < |events| && events[i].date == today {
      var i :| 0 <= i < |events| && events[i].date == today;
      assert events[i] in Filter(events, IsOn(today));
    }
  }
}
