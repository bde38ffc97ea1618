/** The daily sales report page (src/components/pages/SalesReport.tsx): a store of
    reports keyed by date, the report being viewed, the editing flag and the form for
    the next activity, with the handlers that change them. `Date.now()` and
    `new Date().toISOString()` are passed in as `now` and `timestamp`. */
module SalesReport {

  import opened Wrappers
  import opened CivilDate
  import opened CrmTypes
  import opened Seqs
  import Text

  // ---------------------------------------------------------------------------
  // Reports and the list they are kept in

  /** The sales person every new report is written by. */
  const SalesPerson: string := "佐藤 花子"

  /** `initializeReport(date)`: a blank report for the date, 09:00 to 18:00 with a
      60-minute break, no activities and all counters at zero. The two `new Date()`
      calls for `createdAt` and `updatedAt` are one clock reading here, `timestamp`. */
  function InitializeReport(date: Date, now: int, timestamp: string): (r: DailyReport)
    ensures r.date == date && r.id == now && r.activities == [] && r.salesPerson == SalesPerson
    ensures r.workingHours.start == Clock(9, 0) && r.workingHours.end == Clock(18, 0)
    ensures r.challenges == r.tomorrowPlan == r.notes == ""
    ensures r.achievements == AchievementsOf(r.activities) && TotalMinutes(r.activities) == 0
    ensures r.workingHours.breakMinutes == 60
    ensures Minutes(r.workingHours.end) - Minutes(r.workingHours.start) - r.workingHours.breakMinutes == 8 * 60
    ensures r.createdAt == r.updatedAt == timestamp
  {
    DailyReport(
      now, date, SalesPerson, WorkingHours(Clock(9, 0), Clock(18, 0), 60), [],
      Achievements(0, 0, 0, 0, 0), "", "", "", timestamp, timestamp)
  }

  /** No two reports of the list share a date. */
  predicate UniqueDates(reports: seq<DailyReport>) {
    forall i, j :: 0 <= i < j < |reports| ==> reports[i].date != reports[j].date
  }

  /** `reports.findIndex(r => r.date === date)`: the first index with that date, or -1. */
  function FindReportIndex(reports: seq<DailyReport>, date: Date): (i: int)
    ensures -1 <= i < |reports|
    ensures 0 <= i ==> reports[i].date == date
    ensures forall j :: 0 <= j < |reports| && (i < 0 || j < i) ==> reports[j].date != date
  {
    if reports == [] then -1
    else if reports[0].date == date then 0
    else
      var k := FindReportIndex(reports[1..], date);
      if k < 0 then -1 else k + 1
  }

  /** `reports.find(r => r.date === date)`. */
  function FindReport(reports: seq<DailyReport>, date: Date): (r: Option<DailyReport>)
    ensures r.Some? <==> exists j :: 0 <= j < |reports| && reports[j].date == date
    ensures r.Some? ==> r.value in reports && r.value.date == date
  {
    var i := FindReportIndex(reports, date);
    if i < 0 then None else Some(reports[i])
  }

  /** `updateReports(report)`: the report replaces the first one with its date, in
      place, or is appended when there is none. */
  function Upserted(reports: seq<DailyReport>, report: DailyReport): (r: seq<DailyReport>)
    ensures FindReport(reports, report.date).Some? ==> |r| == |reports|
    ensures FindReport(reports, report.date).None? ==> |r| == |reports| + 1 && r[|reports|] == report
    ensures forall j :: 0 <= j < |reports| && reports[j].date != report.date ==> r[j] == reports[j]
    ensures FindReport(r, report.date) == Some(report)
    ensures UniqueDates(reports) ==> UniqueDates(r)
  {
    var i := FindReportIndex(reports, report.date);
    var r := if i >= 0 then reports[i := report] else reports + [report];
    assert r[if i >= 0 then i else |reports|] == report;
    r
  }

  /** Upserting leaves the report found under every other date as it was. */
  lemma UpsertedOtherDates(reports: seq<DailyReport>, report: DailyReport, date: Date)
    requires date != report.date
    ensures FindReport(Upserted(reports, report), date) == FindReport(reports, date)
  {
    var r := Upserted(reports, report);
    var i, k := FindReportIndex(reports, date), FindReportIndex(r, date);
    assert forall j :: 0 <= j < |r| && r[j].date == date ==> j < |reports| && r[j] == reports[j];
    if i >= 0 {
      assert r[i] == reports[i];
      assert k == i;
    } else {
      assert k < 0;
    }
  }

  /** Upserting the same report twice is the same as upserting it once. */
  lemma UpsertedIdempotent(reports: seq<DailyReport>, report: DailyReport)
    ensures Upserted(Upserted(reports, report), report) == Upserted(reports, report)
  {
    var r := Upserted(reports, report);
    var i := FindReportIndex(reports, report.date);
    var k := FindReportIndex(r, report.date);
    if i >= 0 {
      assert r[i] == report;
      assert k == i;
    } else {
      assert k == |reports|;
    }
  }

  /** The effect's choice: the stored report of the date, or a blank one. */
  function ReportForDate(reports: seq<DailyReport>, date: Date, now: int, timestamp: string): (r: DailyReport)
    ensures r.date == date
    ensures FindReport(reports, date).Some? ==> r in reports
    ensures FindReport(reports, date).None? ==> r.activities == [] && r.id == now
  {
    match FindReport(reports, date)
    case Some(stored) => stored
    case None => InitializeReport(date, now, timestamp)
  }

  // ---------------------------------------------------------------------------
  // Activities

  /** The `newActivity` form state. */
  datatype ActivityDraft = ActivityDraft(
    activityType: ActivityType,
    customerId: Option<int>,
    customerName: string,
    startTime: Clock,
    endTime: Clock,
    description: string,
    result: string,
    nextAction: string,
    priority: Priority)

  /** The form's initial value and the value it is reset to after an activity is added. */
  const DefaultDraft: ActivityDraft :=
    ActivityDraft(VisitActivity, None, "", Clock(9, 0), Clock(10, 0), "", "", "", Medium)

  /** A customer id as a JavaScript condition: null and 0 are false. */
  predicate IsSetId(id: Option<int>) {
    id.Some? && id.value != 0
  }

  /** `customers.find(c => c.id === id)`. */
  function FindCustomer(customers: seq<Customer>, id: int): (r: Option<Customer>)
    ensures r.Some? ==> r.value in customers && r.value.id == id
    ensures r.None? ==> forall j :: 0 <= j < |customers| ==> customers[j].id != id
    ensures r.Some? ==> exists j :: 0 <= j < |customers| && customers[j] == r.value
                         && forall k :: 0 <= k < j ==> customers[k].id != id
  {
    if customers == [] then None
    else if customers[0].id == id then Some(customers[0])
    else
      var r := FindCustomer(customers[1..], id);
      if r.Some? then
        var j :| 0 <= j < |customers[1..]| && customers[1..][j] == r.value
                 && forall k :: 0 <= k < j ==> customers[1..][k].id != id;
        assert customers[j + 1] == r.value;
        r
      else r
  }

  /** `find(...)?.companyName || fallback`: the customer's company name when the
      customer is found and the name is not empty. */
  function CompanyNameOr(customers: seq<Customer>, id: int, fallback: string): (name: string)
    ensures name == fallback || exists c :: c in customers && c.id == id && c.companyName == name != []
    ensures FindCustomer(customers, id).Some? && FindCustomer(customers, id).value.companyName != []
            ==> name == FindCustomer(customers, id).value.companyName
    ensures FindCustomer(customers, id).None? || FindCustomer(customers, id).value.companyName == []
            ==> name == fallback
  {
    match FindCustomer(customers, id)
    case Some(c) => if c.companyName != [] then c.companyName else fallback
    case None => fallback
  }

  /** The customer name an added activity gets: the selected customer's company name
      when a customer is selected and found, the typed name otherwise. */
  function ActivityCustomerName(draft: ActivityDraft, customers: seq<Customer>): (name: string)
    ensures !IsSetId(draft.customerId) ==> name == draft.customerName
    ensures IsSetId(draft.customerId) ==>
              forall j :: 0 <= j < |customers| && customers[j].id == draft.customerId.value
                          && customers[j].companyName != []
                          && (forall k :: 0 <= k < j ==> customers[k].id != draft.customerId.value)
                          ==> name == customers[j].companyName
    ensures IsSetId(draft.customerId) && (forall j :: 0 <= j < |customers| ==> customers[j].id != draft.customerId.value)
            ==> name == draft.customerName
    ensures name == draft.customerName
            || (IsSetId(draft.customerId)
                && exists c :: c in customers && c.id == draft.customerId.value && c.companyName == name != [])
  {
    if IsSetId(draft.customerId) then CompanyNameOr(customers, draft.customerId.value, draft.customerName)
    else draft.customerName
  }

  /** `{ id: Date.now(), ...newActivity, customerName }`. */
  function NewActivity(draft: ActivityDraft, customers: seq<Customer>, now: int): (a: Activity)
    ensures a.id == now && a.activityType == draft.activityType && a.customerId == draft.customerId
    ensures a.startTime == draft.startTime && a.endTime == draft.endTime && a.priority == draft.priority
    ensures a.customerName == ActivityCustomerName(draft, customers)
    ensures a.description == draft.description && a.result == draft.result && a.nextAction == draft.nextAction
  {
    Activity(now, draft.activityType, draft.customerId, ActivityCustomerName(draft, customers),
             draft.startTime, draft.endTime, draft.description, draft.result, draft.nextAction, draft.priority)
  }

  /** The form's customer select: an empty choice keeps the typed name, a chosen
      customer fills in its company name (or the empty string when it is not found). */
  function DraftWithCustomer(draft: ActivityDraft, choice: Option<int>, customers: seq<Customer>): (d: ActivityDraft)
    ensures d.customerId == choice
    ensures !IsSetId(choice) ==> d.customerName == draft.customerName
    ensures IsSetId(choice) ==> d.customerName == CompanyNameOr(customers, choice.value, "")
    ensures d.(customerId := draft.customerId, customerName := draft.customerName) == draft
  {
    draft.(customerId := choice,
           customerName := if IsSetId(choice) then CompanyNameOr(customers, choice.value, "") else draft.customerName)
  }

  function IdIsNot(id: int): Activity -> bool {
    (a: Activity) => a.id != id
  }

  function IdIs(id: int): Activity -> bool {
    (a: Activity) => a.id == id
  }

  /** `activities.filter(a => a.id !== id)`. */
  function WithoutActivity(activities: seq<Activity>, id: int): (r: seq<Activity>)
    ensures |r| <= |activities|
  {
    Filter(activities, IdIsNot(id))
  }

  /** Deleting by id removes exactly the activities with that id, keeps the others in
      their order, and changes nothing when no activity has the id. */
  lemma {:induction false} WithoutActivityEffect(activities: seq<Activity>, id: int)
    ensures forall a :: a in WithoutActivity(activities, id) <==> a in activities && a.id != id
    ensures IsSubsequence(WithoutActivity(activities, id), activities)
    ensures |WithoutActivity(activities, id)| + |Filter(activities, IdIs(id))| == |activities|
    ensures (forall j :: 0 <= j < |activities| ==> activities[j].id != id) ==> WithoutActivity(activities, id) == activities
  {
    FilterMembership(activities, IdIsNot(id));
    FilterIsSubsequence(activities, IdIsNot(id));
    FilterComplementCount(activities, IdIs(id), IdIsNot(id));
    if forall j :: 0 <= j < |activities| ==> activities[j].id != id {
      KeepAllWithoutId(activities, id);
    }
  }

  lemma {:induction false} KeepAllWithoutId(activities: seq<Activity>, id: int)
    requires forall j :: 0 <= j < |activities| ==> activities[j].id != id
    ensures Filter(activities, IdIsNot(id)) == activities
  {
    if activities != [] {
      KeepAllWithoutId(activities[1..], id);
    }
  }

  // ---------------------------------------------------------------------------
  // Achievements and work time

  function OfActivityTypes(ts: set<ActivityType>): Activity -> bool {
    (a: Activity) => a.activityType in ts
  }

  function CountOf(activities: seq<Activity>, ts: set<ActivityType>): nat {
    |Filter(activities, OfActivityTypes(ts))|
  }

  /** `calculateAchievements`: calls and e-mails are new leads, meetings and visits are
      meetings, proposals are proposals; contracts and revenue are entered by hand
      and start at zero. */
  function AchievementsOf(activities: seq<Activity>): (a: Achievements)
    ensures a.newLeads + a.meetings + a.proposals <= |activities|
    ensures a.newLeads >= 0 && a.meetings >= 0 && a.proposals >= 0
    ensures a.contracts == 0 && a.revenue == 0
  {
    var leads, meetings := {CallActivity, EmailActivity}, {MeetingActivity, VisitActivity};
    FilterDisjointCount(activities, OfActivityTypes(leads), OfActivityTypes(meetings),
                        OfActivityTypes(leads + meetings));
    FilterDisjointCount(activities, OfActivityTypes(leads + meetings), OfActivityTypes({ProposalActivity}),
                        OfActivityTypes(leads + meetings + {ProposalActivity}));
    Achievements(CountOf(activities, leads), CountOf(activities, meetings),
                 CountOf(activities, {ProposalActivity}), 0, 0)
  }

  /** Appending one activity raises exactly the counter its type belongs to, by one. */
  lemma AchievementsAppend(activities: seq<Activity>, x: Activity)
    ensures var before, after := AchievementsOf(activities), AchievementsOf(activities + [x]);
            var t := x.activityType;
            && after.newLeads == before.newLeads + (if t == CallActivity || t == EmailActivity then 1 else 0)
            && after.meetings == before.meetings + (if t == MeetingActivity || t == VisitActivity then 1 else 0)
            && after.proposals == before.proposals + (if t == ProposalActivity then 1 else 0)
  {
    FilterConcat(activities, [x], OfActivityTypes({CallActivity, EmailActivity}));
    FilterConcat(activities, [x], OfActivityTypes({MeetingActivity, VisitActivity}));
    FilterConcat(activities, [x], OfActivityTypes({ProposalActivity}));
  }

  /** The counters do not depend on the order of the activities. */
  lemma AchievementsOrderFree(a: seq<Activity>, b: seq<Activity>)
    requires multiset(a) == multiset(b)
    ensures AchievementsOf(a) == AchievementsOf(b)
  {
    FilterCountPermutation(a, b, OfActivityTypes({CallActivity, EmailActivity}));
    FilterCountPermutation(a, b, OfActivityTypes({MeetingActivity, VisitActivity}));
    FilterCountPermutation(a, b, OfActivityTypes({ProposalActivity}));
  }

  /** Minutes from an activity's start to its end; negative when it ends before it starts. */
  function Duration(a: Activity): int {
    Minutes(a.endTime) - Minutes(a.startTime)
  }

  /** `calculateTotalWorkTime`: the sum of the activities' durations, 0 for none. */
  function TotalMinutes(activities: seq<Activity>): (t: int)
    ensures (forall j :: 0 <= j < |activities| ==> Duration(activities[j]) >= 0) ==> t >= 0
    ensures (forall j :: 0 <= j < |activities| ==> ValidClock(activities[j].startTime) && ValidClock(activities[j].endTime))
            ==> -MinutesPerDay * |activities| <= t <= MinutesPerDay * |activities|
  {
    if activities == [] then 0 else Duration(activities[0]) + TotalMinutes(activities[1..])
  }

  lemma {:induction false} TotalMinutesAppend(a: seq<Activity>, b: seq<Activity>)
    ensures TotalMinutes(a + b) == TotalMinutes(a) + TotalMinutes(b)
  {
    if a == [] {
      assert a + b == b;
    } else {
      assert (a + b)[0] == a[0];
      assert (a + b)[1..] == a[1..] + b;
      calc {
        TotalMinutes(a + b);
        Duration(a[0]) + TotalMinutes(a[1..] + b);
        { TotalMinutesAppend(a[1..], b); }
        Duration(a[0]) + TotalMinutes(a[1..]) + TotalMinutes(b);
        TotalMinutes(a) + TotalMinutes(b);
      }
    }
  }

  /** The key of `a.startTime.localeCompare(b.startTime)` on "HH:MM" strings. */
  function StartKey(a: Activity): int {
    Minutes(a.startTime)
  }

  lemma {:induction false} TotalMinutesInsert(x: Activity, s: seq<Activity>)
    ensures TotalMinutes(InsertBy(x, s, StartKey)) == Duration(x) + TotalMinutes(s)
  {
    if s != [] && StartKey(x) > StartKey(s[0]) {
      TotalMinutesInsert(x, s[1..]);
    }
  }

  /** Sorting the activities for display does not change the total work time. */
  lemma {:induction false} TotalMinutesSorted(activities: seq<Activity>)
    ensures TotalMinutes(SortBy(activities, StartKey)) == TotalMinutes(activities)
  {
    if activities != [] {
      TotalMinutesSorted(activities[1..]);
      TotalMinutesInsert(activities[0], SortBy(activities[1..], StartKey));
    }
  }

  /** A multiple of a positive divisor leaves no remainder. */
  lemma MultipleHasNoRemainder(q: int, b: int)
    requires b > 0
    ensures (b * q) % b == 0
  {
    var d, r := (b * q) / b, (b * q) % b;
    assert b * (q - d) == r;
    OnlyZeroMultipleBelow(q - d, b);
  }

  /** The only multiple of b in 0..b-1 is zero. */
  lemma OnlyZeroMultipleBelow(k: int, b: int)
    requires b > 0 && 0 <= b * k < b
    ensures k == 0
  {
  }

  /** The truncated remainder differs from the dividend by a multiple of the divisor. */
  lemma TruncatedRemainder(a: int, b: int, r: int)
    requires b > 0
    requires a >= 0 ==> r == a % b
    requires a < 0 ==> r == -((-a) % b)
    ensures (a - r) % b == 0
  {
    if a >= 0 {
      assert a - r == b * (a / b);
      MultipleHasNoRemainder(a / b, b);
    } else {
      var q := (-a) / b;
      assert -a == b * q + (-a) % b;
      assert a - r == b * -q;
      MultipleHasNoRemainder(-q, b);
    }
  }

  /** JavaScript's `%` on a positive divisor: the remainder has the sign of the dividend. */
  function JsRemainder(a: int, b: int): (r: int)
    requires b > 0
    ensures -b < r < b && (a >= 0 ==> r >= 0) && (a < 0 ==> r <= 0)
    ensures (a - r) % b == 0
  {
    var r := if a >= 0 then a % b else -((-a) % b);
    TruncatedRemainder(a, b, r);
    r
  }

  /** The work-time summary as the page computes it:
      `Math.floor(total / 60)` hours and `total % 60` minutes. JavaScript's `%` leaves
      what remains after removing whole hours counted towards zero, so the minutes of a
      negative total are negative. */
  function WorkTimeAsWritten(total: int): (hm: (int, int))
    ensures hm.0 * 60 <= total < hm.0 * 60 + 60
    ensures -60 < hm.1 < 60 && (total < 0 ==> hm.1 <= 0)
    ensures total >= 0 ==> hm.0 * 60 + hm.1 == total
    ensures (total - hm.1) % 60 == 0
  {
    (total / 60, JsRemainder(total, 60))
  }

  /** For a negative total the minutes are the total less the whole hours counted
      towards zero: -90 minutes shows -30, not the 30 a floored remainder would give. */
  lemma WorkTimeAsWrittenNegative(total: int)
    requires total < 0
    ensures WorkTimeAsWritten(total).1 == total - 60 * -((-total) / 60)
  {
  }

  /** A total that is negative (an activity ending before it starts) is split into
      hours and minutes that do not add up to it: -30 minutes shows as -1 h -30 min. */
  lemma WorkTimeAsWrittenMismatch()
    ensures WorkTimeAsWritten(-30) == (-1, -30)
    ensures WorkTimeAsWritten(-30).0 * 60 + WorkTimeAsWritten(-30).1 != -30
  {
  }

  /** The split into whole hours and remaining minutes 0..59 that adds up to the total. */
  function WorkTime(total: int): (hm: (int, int))
    ensures 0 <= hm.1 < 60 && hm.0 * 60 + hm.1 == total
  {
    (total / 60, total % 60)
  }

  /** For the totals the page expects (not negative) both splits agree. */
  lemma WorkTimeAgrees(total: int)
    requires total >= 0
    ensures WorkTimeAsWritten(total) == WorkTime(total)
  {
  }

  /** Replaces the activities of every report with the given date (there is at most
      one): the in-place sort reorders the array that report shares. */
  function WithActivities(reports: seq<DailyReport>, date: Date, activities: seq<Activity>): (r: seq<DailyReport>)
    ensures |r| == |reports|
    ensures forall j :: 0 <= j < |r| ==> r[j] == if reports[j].date == date then reports[j].(activities := activities) else reports[j]
  {
    seq(|reports|, j requires 0 <= j < |reports| =>
      if reports[j].date == date then reports[j].(activities := activities) else reports[j])
  }

  // ---------------------------------------------------------------------------
  // The page's state

  /** The five counters of the achievements form, one number input each. */
  datatype Counter = NewLeads | Meetings | Proposals | Contracts | Revenue

  /** The value a counter input shows. */
  function CounterValue(a: Achievements, c: Counter): int {
    match c
    case NewLeads => a.newLeads
    case Meetings => a.meetings
    case Proposals => a.proposals
    case Contracts => a.contracts
    case Revenue => a.revenue
  }

  /** `{ ...achievements, [counter]: n }`: the counter reads n, every other counter
      keeps its value. */
  function WithCounter(a: Achievements, c: Counter, n: int): (r: Achievements)
    ensures CounterValue(r, c) == n
    ensures forall d :: d != c ==> CounterValue(r, d) == CounterValue(a, d)
  {
    match c
    case NewLeads => a.(newLeads := n)
    case Meetings => a.(meetings := n)
    case Proposals => a.(proposals := n)
    case Contracts => a.(contracts := n)
    case Revenue => a.(revenue := n)
  }

  /** The three free-text areas: challenges, tomorrow's plan and notes. */
  datatype Reflection = Challenges | TomorrowPlan | Notes

  /** The text a text area shows. */
  function ReflectionText(report: DailyReport, f: Reflection): string {
    match f
    case Challenges => report.challenges
    case TomorrowPlan => report.tomorrowPlan
    case Notes => report.notes
  }

  /** `{ ...report, [field]: text }`: the area reads the new text, the other areas and
      every other field of the report are unchanged. */
  function WithReflection(report: DailyReport, f: Reflection, text: string): (r: DailyReport)
    ensures ReflectionText(r, f) == text
    ensures forall g :: g != f ==> ReflectionText(r, g) == ReflectionText(report, g)
    ensures r.(challenges := report.challenges, tomorrowPlan := report.tomorrowPlan, notes := report.notes) == report
  {
    match f
    case Challenges => report.(challenges := text)
    case TomorrowPlan => report.(tomorrowPlan := text)
    case Notes => report.(notes := text)
  }

  class ReportStore {
    var selectedDate: Date
    var currentReport: Option<DailyReport>
    var isEditing: bool
    var reports: seq<DailyReport>
    var newActivity: ActivityDraft

    /** The list holds one report per date; the report on screen is for the selected
        date and, when the list has a report for that date, shares its activities. */
    ghost predicate Valid()
      reads this
    {
      && UniqueDates(reports)
      && (currentReport.Some? ==>
            && currentReport.value.date == selectedDate
            && (FindReport(reports, selectedDate).Some? ==>
                  FindReport(reports, selectedDate).value.activities == currentReport.value.activities))
    }

    /** The state before the first effect has run: no report yet (the page shows
        "Loading..."). */
    constructor (today: Date)
      ensures Valid()
      ensures selectedDate == today && currentReport == None && !isEditing
      ensures reports == [] && newActivity == DefaultDraft
    {
      selectedDate := today;
      currentReport := None;
      isEditing := false;
      reports := [];
      newActivity := DefaultDraft;
    }

    /** The effect on `[selectedDate, reports]`: show the stored report of the selected
        date, or a fresh one, and leave editing mode. */
    method SyncWithSelectedDate(now: int, timestamp: string)
      requires UniqueDates(reports)
      modifies this`currentReport, this`isEditing
      ensures Valid()
      ensures currentReport == Some(ReportForDate(reports, selectedDate, now, timestamp))
      ensures FindReport(reports, selectedDate).Some? ==> currentReport == FindReport(reports, selectedDate)
      ensures !isEditing
    {
      currentReport := Some(ReportForDate(reports, selectedDate, now, timestamp));
      isEditing := false;
    }

    /** The date picker. Picking the date already selected changes no state, so the
        effect does not run and the report on screen and editing mode stay as they are. */
    method SelectDate(date: Date, now: int, timestamp: string)
      requires Valid()
      modifies this`selectedDate, this`currentReport, this`isEditing
      ensures Valid()
      ensures selectedDate == date
      ensures old(selectedDate) != date ==>
                currentReport == Some(ReportForDate(reports, date, now, timestamp)) && !isEditing
      ensures old(selectedDate) == date ==>
                currentReport == old(currentReport) && isEditing == old(isEditing)
    {
      if date != selectedDate {
        selectedDate := date;
        SyncWithSelectedDate(now, timestamp);
      }
    }

    /** The editing-mode button. */
    method ToggleEditing()
      requires Valid()
      modifies this`isEditing
      ensures Valid() && isEditing == !old(isEditing)
    {
      isEditing := !isEditing;
    }

    /** The customer select of the activity form. */
    method SelectDraftCustomer(choice: Option<int>, customers: seq<Customer>)
      requires Valid()
      modifies this`newActivity
      ensures Valid() && newActivity == DraftWithCustomer(old(newActivity), choice, customers)
    {
      newActivity := DraftWithCustomer(newActivity, choice, customers);
    }

    /** `handleAddActivity`: append the drafted activity to the report on screen, store
        the report, reset the form; the effect then re-reads the stored report and
        leaves editing mode. Without a report nothing happens. */
    method AddActivity(customers: seq<Customer>, now: int, timestamp: string)
      requires Valid()
      modifies this`currentReport, this`reports, this`newActivity, this`isEditing
      ensures Valid()
      ensures old(currentReport).None? ==>
                currentReport == None && reports == old(reports) && newActivity == old(newActivity)
                && isEditing == old(isEditing)
      ensures old(currentReport).Some? ==>
                var before := old(currentReport).value;
                var added := NewActivity(old(newActivity), customers, now);
                && currentReport == Some(before.(activities := before.activities + [added], updatedAt := timestamp))
                && reports == Upserted(old(reports), currentReport.value)
                && FindReport(reports, selectedDate) == currentReport
                && newActivity == DefaultDraft && !isEditing
    {
      if currentReport.None? {
        return;
      }
      var before := currentReport.value;
      var added := NewActivity(newActivity, customers, now);
      var updated := before.(activities := before.activities + [added], updatedAt := timestamp);
      currentReport := Some(updated);
      reports := Upserted(reports, updated);
      newActivity := DefaultDraft;
      SyncWithSelectedDate(now, timestamp);
    }

    /** `handleDeleteActivity`: drop the activities with that id from the report on
        screen and store it; the effect then re-reads it. */
    method DeleteActivity(id: int, now: int, timestamp: string)
      requires Valid()
      modifies this`currentReport, this`reports, this`isEditing
      ensures Valid()
      ensures old(currentReport).None? ==>
                currentReport == None && reports == old(reports) && isEditing == old(isEditing)
      ensures old(currentReport).Some? ==>
                var before := old(currentReport).value;
                && currentReport == Some(before.(activities := WithoutActivity(before.activities, id), updatedAt := timestamp))
                && reports == Upserted(old(reports), currentReport.value)
                && FindReport(reports, selectedDate) == currentReport
                && !isEditing
    {
      if currentReport.None? {
        return;
      }
      var before := currentReport.value;
      var updated := before.(activities := WithoutActivity(before.activities, id), updatedAt := timestamp);
      currentReport := Some(updated);
      reports := Upserted(reports, updated);
      SyncWithSelectedDate(now, timestamp);
    }

    /** `handleSaveReport`: store the report on screen with a new update time and leave
        editing mode (the confirmation alert is not modelled). */
    method SaveReport(now: int, timestamp: string)
      requires Valid()
      modifies this`currentReport, this`reports, this`isEditing
      ensures Valid()
      ensures old(currentReport).None? ==>
                currentReport == None && reports == old(reports) && isEditing == old(isEditing)
      ensures old(currentReport).Some? ==>
                && currentReport == Some(old(currentReport).value.(updatedAt := timestamp))
                && reports == Upserted(old(reports), currentReport.value)
                && FindReport(reports, selectedDate) == currentReport
                && !isEditing
    {
      if currentReport.None? {
        return;
      }
      var updated := currentReport.value.(updatedAt := timestamp);
      reports := Upserted(reports, updated);
      isEditing := false;
      SyncWithSelectedDate(now, timestamp);
    }

    /** `calculateAchievements`: recompute the counters of the report on screen. The
        stored list is not touched, so no effect runs. */
    method CalculateAchievements(timestamp: string)
      requires Valid()
      modifies this`currentReport
      ensures Valid()
      ensures old(currentReport).None? ==> currentReport == None
      ensures old(currentReport).Some? ==>
                var before := old(currentReport).value;
                currentReport == Some(before.(achievements := AchievementsOf(before.activities), updatedAt := timestamp))
    {
      if currentReport.None? {
        return;
      }
      var before := currentReport.value;
      currentReport := Some(before.(achievements := AchievementsOf(before.activities), updatedAt := timestamp));
    }

    /** The start-time input. Its handler is guarded by `isEditing &&`, so outside
        editing mode nothing changes. */
    method EditStart(time: Clock)
      requires Valid()
      modifies this`currentReport
      ensures Valid()
      ensures !isEditing || old(currentReport).None? ==> currentReport == old(currentReport)
      ensures isEditing && old(currentReport).Some? ==>
                var before := old(currentReport).value;
                currentReport == Some(before.(workingHours := before.workingHours.(start := time)))
    {
      if isEditing && currentReport.Some? {
        var before := currentReport.value;
        currentReport := Some(before.(workingHours := before.workingHours.(start := time)));
      }
    }

    /** The end-time input, guarded by `isEditing &&` like the start time. */
    method EditEnd(time: Clock)
      requires Valid()
      modifies this`currentReport
      ensures Valid()
      ensures !isEditing || old(currentReport).None? ==> currentReport == old(currentReport)
      ensures isEditing && old(currentReport).Some? ==>
                var before := old(currentReport).value;
                currentReport == Some(before.(workingHours := before.workingHours.(end := time)))
    {
      if isEditing && currentReport.Some? {
        var before := currentReport.value;
        currentReport := Some(before.(workingHours := before.workingHours.(end := time)));
      }
    }

    /** The break input: guarded by `isEditing &&`, and the typed text is read with
        `parseInt(value) || 0`. */
    method EditBreak(text: string)
      requires Valid()
      modifies this`currentReport
      ensures Valid()
      ensures !isEditing || old(currentReport).None? ==> currentReport == old(currentReport)
      ensures isEditing && old(currentReport).Some? ==>
                var before := old(currentReport).value;
                currentReport == Some(before.(workingHours := before.workingHours.(breakMinutes := Text.ParseIntOrZero(text))))
    {
      if isEditing && currentReport.Some? {
        var before := currentReport.value;
        currentReport := Some(before.(workingHours := before.workingHours.(breakMinutes := Text.ParseIntOrZero(text))));
      }
    }

    /** A counter input of the achievements form, read with `parseInt(value) || 0`. The
        inputs are rendered only in editing mode; the handler itself has no guard. */
    method EditCounter(c: Counter, text: string)
      requires Valid()
      modifies this`currentReport
      ensures Valid()
      ensures old(currentReport).None? ==> currentReport == None
      ensures old(currentReport).Some? ==>
                var before := old(currentReport).value;
                currentReport == Some(before.(achievements := WithCounter(before.achievements, c, Text.ParseIntOrZero(text))))
    {
      if currentReport.Some? {
        var before := currentReport.value;
        currentReport := Some(before.(achievements := WithCounter(before.achievements, c, Text.ParseIntOrZero(text))));
      }
    }

    /** A text area (challenges, tomorrow's plan, notes), stored as typed. The areas are
        rendered only in editing mode; the handler itself has no guard. */
    method EditReflection(f: Reflection, text: string)
      requires Valid()
      modifies this`currentReport
      ensures Valid()
      ensures old(currentReport).None? ==> currentReport == None
      ensures old(currentReport).Some? ==> currentReport == Some(WithReflection(old(currentReport).value, f, text))
    {
      if currentReport.Some? {
        currentReport := Some(WithReflection(currentReport.value, f, text));
      }
    }

    /** The render's `activities.sort(...)` by start time. It sorts the array in place,
        and that array is also the activities of the stored report of the selected date
        when there is one, so both see the new order. No state setter runs. */
    method SortActivitiesForDisplay()
      requires Valid()
      modifies this`currentReport, this`reports
      ensures Valid()
      ensures old(currentReport).None? ==> currentReport == None && reports == old(reports)
      ensures old(currentReport).Some? ==>
                var before := old(currentReport).value;
                var sorted := SortBy(before.activities, StartKey);
                && currentReport == Some(before.(activities := sorted))
                && reports == WithActivities(old(reports), selectedDate, sorted)
                && SortedBy(sorted, StartKey)
                && multiset(sorted) == multiset(before.activities)
                && TotalMinutes(sorted) == TotalMinutes(before.activities)
                && AchievementsOf(sorted) == AchievementsOf(before.activities)
    {
      if currentReport.None? {
        return;
      }
      var before := currentReport.value;
      var sorted := SortBy(before.activities, StartKey);
      SortBySorted(before.activities, StartKey);
      SortByPermutation(before.activities, StartKey);
      TotalMinutesSorted(before.activities);
      AchievementsOrderFree(sorted, before.activities);
      var old_reports := reports;
      currentReport := Some(before.(activities := sorted));
      reports := WithActivities(reports, selectedDate, sorted);
      WithActivitiesFind(old_reports, selectedDate, sorted);
    }
  }

  /** Replacing the activities under one date keeps the dates, so the same report is
      found, now with the new activities. */
  lemma WithActivitiesFind(reports: seq<DailyReport>, date: Date, activities: seq<Activity>)
    ensures UniqueDates(reports) ==> UniqueDates(WithActivities(reports, date, activities))
    ensures FindReport(WithActivities(reports, date, activities), date).Some? <==> FindReport(reports, date).Some?
    ensures FindReport(reports, date).Some? ==>
              FindReport(WithActivities(reports, date, activities), date)
              == Some(FindReport(reports, date).value.(activities := activities))
  {
    var r := WithActivities(reports, date, activities);
    assert forall j :: 0 <= j < |r| ==> r[j].date == reports[j].date;
    var i := FindReportIndex(reports, date);
    var k := FindReportIndex(r, date);
    if i >= 0 {
      assert k == i;
    }
  }
}
