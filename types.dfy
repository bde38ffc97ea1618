/** The CRM's entities. Ids are numbers; dates are civil dates and "HH:MM" times are
    clock values; the fields the source declares `T | null` are options; the closed
    string unions are datatypes with their wire names. */
module CrmTypes {

  import opened Wrappers
  import opened CivilDate

  datatype Customer = Customer(
    id: int,
    companyName: string,
    contactName: string,
    position: string,
    email: string,
    phone: string,
    address: string,
    industry: string,
    companySize: string,
    revenue: int,
    status: string,
    assignedSales: string,
    createdDate: string,
    lastContact: string,
    notes: string)

  datatype SalesOpportunity = SalesOpportunity(
    id: int,
    title: string,
    customerId: int,
    customerName: string,
    stage: string,
    probability: int,
    value: int,
    expectedCloseDate: string,
    assignedSales: string,
    createdDate: string,
    lastActivity: string,
    description: string,
    nextAction: string,
    competitorInfo: string,
    decisionMakers: seq<string>)

  datatype Communication = Communication(
    id: int,
    customerId: int,
    customerName: string,
    kind: string,
    date: Date,
    time: Clock,
    duration: Option<int>,
    subject: string,
    summary: string,
    participants: seq<string>,
    nextAction: string,
    priority: string)

  datatype Task = Task(
    id: int,
    title: string,
    description: string,
    customerId: Option<int>,
    customerName: Option<string>,
    assignedTo: string,
    priority: string,
    status: string,
    dueDate: string,
    createdDate: string,
    completedDate: Option<string>,
    kind: string,
    relatedOpportunityId: Option<int>)

  /** `CalendarEvent.type`. */
  datatype EventType = Visit | Meeting | Call | Demo | Other

  /** `CalendarEvent.status`. */
  datatype EventStatus = Scheduled | Completed | Cancelled

  datatype CalendarEvent = CalendarEvent(
    id: int,
    title: string,
    description: string,
    eventType: EventType,
    date: Date,
    startTime: Clock,
    endTime: Clock,
    assignedSales: string,
    customerId: Option<int>,
    customerName: Option<string>,
    location: string,
    status: EventStatus,
    notes: string,
    relatedOpportunityId: Option<int>)

  /** The `type` of a daily-report activity. */
  datatype ActivityType = VisitActivity | CallActivity | EmailActivity | MeetingActivity | ProposalActivity | OtherActivity

  /** 高 / 中 / 低. */
  datatype Priority = High | Medium | Low

  datatype Activity = Activity(
    id: int,
    activityType: ActivityType,
    customerId: Option<int>,
    customerName: string,
    startTime: Clock,
    endTime: Clock,
    description: string,
    result: string,
    nextAction: string,
    priority: Priority)

  /** `workingHours`; `break` is in minutes. */
  datatype WorkingHours = WorkingHours(start: Clock, end: Clock, breakMinutes: int)

  datatype Achievements = Achievements(newLeads: int, meetings: int, proposals: int, contracts: int, revenue: int)

  datatype DailyReport = DailyReport(
    id: int,
    date: Date,
    salesPerson: string,
    workingHours: WorkingHours,
    activities: seq<Activity>,
    achievements: Achievements,
    challenges: string,
    tomorrowPlan: string,
    notes: string,
    createdAt: string,
    updatedAt: string)

  /** One entry of `pipelineAnalysis.stageDistribution`. */
  datatype StageEntry = StageEntry(stage: string, count: int, value: int, probability: int)

  /** One entry of `salesPerformance.salesTeam`. */
  datatype TeamMember = TeamMember(name: string, target: int, achieved: int, progress: int, deals: int, avgDealSize: int)

  /** The parts of `Analytics` the views compute with. */
  datatype Analytics = Analytics(stageDistribution: seq<StageEntry>, salesTeam: seq<TeamMember>)

  // ---------------------------------------------------------------------------
  // The string unions and their wire names

  function EventTypeName(t: EventType): (s: string)
  {
    match t
    case Visit => "visit"
    case Meeting => "meeting"
    case Call => "call"
    case Demo => "demo"
    case Other => "other"
  }

  /** Reading a `type` string; anything outside the union is `None`. */
  function ParseEventType(s: string): (r: Option<EventType>)
  {
    if s == "visit" then Some(Visit)
    else if s == "meeting" then Some(Meeting)
    else if s == "call" then Some(Call)
    else if s == "demo" then Some(Demo)
    else if s == "other" then Some(Other)
    else None
  }

  function EventStatusName(t: EventStatus): (s: string)
  {
    match t
    case Scheduled => "scheduled"
    case Completed => "completed"
    case Cancelled => "cancelled"
  }

  function ParseEventStatus(s: string): (r: Option<EventStatus>)
  {
    if s == "scheduled" then Some(Scheduled)
    else if s == "completed" then Some(Completed)
    else if s == "cancelled" then Some(Cancelled)
    else None
  }

  function ActivityTypeName(t: ActivityType): (s: string)
  {
    match t
    case VisitActivity => "visit"
    case CallActivity => "call"
    case EmailActivity => "email"
    case MeetingActivity => "meeting"
    case ProposalActivity => "proposal"
    case OtherActivity => "other"
  }

  function ParseActivityType(s: string): (r: Option<ActivityType>)
  {
    if s == "visit" then Some(VisitActivity)
    else if s == "call" then Some(CallActivity)
    else if s == "email" then Some(EmailActivity)
    else if s == "meeting" then Some(MeetingActivity)
    else if s == "proposal" then Some(ProposalActivity)
    else if s == "other" then Some(OtherActivity)
    else None
  }

  function PriorityName(p: Priority): (s: string)
  {
    match p
    case High => "高"
    case Medium => "中"
    case Low => "低"
  }

  function ParsePriority(s: string): (r: Option<Priority>)
  {
    if s == "高" then Some(High)
    else if s == "中" then Some(Medium)
    else if s == "低" then Some(Low)
    else None
  }

  /** Each union's name and parse functions are inverse to each other: every member
      reads back as itself, and every string that reads as a member is that member's name. */
  lemma EventTypeNames()
    ensures forall t: EventType :: ParseEventType(EventTypeName(t)) == Some(t)
    ensures forall s: string :: ParseEventType(s).Some? ==> EventTypeName(ParseEventType(s).value) == s
  {
  }

  lemma EventStatusNames()
    ensures forall t: EventStatus :: ParseEventStatus(EventStatusName(t)) == Some(t)
    ensures forall s: string :: ParseEventStatus(s).Some? ==> EventStatusName(ParseEventStatus(s).value) == s
  {
  }

  lemma ActivityTypeNames()
    ensures forall t: ActivityType :: ParseActivityType(ActivityTypeName(t)) == Some(t)
    ensures forall s: string :: ParseActivityType(s).Some? ==> ActivityTypeName(ParseActivityType(s).value) == s
  {
  }

  lemma PriorityNames()
    ensures forall p: Priority :: ParsePriority(PriorityName(p)) == Some(p)
    ensures forall s: string :: ParsePriority(s).Some? ==> PriorityName(ParsePriority(s).value) == s
  {
  }
}
