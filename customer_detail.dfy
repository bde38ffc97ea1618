/** The customer detail page (src/components/pages/CustomerDetail.tsx): the customer's
    communication history, newest first, its count and empty state, and the status
    badge's class. */
module CustomerDetail {

  import opened CivilDate
  import opened CrmTypes
  import opened Seqs
  import opened Text

  function ForCustomer(id: int): Communication -> bool {
    (c: Communication) => c.customerId == id
  }

  /** `communications.filter(comm => comm.customerId === customer.id)`. */
  function CustomerCommunications(communications: seq<Communication>, customer: Customer): (r: seq<Communication>)
    ensures |r| <= |communications|
  {
    Filter(communications, ForCustomer(customer.id))
  }

  /** The history holds exactly the customer's communications, in their original order. */
  lemma CustomerCommunicationsSpec(communications: seq<Communication>, customer: Customer)
    ensures forall c :: c in CustomerCommunications(communications, customer) <==>
              c in communications && c.customerId == customer.id
    ensures IsSubsequence(CustomerCommunications(communications, customer), communications)
  {
    FilterMembership(communications, ForCustomer(customer.id));
    FilterIsSubsequence(communications, ForCustomer(customer.id));
  }

  /** `new Date(date + ' ' + time).getTime()` up to a constant factor and offset. */
  function CommunicationTime(c: Communication): int {
    DayNumber(c.date) * MinutesPerDay + Minutes(c.time)
  }

  /** `(a, b) => time(b) - time(a)` as an ascending key. */
  function NewestFirst(c: Communication): int {
    -CommunicationTime(c)
  }

  /** The timeline: the customer's communications, newest first. */
  function History(communications: seq<Communication>, customer: Customer): (r: seq<Communication>)
    ensures forall i :: 0 <= i < |r| ==> r[i] in communications && r[i].customerId == customer.id
    ensures forall i, j :: 0 <= i < j < |r| ==> CommunicationTime(r[i]) >= CommunicationTime(r[j])
    ensures multiset(r) == multiset(CustomerCommunications(communications, customer))
  {
    var mine := CustomerCommunications(communications, customer);
    CustomerCommunicationsSpec(communications, customer);
    SortBySorted(mine, NewestFirst);
    SortByPermutation(mine, NewestFirst);
    var r := SortBy(mine, NewestFirst);
    assert forall i :: 0 <= i < |r| ==> r[i] in multiset(mine);
    r
  }

  /** Communications with the same date and time keep their original order. */
  lemma HistoryStable(communications: seq<Communication>, customer: Customer, t: int)
    ensures WithKey(History(communications, customer), NewestFirst, -t)
            == WithKey(CustomerCommunications(communications, customer), NewestFirst, -t)
  {
    SortByStable(CustomerCommunications(communications, customer), NewestFirst, -t);
  }

  /** The "総コミュニケーション数" figure. */
  function CommunicationCount(communications: seq<Communication>, customer: Customer): (count: nat)
    ensures count <= |communications|
  {
    |CustomerCommunications(communications, customer)|
  }

  /** The count is the length of the timeline, and the empty placeholder is shown
      exactly when the customer has no communication. */
  lemma CountSpec(communications: seq<Communication>, customer: Customer)
    ensures CommunicationCount(communications, customer) == |History(communications, customer)|
    ensures CommunicationCount(communications, customer) == 0 <==>
              forall i :: 0 <= i < |communications| ==> communications[i].customerId != customer.id
  {
    var mine := CustomerCommunications(communications, customer);
    SortByPermutation(mine, NewestFirst);
    CustomerCommunicationsSpec(communications, customer);
    if exists i :: 0 <= i < |communications| && communications[i].customerId == customer.id {
      var i :| 0 <= i < |communications| && communications[i].customerId == customer.id;
      assert communications[i] in mine;
    }
  }

  /** `status-${status.replace(/\s+/g, '-')}`. */
  function StatusClass(status: string): (c: string)
    ensures |c| >= 7 && c[..7] == "status-"
    ensures NoWhitespace(c)
    ensures Visible(c[7..]) == Visible(status)
    ensures NoWhitespace(status) ==> c == "status-" + status
  {
    var c := "status-" + ReplaceWhitespaceRuns(status);
    assert c[7..] == ReplaceWhitespaceRuns(status);
    ReplaceRunsKeepsText(status, false);
    KeepsCleanStatus(status);
    c
  }

  /** Each maximal run of white space in the status becomes exactly one '-' of the
      class name, and the text around it is carried over as it is replaced on its own. */
  lemma StatusClassRuns(a: string, w: string, b: string)
    requires w != [] && AllWhitespace(w)
    requires a == [] || !IsWhitespace(a[|a| - 1])
    requires b == [] || !IsWhitespace(b[0])
    ensures StatusClass(a + w + b) == StatusClass(a) + "-" + ReplaceWhitespaceRuns(b)
  {
    ReplaceRunsCollapse(a, w, b);
    var x, y := ReplaceWhitespaceRuns(a), ReplaceWhitespaceRuns(b);
    assert "status-" + (x + "-" + y) == ("status-" + x) + "-" + y;
  }

  lemma KeepsCleanStatus(status: string)
    ensures NoWhitespace(status) ==> ReplaceWhitespaceRuns(status) == status
  {
    if NoWhitespace(status) {
      ReplaceRunsNoWhitespace(status, false);
    }
  }
}
