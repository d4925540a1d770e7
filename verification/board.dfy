/** The kanban board: six status columns over the caller's listing, and the
    status update a card drop sends. */
module Board {
  import opened Wrappers
  import opened Tables
  import opened Schema
  import opened ApplicationRouter

  /** The column title shown for each status. */
  function Title(s: Status): string {
    match s
    case Applied => "applied"
    case Interviewing => "interviewing"
    case Accepted => "accepted"
    case Archived => "archived"
    case Refused => "refused"
    case Rejected => "rejected"
  }

  /** Every status has a title and no two statuses share one. */
  lemma TitlesDistinct(s: Status, t: Status)
    ensures Title(s) == Title(t) <==> s == t
  {
  }

  /** getApplicationsForStatus: the listed rows in column `s`, in listing order;
      nothing while the listing has not arrived (`data` absent). */
  function ApplicationsForStatus(data: Option<seq<ApplicationWithPosition>>, s: Status): (r: seq<ApplicationWithPosition>)
    ensures data.None? ==> r == []
    ensures data.Some? ==> forall x :: x in r <==> x in data.value && x.application.status == s
    ensures data.Some? ==> forall x :: x in data.value ==>
              multiset(r)[x] == if x.application.status == s then multiset(data.value)[x] else 0
  {
    match data
    case None => []
    case Some(rows) => Filter(rows, (x: ApplicationWithPosition) => x.application.status == s)
  }

  /** A rendered column: its title, the status a drop onto it writes, and its cards. */
  datatype Column = Column(title: string, status: Status, items: seq<ApplicationWithPosition>)

  /** The six columns the board renders, left to right. */
  function Columns(data: Option<seq<ApplicationWithPosition>>): (r: seq<Column>)
    ensures |r| == |Statuses| == 6
    ensures forall i :: 0 <= i < |r| ==>
              r[i].status == Statuses[i] && r[i].title == Title(Statuses[i])
              && r[i].items == ApplicationsForStatus(data, Statuses[i])
  {
    seq(|Statuses|, i requires 0 <= i < |Statuses| =>
      Column(Title(Statuses[i]), Statuses[i], ApplicationsForStatus(data, Statuses[i])))
  }

  function Cards(columns: seq<Column>): seq<seq<ApplicationWithPosition>> {
    seq(|columns|, i requires 0 <= i < |columns| => columns[i].items)
  }

  /** The cards of the six columns, left to right, one after another. */
  function BoardCards(data: seq<ApplicationWithPosition>): seq<ApplicationWithPosition> {
    Concat(Cards(Columns(Some(data))))
  }

  /** The six column filters count each row once in total. */
  lemma StatusCountsAddUp(data: seq<ApplicationWithPosition>, x: ApplicationWithPosition)
    ensures multiset(ApplicationsForStatus(Some(data), Applied))[x]
          + multiset(ApplicationsForStatus(Some(data), Interviewing))[x]
          + multiset(ApplicationsForStatus(Some(data), Accepted))[x]
          + multiset(ApplicationsForStatus(Some(data), Rejected))[x]
          + multiset(ApplicationsForStatus(Some(data), Refused))[x]
          + multiset(ApplicationsForStatus(Some(data), Archived))[x]
          == multiset(data)[x]
  {
  }

  /** The board shows the columns' cards back to back. */
  lemma {:induction false} BoardCardsUnfold(data: seq<ApplicationWithPosition>)
    ensures BoardCards(data) ==
              ApplicationsForStatus(Some(data), Applied)
            + ApplicationsForStatus(Some(data), Interviewing)
            + ApplicationsForStatus(Some(data), Accepted)
            + ApplicationsForStatus(Some(data), Rejected)
            + ApplicationsForStatus(Some(data), Refused)
            + ApplicationsForStatus(Some(data), Archived)
  {
    var cs := Cards(Columns(Some(data)));
    ConcatSix(cs);
    assert cs[0] == ApplicationsForStatus(Some(data), Applied);
    assert cs[1] == ApplicationsForStatus(Some(data), Interviewing);
    assert cs[2] == ApplicationsForStatus(Some(data), Accepted);
    assert cs[3] == ApplicationsForStatus(Some(data), Rejected);
    assert cs[4] == ApplicationsForStatus(Some(data), Refused);
    assert cs[5] == ApplicationsForStatus(Some(data), Archived);
  }

  /** The columns partition the listing: the board shows every listed row
      exactly as many times as the listing holds it, and no other card. */
  lemma {:induction false} ColumnsPartition(data: seq<ApplicationWithPosition>)
    ensures multiset(BoardCards(data)) == multiset(data)
  {
    BoardCardsUnfold(data);
    forall x ensures multiset(BoardCards(data))[x] == multiset(data)[x] {
      StatusCountsAddUp(data, x);
    }
  }

  /** A listed row appears in the column of its own status and in no other. */
  lemma CardInOwnColumnOnly(data: seq<ApplicationWithPosition>, x: ApplicationWithPosition, i: int)
    requires x in data && 0 <= i < 6
    ensures x in Columns(Some(data))[i].items <==> Statuses[i] == x.application.status
  {
  }

  /** Column contents keep the listing's order: filtering the concatenation of
      two listings concatenates the filtered parts. */
  lemma {:induction false} ColumnKeepsOrder(d1: seq<ApplicationWithPosition>, d2: seq<ApplicationWithPosition>, s: Status)
    ensures ApplicationsForStatus(Some(d1 + d2), s) == ApplicationsForStatus(Some(d1), s) + ApplicationsForStatus(Some(d2), s)
  {
    FilterAppend(d1, d2, (x: ApplicationWithPosition) => x.application.status == s);
  }

  /** handleDrop: the update a drop of card `appId` onto column `s` sends. */
  function HandleDrop(appId: Id, s: Status): (r: UpdateInput)
    ensures r.id == appId && r.status == Some(WireName(s))
    ensures r.companyName.None? && r.postUrl.None? && r.positionId.None? && r.submittedAt.None?
  {
    UpdateInput(appId, None, None, Some(WireName(s)), None, None)
  }

  /** A drop moves any application from any status to any other: the update
      succeeds, writes only the status and the update stamp of that row, and
      leaves every other row, position and note as it was. No transition is
      refused and the dropping user need not own the card. */
  lemma DropMovesCard(st: Store, caller: Id, a: Application, s: Status, now: Time)
    requires Valid(st)
    requires a in st.applications
    ensures var r := UpdateApplication(st, caller, HandleDrop(a.id, s), now);
      && r.Ok?
      && r.value.out == a.(status := s, updatedAt := now)
      && r.value.store.positions == st.positions
      && r.value.store.notes == st.notes
      && |r.value.store.applications| == |st.applications|
      && forall i :: 0 <= i < |st.applications| ==>
           r.value.store.applications[i] ==
             (if st.applications[i].id == a.id then a.(status := s, updatedAt := now) else st.applications[i])
  {
  }
}
