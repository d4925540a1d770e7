/** The application router: list, create, update and delete applications.
    Every handler receives the signed-in caller's id; update and delete never
    look at it. */
module ApplicationRouter {
  import opened Wrappers
  import opened Tables
  import opened Schema

  /** One row of the listing: an application left-joined with its position. */
  datatype ApplicationWithPosition = ApplicationWithPosition(application: Application, position: Option<Position>)

  /** The applications of a listing, in listing order. */
  function Applications(rows: seq<ApplicationWithPosition>): seq<Application> {
    seq(|rows|, i requires 0 <= i < |rows| => rows[i].application)
  }

  /** The position the left join on `position.id = application.positionId` finds for `a`. */
  function JoinedPosition(st: Store, a: Application): (r: Option<Position>)
    ensures r.Some? ==> r.value in st.positions && a.positionId == Some(r.value.id)
    ensures r.None? ==> forall p :: p in st.positions ==> a.positionId != Some(p.id)
  {
    match a.positionId
    case None => None
    case Some(pid) => PositionById(st, pid)
  }

  /** getApplications: the caller's applications, each paired with its position or none. */
  function GetApplications(st: Store, caller: Id): (r: seq<ApplicationWithPosition>)
    ensures forall a :: a in Applications(r) <==> a in st.applications && OwnedBy(a, caller)
    ensures forall a :: a in st.applications ==>
              multiset(Applications(r))[a] == if OwnedBy(a, caller) then multiset(st.applications)[a] else 0
    ensures forall row :: row in r && row.position.Some? ==>
              row.position.value in st.positions && row.application.positionId == Some(row.position.value.id)
    ensures forall row :: row in r && row.position.None? ==>
              forall p :: p in st.positions ==> row.application.positionId != Some(p.id)
  {
    var owned := Filter(st.applications, a => OwnedBy(a, caller));
    var r := seq(|owned|, i requires 0 <= i < |owned| => ApplicationWithPosition(owned[i], JoinedPosition(st, owned[i])));
    assert Applications(r) == owned;
    r
  }

  /** The createApplication request body. The schema has no `userId` or
      `status` field, so a request cannot carry either. */
  datatype CreateInput = CreateInput(
    companyName: string,
    postUrl: Option<string>,
    positionId: Option<Id>,
    submittedAt: Option<Time>)

  /** createApplication: inserts a row owned by the caller. `freshId` is the
      generated primary key and `now` the clock; a key that is already taken or
      a `positionId` naming no position makes the insert fail. */
  function CreateApplication(st: Store, caller: Id, input: CreateInput, freshId: Id, now: Time): (r: Result<Change<Application>>)
    ensures r.Err? <==> HasApplication(st, freshId) || (input.positionId.Some? && !HasPosition(st, input.positionId.value))
    ensures r.Err? ==> r.error == Internal
    ensures r.Ok? ==> var a := r.value.out;
      && a.id == freshId
      && a.userId == Some(caller)
      && a.status == Applied
      && a.companyName == input.companyName
      && a.postUrl == input.postUrl
      && a.positionId == input.positionId
      && a.submittedAt == input.submittedAt.ValueOr(now)
      && a.createdAt == now && a.updatedAt == now
      && r.value.store == st.(applications := st.applications + [a])
  {
    if ApplicationById(st, freshId).Some? then Err(Internal)
    else if input.positionId.Some? && PositionById(st, input.positionId.value).None? then Err(Internal)
    else
      var a := Application(
        id := freshId,
        companyName := input.companyName,
        postUrl := input.postUrl,
        userId := Some(caller),
        status := Applied,
        positionId := input.positionId,
        submittedAt := input.submittedAt.ValueOr(now),
        createdAt := now,
        updatedAt := now);
      Ok(Change(st.(applications := st.applications + [a]), a))
  }

  /** The updateApplication request body: every field but `id` is optional, and
      `status` arrives as its wire value. */
  datatype UpdateInput = UpdateInput(
    id: Id,
    companyName: Option<string>,
    postUrl: Option<string>,
    status: Option<string>,
    positionId: Option<Id>,
    submittedAt: Option<Time>)

  /** The row after an update: fields the request leaves out keep their value,
      and `updatedAt` is restamped. */
  function Patch(a: Application, input: UpdateInput, status: Option<Status>, now: Time): Application {
    a.(companyName := input.companyName.ValueOr(a.companyName),
       postUrl := if input.postUrl.Some? then input.postUrl else a.postUrl,
       status := status.ValueOr(a.status),
       positionId := if input.positionId.Some? then input.positionId else a.positionId,
       submittedAt := input.submittedAt.ValueOr(a.submittedAt),
       updatedAt := now)
  }

  /** updateApplication: a partial update of the row with the given id, whoever owns it. */
  function UpdateApplication(st: Store, caller: Id, input: UpdateInput, now: Time): (r: Result<Change<Application>>)
    ensures r == Err(Invalid) <==> input.status.Some? && ParseStatus(input.status.value).None?
    ensures r == Err(Internal) <==>
              && (input.status.Some? ==> ParseStatus(input.status.value).Some?)
              && (!HasApplication(st, input.id) || (input.positionId.Some? && !HasPosition(st, input.positionId.value)))
    ensures r.Err? ==> r.error == Invalid || r.error == Internal
    ensures r.Ok? <==>
              && (input.status.Some? ==> ParseStatus(input.status.value).Some?)
              && HasApplication(st, input.id)
              && (input.positionId.Some? ==> HasPosition(st, input.positionId.value))
    ensures r.Ok? ==> var prior := ApplicationById(st, input.id).value; var a := r.value.out;
      && prior in st.applications && prior.id == input.id
      && a.id == prior.id && a.userId == prior.userId && a.createdAt == prior.createdAt
      && a.updatedAt == now
      && a.companyName == (if input.companyName.Some? then input.companyName.value else prior.companyName)
      && a.postUrl == (if input.postUrl.Some? then input.postUrl else prior.postUrl)
      && (input.status.None? ==> a.status == prior.status)
      && (input.status.Some? ==> WireName(a.status) == input.status.value)
      && a.positionId == (if input.positionId.Some? then input.positionId else prior.positionId)
      && a.submittedAt == (if input.submittedAt.Some? then input.submittedAt.value else prior.submittedAt)
    ensures r.Ok? ==> var st' := r.value.store;
      && st'.positions == st.positions && st'.notes == st.notes
      && |st'.applications| == |st.applications|
      && (forall i :: 0 <= i < |st.applications| && st.applications[i].id != input.id ==>
            st'.applications[i] == st.applications[i])
      && (Valid(st) ==> forall i :: 0 <= i < |st.applications| && st.applications[i].id == input.id ==>
            st'.applications[i] == r.value.out)
  {
    var status := if input.status.Some? then ParseStatus(input.status.value) else None;
    if input.status.Some? && status.None? then Err(Invalid)
    else match ApplicationById(st, input.id)
      case None => Err(Internal)
      case Some(current) =>
        if input.positionId.Some? && PositionById(st, input.positionId.value).None? then Err(Internal)
        else
          var apps := st.applications;
          var apps' := seq(|apps|, i requires 0 <= i < |apps| =>
                             if apps[i].id == input.id then Patch(apps[i], input, status, now) else apps[i]);
          Ok(Change(st.(applications := apps'), Patch(current, input, status, now)))
  }

  /** deleteApplication: removes the row with the given id, whoever owns it; the
      note table's cascading foreign key removes the notes attached to it. */
  function DeleteApplication(st: Store, caller: Id, id: Id): (r: Result<Change<Id>>)
    ensures r.Err? <==> !HasApplication(st, id)
    ensures r.Err? ==> r.error == Internal
    ensures r.Ok? ==> var st' := r.value.store;
      && r.value.out == id
      && st'.positions == st.positions
      && (forall a :: a in st'.applications <==> a in st.applications && a.id != id)
      && (forall n :: n in st'.notes <==> n in st.notes && n.applicationId != Some(id))
  {
    match ApplicationById(st, id)
    case None => Err(Internal)
    case Some(deleted) =>
      var apps' := Filter(st.applications, (a: Application) => a.id != id);
      var notes' := Filter(st.notes, (n: Note) => n.applicationId != Some(id));
      Ok(Change(Store(st.positions, apps', notes'), deleted.id))
  }

  /** An insert keeps the table guarantees. */
  lemma CreateApplicationPreservesValid(st: Store, caller: Id, input: CreateInput, freshId: Id, now: Time)
    requires Valid(st)
    requires CreateApplication(st, caller, input, freshId, now).Ok?
    ensures Valid(CreateApplication(st, caller, input, freshId, now).value.store)
  {
  }

  /** A created application is listed for its creator, in the first column of
      the board, with matching creation and update stamps. */
  lemma CreatedApplicationIsListed(st: Store, caller: Id, input: CreateInput, freshId: Id, now: Time)
    requires CreateApplication(st, caller, input, freshId, now).Ok?
    ensures var c := CreateApplication(st, caller, input, freshId, now).value;
      && c.out in Applications(GetApplications(c.store, caller))
      && c.out.status == Applied
      && c.out.createdAt == c.out.updatedAt
  {
  }

  /** A partial update keeps the table guarantees. */
  lemma UpdateApplicationPreservesValid(st: Store, caller: Id, input: UpdateInput, now: Time)
    requires Valid(st)
    requires UpdateApplication(st, caller, input, now).Ok?
    ensures Valid(UpdateApplication(st, caller, input, now).value.store)
  {
  }

  /** updateApplication never consults the caller: the answer is the same for
      every signed-in user. */
  lemma UpdateIgnoresCaller(st: Store, caller: Id, other: Id, input: UpdateInput, now: Time)
    ensures UpdateApplication(st, caller, input, now) == UpdateApplication(st, other, input, now)
  {
  }

  /** Any signed-in user can rewrite an application someone else owns. */
  lemma NonOwnerCanUpdate(st: Store, stranger: Id, a: Application, input: UpdateInput, now: Time)
    requires Valid(st)
    requires a in st.applications && !OwnedBy(a, stranger)
    requires input.id == a.id && input.positionId.None?
    requires input.status.Some? ==> ParseStatus(input.status.value).Some?
    ensures UpdateApplication(st, stranger, input, now).Ok?
    ensures UpdateApplication(st, stranger, input, now).value.out.userId == a.userId
  {
  }

  /** Deleting an application and, by cascade, its notes keeps the table guarantees. */
  lemma {:induction false} DeleteApplicationPreservesValid(st: Store, caller: Id, id: Id)
    requires Valid(st) && HasApplication(st, id)
    ensures Valid(DeleteApplication(st, caller, id).value.store)
  {
    var st' := DeleteApplication(st, caller, id).value.store;
    FilterUnique(st.applications, ApplicationKey, (a: Application) => a.id != id);
    FilterUnique(st.notes, NoteKey, (n: Note) => n.applicationId != Some(id));
    forall a | a in st'.applications && a.positionId.Some? ensures HasPosition(st', a.positionId.value) {
      assert a in st.applications;
    }
    forall n | n in st'.notes && n.applicationId.Some? ensures HasApplication(st', n.applicationId.value) {
      var a :| a in st.applications && a.id == n.applicationId.value;
      assert a in st'.applications;
    }
  }

  /** deleteApplication never consults the caller either. */
  lemma DeleteIgnoresCaller(st: Store, caller: Id, other: Id, id: Id)
    ensures DeleteApplication(st, caller, id) == DeleteApplication(st, other, id)
  {
  }

  /** After a delete, no application has that id and no note points at it, so
      deleting it again fails with Internal. */
  lemma DeleteRemovesEveryTrace(st: Store, caller: Id, id: Id)
    requires HasApplication(st, id)
    ensures var st' := DeleteApplication(st, caller, id).value.store;
      && !HasApplication(st', id)
      && (forall n :: n in st'.notes ==> n.applicationId != Some(id))
      && DeleteApplication(st', caller, id) == Err(Internal)
  {
  }
}
