/** The three tables of the store (application, note, position), their rows,
    and the facts the table definitions guarantee about any reachable store. */
module Schema {
  import opened Wrappers
  import opened Tables

  type Id = Key

  /** A timestamp column, as an abstract instant supplied by the caller's clock. */
  type Time = int

  /** The kanban stages: the application status enum. */
  datatype Status = Applied | Interviewing | Accepted | Rejected | Refused | Archived

  /** Every status, in the order the board lays out its columns. */
  const Statuses: seq<Status> := [Applied, Interviewing, Accepted, Rejected, Refused, Archived]

  /** The value a status takes on the wire and in the database enum. */
  function WireName(s: Status): string {
    match s
    case Applied => "APPLIED"
    case Interviewing => "INTERVIEWING"
    case Accepted => "ACCEPTED"
    case Rejected => "REJECTED"
    case Refused => "REFUSED"
    case Archived => "ARCHIVED"
  }

  /** The enum check a request schema applies to a status field: a wire value
      is accepted exactly when it names one of the six statuses. */
  function ParseStatus(w: string): (r: Option<Status>)
    ensures r.None? ==> forall s :: WireName(s) != w
    ensures r.Some? ==> WireName(r.value) == w
  {
    if w == "APPLIED" then Some(Applied)
    else if w == "INTERVIEWING" then Some(Interviewing)
    else if w == "ACCEPTED" then Some(Accepted)
    else if w == "REJECTED" then Some(Rejected)
    else if w == "REFUSED" then Some(Refused)
    else if w == "ARCHIVED" then Some(Archived)
    else None
  }

  /** Parsing inverts the wire encoding. */
  lemma ParseWireName(s: Status)
    ensures ParseStatus(WireName(s)) == Some(s)
  {
  }

  /** A role a user tags applications with. Every column is non-null. */
  datatype Position = Position(id: Id, name: string, color: string, userId: Id)

  /** A tracked job application. `postUrl`, `userId` and `positionId` are
      nullable columns; `status` is non-null. */
  datatype Application = Application(
    id: Id,
    companyName: string,
    postUrl: Option<string>,
    userId: Option<Id>,
    status: Status,
    positionId: Option<Id>,
    submittedAt: Time,
    createdAt: Time,
    updatedAt: Time)

  /** A free-text note. `content` is non-null, `applicationId` is nullable. */
  datatype Note = Note(id: Id, content: string, applicationId: Option<Id>, createdAt: Time, updatedAt: Time)

  /** The database: each table as its rows in storage order. */
  datatype Store = Store(positions: seq<Position>, applications: seq<Application>, notes: seq<Note>)

  /** A handler's successful answer: the store after the request and the response body. */
  datatype Change<T> = Change(store: Store, out: T)

  predicate OwnedBy(a: Application, caller: Id) {
    a.userId == Some(caller)
  }

  function PositionKey(p: Position): Id { p.id }
  function ApplicationKey(a: Application): Id { a.id }
  function NoteKey(n: Note): Id { n.id }

  function PositionById(st: Store, id: Id): Option<Position> { Lookup(st.positions, PositionKey, id) }
  function ApplicationById(st: Store, id: Id): Option<Application> { Lookup(st.applications, ApplicationKey, id) }
  function NoteById(st: Store, id: Id): Option<Note> { Lookup(st.notes, NoteKey, id) }

  ghost predicate HasPosition(st: Store, id: Id) { HasKey(st.positions, PositionKey, id) }
  ghost predicate HasApplication(st: Store, id: Id) { HasKey(st.applications, ApplicationKey, id) }
  ghost predicate HasNote(st: Store, id: Id) { HasKey(st.notes, NoteKey, id) }

  /** What the table definitions guarantee of every store the handlers can reach:
      primary keys are unique, an application's `positionId` names an existing
      position, and a note's `applicationId` names an existing application
      (the note's foreign key cascades, so deleting an application cannot
      leave one dangling). */
  ghost predicate Valid(st: Store) {
    && Unique(st.positions, PositionKey)
    && Unique(st.applications, ApplicationKey)
    && Unique(st.notes, NoteKey)
    && (forall a :: a in st.applications && a.positionId.Some? ==> HasPosition(st, a.positionId.value))
    && (forall n :: n in st.notes && n.applicationId.Some? ==> HasApplication(st, n.applicationId.value))
  }
}
