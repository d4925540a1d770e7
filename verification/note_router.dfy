/** The note router: list, create and delete the notes of an application, each
    gated on the caller owning that application. */
module NoteRouter {
  import opened Wrappers
  import opened Tables
  import opened Schema

  /** A reference the permission check follows: the check tests the note's
      `applicationId` for truthiness, so an empty id counts as no reference. */
  predicate Truthy(ref: Option<Id>) {
    ref.Some? && ref.value != ""
  }

  /** The caller owns the application the note with id `noteId` is attached to. */
  ghost predicate NoteOwnedBy(st: Store, noteId: Id, caller: Id) {
    exists n, a :: n in st.notes && a in st.applications
      && n.id == noteId && n.applicationId == Some(a.id) && a.id != "" && a.userId == Some(caller)
  }

  /** A note with id `noteId` exists and holds a truthy application reference. */
  ghost predicate AttachedNote(st: Store, noteId: Id) {
    exists n :: n in st.notes && n.id == noteId && Truthy(n.applicationId)
  }

  /** checkPermission: loads the note, then its application, then compares the
      owner. A missing note, or one whose application reference is null or
      empty, is Internal; a missing application or another owner is
      Unauthorized. */
  function CheckPermission(st: Store, caller: Id, noteId: Id): (r: Outcome)
    ensures Valid(st) ==> (r == Pass <==> NoteOwnedBy(st, noteId, caller))
    ensures Valid(st) ==> (r == Fail(Internal) <==> !AttachedNote(st, noteId))
    ensures r.Fail? ==> r.error == Internal || r.error == Unauthorized
  {
    match NoteById(st, noteId)
    case None => Fail(Internal)
    case Some(n) =>
      match n.applicationId
      case None => Fail(Internal)
      case Some(appId) =>
        if appId == "" then Fail(Internal)
        else match ApplicationById(st, appId)
          case None => Fail(Unauthorized)
          case Some(a) => if a.userId != Some(caller) then Fail(Unauthorized) else Pass
  }

  /** The two checks getNotes and createNote make on the parent application: an
      unknown application is Internal, another owner's is Unauthorized. */
  function CheckApplication(st: Store, caller: Id, applicationId: Id): (r: Outcome)
    ensures r == Fail(Internal) <==> !HasApplication(st, applicationId)
    ensures r.Fail? ==> r.error == Internal || r.error == Unauthorized
    ensures Valid(st) ==> (r == Fail(Unauthorized) <==>
              exists a :: a in st.applications && a.id == applicationId && !OwnedBy(a, caller))
    ensures Valid(st) ==> (r == Pass <==>
              exists a :: a in st.applications && a.id == applicationId && OwnedBy(a, caller))
  {
    match ApplicationById(st, applicationId)
    case None => Fail(Internal)
    case Some(a) => if a.userId != Some(caller) then Fail(Unauthorized) else Pass
  }

  /** getNotes: the notes attached to an application the caller owns. */
  function GetNotes(st: Store, caller: Id, applicationId: Id): (r: Result<seq<Note>>)
    ensures r.Err? <==> CheckApplication(st, caller, applicationId).Fail?
    ensures r.Err? ==> r.error == CheckApplication(st, caller, applicationId).error
    ensures r.Ok? ==> forall n :: n in r.value <==> n in st.notes && n.applicationId == Some(applicationId)
    ensures r.Ok? ==> forall n :: n in st.notes ==>
              multiset(r.value)[n] == if n.applicationId == Some(applicationId) then multiset(st.notes)[n] else 0
  {
    match CheckApplication(st, caller, applicationId)
    case Fail(e) => Err(e)
    case Pass => Ok(Filter(st.notes, (n: Note) => n.applicationId == Some(applicationId)))
  }

  /** The createNote request body; `content` has no length bound. */
  datatype NoteInput = NoteInput(applicationId: Id, content: string)

  /** createNote: after the same two checks as getNotes, inserts the note with
      the generated id `freshId`; a key already taken makes the insert fail. */
  function CreateNote(st: Store, caller: Id, input: NoteInput, freshId: Id, now: Time): (r: Result<Change<Note>>)
    ensures CheckApplication(st, caller, input.applicationId).Fail? ==>
              r == Err(CheckApplication(st, caller, input.applicationId).error)
    ensures CheckApplication(st, caller, input.applicationId).Pass? ==>
              (r.Err? <==> HasNote(st, freshId)) && (r.Err? ==> r.error == Internal)
    ensures r.Ok? ==> var n := r.value.out;
      && n.id == freshId
      && n.applicationId == Some(input.applicationId)
      && n.content == input.content
      && n.createdAt == now && n.updatedAt == now
      && r.value.store == st.(notes := st.notes + [n])
  {
    match CheckApplication(st, caller, input.applicationId)
    case Fail(e) => Err(e)
    case Pass =>
      if NoteById(st, freshId).Some? then Err(Internal)
      else
        var n := Note(freshId, input.content, Some(input.applicationId), now, now);
        Ok(Change(st.(notes := st.notes + [n]), n))
  }

  /** deleteNote: checkPermission first; then removes the note and answers its
      id, or Internal when nothing was deleted. */
  function DeleteNote(st: Store, caller: Id, id: Id): (r: Result<Change<Id>>)
    ensures CheckPermission(st, caller, id).Fail? ==> r == Err(CheckPermission(st, caller, id).error)
    ensures r.Ok? <==> CheckPermission(st, caller, id).Pass?
    ensures Valid(st) ==> (r.Ok? <==> NoteOwnedBy(st, id, caller))
    ensures r.Ok? ==> var st' := r.value.store;
      && r.value.out == id
      && st'.positions == st.positions && st'.applications == st.applications
      && (forall n :: n in st'.notes <==> n in st.notes && n.id != id)
  {
    match CheckPermission(st, caller, id)
    case Fail(e) => Err(e)
    case Pass =>
      match NoteById(st, id)
      case None => Err(Internal)
      case Some(deleted) =>
        Ok(Change(st.(notes := Filter(st.notes, (n: Note) => n.id != id)), deleted.id))
  }

  /** Inserting a note keeps the table guarantees: its application exists. */
  lemma CreateNotePreservesValid(st: Store, caller: Id, input: NoteInput, freshId: Id, now: Time)
    requires Valid(st)
    requires CreateNote(st, caller, input, freshId, now).Ok?
    ensures Valid(CreateNote(st, caller, input, freshId, now).value.store)
  {
  }

  /** Deleting a note keeps the table guarantees. */
  lemma {:induction false} DeleteNotePreservesValid(st: Store, caller: Id, id: Id)
    requires Valid(st) && NoteOwnedBy(st, id, caller)
    ensures Valid(DeleteNote(st, caller, id).value.store)
  {
    FilterUnique(st.notes, NoteKey, (n: Note) => n.id != id);
  }

  /** The request schema puts no lower bound on the content: an empty note is
      stored verbatim on an application the caller owns. */
  lemma EmptyNoteIsStored(st: Store, caller: Id, a: Application, freshId: Id, now: Time)
    requires Valid(st)
    requires a in st.applications && OwnedBy(a, caller)
    requires !HasNote(st, freshId)
    ensures CreateNote(st, caller, NoteInput(a.id, ""), freshId, now).Ok?
    ensures CreateNote(st, caller, NoteInput(a.id, ""), freshId, now).value.out.content == ""
  {
  }

  /** A created note is listed by getNotes for its application. */
  lemma CreatedNoteIsListed(st: Store, caller: Id, input: NoteInput, freshId: Id, now: Time)
    requires CreateNote(st, caller, input, freshId, now).Ok?
    ensures var c := CreateNote(st, caller, input, freshId, now).value;
      GetNotes(c.store, caller, input.applicationId).Ok? &&
      c.out in GetNotes(c.store, caller, input.applicationId).value
  {
  }

  /** In a valid store a note that has an application always finds it: the
      foreign key rules out the "application missing" half of the Unauthorized
      branch, so Unauthorized means exactly "another user's note". */
  lemma UnauthorizedMeansOtherOwner(st: Store, caller: Id, noteId: Id)
    requires Valid(st)
    ensures CheckPermission(st, caller, noteId) == Fail(Unauthorized) <==>
      exists n, a :: n in st.notes && a in st.applications && n.id == noteId
        && n.applicationId == Some(a.id) && a.id != "" && a.userId != Some(caller)
  {
  }
}
