# jobtrail core in Dafny

A model of the server-side handlers and client-side decision logic of
jobtrail, a job-application tracker. The model covers:

- the application, note and position routers (oRPC procedures over a Postgres
  store through an ORM);
- the three tables those routers read and write;
- the add-application dialog's role resolution;
- the kanban board's status columns and card drop.

Each handler is a pure function from a store and a request to either
`Ok(Change(store', output))` or `Err(kind)`. The error kinds are `Invalid`
(the request schema refused the input), `Internal` (INTERNAL_SERVER_ERROR) and
`Unauthorized`. An error carries no store, so a failed request never changes
the database. The dialog's submit sends up to two requests, so it answers a
`Submission`: the store after the requests that ran, and the last answer. A
position created by the first request stays even if the second one fails.
The signed-in caller's id, the generated primary key and the
clock reading are parameters.

Files, one module each:

- `wrappers.dfy`: `Option`, `Result`, `Outcome`, `ErrorKind`.
- `tables.dfy`: a table is its rows in storage order. It defines first-match
  lookup (a select followed by `.at(0)`, or an array `find`), filtering, and
  the primary-key constraint.
- `schema.dfy`: the `Status` enum and its wire values, the `Position`,
  `Application` and `Note` rows, the `Store`, a handler's `Change`, and `Valid`. `Valid` is what the
  table definitions guarantee: unique ids, `positionId` names an existing
  position, and `applicationId` names an existing application.
- `application_router.dfy`, `note_router.dfy`, `position_router.dfy`: the
  handlers, with lemmas that every write keeps `Valid`.
- `board.dfy`: the status columns and `handleDrop`.
- `add_application_dialog.dfy`: `formSchema` and the submit handler.

Store errors count as `Internal`: an insert under a key that is already taken,
or an insert or update whose `positionId` names no position. The driver throws
in those cases, and the RPC layer reports any error it does not recognise as
INTERNAL_SERVER_ERROR. A collision with a freshly generated id is not expected
in practice, so the model turns the source's "no row returned" branches into
these store errors instead of requiring fresh ids.

The model keeps the source's own gaps and proves them as lemmas:

- `updateApplication` and `deleteApplication` never compare the owner with the
  caller (the source marks this TODO).
- `createPosition` inserts without looking at the caller's other position
  names (packages/api/src/routers/position.ts:40-48), and the `name` column
  has no unique constraint (packages/db/src/schema/position.ts:8). Two
  positions of one user can therefore share a name.
- A board drop sends the target column's status with no look at the card's
  current status (apps/web/src/components/board.tsx:36-38). A card can thus
  move from any status to any other.
- A note's content may be empty (packages/api/src/routers/note.ts:67-70).
- A note's `applicationId` column is nullable
  (packages/db/src/schema/notes.ts:9). The permission check tests it for
  truthiness (packages/api/src/routers/note.ts:12), so a null or empty
  reference is answered with Internal.

## Model

| member | source | states |
|---|---|---|
| Tables.Lookup | packages/api/src/routers/note.ts:11 | a by-id select followed by `.at(0)` returns a row with that id, returns none exactly when no row has it, and under unique keys returns the one row that has it |
| Tables.Filter | apps/web/src/components/board.tsx:25 | a filter keeps exactly the rows that satisfy the condition, each as often as it occurs |
| Tables.FilterAppend | apps/web/src/components/board.tsx:25 | filtering distributes over concatenation, so it preserves the relative order of rows |
| Tables.FilterUnique | packages/db/src/schema/applications.ts:12-14 | removing rows never creates a duplicate primary key |
| Schema.ParseStatus | packages/api/src/routers/application.ts:63 | a status field is accepted only if it is one of the six enum wire values, and it is read back as the status with that wire value |
| Schema.ParseWireName | packages/db/src/schema/applications.ts:6-9 | every enum value passes the status check and comes back as itself |
| ApplicationRouter.JoinedPosition | packages/api/src/routers/application.ts:23 | the left join pairs an application with a stored position whose id equals its positionId, or with none when no stored position has that id |
| ApplicationRouter.GetApplications | packages/api/src/routers/application.ts:16-25 | the listing holds exactly the caller's applications, each as often as it is stored; null-owner and other users' rows are excluded; each row's position is the one its positionId names, or none |
| ApplicationRouter.CreateApplication | packages/api/src/routers/application.ts:34-57 | it fails with Internal exactly when the generated id is taken or the positionId names no position; otherwise it appends one row. The row has the caller as owner, status APPLIED, the request's fields, submittedAt defaulting to now, and createdAt = updatedAt = now |
| ApplicationRouter.CreateApplicationPreservesValid | packages/db/src/schema/applications.ts:11-28 | an insert keeps unique ids and keeps every positionId and note applicationId pointing at an existing row |
| ApplicationRouter.CreatedApplicationIsListed | packages/api/src/routers/application.ts:39-50 | a created application appears in its creator's listing with status APPLIED and updatedAt equal to createdAt |
| ApplicationRouter.UpdateApplication | packages/api/src/routers/application.ts:68-93 | a status outside the enum is Invalid; an unknown id or a dangling positionId is Internal; no other error, Unauthorized included, is ever answered. Every other request succeeds, and then each field left out keeps its old value, each field given takes the new value, updatedAt becomes now, and owner and createdAt never change. Every other row, position and note is untouched |
| ApplicationRouter.UpdateApplicationPreservesValid | packages/db/src/schema/applications.ts:21-27 | a partial update keeps unique ids and all references intact |
| ApplicationRouter.UpdateIgnoresCaller | packages/api/src/routers/application.ts:73-84 | the answer of an update is the same for every signed-in caller: there is no ownership check |
| ApplicationRouter.NonOwnerCanUpdate | packages/api/src/routers/application.ts:73-86 | a user who does not own an application can still update it successfully, and the owner stays as it was |
| ApplicationRouter.DeleteApplication | packages/api/src/routers/application.ts:103-118 | it fails with Internal exactly when no application has the id; otherwise it answers that id and removes exactly the rows with that id and, by cascade, exactly the notes attached to it, leaving positions untouched |
| ApplicationRouter.DeleteApplicationPreservesValid | packages/db/src/schema/notes.ts:9-11 | thanks to the cascade, deleting an application leaves no note pointing at a missing application |
| ApplicationRouter.DeleteIgnoresCaller | packages/api/src/routers/application.ts:108-110 | the answer of a delete is the same for every signed-in caller: there is no ownership check |
| ApplicationRouter.DeleteRemovesEveryTrace | packages/api/src/routers/application.ts:109-117 | after a delete no row has that id and no note refers to it, so a repeated delete fails with Internal |
| NoteRouter.CheckPermission | packages/api/src/routers/note.ts:10-28 | in a valid store it passes exactly when the note exists, refers to an application by a non-empty id, and that application belongs to the caller. It fails with Internal exactly when the note is missing or its reference is null or the empty string (both falsy), and with Unauthorized otherwise |
| NoteRouter.UnauthorizedMeansOtherOwner | packages/api/src/routers/note.ts:17-27 | in a valid store, Unauthorized from the permission check means the note refers by a non-empty id to an application that belongs to someone else; the "application missing" case cannot occur |
| NoteRouter.CheckApplication | packages/api/src/routers/note.ts:42-57 | an unknown application is Internal, and the only other failure is Unauthorized; in a valid store, another user's application is Unauthorized and the caller's own passes |
| NoteRouter.GetNotes | packages/api/src/routers/note.ts:38-65 | it fails exactly as the application check does; on success it returns exactly the notes attached to that application, each as often as stored |
| NoteRouter.CreateNote | packages/api/src/routers/note.ts:72-98 | it applies the same two checks first; then it fails with Internal exactly when the generated id is taken, or else appends one note carrying the given application id and content, stamped now |
| NoteRouter.CreateNotePreservesValid | packages/db/src/schema/notes.ts:4-17 | a note insert keeps unique ids and the note's reference to an existing application |
| NoteRouter.EmptyNoteIsStored | packages/api/src/routers/note.ts:67-70 | empty content on the caller's own application is accepted and stored verbatim |
| NoteRouter.CreatedNoteIsListed | packages/api/src/routers/note.ts:58-61 | a created note is then listed by getNotes for its application |
| NoteRouter.DeleteNote | packages/api/src/routers/note.ts:108-123 | a failed permission check is passed on unchanged, and a passing one always leads to a successful delete. In a valid store the delete succeeds exactly when the note refers by a non-empty id to an application the caller owns; it then answers the id and removes only notes with that id, leaving applications and positions untouched |
| NoteRouter.DeleteNotePreservesValid | packages/api/src/routers/note.ts:114-116 | deleting a note keeps the table guarantees |
| PositionRouter.GetAvailablePositions | packages/api/src/routers/position.ts:14-23 | the result holds exactly the positions owned by the caller, each as often as stored |
| PositionRouter.CreatePosition | packages/api/src/routers/position.ts:25-55 | a missing colour or one the hex check refuses is Invalid (any name is accepted); a taken id is Internal; no other error is answered. Every other request succeeds and appends a position with the given name and colour owned by the caller |
| PositionRouter.CreatePositionPreservesValid | packages/db/src/schema/position.ts:4-13 | a position insert keeps unique ids and all references intact |
| PositionRouter.CreatedPositionIsListed | packages/api/src/routers/position.ts:17-20 | a created position is listed for its creator |
| PositionRouter.NoDuplicateNameCheck | packages/api/src/routers/position.ts:40-48 | two creations with the same name both succeed and leave two distinct positions of that name owned by the caller |
| Board.TitlesDistinct | apps/web/src/components/board.tsx:7-14 | the title map is total and no two statuses share a title |
| Board.ApplicationsForStatus | apps/web/src/components/board.tsx:22-30 | a column holds exactly the listed rows of its status, each as often as listed, and is empty while the listing is absent |
| Board.ColumnsPartition | apps/web/src/components/board.tsx:55-90 | the cards of the six columns together are a permutation of the listing: every row is shown exactly once per listing occurrence |
| Board.CardInOwnColumnOnly | apps/web/src/components/board.tsx:24-27 | a listed row is in the column of its own status and in no other |
| Board.ColumnKeepsOrder | apps/web/src/components/board.tsx:25 | a column keeps the listing's order: the filter of a concatenation is the concatenation of the filters |
| Board.DropMovesCard | apps/web/src/components/board.tsx:36-51 | a drop of any existing card onto any column succeeds for any caller, whatever the card's current status. Only that row's status and updatedAt change; every other row, position and note is unchanged |
| AddApplicationDialog.ResolveRole | apps/web/src/components/add-application-dialog.tsx:71-73 | the role resolves to the first loaded position whose name equals it exactly, and to none when there is no such position or the list has not loaded |
| AddApplicationDialog.Submit | apps/web/src/components/add-application-dialog.tsx:67-98 | a form with an empty company or role is refused. A failed submit leaves the store as it was. A successful submit always went through a matching position, creates no position, appends exactly the new application, files it under that position's id, and carries the form's company, link and date with the caller as owner |
| AddApplicationDialog.UnmatchedRoleIsRejected | apps/web/src/components/add-application-dialog.tsx:74-76 | as written, a role that matches no loaded position is always refused with Invalid, and nothing is created |
| AddApplicationDialog.FirstRoleCannotBeCreated | apps/web/src/components/add-application-dialog.tsx:75 | with no positions loaded, the submit of company "Acme" and role "Backend" is refused |
| AddApplicationDialog.MatchedRoleReusesPosition | apps/web/src/components/add-application-dialog.tsx:77-79 | a role matching one of the caller's positions reuses it: the submit succeeds with that position's id and the positions are unchanged |
| AddApplicationDialog.SubmitWithColor | apps/web/src/components/add-application-dialog.tsx:74-76 | the corrected submit behaves as the original when the role matches. When it does not and the position request is accepted, the store keeps exactly one new position with the role as name, the colour and the caller as owner, whatever the application request answers; a successful submit files the application under it |
| AddApplicationDialog.SubmitWithColorCreatesRole | apps/web/src/components/add-application-dialog.tsx:74-76 | with a valid colour and unused ids, the corrected submit succeeds for an unknown role, lists the new position for the caller, files the application under it and keeps the store valid |
| AddApplicationDialog.FailedApplicationKeepsRole | apps/web/src/components/add-application-dialog.tsx:74-87 | when the application request fails after the role was created, the submit reports Internal while the new position stays listed for the caller and no application is added |
| AddApplicationDialog.ResolvedRoleIsStable | apps/web/src/components/add-application-dialog.tsx:71-79 | after the corrected submit created a role, resolving the same name against the refreshed list finds exactly that position, so a second submit reuses it |

## Left out

- NoteRouter.CheckPermission: what passes and what is Internal is stated only for stores with unique ids and intact references. On any store the handler consults only the first row with the id.
- NoteRouter.CheckApplication: the Unauthorized/pass split is stated for stores with unique ids, for the same reason.
- ApplicationRouter.UpdateApplication: for stores with duplicate ids it does not say which row is returned. With unique ids, the one matching row becomes the returned row.
- ApplicationRouter.GetApplications: rows are listed in storage order, because SQL promises no order; nothing is claimed about the order beyond the board's filter.
- Output schemas: they strip some fields (createPosition answers only id, name and colour, and a note answers only id and content). Handlers here return the whole row.
- Notes' `updatedAt` on-update stamp: no handler updates a note, so the stamp is only ever set at insert.
- The users table: the `userId` foreign keys and their cascades, authentication, sessions, the `/_auth` redirect, the health check and the private-data probe. These are identity-provider and transport concerns.
- The hex colour check and the other request-schema checks: their implementations live in a validation library, so the colour check is the parameter `isHex`.
- Other dialogs (application, position, add-position, add-role, notes) and the positions page: they only forward form values to the routers modelled here.
- The rendering, dialog state, query-cache invalidation and refetching, date formatting and logging.
- Concurrency: the check-then-delete in deleteNote and the resolve-then-create in the dialog are not atomic across requests. The model is sequential, so deleteNote's Internal answer after a passing check is reachable only through a concurrent delete.
- UUID generation and wall-clock time: the model takes them as parameters.
- The link field: the form's schema allows null, but the text input always yields text, so the model keeps it as text.

## Findings

| source | as written | input that shows it | evidently intended | confidence | as-written member | corrected member |
|---|---|---|---|---|---|---|
| apps/web/src/components/add-application-dialog.tsx:75 | the position created for an unknown role is requested as `{ name: role }`. The createPosition schema requires a hex `color`, so the request is refused and the application is never created | company "Acme", role "Backend", no positions loaded | send a colour with the new position, as the add-position dialog does (the position router already imports a random-colour generator it never uses) | not executed; high | AddApplicationDialog.UnmatchedRoleIsRejected | AddApplicationDialog.SubmitWithColorCreatesRole |
