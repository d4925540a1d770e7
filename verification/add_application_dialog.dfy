/** The add-application dialog's submit handler: validate the form, resolve the
    typed role to a position (reusing the first position of that name, or
    creating one), then create the application. */
module AddApplicationDialog {
  import opened Wrappers
  import opened Tables
  import opened Schema
  import opened ApplicationRouter
  import opened PositionRouter

  /** The form's values. The link input always yields text (empty by default);
      the date may be unset. */
  datatype FormValues = FormValues(company: string, role: string, jobLink: string, submittedAt: Option<Time>)

  /** formSchema: company and role need at least one character. */
  predicate FormAccepts(f: FormValues) {
    |f.company| >= 1 && |f.role| >= 1
  }

  /** The position the typed role resolves to: the first position in the loaded
      list whose name equals the role exactly (case-sensitive); none while the
      list has not loaded. */
  function ResolveRole(available: Option<seq<Position>>, role: string): (r: Option<Position>)
    ensures r.None? <==> available.None? || forall p :: p in available.value ==> p.name != role
    ensures r.Some? ==> available.Some? && r.value in available.value && r.value.name == role
    ensures r.Some? ==> exists i :: 0 <= i < |available.value| && available.value[i] == r.value
                                    && forall j :: 0 <= j < i ==> available.value[j].name != role
  {
    match available
    case None => None
    case Some(ps) => Find(ps, (p: Position) => p.name == role)
  }

  /** The createApplication request the dialog sends once the role is resolved. */
  function ApplicationRequest(f: FormValues, positionId: Id): (r: CreateInput)
    ensures r.companyName == f.company && r.postUrl == Some(f.jobLink)
    ensures r.positionId == Some(positionId) && r.submittedAt == f.submittedAt
  {
    CreateInput(f.company, Some(f.jobLink), Some(positionId), f.submittedAt)
  }

  /** What a submission leaves behind: the store after every request the
      dialog sent, and the answer of the last one. The dialog sends up to two
      requests, so an error in the second need not undo the first. */
  datatype Submission = Submission(store: Store, answer: Result<Application>)

  /** The createApplication request of a submission, sent to `st`. */
  function SendApplication(st: Store, caller: Id, f: FormValues, positionId: Id,
                           freshApplicationId: Id, now: Time): (r: Submission)
    ensures r.answer.Err? ==> r.store == st
  {
    match CreateApplication(st, caller, ApplicationRequest(f, positionId), freshApplicationId, now)
    case Err(e) => Submission(st, Err(e))
    case Ok(c) => Submission(c.store, Ok(c.out))
  }

  /** The dialog's submit, as written: the position it creates for an unknown
      role is requested with a name and no colour. `available` is the position
      list the dialog loaded; `isHex` is the server's colour check. */
  function Submit(st: Store, caller: Id, available: Option<seq<Position>>, f: FormValues,
                  isHex: string -> bool, freshPositionId: Id, freshApplicationId: Id, now: Time): (r: Submission)
    ensures !FormAccepts(f) ==> r == Submission(st, Err(Invalid))
    ensures r.answer.Err? ==> r.store == st
    ensures r.answer.Ok? ==> var found := ResolveRole(available, f.role);
      && found.Some?
      && r.answer.value.positionId == Some(found.value.id)
      && r.store.positions == st.positions
      && r.store.applications == st.applications + [r.answer.value]
    ensures r.answer.Ok? ==> var a := r.answer.value;
      && a.companyName == f.company && a.postUrl == Some(f.jobLink)
      && a.submittedAt == f.submittedAt.ValueOr(now) && a.userId == Some(caller)
  {
    if !FormAccepts(f) then Submission(st, Err(Invalid))
    else match ResolveRole(available, f.role)
      case Some(p) => SendApplication(st, caller, f, p.id, freshApplicationId, now)
      case None =>
        match CreatePosition(st, caller, PositionInput(f.role, None), isHex, freshPositionId)
        case Err(e) => Submission(st, Err(e))
        case Ok(c) => SendApplication(c.store, caller, f, c.out.id, freshApplicationId, now)
  }

  /** As written, a role that matches no loaded position can never be
      submitted: the position request lacks the required colour, the server
      refuses it, and no position or application is created. */
  lemma UnmatchedRoleIsRejected(st: Store, caller: Id, available: Option<seq<Position>>, f: FormValues,
                                isHex: string -> bool, freshPositionId: Id, freshApplicationId: Id, now: Time)
    requires ResolveRole(available, f.role).None?
    ensures Submit(st, caller, available, f, isHex, freshPositionId, freshApplicationId, now) == Submission(st, Err(Invalid))
  {
  }

  /** The smallest instance: with no positions loaded, submitting the role
      "Backend" for "Acme" is refused whatever colour check the server uses. */
  lemma FirstRoleCannotBeCreated(st: Store, caller: Id, isHex: string -> bool, pid: Id, aid: Id, now: Time)
    ensures Submit(st, caller, Some([]), FormValues("Acme", "Backend", "", None), isHex, pid, aid, now)
            == Submission(st, Err(Invalid))
  {
  }

  /** A role matching a position the caller owns reuses that position: the
      application is created with its id and no position is created. */
  lemma {:induction false} MatchedRoleReusesPosition(st: Store, caller: Id, f: FormValues, isHex: string -> bool,
                                  freshPositionId: Id, freshApplicationId: Id, now: Time, mine: Position)
    requires Valid(st) && FormAccepts(f)
    requires mine in st.positions && mine.userId == caller && mine.name == f.role
    requires !HasApplication(st, freshApplicationId)
    ensures var p := ResolveRole(Some(GetAvailablePositions(st, caller)), f.role);
      var r := Submit(st, caller, Some(GetAvailablePositions(st, caller)), f, isHex, freshPositionId, freshApplicationId, now);
      && p.Some? && p.value.userId == caller && p.value.name == f.role
      && r.answer.Ok?
      && r.answer.value.positionId == Some(p.value.id)
      && r.store.positions == st.positions
  {
    assert mine in GetAvailablePositions(st, caller);
    var p := ResolveRole(Some(GetAvailablePositions(st, caller)), f.role).value;
    assert p in st.positions;
  }

  /** The submit with the colour the position request evidently needs: the
      unknown role is created with `color` and the application refers to it.
      The two requests stay separate, so a position created for the role is
      kept even when the application request then fails. */
  function SubmitWithColor(st: Store, caller: Id, available: Option<seq<Position>>, f: FormValues, color: string,
                           isHex: string -> bool, freshPositionId: Id, freshApplicationId: Id, now: Time): (r: Submission)
    ensures !FormAccepts(f) ==> r == Submission(st, Err(Invalid))
    ensures FormAccepts(f) && ResolveRole(available, f.role).Some? ==>
              r == Submit(st, caller, available, f, isHex, freshPositionId, freshApplicationId, now)
    ensures FormAccepts(f) && ResolveRole(available, f.role).None? && isHex(color) && !HasPosition(st, freshPositionId) ==>
              r.store.positions == st.positions + [Position(freshPositionId, f.role, color, caller)]
    ensures r.answer.Ok? && ResolveRole(available, f.role).None? ==>
              && r.answer.value.positionId == Some(freshPositionId)
              && r.store.positions == st.positions + [Position(freshPositionId, f.role, color, caller)]
    ensures r.answer.Ok? ==> var a := r.answer.value;
      && a.companyName == f.company && a.postUrl == Some(f.jobLink)
      && a.submittedAt == f.submittedAt.ValueOr(now) && a.userId == Some(caller)
  {
    if !FormAccepts(f) then Submission(st, Err(Invalid))
    else match ResolveRole(available, f.role)
      case Some(p) => SendApplication(st, caller, f, p.id, freshApplicationId, now)
      case None =>
        match CreatePosition(st, caller, PositionInput(f.role, Some(color)), isHex, freshPositionId)
        case Err(e) => Submission(st, Err(e))
        case Ok(c) => SendApplication(c.store, caller, f, c.out.id, freshApplicationId, now)
  }

  /** With a valid colour and unused ids, an unknown role is created for the
      caller and the new application is filed under it. */
  lemma {:induction false} SubmitWithColorCreatesRole(st: Store, caller: Id, f: FormValues, color: string, isHex: string -> bool,
                                   freshPositionId: Id, freshApplicationId: Id, now: Time)
    requires Valid(st) && FormAccepts(f) && isHex(color)
    requires ResolveRole(Some(GetAvailablePositions(st, caller)), f.role).None?
    requires !HasPosition(st, freshPositionId) && !HasApplication(st, freshApplicationId)
    ensures var r := SubmitWithColor(st, caller, Some(GetAvailablePositions(st, caller)), f, color, isHex,
                                     freshPositionId, freshApplicationId, now);
      && r.answer.Ok?
      && Position(freshPositionId, f.role, color, caller) in GetAvailablePositions(r.store, caller)
      && r.answer.value.positionId == Some(freshPositionId)
      && Valid(r.store)
  {
    var c := CreatePosition(st, caller, PositionInput(f.role, Some(color)), isHex, freshPositionId).value;
    CreatePositionPreservesValid(st, caller, PositionInput(f.role, Some(color)), isHex, freshPositionId);
    assert c.out in c.store.positions;
    CreateApplicationPreservesValid(c.store, caller, ApplicationRequest(f, c.out.id), freshApplicationId, now);
  }

  /** When the application request fails after the role was created (here its
      id is already taken), the submission reports the server error while the
      new position stays in the store: the caller keeps a position with no
      application under it. */
  lemma {:induction false} FailedApplicationKeepsRole(st: Store, caller: Id, f: FormValues, color: string, isHex: string -> bool,
                                   freshPositionId: Id, freshApplicationId: Id, now: Time)
    requires Valid(st) && FormAccepts(f) && isHex(color)
    requires ResolveRole(Some(GetAvailablePositions(st, caller)), f.role).None?
    requires !HasPosition(st, freshPositionId) && HasApplication(st, freshApplicationId)
    ensures var r := SubmitWithColor(st, caller, Some(GetAvailablePositions(st, caller)), f, color, isHex,
                                     freshPositionId, freshApplicationId, now);
      && r.answer == Err(Internal)
      && Position(freshPositionId, f.role, color, caller) in GetAvailablePositions(r.store, caller)
      && r.store.applications == st.applications
  {
  }

  /** Once a role has been created, resolving the same name against the
      refreshed list finds that very position, so a second submission with the
      same role reuses it instead of creating another. */
  lemma {:induction false} ResolvedRoleIsStable(st: Store, caller: Id, f: FormValues, color: string, isHex: string -> bool,
                             freshPositionId: Id, freshApplicationId: Id, now: Time)
    requires Valid(st) && FormAccepts(f) && isHex(color)
    requires ResolveRole(Some(GetAvailablePositions(st, caller)), f.role).None?
    requires !HasPosition(st, freshPositionId) && !HasApplication(st, freshApplicationId)
    ensures var r := SubmitWithColor(st, caller, Some(GetAvailablePositions(st, caller)), f, color, isHex,
                                     freshPositionId, freshApplicationId, now);
      && r.answer.Ok?
      && ResolveRole(Some(GetAvailablePositions(r.store, caller)), f.role)
         == Some(Position(freshPositionId, f.role, color, caller))
  {
    SubmitWithColorCreatesRole(st, caller, f, color, isHex, freshPositionId, freshApplicationId, now);
    var r := SubmitWithColor(st, caller, Some(GetAvailablePositions(st, caller)), f, color, isHex,
                             freshPositionId, freshApplicationId, now);
    var found := ResolveRole(Some(GetAvailablePositions(r.store, caller)), f.role);
    assert found.Some?;
    var q := found.value;
    assert q in r.store.positions;
  }
}
