/** The position router: list the caller's positions and create new ones. */
module PositionRouter {
  import opened Wrappers
  import opened Tables
  import opened Schema

  /** getAvailablePositions: the positions the caller owns. */
  function GetAvailablePositions(st: Store, caller: Id): (r: seq<Position>)
    ensures forall p :: p in r <==> p in st.positions && p.userId == caller
    ensures forall p :: p in st.positions ==>
              multiset(r)[p] == if p.userId == caller then multiset(st.positions)[p] else 0
  {
    Filter(st.positions, (p: Position) => p.userId == caller)
  }

  /** The createPosition request body as it reaches the server. `color` may be
      missing from a request; the schema then refuses it. */
  datatype PositionInput = PositionInput(name: string, color: Option<string>)

  /** createPosition: validates the body (`color` present and accepted by the
      hexadecimal check `isHex`, `name` any text), then inserts a position owned
      by the caller under the generated id `freshId`. No other position is
      consulted, so names are not deduplicated. */
  function CreatePosition(st: Store, caller: Id, input: PositionInput, isHex: string -> bool, freshId: Id): (r: Result<Change<Position>>)
    ensures r == Err(Invalid) <==> input.color.None? || !isHex(input.color.value)
    ensures r == Err(Internal) <==> input.color.Some? && isHex(input.color.value) && HasPosition(st, freshId)
    ensures r.Err? ==> r.error == Invalid || r.error == Internal
    ensures r.Ok? <==> input.color.Some? && isHex(input.color.value) && !HasPosition(st, freshId)
    ensures r.Ok? ==> var p := r.value.out;
      && p.id == freshId && p.name == input.name && Some(p.color) == input.color && p.userId == caller
      && r.value.store == st.(positions := st.positions + [p])
  {
    match input.color
    case None => Err(Invalid)
    case Some(color) =>
      if !isHex(color) then Err(Invalid)
      else if PositionById(st, freshId).Some? then Err(Internal)
      else
        var p := Position(freshId, input.name, color, caller);
        Ok(Change(st.(positions := st.positions + [p]), p))
  }

  /** Inserting a position keeps the table guarantees. */
  lemma CreatePositionPreservesValid(st: Store, caller: Id, input: PositionInput, isHex: string -> bool, freshId: Id)
    requires Valid(st)
    requires CreatePosition(st, caller, input, isHex, freshId).Ok?
    ensures Valid(CreatePosition(st, caller, input, isHex, freshId).value.store)
  {
  }

  /** A created position is listed for its creator. */
  lemma CreatedPositionIsListed(st: Store, caller: Id, input: PositionInput, isHex: string -> bool, freshId: Id)
    requires CreatePosition(st, caller, input, isHex, freshId).Ok?
    ensures var c := CreatePosition(st, caller, input, isHex, freshId).value;
      c.out in GetAvailablePositions(c.store, caller)
  {
  }

  /** Two requests with the same name both succeed and leave two distinct
      positions of that name owned by the caller. */
  lemma NoDuplicateNameCheck(st: Store, caller: Id, input: PositionInput, isHex: string -> bool, id1: Id, id2: Id)
    requires Valid(st)
    requires input.color.Some? && isHex(input.color.value)
    requires !HasPosition(st, id1) && !HasPosition(st, id2) && id1 != id2
    ensures var r1 := CreatePosition(st, caller, input, isHex, id1);
      && r1.Ok?
      && var r2 := CreatePosition(r1.value.store, caller, input, isHex, id2);
      && r2.Ok?
      && var mine := GetAvailablePositions(r2.value.store, caller);
      && r1.value.out in mine && r2.value.out in mine
      && r1.value.out != r2.value.out
      && r1.value.out.name == r2.value.out.name == input.name
  {
  }
}
