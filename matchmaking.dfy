/**
 * The single matchmaking slot (`playerInQueueID`) and what one `ProcessJoinQueue` call does to
 * it: either the joiner waits in the slot, or the occupant and the joiner are paired into a new
 * game room and the slot is cleared.
 *
 * The C# code tests the slot with `playerInQueueID == null`, but `NetworkConnection` is a struct:
 * the lifted comparison with `null` is always false, and the slot is only ever cleared to
 * `default(NetworkConnection)`. `JoinQueueAsWritten` is that code; `JoinQueue` is the evident
 * intent (an empty slot is `None`), and it is what the server model uses.
 */
module Matchmaking {
  import opened Wrappers
  import opened Connections

  /** The two players of a new room: the occupant of the slot first, the joiner second. */
  datatype Pairing = Pairing(player1: Connection, player2: Connection)

  /** The slot after one join, and the room created by the join, if any. */
  datatype Step<Slot> = Step(slot: Slot, room: Option<Pairing>)

  /** `playerInQueueID == null` for a struct-typed handle: never true. */
  predicate SlotIsNullAsWritten(slot: Connection)
  {
    false
  }

  /**
   * One join as the code is written: the slot is a plain handle whose empty value is `default`,
   * and since the emptiness test never holds, every join makes a room and leaves the slot `default`.
   */
  function JoinQueueAsWritten(slot: Connection, joiner: Connection): (r: Step<Connection>)
    ensures r.slot == Default
    ensures r.room == Some(Pairing(slot, joiner))
  {
    if SlotIsNullAsWritten(slot) then Step(joiner, None)
    else Step(Default, Some(Pairing(slot, joiner)))
  }

  /**
   * As written, nobody ever waits: from the empty slot of a fresh server, the very first joiner
   * is paired with `default(NetworkConnection)`, whereas the intended slot would hold the joiner.
   */
  lemma AsWrittenPairsFirstJoinerWithDefault(joiner: Connection)
    ensures JoinQueueAsWritten(Default, joiner) == Step(Default, Some(Pairing(Default, joiner)))
    ensures JoinQueue(None, joiner) == Step(Some(joiner), None)
  {
  }

  /**
   * One join as intended: an empty slot takes the joiner and no room is made; an occupied slot
   * is paired with the joiner (occupant first) and left empty.
   */
  function JoinQueue(slot: Option<Connection>, joiner: Connection): (r: Step<Option<Connection>>)
    ensures r.room.Some? <==> slot.Some?
    ensures r.slot.None? <==> slot.Some?
    ensures r.slot.Some? ==> r.slot.value == joiner
    ensures r.room.Some? ==> r.room.value == Pairing(slot.value, joiner)
  {
    match slot
    case None => Step(Some(joiner), None)
    case Some(occupant) => Step(None, Some(Pairing(occupant, joiner)))
  }

  /**
   * Joins alternate: the first of any two consecutive joiners waits, the second completes the
   * pairing, and the slot is empty again, so a third joiner waits in turn.
   */
  lemma JoinsPairInTwos(a: Connection, b: Connection, c: Connection)
    ensures var first := JoinQueue(None, a);
      var second := JoinQueue(first.slot, b);
      && first.room.None?
      && second == Step(None, Some(Pairing(a, b)))
      && JoinQueue(second.slot, c) == Step(Some(c), None)
  {
  }
}
