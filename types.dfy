/**
 * The records the screens exchange with the backend: the `players` row,
 * the `Player` shown in a seat, and the realtime change payload.
 */
module Types {
  import opened Wrappers

  /** Number of seats around a table (the literal 10 of the screens, MAX_SEATS of the ring). */
  const SeatCount := 10

  /** A seated player as rendered (`Player` of src/types.ts; the role flags are always filled in). */
  datatype Player = Player(id: string, name: string, money: int, isAdmin: bool, isDealer: bool)

  /** One row of the backend `players` table. */
  datatype PlayerRow = PlayerRow(
    id: string,
    roomId: string,
    seat: int,
    name: string,
    money: int,
    isAdmin: bool,
    isDealer: bool)

  datatype EventKind = Insert | Update | Delete

  /** A realtime change: the new row (INSERT, UPDATE) and the old row (UPDATE, DELETE), each possibly missing. */
  datatype ChangePayload = ChangePayload(kind: EventKind, newRow: Option<PlayerRow>, oldRow: Option<PlayerRow>)

  /** `payload.new?.room_id ?? payload.old?.room_id` */
  function EventRoom(ev: ChangePayload): (room: Option<string>)
    ensures room.None? <==> ev.newRow.None? && ev.oldRow.None?
    ensures ev.newRow.Some? ==> room == Some(ev.newRow.value.roomId)
    ensures ev.newRow.None? && ev.oldRow.Some? ==> room == Some(ev.oldRow.value.roomId)
  {
    if ev.newRow.Some? then Some(ev.newRow.value.roomId)
    else if ev.oldRow.Some? then Some(ev.oldRow.value.roomId)
    else None
  }
}
