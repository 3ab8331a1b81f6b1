/**
 * The backend `players` table as the admin panel writes it: a sequence of rows,
 * and the filtered bulk update `update(patch).eq(...)` as a pure function.
 */
module RecordStore {
  import opened Types

  /** The SQLSTATE the backend reports for a unique-constraint violation. */
  const UniqueViolation := "23505"

  /** The two exclusive roles of a room. */
  datatype Role = Dealer | Admin

  datatype Patch = SetRole(role: Role, on: bool) | SetMoney(amount: int)

  /** `.eq("room_id", r)` or `.eq("id", x).eq("room_id", r)` */
  datatype RowFilter = InRoom(roomId: string) | IdInRoom(id: string, roomId: string)

  /** What the backend answered to one update: applied, or refused with an error code. */
  datatype WriteOutcome = Applied | Rejected(code: string)

  predicate Matches(f: RowFilter, row: PlayerRow) {
    match f
    case InRoom(r) => row.roomId == r
    case IdInRoom(x, r) => row.id == x && row.roomId == r
  }

  predicate HasRole(row: PlayerRow, role: Role) {
    match role
    case Dealer => row.isDealer
    case Admin => row.isAdmin
  }

  function WithRole(row: PlayerRow, role: Role, on: bool): PlayerRow {
    match role
    case Dealer => row.(isDealer := on)
    case Admin => row.(isAdmin := on)
  }

  function ApplyPatch(row: PlayerRow, patch: Patch): PlayerRow {
    match patch
    case SetRole(role, on) => WithRole(row, role, on)
    case SetMoney(m) => row.(money := m)
  }

  /** Every row the filter selects gets the patch; the others are left as they are. */
  function UpdateWhere(rows: seq<PlayerRow>, f: RowFilter, patch: Patch): seq<PlayerRow> {
    seq(|rows|, i requires 0 <= i < |rows| => if Matches(f, rows[i]) then ApplyPatch(rows[i], patch) else rows[i])
  }

  /** An update whose outcome the backend decides: a refused update changes nothing. */
  function Write(rows: seq<PlayerRow>, f: RowFilter, patch: Patch, outcome: WriteOutcome): seq<PlayerRow> {
    if outcome.Applied? then UpdateWhere(rows, f, patch) else rows
  }

  /** `id` is the primary key of the table. */
  ghost predicate UniqueIds(rows: seq<PlayerRow>) {
    forall i, j :: 0 <= i < j < |rows| ==> rows[i].id != rows[j].id
  }

  predicate TargetInRoom(rows: seq<PlayerRow>, roomId: string, id: string) {
    exists i :: 0 <= i < |rows| && rows[i].id == id && rows[i].roomId == roomId
  }

  /** How many rows of the room hold the role. */
  function HolderCount(rows: seq<PlayerRow>, roomId: string, role: Role): nat {
    if rows == [] then 0
    else (if rows[0].roomId == roomId && HasRole(rows[0], role) then 1 else 0) + HolderCount(rows[1..], roomId, role)
  }

  /** A room in which nobody holds the role counts no holder. */
  lemma {:induction false} NoHolderCount(rows: seq<PlayerRow>, roomId: string, role: Role)
    requires forall i :: 0 <= i < |rows| && rows[i].roomId == roomId ==> !HasRole(rows[i], role)
    ensures HolderCount(rows, roomId, role) == 0
  {
    if rows != [] {
      NoHolderCount(rows[1..], roomId, role);
    }
  }

  /**
   * When, within the room, exactly the rows with key `id` hold the role, the
   * room has one holder if that key is in the room and none otherwise.
   */
  lemma {:induction false} SoleHolderCount(rows: seq<PlayerRow>, roomId: string, role: Role, id: string)
    requires UniqueIds(rows)
    requires forall i :: 0 <= i < |rows| && rows[i].roomId == roomId ==> (HasRole(rows[i], role) <==> rows[i].id == id)
    ensures HolderCount(rows, roomId, role) == if TargetInRoom(rows, roomId, id) then 1 else 0
  {
    if rows != [] {
      var rest := rows[1..];
      if rows[0].id == id && rows[0].roomId == roomId {
        assert forall i :: 0 <= i < |rest| ==> rest[i].id != id by {
          forall i | 0 <= i < |rest| ensures rest[i].id != id {
            assert rest[i] == rows[i + 1];
          }
        }
        NoHolderCount(rest, roomId, role);
        assert TargetInRoom(rows, roomId, id) by { assert rows[0].id == id; }
      } else {
        SoleHolderCount(rest, roomId, role, id);
        if TargetInRoom(rows, roomId, id) {
          var i :| 0 <= i < |rows| && rows[i].id == id && rows[i].roomId == roomId;
          assert i > 0 && rest[i - 1] == rows[i];
        }
        if TargetInRoom(rest, roomId, id) {
          var i :| 0 <= i < |rest| && rest[i].id == id && rest[i].roomId == roomId;
          assert rows[i + 1] == rest[i];
        }
      }
    }
  }

  /**
   * The two-step promotion "clear the role in the room, then set it on `id` in
   * the room", both steps applied: outside the room nothing changes, inside it
   * only the role flag changes, and exactly the row `id` ends up holding it.
   */
  lemma ClearThenSet(rows: seq<PlayerRow>, roomId: string, id: string, role: Role)
    requires UniqueIds(rows)
    ensures var after := UpdateWhere(UpdateWhere(rows, InRoom(roomId), SetRole(role, false)), IdInRoom(id, roomId), SetRole(role, true));
      && |after| == |rows|
      && (forall i :: 0 <= i < |rows| ==>
            after[i] == if rows[i].roomId == roomId then WithRole(rows[i], role, rows[i].id == id) else rows[i])
      && HolderCount(after, roomId, role) == if TargetInRoom(rows, roomId, id) then 1 else 0
  {
    var after := UpdateWhere(UpdateWhere(rows, InRoom(roomId), SetRole(role, false)), IdInRoom(id, roomId), SetRole(role, true));
    assert forall i :: 0 <= i < |rows| ==> after[i].id == rows[i].id && after[i].roomId == rows[i].roomId;
    SoleHolderCount(after, roomId, role, id);
    assert TargetInRoom(after, roomId, id) == TargetInRoom(rows, roomId, id);
  }

  /** Clearing the role in the room, with no set step after it, leaves the room without a holder. */
  lemma ClearOnly(rows: seq<PlayerRow>, roomId: string, role: Role)
    ensures var after := UpdateWhere(rows, InRoom(roomId), SetRole(role, false));
      && |after| == |rows|
      && (forall i :: 0 <= i < |rows| ==>
            after[i] == if rows[i].roomId == roomId then WithRole(rows[i], role, false) else rows[i])
      && HolderCount(after, roomId, role) == 0
  {
    var after := UpdateWhere(rows, InRoom(roomId), SetRole(role, false));
    NoHolderCount(after, roomId, role);
  }
}
