/**
 * The live table display of one room: a ring of SeatCount optional players,
 * rebuilt from a full fetch of the room's rows, patched by realtime
 * INSERT / UPDATE / DELETE changes and by the `player_left` broadcast hint,
 * and the dealer seat derived from it.
 */
module TableScreen {
  import opened Wrappers
  import opened Types
  import RecordStore

  /** Slot `i` holds the player seated at seat `i`, or nothing. */
  type Ring = seq<Option<Player>>

  /** `toPlayer`: the rendered player of a row (the seat and the room are dropped). */
  function ToPlayer(r: PlayerRow): (p: Player)
    ensures p.id == r.id && p.name == r.name && p.money == r.money
    ensures p.isAdmin == r.isAdmin && p.isDealer == r.isDealer
  {
    Player(r.id, r.name, r.money, r.isAdmin, r.isDealer)
  }

  predicate InRange(seat: int) {
    0 <= seat < SeatCount
  }

  predicate Holds(slot: Option<Player>, id: string) {
    slot.Some? && slot.value.id == id
  }

  predicate IsDealerSlot(slot: Option<Player>) {
    slot.Some? && slot.value.isDealer
  }

  /** No slot holds the id. */
  predicate Absent(ring: Ring, id: string) {
    forall i :: 0 <= i < |ring| ==> !Holds(ring[i], id)
  }

  /** Slot `i` is the first one holding the id. */
  predicate FirstHolder(ring: Ring, i: nat, id: string)
    requires i < |ring|
  {
    Holds(ring[i], id) && forall j :: 0 <= j < i ==> !Holds(ring[j], id)
  }

  /** No two occupied slots hold the same player id. */
  predicate DistinctIds(ring: Ring) {
    forall i, j :: 0 <= i < j < |ring| && ring[i].Some? && ring[j].Some? ==> ring[i].value.id != ring[j].value.id
  }

  function Empty(): (ring: Ring)
    ensures |ring| == SeatCount
    ensures forall i :: 0 <= i < SeatCount ==> ring[i] == None
  {
    seq(SeatCount, _ => None)
  }

  /** `Array.prototype.findIndex`: the first index whose element satisfies `p`, if any. */
  function FindIndex<T>(s: seq<T>, p: T -> bool): (r: Option<nat>)
    ensures r.Some? ==> r.value < |s| && p(s[r.value]) && forall j :: 0 <= j < r.value ==> !p(s[j])
    ensures r.None? ==> forall j :: 0 <= j < |s| ==> !p(s[j])
  {
    if s == [] then None
    else if p(s[0]) then Some(0)
    else match FindIndex(s[1..], p)
      case None => None
      case Some(k) => Some(k + 1)
  }

  /** `prev.findIndex((p) => p?.id === id)` */
  function SeatOf(ring: Ring, id: string): (r: Option<nat>)
    ensures r.Some? ==> r.value < |ring| && FirstHolder(ring, r.value, id)
    ensures r.None? <==> Absent(ring, id)
  {
    FindIndex(ring, (slot: Option<Player>) => Holds(slot, id))
  }

  /** `recomputeDealer`: the lowest slot whose occupant is the dealer, or none. */
  function DealerSeat(ring: Ring): (r: Option<nat>)
    ensures r.Some? ==> r.value < |ring| && IsDealerSlot(ring[r.value])
    ensures r.Some? ==> forall j :: 0 <= j < r.value ==> !IsDealerSlot(ring[j])
    ensures r.None? <==> forall j :: 0 <= j < |ring| ==> !IsDealerSlot(ring[j])
  {
    FindIndex(ring, IsDealerSlot)
  }

  /** INSERT: the player goes to the row's seat when it is in range; no other slot changes. */
  function InsertRow(ring: Ring, row: PlayerRow): (next: Ring)
    requires |ring| == SeatCount
    ensures |next| == SeatCount
    ensures InRange(row.seat) ==> next[row.seat] == Some(ToPlayer(row))
    ensures forall i :: 0 <= i < SeatCount && i != row.seat ==> next[i] == ring[i]
  {
    if InRange(row.seat) then ring[row.seat := Some(ToPlayer(row))] else ring
  }

  /**
   * UPDATE: the first slot holding the row's id is emptied unless it is the new
   * seat, then the player goes to the new seat when it is in range.
   */
  function UpdateRow(ring: Ring, row: PlayerRow): (next: Ring)
    requires |ring| == SeatCount
    ensures |next| == SeatCount
    ensures InRange(row.seat) ==> next[row.seat] == Some(ToPlayer(row))
    ensures forall i :: 0 <= i < SeatCount && i != row.seat ==>
              next[i] == if FirstHolder(ring, i, row.id) then None else ring[i]
  {
    var from := SeatOf(ring, row.id);
    var cleared := if from.Some? && from.value != row.seat then ring[from.value := None] else ring;
    if InRange(row.seat) then cleared[row.seat := Some(ToPlayer(row))] else cleared
  }

  /** DELETE and `player_left`: the first slot holding the id is emptied; an absent id changes nothing. */
  function ClearId(ring: Ring, id: string): (next: Ring)
    requires |ring| == SeatCount
    ensures |next| == SeatCount
    ensures forall i :: 0 <= i < SeatCount ==> next[i] == if FirstHolder(ring, i, id) then None else ring[i]
    ensures Absent(ring, id) ==> next == ring
  {
    match SeatOf(ring, id)
    case None => ring
    case Some(i) => ring[i := None]
  }

  /** The `setSeats` reducer of a realtime change that passed the room filter. */
  function ApplyChange(ring: Ring, ev: ChangePayload): (next: Ring)
    requires |ring| == SeatCount
    ensures |next| == SeatCount
    ensures ev.kind.Insert? && ev.newRow.Some? ==> next == InsertRow(ring, ev.newRow.value)
    ensures ev.kind.Update? && ev.newRow.Some? ==> next == UpdateRow(ring, ev.newRow.value)
    ensures ev.kind.Delete? && ev.oldRow.Some? ==> next == ClearId(ring, ev.oldRow.value.id)
    ensures (ev.kind.Insert? || ev.kind.Update?) && ev.newRow.None? ==> next == ring
    ensures ev.kind.Delete? && ev.oldRow.None? ==> next == ring
    ensures ev.kind.Delete? && ev.oldRow.Some? && Absent(ring, ev.oldRow.value.id) ==> next == ring
  {
    match ev.kind
    case Insert => if ev.newRow.Some? then InsertRow(ring, ev.newRow.value) else ring
    case Update => if ev.newRow.Some? then UpdateRow(ring, ev.newRow.value) else ring
    case Delete => if ev.oldRow.Some? then ClearId(ring, ev.oldRow.value.id) else ring
  }

  /** The `player_left` broadcast: a missing or empty id is ignored. */
  function PlayerLeft(ring: Ring, id: Option<string>): (next: Ring)
    requires |ring| == SeatCount
    ensures |next| == SeatCount
    ensures id.None? || id == Some("") ==> next == ring
    ensures id.Some? && Absent(ring, id.value) ==> next == ring
    ensures id.Some? && id.value != "" ==> next == ClearId(ring, id.value)
  {
    if id.None? || id.value == "" then ring else ClearId(ring, id.value)
  }

  /** The full rebuild of `loadAll`: every fetched row replayed, in order, as an insert into an empty ring. */
  function Rebuilt(rows: seq<PlayerRow>): (ring: Ring)
    ensures |ring| == SeatCount
  {
    if rows == [] then Empty() else InsertRow(Rebuilt(rows[..|rows| - 1]), rows[|rows| - 1])
  }

  /** Row `k` is the last of the rows seated at `s`. */
  predicate LastAtSeat(rows: seq<PlayerRow>, k: nat, s: int)
    requires k < |rows|
  {
    rows[k].seat == s && forall k' :: k < k' < |rows| ==> rows[k'].seat != s
  }

  /**
   * After a rebuild, slot `s` is empty exactly when no row has seat `s`, and
   * otherwise holds the player of the last row with seat `s`; rows with seats
   * out of range leave no trace.
   */
  lemma {:induction false} RebuiltSlot(rows: seq<PlayerRow>, s: int)
    requires InRange(s)
    ensures Rebuilt(rows)[s] == None <==> forall k :: 0 <= k < |rows| ==> rows[k].seat != s
    ensures forall k :: 0 <= k < |rows| && LastAtSeat(rows, k, s) ==> Rebuilt(rows)[s] == Some(ToPlayer(rows[k]))
  {
    if rows != [] {
      var n := |rows| - 1;
      var prefix := rows[..n];
      RebuiltSlot(prefix, s);
      assert forall k :: 0 <= k < n ==> prefix[k] == rows[k];
      if rows[n].seat != s {
        forall k | 0 <= k < n && LastAtSeat(rows, k, s)
          ensures LastAtSeat(prefix, k, s)
        {
        }
      }
    }
  }

  /** Every occupied slot after a rebuild holds the player of some fetched row. */
  lemma {:induction false} RebuiltFromRows(rows: seq<PlayerRow>, s: int)
    requires InRange(s) && Rebuilt(rows)[s].Some?
    ensures exists k :: 0 <= k < |rows| && Rebuilt(rows)[s] == Some(ToPlayer(rows[k]))
  {
    var n := |rows| - 1;
    var prefix := rows[..n];
    if rows[n].seat == s {
      assert Rebuilt(rows)[s] == Some(ToPlayer(rows[n]));
    } else {
      RebuiltFromRows(prefix, s);
      var k :| 0 <= k < |prefix| && Rebuilt(prefix)[s] == Some(ToPlayer(prefix[k]));
      assert rows[k] == prefix[k];
    }
  }

  /** Rows with distinct ids (the table's primary key) rebuild into a ring with distinct ids. */
  lemma {:induction false} RebuiltDistinct(rows: seq<PlayerRow>)
    requires RecordStore.UniqueIds(rows)
    ensures DistinctIds(Rebuilt(rows))
  {
    if rows != [] {
      var n := |rows| - 1;
      var prefix := rows[..n];
      assert RecordStore.UniqueIds(prefix) by {
        forall i, j | 0 <= i < j < |prefix| ensures prefix[i].id != prefix[j].id {
          assert prefix[i] == rows[i] && prefix[j] == rows[j];
        }
      }
      RebuiltDistinct(prefix);
      var before := Rebuilt(prefix);
      forall s | 0 <= s < |before|
        ensures !Holds(before[s], rows[n].id)
      {
        if before[s].Some? {
          RebuiltFromRows(prefix, s);
          var k :| 0 <= k < |prefix| && before[s] == Some(ToPlayer(prefix[k]));
          assert prefix[k] == rows[k];
        }
      }
      InsertKeepsDistinct(before, rows[n]);
    }
  }

  lemma InsertKeepsDistinct(ring: Ring, row: PlayerRow)
    requires |ring| == SeatCount && DistinctIds(ring) && Absent(ring, row.id)
    ensures DistinctIds(InsertRow(ring, row))
  {
  }

  /** Only the first holder of an id is emptied, so with distinct ids no slot holds it afterwards. */
  lemma ClearIdRemoves(ring: Ring, id: string)
    requires |ring| == SeatCount && DistinctIds(ring)
    ensures Absent(ClearId(ring, id), id)
    ensures DistinctIds(ClearId(ring, id))
  {
    var next := ClearId(ring, id);
    forall i | 0 <= i < SeatCount && Holds(ring[i], id)
      ensures FirstHolder(ring, i, id)
    {
      forall j | 0 <= j < i
        ensures !Holds(ring[j], id)
      {
      }
    }
  }

  lemma UpdateKeepsDistinct(ring: Ring, row: PlayerRow)
    requires |ring| == SeatCount && DistinctIds(ring)
    ensures DistinctIds(UpdateRow(ring, row))
  {
    var next := UpdateRow(ring, row);
    ClearIdRemoves(ring, row.id);
    forall i | 0 <= i < SeatCount && i != row.seat
      ensures next[i] == ClearId(ring, row.id)[i]
    {
    }
  }

  /**
   * Realtime changes keep the ids of a ring distinct; an INSERT needs its id not
   * to be seated already.
   */
  lemma ApplyChangeKeepsDistinct(ring: Ring, ev: ChangePayload)
    requires |ring| == SeatCount && DistinctIds(ring)
    requires ev.kind.Insert? && ev.newRow.Some? ==> Absent(ring, ev.newRow.value.id)
    ensures DistinctIds(ApplyChange(ring, ev))
  {
    match ev.kind
    case Insert =>
      if ev.newRow.Some? { InsertKeepsDistinct(ring, ev.newRow.value); }
    case Update =>
      if ev.newRow.Some? { UpdateKeepsDistinct(ring, ev.newRow.value); }
    case Delete =>
      if ev.oldRow.Some? { ClearIdRemoves(ring, ev.oldRow.value.id); }
  }

  lemma PlayerLeftKeepsDistinct(ring: Ring, id: Option<string>)
    requires |ring| == SeatCount && DistinctIds(ring)
    ensures DistinctIds(PlayerLeft(ring, id))
  {
    if id.Some? && id.value != "" {
      ClearIdRemoves(ring, id.value);
    }
  }

  /** A duplicated `player_left` hint changes nothing more than the first one. */
  lemma PlayerLeftIdempotent(ring: Ring, id: Option<string>)
    requires |ring| == SeatCount && DistinctIds(ring)
    ensures PlayerLeft(PlayerLeft(ring, id), id) == PlayerLeft(ring, id)
  {
    if id.Some? && id.value != "" {
      ClearIdRemoves(ring, id.value);
    }
  }

  /** The authoritative DELETE arriving after the hint for the same player changes nothing more. */
  lemma PlayerLeftThenDelete(ring: Ring, ev: ChangePayload)
    requires |ring| == SeatCount && DistinctIds(ring)
    requires ev.kind.Delete? && ev.oldRow.Some? && ev.oldRow.value.id != ""
    ensures ApplyChange(PlayerLeft(ring, Some(ev.oldRow.value.id)), ev) == PlayerLeft(ring, Some(ev.oldRow.value.id))
  {
    ClearIdRemoves(ring, ev.oldRow.value.id);
  }

  /** A hint arriving after the DELETE it announces changes nothing. */
  lemma DeleteThenPlayerLeft(ring: Ring, ev: ChangePayload)
    requires |ring| == SeatCount && DistinctIds(ring)
    requires ev.kind.Delete? && ev.oldRow.Some?
    ensures PlayerLeft(ApplyChange(ring, ev), Some(ev.oldRow.value.id)) == ApplyChange(ring, ev)
  {
    ClearIdRemoves(ring, ev.oldRow.value.id);
  }

  /** The `forEach` of `loadAll`, filling a fresh array slot by slot. */
  method BuildRing(rows: seq<PlayerRow>) returns (ring: Ring)
    ensures ring == Rebuilt(rows)
  {
    var next := new Option<Player>[SeatCount](_ => None);
    assert next[..] == Rebuilt(rows[..0]);
    var k := 0;
    while k < |rows|
      invariant 0 <= k <= |rows|
      invariant next[..] == Rebuilt(rows[..k])
    {
      var r := rows[k];
      if InRange(r.seat) {
        next[r.seat] := Some(ToPlayer(r));
      }
      assert rows[..k + 1][..k] == rows[..k];
      k := k + 1;
    }
    assert rows[..k] == rows;
    ring := next[..];
  }

  /** The table screen's state: its room, the seat ring and the derived dealer seat. */
  class TableView {
    const roomId: string
    var seats: Ring
    var dealerSeat: Option<nat>

    /** The ring has SeatCount slots and the dealer seat is recomputed from it. */
    ghost predicate Valid()
      reads this
    {
      |seats| == SeatCount && dealerSeat == DealerSeat(seats)
    }

    constructor (roomId: string)
      ensures Valid()
      ensures this.roomId == roomId && seats == Empty() && dealerSeat == None
    {
      this.roomId := roomId;
      seats := Empty();
      dealerSeat := None;
    }

    /** `loadAll`: a failed fetch (no data) rebuilds an empty ring. */
    method LoadAll(data: Option<seq<PlayerRow>>)
      modifies this
      ensures Valid()
      ensures seats == Rebuilt(if data.Some? then data.value else [])
    {
      var rows := if data.Some? then data.value else [];
      var next := BuildRing(rows);
      seats := next;
      dealerSeat := DealerSeat(next);
    }

    /** The realtime change handler: changes of other rooms are dropped. */
    method OnChange(ev: ChangePayload)
      requires Valid()
      modifies this
      ensures Valid()
      ensures EventRoom(ev) != Some(roomId) ==> seats == old(seats) && dealerSeat == old(dealerSeat)
      ensures EventRoom(ev) == Some(roomId) ==> seats == ApplyChange(old(seats), ev)
    {
      if EventRoom(ev) != Some(roomId) {
        return;
      }
      var next := ApplyChange(seats, ev);
      seats := next;
      dealerSeat := DealerSeat(next);
    }

    /** The `player_left` broadcast handler. */
    method OnPlayerLeft(id: Option<string>)
      requires Valid()
      modifies this
      ensures Valid()
      ensures seats == PlayerLeft(old(seats), id)
    {
      if id.None? || id.value == "" {
        return;
      }
      var next := PlayerLeft(seats, id);
      seats := next;
      dealerSeat := DealerSeat(next);
    }
  }
}
