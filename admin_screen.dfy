/**
 * The admin panel of one room: the pending money edits, the two-step
 * exclusive-role promotions (dealer, sole admin) written to the backend table,
 * and the rules that send the viewer back to the player view.
 */
module AdminScreen {
  import opened Wrappers
  import opened JsNumber
  import opened Types
  import opened RecordStore

  const LoadFailed := "Failed to load players."

  /**
   * `handleMoneyChange`'s normalisation of the typed amount: a finite amount is
   * floored and clamped at 0; anything non-finite becomes 0.
   */
  function NormalizeMoney(value: Num): (n: int)
    ensures n >= 0
    ensures value.Finite? && value.value >= 0.0 ==> n == value.value.Floor
    ensures value.Finite? && value.value < 0.0 ==> n == 0
    ensures !value.Finite? ==> n == 0
  {
    var m := Max0(Floor(value));
    if IsFinite(m) then m.value.Floor else 0
  }

  /** Typing "-5" stores 0 and typing "12.9" stores 12. */
  lemma NormalizeMoneyExamples()
    ensures NormalizeMoney(Finite(-5.0)) == 0
    ensures NormalizeMoney(Finite(12.9)) == 12
  {
  }

  /** The amount shown in a row's input: the pending edit if there is one, else the committed money. */
  function Current(edits: map<string, int>, row: PlayerRow): (shown: int)
    ensures row.id in edits ==> shown == edits[row.id]
    ensures row.id !in edits ==> shown == row.money
  {
    if row.id in edits then edits[row.id] else row.money
  }

  /** A row is dirty when a pending edit exists and differs from the committed money. */
  function Dirty(edits: map<string, int>, row: PlayerRow): (dirty: bool)
    ensures dirty <==> Current(edits, row) != row.money
    ensures !dirty ==> Current(edits, row) == row.money
  {
    row.id in edits && edits[row.id] != row.money
  }

  /** The answer to `ensureAdmin`'s lookup of the viewer's own row. */
  datatype SelfCheck = CheckFailed | NoRow | Found(isAdmin: bool)

  /** `ensureAdmin` keeps the viewer only when the lookup found their row and it is an admin row. */
  function AdminConfirmed(check: SelfCheck): (ok: bool)
    ensures ok <==> check == Found(true)
  {
    !(check.CheckFailed? || check.NoRow? || !check.isAdmin)
  }

  /** A change to the viewer's own row revokes the panel when it deletes the row or says it is no admin. */
  function SelfChangeRevokes(ev: ChangePayload): (revoked: bool)
    ensures ev.kind.Delete? ==> revoked
    ensures !ev.kind.Delete? ==> (revoked <==> ev.newRow.Some? && !ev.newRow.value.isAdmin)
  {
    if ev.kind.Delete? then true
    else ev.newRow.Some? && !ev.newRow.value.isAdmin
  }

  /**
   * `makeDealer`: clear the dealer flag in the room, then set it on the chosen
   * player in the room (the backend decides whether that second write is
   * applied). Other rooms are untouched, only the dealer flag changes, and the
   * room ends with exactly one dealer when the player is in it and the write
   * was applied, none otherwise.
   */
  method MakeDealer(rows: seq<PlayerRow>, roomId: string, id: string, setStep: WriteOutcome) returns (after: seq<PlayerRow>)
    requires UniqueIds(rows)
    ensures |after| == |rows|
    ensures forall i :: 0 <= i < |rows| && rows[i].roomId != roomId ==> after[i] == rows[i]
    ensures forall i :: 0 <= i < |rows| && rows[i].roomId == roomId ==>
              after[i] == rows[i].(isDealer := setStep.Applied? && rows[i].id == id)
    ensures HolderCount(after, roomId, Dealer) == if setStep.Applied? && TargetInRoom(rows, roomId, id) then 1 else 0
  {
    after := UpdateWhere(rows, InRoom(roomId), SetRole(Dealer, false));
    ClearOnly(rows, roomId, Dealer);
    if setStep.Applied? {
      ClearThenSet(rows, roomId, id, Dealer);
    }
    after := Write(after, IdInRoom(id, roomId), SetRole(Dealer, true), setStep);
  }

  /**
   * The table writes of `makeSoleAdmin`: clear the admin flag in the room, set
   * it on the chosen player, and when that set step is refused as a unique
   * violation, clear and set once more. The room ends with exactly one admin
   * when the player is in it and the last set step run was applied, none
   * otherwise; other rooms and other fields are untouched.
   */
  method SoleAdminWrites(rows: seq<PlayerRow>, roomId: string, id: string, setStep: WriteOutcome, retryStep: WriteOutcome)
    returns (after: seq<PlayerRow>, retried: bool)
    requires UniqueIds(rows)
    ensures retried <==> setStep == Rejected(UniqueViolation)
    ensures var granted := setStep.Applied? || (retried && retryStep.Applied?);
      && |after| == |rows|
      && (forall i :: 0 <= i < |rows| && rows[i].roomId != roomId ==> after[i] == rows[i])
      && (forall i :: 0 <= i < |rows| && rows[i].roomId == roomId ==>
            after[i] == rows[i].(isAdmin := granted && rows[i].id == id))
      && HolderCount(after, roomId, Admin) == if granted && TargetInRoom(rows, roomId, id) then 1 else 0
  {
    var cleared := UpdateWhere(rows, InRoom(roomId), SetRole(Admin, false));
    ClearOnly(rows, roomId, Admin);
    ClearThenSet(rows, roomId, id, Admin);
    after := Write(cleared, IdInRoom(id, roomId), SetRole(Admin, true), setStep);
    retried := setStep == Rejected(UniqueViolation);
    if retried {
      after := UpdateWhere(after, InRoom(roomId), SetRole(Admin, false));
      assert after == cleared;
      after := Write(after, IdInRoom(id, roomId), SetRole(Admin, true), retryStep);
    }
  }

  /** The result of `loadPlayers`' fetch: refused, or answered with data (possibly none). */
  datatype PlayersFetch = FetchFailed | Fetched(data: Option<seq<PlayerRow>>)

  /** The admin panel's state for one room, viewed by the player `adminId`. */
  class AdminPanel {
    const roomId: string
    const adminId: string
    var players: seq<PlayerRow>
    var edits: map<string, int>
    var loading: bool
    var savingId: Option<string>
    var error: Option<string>
    /** The viewer has been sent back to the player view. */
    var left: bool

    /** Pending amounts are never negative. */
    ghost predicate Valid()
      reads this
    {
      forall id :: id in edits ==> edits[id] >= 0
    }

    constructor (roomId: string, adminId: string)
      ensures Valid()
      ensures this.roomId == roomId && this.adminId == adminId
      ensures players == [] && edits == map[] && loading && savingId.None? && error.None? && !left
    {
      this.roomId := roomId;
      this.adminId := adminId;
      players := [];
      edits := map[];
      loading := true;
      savingId := None;
      error := None;
      left := false;
    }

    /** `ensureAdmin`: an error, a missing row or a non-admin row sends the viewer away. */
    method EnsureAdmin(check: SelfCheck) returns (ok: bool)
      modifies this`left
      ensures ok == AdminConfirmed(check)
      ensures left == (old(left) || !ok)
    {
      if !AdminConfirmed(check) {
        left := true;
        return false;
      }
      return true;
    }

    /** `loadPlayers`: success replaces the list and drops every pending edit; failure keeps both. */
    method LoadPlayers(fetched: PlayersFetch)
      requires Valid()
      modifies this`players, this`edits, this`error
      ensures Valid()
      ensures fetched.FetchFailed? ==> error == Some(LoadFailed) && players == old(players) && edits == old(edits)
      ensures fetched.Fetched? ==>
        && players == (if fetched.data.Some? then fetched.data.value else [])
        && edits == map[] && error == old(error)
    {
      if fetched.FetchFailed? {
        error := Some(LoadFailed);
        return;
      }
      players := if fetched.data.Some? then fetched.data.value else [];
      edits := map[];
    }

    /** The mount effect: confirm the viewer is an admin, then load the list. */
    method Mount(check: SelfCheck, fetched: PlayersFetch)
      requires Valid()
      modifies this`left, this`players, this`edits, this`error, this`loading
      ensures Valid()
      ensures !AdminConfirmed(check) ==>
        && left && players == old(players) && edits == old(edits)
        && error == old(error) && loading == old(loading)
      ensures AdminConfirmed(check) ==> left == old(left) && !loading
      ensures AdminConfirmed(check) && fetched.FetchFailed? ==>
        error == Some(LoadFailed) && players == old(players) && edits == old(edits)
      ensures AdminConfirmed(check) && fetched.Fetched? ==>
        && players == (if fetched.data.Some? then fetched.data.value else [])
        && edits == map[] && error == old(error)
    {
      var ok := EnsureAdmin(check);
      if !ok {
        return;
      }
      LoadPlayers(fetched);
      loading := false;
    }

    /** The room-wide change listener: changes of this room reload the list, others are ignored. */
    method OnRoomChange(ev: ChangePayload, fetched: PlayersFetch)
      requires Valid()
      modifies this`players, this`edits, this`error
      ensures Valid()
      ensures EventRoom(ev) != Some(roomId) ==> players == old(players) && edits == old(edits) && error == old(error)
      ensures EventRoom(ev) == Some(roomId) && fetched.FetchFailed? ==>
        error == Some(LoadFailed) && players == old(players) && edits == old(edits)
      ensures EventRoom(ev) == Some(roomId) && fetched.Fetched? ==>
        && players == (if fetched.data.Some? then fetched.data.value else [])
        && edits == map[] && error == old(error)
    {
      if EventRoom(ev) == Some(roomId) {
        LoadPlayers(fetched);
      }
    }

    /**
     * The listener on the viewer's own row. The subscription is filtered to
     * `id=eq.adminId` by the backend, so every change delivered here is about
     * the viewer's row; that filter is not modelled.
     */
    method OnSelfChange(ev: ChangePayload)
      modifies this`left
      ensures left == (old(left) || SelfChangeRevokes(ev))
    {
      if SelfChangeRevokes(ev) {
        left := true;
      }
    }

    /** `handleMoneyChange`: the normalised amount becomes the row's pending edit. */
    method HandleMoneyChange(id: string, value: Num)
      requires Valid()
      modifies this`edits
      ensures Valid()
      ensures edits == old(edits)[id := NormalizeMoney(value)]
    {
      edits := edits[id := NormalizeMoney(value)];
    }

    /**
     * `saveOne`: without a pending edit nothing happens; otherwise the amount is
     * written to that player of this room only, and the edit is dropped whether
     * or not the backend applied the write.
     */
    method SaveOne(id: string, rows: seq<PlayerRow>, write: WriteOutcome) returns (after: seq<PlayerRow>)
      requires Valid()
      modifies this`edits, this`savingId
      ensures Valid()
      ensures id !in old(edits) ==> after == rows && edits == old(edits) && savingId == old(savingId)
      ensures id in old(edits) ==>
        && |after| == |rows|
        && (forall i :: 0 <= i < |rows| ==>
              after[i] == if write.Applied? && rows[i].id == id && rows[i].roomId == roomId
                          then rows[i].(money := old(edits)[id]) else rows[i])
        && edits == old(edits) - {id}
        && savingId.None?
    {
      if id !in edits {
        return rows;
      }
      var money := edits[id];
      savingId := Some(id);
      after := Write(rows, IdInRoom(id, roomId), SetMoney(money), write);
      savingId := None;
      edits := edits - {id};
    }

    /**
     * `makeSoleAdmin`: the table writes, then the viewer leaves the panel
     * exactly when they gave the role to someone else.
     */
    method MakeSoleAdmin(id: string, rows: seq<PlayerRow>, setStep: WriteOutcome, retryStep: WriteOutcome)
      returns (after: seq<PlayerRow>)
      requires UniqueIds(rows)
      modifies this`left
      ensures left == (old(left) || id != adminId)
      ensures var granted := setStep.Applied? || (setStep == Rejected(UniqueViolation) && retryStep.Applied?);
        && |after| == |rows|
        && (forall i :: 0 <= i < |rows| && rows[i].roomId != roomId ==> after[i] == rows[i])
        && (forall i :: 0 <= i < |rows| && rows[i].roomId == roomId ==>
              after[i] == rows[i].(isAdmin := granted && rows[i].id == id))
        && HolderCount(after, roomId, Admin) == if granted && TargetInRoom(rows, roomId, id) then 1 else 0
    {
      var retried;
      after, retried := SoleAdminWrites(rows, roomId, id, setStep, retryStep);
      if id != adminId {
        left := true;
      }
    }
  }
}
