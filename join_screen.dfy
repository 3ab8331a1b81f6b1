/**
 * The join form of one room: the preselected seat, the occupied-seat set, the
 * seat picker, the ordered local validation, the record sent to the backend,
 * and the status text for the backend's answer.
 */
module JoinScreen {
  import opened Wrappers
  import opened JsNumber
  import opened JsString
  import opened Types
  import opened RecordStore
  import opened Storage

  const NameRequired := "Please enter a name."
  const SeatRequired := "Pick a seat."
  const SeatJustTaken := "That seat was just taken. Pick another."
  const SeatTakenOnInsert := "Seat already taken. Please choose another."
  const JoinFailed := "Join failed."

  /** The starting stack shown in the form. */
  const DefaultMoney := 1000.0

  /**
   * `initialSeat`: the `?seat=` parameter, already read as a number, is kept
   * when it is finite and in [0, SeatCount); it is not required to be whole.
   */
  function InitialSeat(param: Option<Num>): (seat: Option<real>)
    ensures seat.Some? <==> param.Some? && IsFinite(param.value) && 0.0 <= param.value.value < SeatCount as real
    ensures seat.Some? ==> seat.value == param.value.value
  {
    match param
    case None => None
    case Some(n) => if IsFinite(n) && n.value >= 0.0 && n.value < SeatCount as real then Some(n.value) else None
  }

  /** `new Set(data.map((r) => r.seat))`: every fetched seat, with no range check. */
  function OccupiedSeats(seats: seq<int>): (occ: set<real>)
    ensures forall k :: 0 <= k < |seats| ==> seats[k] as real in occ
    ensures forall x :: x in occ ==> exists k :: 0 <= k < |seats| && seats[k] as real == x
  {
    if seats == [] then {}
    else OccupiedSeats(seats[..|seats| - 1]) + {seats[|seats| - 1] as real}
  }

  /** The selection-clearing effect: a taken selection is dropped, a free one is kept. */
  function KeepFreeSelection(selected: Option<real>, occupied: set<real>): (r: Option<real>)
    ensures r.Some? ==> r == selected && r.value !in occupied
    ensures selected.Some? && selected.value !in occupied ==> r == selected
  {
    if selected.Some? && selected.value in occupied then None else selected
  }

  /** The checks of `handleJoin`, in order; the first failing one gives the message. */
  function Validate(name: string, selected: Option<real>, occupied: set<real>): (err: Option<string>)
    ensures err.None? <==> !Blank(name) && selected.Some? && selected.value !in occupied
    ensures err == Some(NameRequired) <==> Blank(name)
    ensures err == Some(SeatRequired) <==> !Blank(name) && selected.None?
    ensures err == Some(SeatJustTaken) <==> !Blank(name) && selected.Some? && selected.value in occupied
  {
    if Trim(name) == [] then Some(NameRequired)
    else if selected.None? then Some(SeatRequired)
    else if selected.value in occupied then Some(SeatJustTaken)
    else None
  }

  /** `Math.max(0, Math.floor(money))`: the stack sent on join. */
  function StackOnJoin(money: Num): (r: Num)
    ensures !r.NegInfinity?
    ensures r.Finite? ==> r.value >= 0.0 && IsIntegral(r.value)
    ensures money.Finite? && money.value >= 0.0 ==> r == Finite(money.value.Floor as real)
    ensures money.Finite? && money.value < 0.0 ==> r == Finite(0.0)
    ensures money.NegInfinity? ==> r == Finite(0.0)
    ensures money.PosInfinity? ==> r == PosInfinity
    ensures money.NaN? ==> r == NaN
  {
    Max0(Floor(money))
  }

  /** The record inserted into `players`. */
  datatype JoinRecord = JoinRecord(roomId: string, seat: real, name: string, money: Num, isAdmin: bool)

  function BuildRecord(roomId: string, name: string, money: Num, seat: real, isAdmin: bool): (rec: JoinRecord)
    ensures rec.roomId == roomId && rec.seat == seat && rec.isAdmin == isAdmin
    ensures rec.name == Trim(name)
    ensures rec.money == StackOnJoin(money)
  {
    JoinRecord(roomId, seat, Trim(name), StackOnJoin(money), isAdmin)
  }

  /** The status text for a refused insert: a unique violation means the seat was taken. */
  function InsertErrorStatus(code: Option<string>): (msg: string)
    ensures msg == SeatTakenOnInsert <==> code == Some(UniqueViolation)
    ensures msg != SeatTakenOnInsert ==> msg == JoinFailed
  {
    if code == Some(UniqueViolation) then SeatTakenOnInsert else JoinFailed
  }

  /** A record that passed validation has a non-blank name, a free seat and a non-negative stack. */
  lemma ValidatedRecord(roomId: string, name: string, money: Num, selected: Option<real>, occupied: set<real>, isAdmin: bool)
    requires Validate(name, selected, occupied).None?
    ensures var rec := BuildRecord(roomId, name, money, selected.value, isAdmin);
      && rec.name != [] && !IsJsSpace(rec.name[0])
      && rec.seat !in occupied
      && !rec.money.NegInfinity? && (rec.money.Finite? ==> rec.money.value >= 0.0)
  {
  }

  /** The backend's answer to the insert. */
  datatype InsertOutcome = Inserted(id: string) | InsertRefused(code: Option<string>)

  /** The join screen's state. */
  class JoinView {
    const roomId: string
    var name: string
    var money: Num
    var isAdmin: bool
    var status: Option<string>
    var loading: bool
    var occupied: set<real>
    var selectedSeat: Option<real>

    constructor (roomId: string, seatParam: Option<Num>)
      ensures this.roomId == roomId && name == "" && money == Finite(DefaultMoney) && !isAdmin
      ensures status.None? && !loading && occupied == {}
      ensures selectedSeat == InitialSeat(seatParam)
    {
      this.roomId := roomId;
      name := "";
      money := Finite(DefaultMoney);
      isAdmin := false;
      status := None;
      loading := false;
      occupied := {};
      selectedSeat := InitialSeat(seatParam);
    }

    /** `loadSeats`: a failed fetch or an unmounted view keeps the previous set. */
    method LoadSeats(fetched: Option<seq<int>>, cancelled: bool)
      modifies this`occupied
      ensures occupied == if fetched.Some? && !cancelled then OccupiedSeats(fetched.value) else old(occupied)
    {
      if fetched.None? {
        return;
      }
      var occ := OccupiedSeats(fetched.value);
      if !cancelled {
        occupied := occ;
      }
    }

    /** The effect run when the occupied set changes. */
    method OnOccupiedChanged()
      modifies this`selectedSeat
      ensures selectedSeat == KeepFreeSelection(old(selectedSeat), occupied)
      ensures selectedSeat.Some? ==> selectedSeat.value !in occupied
    {
      selectedSeat := KeepFreeSelection(selectedSeat, occupied);
    }

    /** A click on seat button `s`: an occupied seat never changes the selection. */
    method ClickSeat(s: int)
      requires 0 <= s < SeatCount
      modifies this`selectedSeat
      ensures s as real in occupied ==> selectedSeat == old(selectedSeat)
      ensures s as real !in occupied ==> selectedSeat == Some(s as real)
    {
      if s as real !in occupied {
        selectedSeat := Some(s as real);
      }
    }

    /**
     * `handleJoin`: validation failures set their message and send nothing;
     * otherwise the record is sent, a refusal is reported and re-arms the form,
     * and a success stores the new id as the room's resume token.
     */
    method HandleJoin(outcome: InsertOutcome, store: ResumeStore) returns (sent: Option<JoinRecord>)
      modifies this`status, this`loading, store
      ensures var err := Validate(name, selectedSeat, occupied);
        && (err.Some? ==> sent.None? && status == err && loading == old(loading) && store.items == old(store.items))
        && (err.None? ==> sent == Some(BuildRecord(roomId, name, money, selectedSeat.value, isAdmin)) && !loading)
      ensures sent.Some? && outcome.InsertRefused? ==>
        status == Some(InsertErrorStatus(outcome.code)) && store.items == old(store.items)
      ensures sent.Some? && outcome.Inserted? ==>
        status.None? && store.items == old(store.items)[PlayerKey(roomId) := outcome.id]
        && StoredId(store.items, roomId) == Some(outcome.id)
    {
      status := None;
      var err := Validate(name, selectedSeat, occupied);
      if err.Some? {
        status := err;
        return None;
      }
      loading := true;
      var rec := BuildRecord(roomId, name, money, selectedSeat.value, isAdmin);
      sent := Some(rec);
      match outcome
      case InsertRefused(code) =>
        status := Some(InsertErrorStatus(code));
        loading := false;
      case Inserted(id) =>
        store.SavePlayerId(roomId, id);
        loading := false;
    }

    /**
     * The auto-resume effect: a stored token whose row still exists is resumed
     * (the returned id); a token whose row is gone is cleared.
     */
    method AutoResume(store: ResumeStore, rowFound: bool) returns (resume: Option<string>)
      modifies store
      ensures var saved := StoredId(old(store.items), roomId);
        && (saved.None? || saved == Some("") ==> resume.None? && store.items == old(store.items))
        && (saved.Some? && saved.value != "" && rowFound ==> resume == saved && store.items == old(store.items))
        && (saved.Some? && saved.value != "" && !rowFound ==> resume.None? && store.items == old(store.items) - {PlayerKey(roomId)})
    {
      var saved := store.GetPlayerId(roomId);
      if saved.None? || saved.value == "" {
        return None;
      }
      if rowFound {
        return saved;
      }
      store.ClearPlayerId(roomId);
      return None;
    }
  }
}
