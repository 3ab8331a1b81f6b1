# Poker table roster: a Dafny model of its seat and role rules

The poker app is a browser front end over a hosted database with realtime
change feeds. Players join numbered seats (0 to 9) at a room's table. An admin
edits stacks and hands out the two exclusive roles, dealer and admin. Every
viewer sees the table update live. This project models the small part of the
app that keeps those views consistent:

- **Seat ring** (`TableScreen`). A 10-slot ring of optional players. It is
  rebuilt from a full fetch of the room's rows and patched by realtime INSERT,
  UPDATE and DELETE changes and by the `player_left` broadcast hint. The dealer
  seat is derived from it.
- **Rendered ring** (`PokerTable`). Any seat list is padded or cut to exactly
  10 entries.
- **Join form** (`JoinScreen`). The covered steps are:
  - the `?seat=` preselection;
  - the occupied-seat set and the selection it clears;
  - the seat picker;
  - the ordered local validation;
  - the inserted record;
  - the status text for the backend's answer;
  - the auto-resume check.
- **Admin panel** (`AdminScreen`). The pending money edits, the two-step
  promotions `makeDealer` and `makeSoleAdmin`, and the rules that send the
  viewer back to the player view.
- **Resume token** (`Storage`). A per-room key in local storage, which is
  modelled as a `map<string, string>`.

Shared modules:

- `Types` holds the `players` row, the rendered `Player` and the realtime
  payload.
- `RecordStore` holds the backend table as a `seq<PlayerRow>`. Its filtered
  update `update(patch).eq(...)` is the pure function `UpdateWhere`.
- `JsNumber` holds JavaScript numbers: `Finite(real)`, the two infinities and
  NaN, with `Math.floor`, `Math.max(0, ·)` and `Number.isFinite`.
- `JsString` holds `String.prototype.trim`.

Component state that handlers update becomes a class:

| class | state it holds |
|---|---|
| `TableView` | ring, dealer seat |
| `JoinView` | form fields, occupied set, selection, status, loading |
| `AdminPanel` | player list, edit buffer, loading, saving id, error, "viewer has left" flag |
| `ResumeStore` | local storage |

Reducers and derived values are functions.

Backend answers are parameters of the handlers:

- fetch results;
- the insert outcome;
- whether a targeted update was applied or refused with an error code;
- whether the viewer's own row was found.

Navigation is modelled as state. The admin panel has a `left` flag, and
auto-resume returns the id it resumes.

Some behaviours of the code worth knowing, all modelled as written:

- A DELETE whose id is not in the ring leaves the ring unchanged. Nothing
  reloads.
- When the full fetch returns no `data`, the rebuilt ring is empty.
- `saveOne` drops the pending edit whether or not the write was applied.
- There is no commit-all for money edits.

## Model

| member | source | states |
|---|---|---|
| `Storage.PlayerKey` | src/storage.ts:2 | the key is the room id between the prefix `poker:` and the suffix `:playerId` |
| `Storage.PlayerKeyInjective` | src/storage.ts:2 | two rooms with the same key are the same room |
| `Storage.SaveThenGet` | src/storage.ts:3-6 | after saving `id` for a room, reading that room gives `id` |
| `Storage.ClearThenGet` | src/storage.ts:5-8 | after clearing a room, reading it gives nothing |
| `Storage.SaveKeepsOtherRooms` | src/storage.ts:2-4 | saving for one room leaves every other room's token unchanged |
| `Storage.ClearKeepsOtherRooms` | src/storage.ts:7-8 | clearing one room leaves every other room's token unchanged |
| `Storage.ResumeStore.SavePlayerId` | src/storage.ts:3-4 | sets exactly the room's key; the room now reads `id`, other rooms read as before |
| `Storage.ResumeStore.GetPlayerId` | src/storage.ts:5-6 | returns what the room's token reads (`StoredId`, the state the round-trip lemmas speak about): the value under the room's key, or nothing when the key is absent |
| `Storage.ResumeStore.ClearPlayerId` | src/storage.ts:7-8 | removes exactly the room's key; the room reads nothing, other rooms read as before |
| `PokerTable.Ring` | src/components/PokerTable.tsx:10-13 | exactly 10 entries; entry `i` is `seats[i]` where it exists, otherwise an open seat |
| `PokerTable.RingOfFullList` | src/components/PokerTable.tsx:13 | a 10-entry list is rendered unchanged |
| `PokerTable.RingDropsExtra` | src/components/PokerTable.tsx:13 | entries past index 9 are dropped |
| `PokerTable.RingIdempotent` | src/components/PokerTable.tsx:13 | normalising twice equals normalising once |
| `JsNumber.Floor` | src/screens/JoinScreen.tsx:106 | `Math.floor`: an integer within 1 below a finite value; non-finite values are kept |
| `JsNumber.Max0` | src/screens/JoinScreen.tsx:106 | `Math.max(0, n)`: never negative when finite; NaN stays NaN; -Infinity becomes 0 |
| `JsString.Trim` | src/screens/JoinScreen.tsx:94 | `trim()` keeps one slice of the text, with only white space cut on either side and non-space ends; it is empty iff the text is blank |
| `Types.EventRoom` | src/screens/TableScreen.tsx:74 | the change's room is the new row's room when there is a new row, else the old row's room, and none iff the change carries neither row |
| `TableScreen.ToPlayer` | src/screens/TableScreen.tsx:36-42 | the rendered player copies id, name, money and both role flags from the row |
| `TableScreen.FindIndex` | src/screens/TableScreen.tsx:45 | `findIndex`: the first index satisfying the test, or none when no element satisfies it |
| `TableScreen.SeatOf` | src/screens/TableScreen.tsx:89 | the first slot holding the id, or none iff no slot holds it |
| `TableScreen.DealerSeat` | src/screens/TableScreen.tsx:44-47 | the lowest slot whose occupant is the dealer; none iff no occupant is |
| `TableScreen.Empty` | src/screens/TableScreen.tsx:30-31 | the initial ring: 10 open slots |
| `TableScreen.InsertRow` | src/screens/TableScreen.tsx:79-81 | the player is placed at an in-range seat; every other slot is unchanged, so an out-of-range seat changes nothing |
| `TableScreen.UpdateRow` | src/screens/TableScreen.tsx:82-87 | the first slot holding the id is emptied unless it is the new seat; the player goes to an in-range new seat; no other slot changes |
| `TableScreen.ClearId` | src/screens/TableScreen.tsx:88-91 | only the first slot holding the id is emptied; an absent id leaves the ring unchanged (no reload) |
| `TableScreen.ApplyChange` | src/screens/TableScreen.tsx:77-95 | a change keeps 10 slots; an INSERT with a new row applies `InsertRow`, an UPDATE with a new row applies `UpdateRow`, a DELETE with an old row applies `ClearId` to its id; a change missing the row its kind reads is ignored; a DELETE of an id not in the ring changes nothing |
| `TableScreen.PlayerLeft` | src/screens/TableScreen.tsx:102-111 | a missing or empty id, or one not seated, leaves the ring unchanged; any other id is cleared as `ClearId` does (its first slot emptied, no other slot changed); the ring keeps 10 slots |
| `TableScreen.Rebuilt` | src/screens/TableScreen.tsx:54-57 | the rebuilt ring has 10 slots |
| `TableScreen.RebuiltSlot` | src/screens/TableScreen.tsx:54-57 | after a rebuild, slot `s` is empty iff no row has seat `s`; otherwise it holds the last row with seat `s`; out-of-range rows leave no trace |
| `TableScreen.RebuiltFromRows` | src/screens/TableScreen.tsx:54-57 | every occupied slot after a rebuild holds a fetched row's player |
| `TableScreen.RebuiltDistinct` | src/screens/TableScreen.tsx:49-57 | rows with distinct ids rebuild into a ring with distinct ids |
| `TableScreen.BuildRing` | src/screens/TableScreen.tsx:54-57 | the slot-by-slot array loop computes exactly the rebuilt ring |
| `TableScreen.InsertKeepsDistinct` | src/screens/TableScreen.tsx:79-81 | INSERT keeps ids distinct when the inserted id is not already seated |
| `TableScreen.UpdateKeepsDistinct` | src/screens/TableScreen.tsx:82-87 | UPDATE keeps ids distinct |
| `TableScreen.ClearIdRemoves` | src/screens/TableScreen.tsx:88-91 | with distinct ids, clearing an id leaves no slot holding it, and ids stay distinct |
| `TableScreen.ApplyChangeKeepsDistinct` | src/screens/TableScreen.tsx:77-91 | every realtime change keeps ids distinct; an INSERT needs its id unseated |
| `TableScreen.PlayerLeftKeepsDistinct` | src/screens/TableScreen.tsx:105-108 | the hint keeps ids distinct |
| `TableScreen.PlayerLeftIdempotent` | src/screens/TableScreen.tsx:103-108 | applying the same hint twice gives the ring of applying it once |
| `TableScreen.PlayerLeftThenDelete` | src/screens/TableScreen.tsx:88-108 | the authoritative DELETE after the hint for the same player changes nothing more |
| `TableScreen.DeleteThenPlayerLeft` | src/screens/TableScreen.tsx:88-108 | the hint after the DELETE it announces changes nothing |
| `TableScreen.TableView.constructor` | src/screens/TableScreen.tsx:30-33 | starts with 10 open slots and no dealer seat |
| `TableScreen.TableView.LoadAll` | src/screens/TableScreen.tsx:49-60 | the ring becomes the rebuild of the fetched rows (of no rows when the fetch gave no data); the dealer seat is recomputed |
| `TableScreen.TableView.OnChange` | src/screens/TableScreen.tsx:70-95 | a change whose `new.room_id ?? old.room_id` is another room leaves ring and dealer seat unchanged; otherwise the ring is reduced by the change and the dealer seat recomputed |
| `TableScreen.TableView.OnPlayerLeft` | src/screens/TableScreen.tsx:102-111 | the ring is reduced by the hint and the dealer seat recomputed |
| `JoinScreen.InitialSeat` | src/screens/JoinScreen.tsx:14-21 | the preselection is kept iff it is present, finite and in [0, 10); it is the number itself, not required to be whole |
| `JoinScreen.OccupiedSeats` | src/screens/JoinScreen.tsx:61 | the occupied set is exactly the fetched seats, with no range filter |
| `JoinScreen.KeepFreeSelection` | src/screens/JoinScreen.tsx:85-89 | a selection that is now occupied is cleared; a free selection is kept |
| `JoinScreen.Validate` | src/screens/JoinScreen.tsx:94-97 | passes iff the name is not blank, a seat is selected and it is free; otherwise the first failing check's message, in the order name, seat, taken |
| `JoinScreen.StackOnJoin` | src/screens/JoinScreen.tsx:106 | the stack sent is `max(0, floor(money))`: never negative and whole when finite |
| `JoinScreen.BuildRecord` | src/screens/JoinScreen.tsx:102-108 | the record has the room, the selected seat, the trimmed name, the normalised stack and the admin checkbox |
| `JoinScreen.InsertErrorStatus` | src/screens/JoinScreen.tsx:112-115 | a refused insert reads "Seat already taken…" iff its code is 23505, else "Join failed." |
| `JoinScreen.ValidatedRecord` | src/screens/JoinScreen.tsx:94-108 | a record that passed validation has a non-blank name, a free seat and a non-negative stack |
| `JoinScreen.JoinView.constructor` | src/screens/JoinScreen.tsx:23-29 | the initial form: empty name, stack 1000, no status, not loading, nothing occupied, the parsed preselection |
| `JoinScreen.JoinView.LoadSeats` | src/screens/JoinScreen.tsx:55-63 | a successful fetch on a live view replaces the occupied set; a failed fetch or a cancelled view keeps it |
| `JoinScreen.JoinView.OnOccupiedChanged` | src/screens/JoinScreen.tsx:85-89 | afterwards the selection is never an occupied seat |
| `JoinScreen.JoinView.ClickSeat` | src/screens/JoinScreen.tsx:144 | clicking an occupied seat never changes the selection; clicking a free one selects it |
| `JoinScreen.JoinView.HandleJoin` | src/screens/JoinScreen.tsx:91-123 | a validation failure sets its message, sends nothing and leaves loading and storage alone; otherwise the built record is sent and loading ends false; a refusal sets the mapped status; a success saves the new id as the room's token |
| `JoinScreen.JoinView.AutoResume` | src/screens/JoinScreen.tsx:37-50 | no or empty saved token: nothing happens; a token whose row exists is resumed; a token whose row is gone is cleared |
| `RecordStore.NoHolderCount` | src/screens/AdminScreen.tsx:132-135 | a room where nobody holds the role counts no holder |
| `RecordStore.SoleHolderCount` | src/screens/AdminScreen.tsx:131-140 | with unique ids, a room where exactly the target's row holds the role has one holder if the target is there, else none |
| `RecordStore.ClearThenSet` | src/screens/AdminScreen.tsx:131-140 | clear-then-set changes only the role flag, only in the room, and leaves exactly one holder iff the target is in the room |
| `RecordStore.ClearOnly` | src/screens/AdminScreen.tsx:154-157 | the clear step alone leaves the room without a holder and changes only the role flag |
| `AdminScreen.NormalizeMoney` | src/screens/AdminScreen.tsx:110-113 | a pending amount is never negative; a finite input is floored and clamped at 0; a non-finite input gives 0 |
| `AdminScreen.NormalizeMoneyExamples` | src/screens/AdminScreen.tsx:111-112 | -5 gives 0 and 12.9 gives 12 |
| `AdminScreen.Current` | src/screens/AdminScreen.tsx:206 | the shown amount is the pending edit when one exists, else the committed money |
| `AdminScreen.Dirty` | src/screens/AdminScreen.tsx:206-207 | a row is dirty iff its shown amount (the pending value, else the committed one) differs from the committed money |
| `AdminScreen.AdminConfirmed` | src/screens/AdminScreen.tsx:36-40 | the viewer stays iff the lookup found their row and it is an admin |
| `AdminScreen.SelfChangeRevokes` | src/screens/AdminScreen.tsx:90-99 | a DELETE of the viewer's row, or a new row with `is_admin` false, sends the viewer away; nothing else does |
| `AdminScreen.MakeDealer` | src/screens/AdminScreen.tsx:131-140 | other rooms untouched; in the room only `is_dealer` changes; exactly one dealer iff the target is in the room and the set step was applied, none otherwise |
| `AdminScreen.SoleAdminWrites` | src/screens/AdminScreen.tsx:152-175 | retried iff the set step was refused with 23505; other rooms untouched; in the room only `is_admin` changes; exactly one admin iff the target is in the room and the last set step run was applied |
| `AdminScreen.AdminPanel.constructor` | src/screens/AdminScreen.tsx:23-27 | empty list and edit buffer, loading, nothing saving, no error, viewer present |
| `AdminScreen.AdminPanel.EnsureAdmin` | src/screens/AdminScreen.tsx:29-41 | returns whether the viewer is a confirmed admin; otherwise the viewer is sent away |
| `AdminScreen.AdminPanel.LoadPlayers` | src/screens/AdminScreen.tsx:43-55 | success replaces the list (empty when no data) and empties the whole edit buffer; failure keeps both and sets the error text |
| `AdminScreen.AdminPanel.Mount` | src/screens/AdminScreen.tsx:57-64 | an unconfirmed viewer is sent away and nothing else changes (loading stays on); for a confirmed viewer loading ends and the list load has `LoadPlayers`' outcome: the list becomes the data (none gives an empty list) and the edits are emptied, or a failed fetch sets the error text and keeps list and edits |
| `AdminScreen.AdminPanel.OnRoomChange` | src/screens/AdminScreen.tsx:72-75 | changes of other rooms change nothing; a change of this room reloads: the list becomes the fetched data (none gives an empty list) and the edits are emptied, or a failed fetch sets the error text and keeps list and edits |
| `AdminScreen.AdminPanel.OnSelfChange` | src/screens/AdminScreen.tsx:90-99 | the viewer is sent away exactly when the change revokes the panel |
| `AdminScreen.AdminPanel.HandleMoneyChange` | src/screens/AdminScreen.tsx:110-113 | the normalised amount becomes that row's pending edit; pending amounts stay non-negative |
| `AdminScreen.AdminPanel.SaveOne` | src/screens/AdminScreen.tsx:115-129 | without a pending edit nothing changes; otherwise the amount goes to that id in this room only, and only that id leaves the buffer |
| `AdminScreen.AdminPanel.MakeSoleAdmin` | src/screens/AdminScreen.tsx:152-184 | the table keeps its length; other rooms are untouched; in the room only `is_admin` changes, to true exactly for the target when the last set step run was applied; the room then has one admin iff the target is in it and that step was applied; the viewer leaves iff the target is not the viewer |

## Left out

- Backend I/O is not modelled: fetches, inserts, updates, realtime subscriptions, channel set-up and removal. Each handler receives the backend's answer as a parameter.
- The `dealer_set` broadcast that `makeDealer` sends is not modelled. Nothing shown listens to it.
- The list refresh that follows a promotion is a plain `loadPlayers`, modelled by `AdminPanel.LoadPlayers`.
- Concurrency is not modelled: out-of-order callbacks, the race between the two non-atomic role writes, and the `setTimeout` deferral of the dealer recompute. The model recomputes the dealer seat in the same step.
- `AdminScreen.MakeDealer`: the clear step is always applied. The code ignores that write's result.
- `AdminScreen.SoleAdminWrites`: both clear steps are always applied. Only the set steps can be refused.
- `AdminScreen.AdminPanel.MakeSoleAdmin`: the clear steps are always applied.
- `TableScreen.PlayerLeftIdempotent`: proved only for rings whose ids are distinct. The hint clears only the first slot holding the id, so a ring holding one id twice needs two hints.
- `TableScreen.PlayerLeftThenDelete`: proved only for rings whose ids are distinct, for the same reason.
- `TableScreen.DeleteThenPlayerLeft`: proved only for rings whose ids are distinct, for the same reason.
- The row's seat equalling its slot index is not stated. The rendered `Player` does not carry its seat.
- Turning text into a number (`Number(text)`) is not modelled. Operations take the parsed `JsNumber`.
- IEEE rounding is not modelled: finite numbers are exact reals.
- The form's setters for name, stack and admin checkbox are plain assignments to `JoinView` fields.
- Navigation targets and routes are not modelled. Leaving the admin panel is the `left` flag; auto-resume returns the id it would open.
- The join screen's `cancelled` flag and the admin mount's `mounted` flag are modelled as follows:
  - `cancelled` is a parameter of `LoadSeats`;
  - a mount is assumed to be still live.
- Rendering is not modelled:
  - seat placement in `src/components/Seat.tsx` (trigonometry on floats);
  - currency formatting;
  - button styles and disabled states, except the seat-click guard.
- `src/App.tsx` is not part of this model: routing only.
- `src/screens/LobbyScreen.tsx` is not part of this model: random room ids and plain backend calls.
- `src/screens/AllTablesScreen.tsx` is not part of this model: a list of embedded tables.
- `src/screens/PlayerScreen.tsx` is not part of this model: a fetch, a delete and navigation.
