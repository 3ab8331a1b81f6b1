/**
 * The per-room resume token kept in the browser's local storage. Local storage
 * is a map from key strings to value strings.
 */
module Storage {
  import opened Wrappers

  const KeyPrefix := "poker:"
  const KeySuffix := ":playerId"

  /** The storage key for a room: the room id between a fixed prefix and a fixed suffix. */
  function PlayerKey(roomId: string): (key: string)
    ensures |key| == |KeyPrefix| + |roomId| + |KeySuffix|
    ensures key[..|KeyPrefix|] == KeyPrefix
    ensures key[|KeyPrefix|..|KeyPrefix| + |roomId|] == roomId
    ensures key[|KeyPrefix| + |roomId|..] == KeySuffix
  {
    KeyPrefix + roomId + KeySuffix
  }

  /** Different rooms never share a key. */
  lemma PlayerKeyInjective(a: string, b: string)
    requires PlayerKey(a) == PlayerKey(b)
    ensures a == b
  {
  }

  /** What `getPlayerId(roomId)` reads from a storage state. */
  function StoredId(items: map<string, string>, roomId: string): Option<string> {
    var key := PlayerKey(roomId);
    if key in items then Some(items[key]) else None
  }

  lemma SaveThenGet(items: map<string, string>, roomId: string, id: string)
    ensures StoredId(items[PlayerKey(roomId) := id], roomId) == Some(id)
  {
  }

  lemma ClearThenGet(items: map<string, string>, roomId: string)
    ensures StoredId(items - {PlayerKey(roomId)}, roomId) == None
  {
  }

  /** Saving the token of one room leaves every other room's token as it was. */
  lemma SaveKeepsOtherRooms(items: map<string, string>, roomId: string, id: string, other: string)
    requires other != roomId
    ensures StoredId(items[PlayerKey(roomId) := id], other) == StoredId(items, other)
  {
    if PlayerKey(other) == PlayerKey(roomId) {
      PlayerKeyInjective(other, roomId);
    }
  }

  /** Clearing the token of one room leaves every other room's token as it was. */
  lemma ClearKeepsOtherRooms(items: map<string, string>, roomId: string, other: string)
    requires other != roomId
    ensures StoredId(items - {PlayerKey(roomId)}, other) == StoredId(items, other)
  {
    if PlayerKey(other) == PlayerKey(roomId) {
      PlayerKeyInjective(other, roomId);
    }
  }

  /** The browser's local storage, seen through the three token operations. */
  class ResumeStore {
    var items: map<string, string>

    constructor (initial: map<string, string>)
      ensures items == initial
    {
      items := initial;
    }

    /** `savePlayerId` */
    method SavePlayerId(roomId: string, id: string)
      modifies this
      ensures items == old(items)[PlayerKey(roomId) := id]
      ensures StoredId(items, roomId) == Some(id)
      ensures forall r :: r != roomId ==> StoredId(items, r) == StoredId(old(items), r)
    {
      ghost var before := items;
      items := items[PlayerKey(roomId) := id];
      forall r | r != roomId
        ensures StoredId(items, r) == StoredId(before, r)
      {
        SaveKeepsOtherRooms(before, roomId, id, r);
      }
    }

    /** `getPlayerId` */
    method GetPlayerId(roomId: string) returns (id: Option<string>)
      ensures id == StoredId(items, roomId)
      ensures id.Some? <==> PlayerKey(roomId) in items
      ensures id.Some? ==> id.value == items[PlayerKey(roomId)]
    {
      id := StoredId(items, roomId);
    }

    /** `clearPlayerId` */
    method ClearPlayerId(roomId: string)
      modifies this
      ensures items == old(items) - {PlayerKey(roomId)}
      ensures StoredId(items, roomId) == None
      ensures forall r :: r != roomId ==> StoredId(items, r) == StoredId(old(items), r)
    {
      ghost var before := items;
      items := items - {PlayerKey(roomId)};
      forall r | r != roomId
        ensures StoredId(items, r) == StoredId(before, r)
      {
        ClearKeepsOtherRooms(before, roomId, r);
      }
    }
  }
}
