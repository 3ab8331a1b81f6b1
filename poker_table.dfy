/** The ring of seats the table component renders. */
module PokerTable {
  import opened Wrappers
  import opened Types

  /**
   * `Array.from({ length: MAX_SEATS }, (_, i) => seats[i] ?? null)`: any seat
   * list, padded with open seats or cut to exactly SeatCount entries.
   */
  function Ring(seats: seq<Option<Player>>): (ring: seq<Option<Player>>)
    ensures |ring| == SeatCount
    ensures forall i :: 0 <= i < |seats| && i < SeatCount ==> ring[i] == seats[i]
    ensures forall i :: |seats| <= i < SeatCount ==> ring[i] == None
  {
    seq(SeatCount, i requires 0 <= i < SeatCount => if i < |seats| then seats[i] else None)
  }

  /** A list of exactly SeatCount seats is rendered as it is. */
  lemma RingOfFullList(seats: seq<Option<Player>>)
    requires |seats| == SeatCount
    ensures Ring(seats) == seats
  {
  }

  /** Entries past the last seat are dropped. */
  lemma RingDropsExtra(seats: seq<Option<Player>>)
    requires |seats| >= SeatCount
    ensures Ring(seats) == seats[..SeatCount]
  {
  }

  /** Normalising twice is normalising once. */
  lemma RingIdempotent(seats: seq<Option<Player>>)
    ensures Ring(Ring(seats)) == Ring(seats)
  {
    RingOfFullList(Ring(seats));
  }
}
