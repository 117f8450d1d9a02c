/** What every reachable database satisfies: unique keys below their
    counters, unique emails, bookings that name an existing room, non-empty
    booking intervals, and no double booking. */
module Invariants {
  import opened Records
  import opened Overlap
  import opened Tables

  predicate Wf(db: Db) {
    && UniqueBy(db.users, UserId) && KeysBelow(db.users, UserId, db.nextUserId)
    && UniqueBy(db.users, UserEmail)
    && UniqueBy(db.rooms, RoomId) && KeysBelow(db.rooms, RoomId, db.nextRoomId)
    && UniqueBy(db.bookings, BookingId) && KeysBelow(db.bookings, BookingId, db.nextBookingId)
    && (forall i :: 0 <= i < |db.bookings| ==> db.bookings[i].roomId in Keys(db.rooms, RoomId))
    && ValidRanges(db.bookings)
    && NoDoubleBooking(db.bookings)
  }

  /** The bounds the request validation puts on every stored room */
  predicate RoomBounds(rooms: seq<Room>) {
    forall i :: 0 <= i < |rooms| ==> rooms[i].price >= 0 && rooms[i].capacity >= 1
  }

  /** The invariant the API as a whole keeps */
  predicate Consistent(db: Db) {
    Wf(db) && RoomBounds(db.rooms)
  }

  lemma EmptyDbConsistent()
    ensures Consistent(EmptyDb)
  {
  }
}
