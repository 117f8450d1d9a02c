/** Concrete scenarios for the booking ledger. Instants are written as day numbers
    for readability; only their order matters. */
module Scenarios {
  import opened Enums
  import opened Outcomes
  import opened Records
  import opened Tables
  import Bookings
  import Rooms

  /** One owner (id 1) with one room (id 1), and a guest with id 2 */
  function OneRoom(status: RoomStatus): (db: Db)
    ensures |db.rooms| == 1 && db.rooms[0].id == 1 && db.rooms[0].status == status
    ensures db.bookings == [] && db.nextBookingId == 1
  {
    Rooms.Create(EmptyDb, 1, Rooms.RoomInput("Room A", 100, 2, Some(status))).store
  }

  /** With [10, 12) booked, [11, 13) is refused and [12, 14) is accepted:
      touching endpoints do not overlap */
  lemma HalfOpenWindows()
    ensures var db1 := Bookings.Create(OneRoom(ACTIVE), 2, Bookings.BookingInput(1, 10, 12));
            && db1.Ok?
            && Bookings.Create(db1.value.store, 3, Bookings.BookingInput(1, 11, 13)) == Err(BadRequest(MsgRoomNotAvailable))
            && Bookings.Create(db1.value.store, 3, Bookings.BookingInput(1, 12, 14)).Ok?
  {
    var db0 := OneRoom(ACTIVE);
    assert RoomId(db0.rooms[0]) in Keys(db0.rooms, RoomId);
    var db1 := Bookings.Create(db0, 2, Bookings.BookingInput(1, 10, 12)).value.store;
    assert db1.rooms == db0.rooms;
    assert |db1.bookings| == 1;
  }

  /** An empty range is refused before the room is even looked up */
  lemma EmptyRangeRefused(db: Db, guestId: int, roomId: int, t: int)
    ensures Bookings.Create(db, guestId, Bookings.BookingInput(roomId, t, t)) == Err(BadRequest(MsgInvalidDateRange))
  {
  }

  /** A room whose status is INACTIVE can still be booked */
  lemma InactiveRoomBookable()
    ensures Bookings.Create(OneRoom(INACTIVE), 2, Bookings.BookingInput(1, 10, 12)).Ok?
  {
    var db0 := OneRoom(INACTIVE);
    assert RoomId(db0.rooms[0]) in Keys(db0.rooms, RoomId);
  }

  /** Cancelling twice succeeds twice, and the booking ends CANCELLED */
  lemma DoubleCancelAccepted()
    ensures var db1 := Bookings.Create(OneRoom(ACTIVE), 2, Bookings.BookingInput(1, 10, 12));
            && db1.Ok?
            && var c1 := Bookings.Cancel(db1.value.store, 1, 2, GUEST);
               && c1.Ok?
               && var c2 := Bookings.Cancel(c1.value.store, 1, 2, GUEST);
                  && c2.Ok? && c2.value.item.status == CANCELLED && c2.value.store == c1.value.store
  {
    var db0 := OneRoom(ACTIVE);
    assert RoomId(db0.rooms[0]) in Keys(db0.rooms, RoomId);
    var db1 := Bookings.Create(db0, 2, Bookings.BookingInput(1, 10, 12)).value.store;
    assert BookingId(db1.bookings[0]) in Keys(db1.bookings, BookingId);
    var c1 := Bookings.Cancel(db1, 1, 2, GUEST).value.store;
    assert BookingId(c1.bookings[0]) in Keys(c1.bookings, BookingId);
    assert |c1.bookings| == 1;
  }
}
