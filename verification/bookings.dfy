/** The booking ledger: creation with its date-range, room and overlap
    checks, cancellation, and the two listings. */
module Bookings {
  import opened Enums
  import opened Outcomes
  import opened Records
  import opened Overlap
  import opened Tables
  import opened Invariants
  import Policy

  /** The booking request once validated; the guest comes from the caller's identity */
  datatype BookingInput = BookingInput(roomId: int, checkIn: int, checkOut: int)

  /** The row that a successful creation inserts */
  function NewBooking(db: Db, guestId: int, input: BookingInput): Booking {
    Booking(db.nextBookingId, input.roomId, guestId, input.checkIn, input.checkOut, CONFIRMED)
  }

  /** Books a room: rejects an empty or inverted range before any lookup,
      then a missing room, then any pending or confirmed booking of that room
      meeting the range; otherwise inserts a CONFIRMED booking. The room's
      status is never consulted. */
  function Create(db: Db, guestId: int, input: BookingInput): (r: Result<Committed<Booking>>)
    ensures input.checkIn >= input.checkOut ==> r == Err(BadRequest(MsgInvalidDateRange))
    ensures input.checkIn < input.checkOut && input.roomId !in Keys(db.rooms, RoomId) ==>
              r == Err(NotFound(MsgRoomNotFound))
    ensures input.checkIn < input.checkOut && input.roomId in Keys(db.rooms, RoomId) &&
            (exists i :: 0 <= i < |db.bookings| && Blocks(db.bookings[i], input.roomId, input.checkIn, input.checkOut)) ==>
              r == Err(BadRequest(MsgRoomNotAvailable))
    ensures r.Ok? <==>
              && input.checkIn < input.checkOut
              && input.roomId in Keys(db.rooms, RoomId)
              && forall i :: 0 <= i < |db.bookings| ==> !Blocks(db.bookings[i], input.roomId, input.checkIn, input.checkOut)
    ensures r.Ok? ==>
              && r.value.item == NewBooking(db, guestId, input)
              && r.value.store == db.(bookings := db.bookings + [r.value.item], nextBookingId := db.nextBookingId + 1)
  {
    if input.checkIn >= input.checkOut then Err(BadRequest(MsgInvalidDateRange))
    else if Lookup(db.rooms, RoomId, input.roomId).None? then Err(NotFound(MsgRoomNotFound))
    else if FirstBlocking(db.bookings, input.roomId, input.checkIn, input.checkOut).Some? then
      Err(BadRequest(MsgRoomNotAvailable))
    else
      var b := NewBooking(db, guestId, input);
      Ok(Committed(db.(bookings := db.bookings + [b], nextBookingId := db.nextBookingId + 1), b))
  }

  /** The status rewrite a cancellation applies to the matching row */
  function Cancelled(b: Booking): Booking {
    b.(status := CANCELLED)
  }

  /** Cancels a booking: a missing id is not found; anyone but its guest or an
      ADMIN is refused; otherwise its status becomes CANCELLED, whatever it was */
  function Cancel(db: Db, bookingId: int, requesterId: int, requesterRole: Role): (r: Result<Committed<Booking>>)
    ensures bookingId !in Keys(db.bookings, BookingId) ==> r == Err(NotFound(MsgBookingNotFound))
    ensures UniqueBy(db.bookings, BookingId) ==>
              forall i :: 0 <= i < |db.bookings| && db.bookings[i].id == bookingId ==>
                && (r.Ok? <==> Policy.OwnsOrAdmin(db.bookings[i].guestId, requesterId, requesterRole))
                && (r.Ok? ==> r.value.item == Cancelled(db.bookings[i]))
                && (r.Err? ==> r.error == Forbidden(MsgNotAllowed))
    ensures r.Ok? ==>
              && r.value.store == db.(bookings := r.value.store.bookings)
              && |r.value.store.bookings| == |db.bookings|
              && forall i :: 0 <= i < |db.bookings| ==>
                   r.value.store.bookings[i] ==
                     if db.bookings[i].id == bookingId then Cancelled(db.bookings[i]) else db.bookings[i]
  {
    match Lookup(db.bookings, BookingId, bookingId)
    case None => Err(NotFound(MsgBookingNotFound))
    case Some(b) =>
      if !Policy.OwnsOrAdmin(b.guestId, requesterId, requesterRole) then Err(Forbidden(MsgNotAllowed))
      else
        var bs := UpdateWhere(db.bookings, (x: Booking) => x.id == bookingId, Cancelled);
        Ok(Committed(db.(bookings := bs), Cancelled(b)))
  }

  /** The guest's own bookings, of any status, each once per stored row, in
      no promised order */
  function ListForGuest(db: Db, guestId: int): (r: seq<Booking>)
    ensures forall b :: b in r <==> b in db.bookings && b.guestId == guestId
    ensures forall b :: multiset(r)[b] == if b.guestId == guestId then multiset(db.bookings)[b] else 0
  {
    Filter(db.bookings, (b: Booking) => b.guestId == guestId)
  }

  /** Every booking, unfiltered: each stored row once, whatever its status,
      and so every booking that any guest's own listing shows */
  function ListAll(db: Db): (r: seq<Booking>)
    ensures forall b :: multiset(r)[b] == multiset(db.bookings)[b]
    ensures forall b :: b in r <==> b in ListForGuest(db, b.guestId)
  {
    db.bookings
  }

  /** The full listing is exactly the union of the per-guest listings */
  lemma ListAllIsUnionOfGuests(db: Db, b: Booking)
    ensures b in ListAll(db) <==> b in ListForGuest(db, b.guestId)
    ensures forall g :: b in ListForGuest(db, g) ==> b in ListAll(db)
  {
  }

  /** A successful creation keeps the database well formed: in particular no
      room ends up with two pending or confirmed bookings that overlap */
  lemma CreatePreservesWf(db: Db, guestId: int, input: BookingInput)
    requires Wf(db)
    requires Create(db, guestId, input).Ok?
    ensures Wf(Create(db, guestId, input).value.store)
  {
    var b := NewBooking(db, guestId, input);
    AppendFromCounter(db.bookings, BookingId, b, db.nextBookingId);
    AppendUnique(db.bookings, BookingId, b);
    AppendKeepsNoDoubleBooking(db.bookings, b);
  }

  /** A successful cancellation keeps the database well formed */
  lemma CancelPreservesWf(db: Db, bookingId: int, requesterId: int, requesterRole: Role)
    requires Wf(db)
    requires Cancel(db, bookingId, requesterId, requesterRole).Ok?
    ensures Wf(Cancel(db, bookingId, requesterId, requesterRole).value.store)
  {
    var p := (x: Booking) => x.id == bookingId;
    UpdateKeepsKeys(db.bookings, BookingId, p, Cancelled);
    UpdateKeepsBound(db.bookings, BookingId, p, Cancelled, db.nextBookingId);
    ReleaseKeepsNoDoubleBooking(db.bookings, p, Cancelled);
  }

  /** Cancelling an already cancelled booking is accepted and changes nothing:
      the service performs no check on the booking's current status */
  lemma RecancelSucceedsUnchanged(db: Db, i: int, requesterId: int, requesterRole: Role)
    requires Wf(db)
    requires 0 <= i < |db.bookings| && db.bookings[i].status == CANCELLED
    requires Policy.OwnsOrAdmin(db.bookings[i].guestId, requesterId, requesterRole)
    ensures Cancel(db, db.bookings[i].id, requesterId, requesterRole) == Ok(Committed(db, db.bookings[i]))
  {
    var r := Cancel(db, db.bookings[i].id, requesterId, requesterRole);
    assert r.Ok?;
    assert r.value.store.bookings == db.bookings;
  }

  /** Once a booking of a room succeeds, any later request for the same room
      whose range meets it is refused as unavailable */
  lemma OverlappingSecondCreateFails(db: Db, g1: int, g2: int, first: BookingInput, second: BookingInput)
    requires Create(db, g1, first).Ok?
    requires second.roomId == first.roomId
    requires second.checkIn < second.checkOut
    requires first.checkIn < second.checkOut && second.checkIn < first.checkOut
    ensures Create(Create(db, g1, first).value.store, g2, second) == Err(BadRequest(MsgRoomNotAvailable))
  {
    var db1 := Create(db, g1, first).value.store;
    var b := NewBooking(db, g1, first);
    assert db1.bookings[|db.bookings|] == b;
    assert Blocks(db1.bookings[|db.bookings|], second.roomId, second.checkIn, second.checkOut);
  }

  /** Cancelling a booking frees its dates: the same request then succeeds again */
  lemma CancelThenRebook(db: Db, guestId: int, input: BookingInput, role: Role)
    requires Wf(db)
    requires Create(db, guestId, input).Ok?
    ensures var db1 := Create(db, guestId, input).value.store;
            var c := Cancel(db1, db.nextBookingId, guestId, role);
            c.Ok? && Create(c.value.store, guestId, input).Ok?
  {
    CreatePreservesWf(db, guestId, input);
    var db1 := Create(db, guestId, input).value.store;
    var n := |db.bookings|;
    assert db1.bookings[n].id == db.nextBookingId;
    var c := Cancel(db1, db.nextBookingId, guestId, role);
    assert c.Ok?;
    var db2 := c.value.store;
    forall i | 0 <= i < |db2.bookings|
      ensures !Blocks(db2.bookings[i], input.roomId, input.checkIn, input.checkOut)
    {
      if i < n {
        assert db2.bookings[i] == db.bookings[i];
      } else {
        assert db2.bookings[i].status == CANCELLED;
      }
    }
    assert input.roomId in Keys(db2.rooms, RoomId);
  }
}
