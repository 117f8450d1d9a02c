/** The room registry: creation, owner-or-ADMIN guarded partial update, the
    filtered listing with its availability window, and a room's bookings. */
module Rooms {
  import opened Enums
  import opened Outcomes
  import opened Records
  import opened Overlap
  import opened Tables
  import opened Invariants
  import Policy
  import Bookings

  /** The fields a room is created with; a missing status means ACTIVE */
  datatype RoomInput = RoomInput(name: string, price: int, capacity: int, status: Option<RoomStatus>)

  /** The fields an update may supply; absent ones are left as they are */
  datatype RoomPatch = RoomPatch(
    name: Option<string>,
    price: Option<int>,
    capacity: Option<int>,
    status: Option<RoomStatus>)

  /** The listing filters; every one of them may be absent */
  datatype RoomFilters = RoomFilters(
    priceMin: Option<int>,
    priceMax: Option<int>,
    capacityMin: Option<int>,
    capacityMax: Option<int>,
    checkIn: Option<int>,
    checkOut: Option<int>)

  /** Inserts a room owned by `ownerId`. The service itself checks nothing:
      the bounds on price and capacity live only in the request validation. */
  function Create(db: Db, ownerId: int, input: RoomInput): (r: Committed<Room>)
    ensures r.item.id == db.nextRoomId
    ensures r.item.ownerId == ownerId
    ensures r.item.name == input.name && r.item.price == input.price && r.item.capacity == input.capacity
    ensures input.status.Some? ==> r.item.status == input.status.value
    ensures input.status.None? ==> r.item.status == ACTIVE
    ensures r.store == db.(rooms := db.rooms + [r.item], nextRoomId := db.nextRoomId + 1)
  {
    var room := Room(db.nextRoomId, ownerId, input.name, input.price, input.capacity, input.status.GetOr(ACTIVE));
    Committed(db.(rooms := db.rooms + [room], nextRoomId := db.nextRoomId + 1), room)
  }

  /** `room` with the supplied fields of `patch` written over it */
  function ApplyPatch(room: Room, patch: RoomPatch): Room {
    room.(name := patch.name.GetOr(room.name),
          price := patch.price.GetOr(room.price),
          capacity := patch.capacity.GetOr(room.capacity),
          status := patch.status.GetOr(room.status))
  }

  /** Updates a room: a missing id is not found; anyone but its owner or an
      ADMIN is refused; otherwise only the supplied fields change */
  function Update(db: Db, roomId: int, requesterId: int, patch: RoomPatch, requesterRole: Role): (r: Result<Committed<Room>>)
    ensures roomId !in Keys(db.rooms, RoomId) ==> r == Err(NotFound(MsgRoomNotFound))
    ensures UniqueBy(db.rooms, RoomId) ==>
              forall i :: 0 <= i < |db.rooms| && db.rooms[i].id == roomId ==>
                && (r.Ok? <==> Policy.OwnsOrAdmin(db.rooms[i].ownerId, requesterId, requesterRole))
                && (r.Err? ==> r.error == Forbidden(MsgNotAllowed))
    ensures r.Ok? ==>
              && r.value.store == db.(rooms := r.value.store.rooms)
              && |r.value.store.rooms| == |db.rooms|
              && r.value.item.id == roomId
              && r.value.item in r.value.store.rooms
              && forall i :: 0 <= i < |db.rooms| ==>
                   var before, after := db.rooms[i], r.value.store.rooms[i];
                   && after.id == before.id && after.ownerId == before.ownerId
                   && (before.id != roomId ==> after == before)
                   && (before.id == roomId ==>
                         && after.name == (if patch.name.Some? then patch.name.value else before.name)
                         && after.price == (if patch.price.Some? then patch.price.value else before.price)
                         && after.capacity == (if patch.capacity.Some? then patch.capacity.value else before.capacity)
                         && after.status == (if patch.status.Some? then patch.status.value else before.status))
  {
    match Lookup(db.rooms, RoomId, roomId)
    case None => Err(NotFound(MsgRoomNotFound))
    case Some(room) =>
      if !Policy.OwnsOrAdmin(room.ownerId, requesterId, requesterRole) then Err(Forbidden(MsgNotAllowed))
      else
        var rooms := UpdateWhere(db.rooms, (x: Room) => x.id == roomId, (x: Room) => ApplyPatch(x, patch));
        Ok(Committed(db.(rooms := rooms), ApplyPatch(room, patch)))
  }

  /** The numeric filters: each supplied bound is inclusive */
  predicate WithinBounds(room: Room, f: RoomFilters) {
    && (f.priceMin.Some? ==> room.price >= f.priceMin.value)
    && (f.priceMax.Some? ==> room.price <= f.priceMax.value)
    && (f.capacityMin.Some? ==> room.capacity >= f.capacityMin.value)
    && (f.capacityMax.Some? ==> room.capacity <= f.capacityMax.value)
  }

  /** The availability filter, applied only when both dates are supplied:
      the overlap query finds nothing for the room in that window */
  predicate Free(room: Room, f: RoomFilters, bookings: seq<Booking>) {
    f.checkIn.Some? && f.checkOut.Some? ==>
      FirstBlocking(bookings, room.id, f.checkIn.value, f.checkOut.value).None?
  }

  /** The rooms the listing returns: ACTIVE, within every supplied bound, and
      free over the window when one is given */
  function List(db: Db, f: RoomFilters): (r: seq<Room>)
    ensures forall room :: room in r ==> room in db.rooms && room.status == ACTIVE
    ensures forall room :: multiset(r)[room] ==
              if room.status == ACTIVE && WithinBounds(room, f) && Free(room, f, db.bookings)
              then multiset(db.rooms)[room] else 0
    ensures forall room :: room in r <==>
              && room in db.rooms
              && room.status == ACTIVE
              && (f.priceMin.Some? ==> room.price >= f.priceMin.value)
              && (f.priceMax.Some? ==> room.price <= f.priceMax.value)
              && (f.capacityMin.Some? ==> room.capacity >= f.capacityMin.value)
              && (f.capacityMax.Some? ==> room.capacity <= f.capacityMax.value)
              && (f.checkIn.Some? && f.checkOut.Some? ==>
                    forall i :: 0 <= i < |db.bookings| ==>
                      !Blocks(db.bookings[i], room.id, f.checkIn.value, f.checkOut.value))
  {
    Filter(db.rooms, (room: Room) => room.status == ACTIVE && WithinBounds(room, f) && Free(room, f, db.bookings))
  }

  /** A room's bookings, of any status, after the same guards as an update */
  function BookingsForRoom(db: Db, roomId: int, requesterId: int, requesterRole: Role): (r: Result<seq<Booking>>)
    ensures roomId !in Keys(db.rooms, RoomId) ==> r == Err(NotFound(MsgRoomNotFound))
    ensures UniqueBy(db.rooms, RoomId) ==>
              forall i :: 0 <= i < |db.rooms| && db.rooms[i].id == roomId ==>
                && (r.Ok? <==> Policy.OwnsOrAdmin(db.rooms[i].ownerId, requesterId, requesterRole))
                && (r.Err? ==> r.error == Forbidden(MsgNotAllowed))
    ensures r.Ok? ==> forall b :: b in r.value <==> b in db.bookings && b.roomId == roomId
    ensures r.Ok? ==> forall b :: multiset(r.value)[b] == if b.roomId == roomId then multiset(db.bookings)[b] else 0
  {
    match Lookup(db.rooms, RoomId, roomId)
    case None => Err(NotFound(MsgRoomNotFound))
    case Some(room) =>
      if !Policy.OwnsOrAdmin(room.ownerId, requesterId, requesterRole) then Err(Forbidden(MsgNotAllowed))
      else Ok(Filter(db.bookings, (b: Booking) => b.roomId == roomId))
  }

  /** Creating a room keeps the database well formed */
  lemma CreatePreservesWf(db: Db, ownerId: int, input: RoomInput)
    requires Wf(db)
    ensures Wf(Create(db, ownerId, input).store)
  {
    var room := Create(db, ownerId, input).item;
    AppendFromCounter(db.rooms, RoomId, room, db.nextRoomId);
    AppendUnique(db.rooms, RoomId, room);
  }

  /** Updating a room keeps the database well formed: ids never change, so
      every booking still names an existing room */
  lemma UpdatePreservesWf(db: Db, roomId: int, requesterId: int, patch: RoomPatch, requesterRole: Role)
    requires Wf(db)
    requires Update(db, roomId, requesterId, patch, requesterRole).Ok?
    ensures Wf(Update(db, roomId, requesterId, patch, requesterRole).value.store)
  {
    var p := (x: Room) => x.id == roomId;
    var f := (x: Room) => ApplyPatch(x, patch);
    UpdateKeepsKeys(db.rooms, RoomId, p, f);
    UpdateKeepsBound(db.rooms, RoomId, p, f, db.nextRoomId);
  }

  /** The service accepts a negative price: the bound exists only in the
      controller's request validation */
  lemma ServiceAcceptsAnyPrice(db: Db, ownerId: int, input: RoomInput)
    requires input.price < 0
    ensures Create(db, ownerId, input).item.price < 0
  {
  }

  /** A listed room can be booked for the listing's window, whoever asks */
  lemma ListedRoomIsBookable(db: Db, f: RoomFilters, room: Room, guestId: int)
    requires room in List(db, f)
    requires f.checkIn.Some? && f.checkOut.Some? && f.checkIn.value < f.checkOut.value
    ensures Bookings.Create(db, guestId, Bookings.BookingInput(room.id, f.checkIn.value, f.checkOut.value)).Ok?
  {
    var i :| 0 <= i < |db.rooms| && db.rooms[i] == room;
    assert RoomId(db.rooms[i]) in Keys(db.rooms, RoomId);
  }

  /** An ACTIVE room within the bounds that the listing leaves out over a
      window is exactly one that booking creation refuses as unavailable */
  lemma UnlistedRoomIsTaken(db: Db, f: RoomFilters, room: Room, guestId: int)
    requires room in db.rooms && room.status == ACTIVE && WithinBounds(room, f)
    requires f.checkIn.Some? && f.checkOut.Some? && f.checkIn.value < f.checkOut.value
    requires room !in List(db, f)
    ensures Bookings.Create(db, guestId, Bookings.BookingInput(room.id, f.checkIn.value, f.checkOut.value))
            == Err(BadRequest(MsgRoomNotAvailable))
  {
    var i :| 0 <= i < |db.rooms| && db.rooms[i] == room;
    assert RoomId(db.rooms[i]) in Keys(db.rooms, RoomId);
  }

  /** A booking just created shows in its room's booking listing */
  lemma CreatedBookingListedForRoom(db: Db, guestId: int, input: Bookings.BookingInput, viewerId: int, viewerRole: Role)
    requires Bookings.Create(db, guestId, input).Ok?
    ensures var c := Bookings.Create(db, guestId, input).value;
            var listed := BookingsForRoom(c.store, input.roomId, viewerId, viewerRole);
            listed.Ok? ==> c.item in listed.value
  {
    var c := Bookings.Create(db, guestId, input).value;
    assert c.store.bookings[|db.bookings|] == c.item;
  }

  /** A booking stays in its room's booking listing after it is cancelled:
      the listing does not filter on status */
  lemma CancelledBookingStillListed(db: Db, bookingId: int, requesterId: int, requesterRole: Role, viewerId: int, viewerRole: Role)
    requires Bookings.Cancel(db, bookingId, requesterId, requesterRole).Ok?
    ensures var c := Bookings.Cancel(db, bookingId, requesterId, requesterRole).value;
            var listed := BookingsForRoom(c.store, c.item.roomId, viewerId, viewerRole);
            c.item.status == CANCELLED && (listed.Ok? ==> c.item in listed.value)
  {
    var c := Bookings.Cancel(db, bookingId, requesterId, requesterRole).value;
    var b := Lookup(db.bookings, BookingId, bookingId).value;
    var i :| 0 <= i < |db.bookings| && db.bookings[i] == b;
    assert c.store.bookings[i] == c.item;
  }
}
