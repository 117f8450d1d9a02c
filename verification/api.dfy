/** The three guarded controllers (rooms, bookings, admin) as one request
    handler. Every route first passes the JWT guard (no identity: 401), then
    the role guard (403), then the validation pipe (400), and only then
    reaches the service. The caller's identity comes from the token, never
    from the request. */
module Api {
  import opened Enums
  import opened Outcomes
  import opened Records
  import opened Tables
  import opened Overlap
  import opened Invariants
  import opened Policy
  import opened Dtos
  import Rooms
  import Bookings
  import Auth

  /** The verified identity the JWT guard attaches to a request */
  datatype Principal = Principal(userId: int, role: Role)

  datatype Request =
    | PostRoom(roomBody: CreateRoomBody)
    | PatchRoom(roomId: int, patchBody: UpdateRoomBody)
    | GetRooms(query: RoomQuery)
    | GetRoomBookings(roomId: int)
    | PostBooking(bookingBody: CreateBookingBody)
    | PatchCancel(bookingId: int)
    | GetMyBookings
    | GetAdminUsers
    | GetAdminRooms
    | GetAdminBookings

  function RouteOf(req: Request): Route {
    match req
    case PostRoom(_) => CreateRoom
    case PatchRoom(_, _) => UpdateRoom
    case GetRooms(_) => ListRooms
    case GetRoomBookings(_) => RoomBookings
    case PostBooking(_) => CreateBooking
    case PatchCancel(_) => CancelBooking
    case GetMyBookings => MyBookings
    case GetAdminUsers => AdminUsers
    case GetAdminRooms => AdminRooms
    case GetAdminBookings => AdminBookings
  }

  datatype Response =
    | RoomOut(room: Room)
    | RoomsOut(rooms: seq<Room>)
    | BookingOut(booking: Booking)
    | BookingsOut(bookings: seq<Booking>)
    | UsersOut(users: seq<User>)

  /** The JWT guard, then the role guard */
  function Guard(caller: Option<Principal>, route: Route): (r: Result<Principal>)
    ensures caller.None? ==> r == Err(Unauthorized(MsgUnauthorized))
    ensures caller.Some? && !Allowed(caller.value.role, route) ==> r == Err(Forbidden(MsgForbiddenResource))
    ensures r.Ok? <==> caller.Some? && Allowed(caller.value.role, route)
    ensures r.Ok? ==> r.value == caller.value
  {
    match caller
    case None => Err(Unauthorized(MsgUnauthorized))
    case Some(p) => if Allowed(p.role, route) then Ok(p) else Err(Forbidden(MsgForbiddenResource))
  }

  /** One request, answered by the database afterwards and the response body */
  function Handle(db: Db, caller: Option<Principal>, req: Request): (r: Result<Committed<Response>>)
    ensures caller.None? ==> r == Err(Unauthorized(MsgUnauthorized))
    ensures caller.Some? && !Allowed(caller.value.role, RouteOf(req)) ==> r == Err(Forbidden(MsgForbiddenResource))
    ensures r.Ok? ==> caller.Some? && Allowed(caller.value.role, RouteOf(req))
    ensures r.Ok? && RouteOf(req) !in {CreateRoom, UpdateRoom, CreateBooking, CancelBooking} ==> r.value.store == db
  {
    var p :- Guard(caller, RouteOf(req));
    match req
    case PostRoom(body) =>
      var input :- ValidateCreateRoom(body);
      var c := Rooms.Create(db, p.userId, input);
      Ok(Committed(c.store, RoomOut(c.item)))
    case PatchRoom(id, body) =>
      var patch :- ValidateUpdateRoom(body);
      var c :- Rooms.Update(db, id, p.userId, patch, p.role);
      Ok(Committed(c.store, RoomOut(c.item)))
    case GetRooms(q) =>
      var f :- ValidateFilters(q);
      Ok(Committed(db, RoomsOut(Rooms.List(db, f))))
    case GetRoomBookings(id) =>
      var bs :- Rooms.BookingsForRoom(db, id, p.userId, p.role);
      Ok(Committed(db, BookingsOut(bs)))
    case PostBooking(body) =>
      var input :- ValidateCreateBooking(body);
      var c :- Bookings.Create(db, p.userId, input);
      Ok(Committed(c.store, BookingOut(c.item)))
    case PatchCancel(id) =>
      var c :- Bookings.Cancel(db, id, p.userId, p.role);
      Ok(Committed(c.store, BookingOut(c.item)))
    case GetMyBookings =>
      Ok(Committed(db, BookingsOut(Bookings.ListForGuest(db, p.userId))))
    case GetAdminUsers =>
      Ok(Committed(db, UsersOut(db.users)))
    case GetAdminRooms =>
      Ok(Committed(db, RoomsOut(db.rooms)))
    case GetAdminBookings =>
      Ok(Committed(db, BookingsOut(Bookings.ListAll(db))))
  }

  /** Every request keeps the API's invariant: keys unique, bookings on
      existing rooms, no double booking, and rooms within the validated bounds */
  lemma HandlePreservesConsistent(db: Db, caller: Option<Principal>, req: Request)
    requires Consistent(db)
    ensures Handle(db, caller, req).Ok? ==> Consistent(Handle(db, caller, req).value.store)
  {
    var r := Handle(db, caller, req);
    if r.Ok? {
      var p := caller.value;
      match req
      case PostRoom(body) =>
        Rooms.CreatePreservesWf(db, p.userId, ValidateCreateRoom(body).value);
      case PatchRoom(id, body) =>
        Rooms.UpdatePreservesWf(db, id, p.userId, ValidateUpdateRoom(body).value, p.role);
      case PostBooking(body) =>
        Bookings.CreatePreservesWf(db, p.userId, ValidateCreateBooking(body).value);
      case PatchCancel(id) =>
        Bookings.CancelPreservesWf(db, id, p.userId, p.role);
      case _ =>
    }
  }

  /** The booking a guest creates is recorded under the caller's own id */
  lemma BookingGuestIsCaller(db: Db, p: Principal, body: CreateBookingBody)
    requires Handle(db, Some(p), PostBooking(body)).Ok?
    ensures var c := Handle(db, Some(p), PostBooking(body)).value;
            && c.item.booking.guestId == p.userId
            && c.item.booking.status == CONFIRMED
            && c.store.bookings == db.bookings + [c.item.booking]
  {
  }

  /** The room a caller creates is owned by the caller */
  lemma RoomOwnerIsCaller(db: Db, p: Principal, body: CreateRoomBody)
    requires Handle(db, Some(p), PostRoom(body)).Ok?
    ensures var c := Handle(db, Some(p), PostRoom(body)).value;
            && c.item.room.ownerId == p.userId
            && c.store.rooms == db.rooms + [c.item.room]
  {
  }

  /** "My bookings" are exactly the caller's bookings, of any status */
  lemma MyBookingsAreCallers(db: Db, p: Principal)
    requires p.role == GUEST
    ensures Handle(db, Some(p), GetMyBookings).Ok?
    ensures forall b :: b in Handle(db, Some(p), GetMyBookings).value.item.bookings <==>
                          b in db.bookings && b.guestId == p.userId
  {
  }

  /** An OWNER can neither book nor cancel, not even on a room of their own */
  lemma OwnerCannotBookOrCancel(db: Db, p: Principal, req: Request)
    requires p.role == OWNER
    requires req.PostBooking? || req.PatchCancel?
    ensures Handle(db, Some(p), req) == Err(Forbidden(MsgForbiddenResource))
  {
  }

  /** A GUEST can neither create nor update rooms nor see a room's bookings */
  lemma GuestCannotManageRooms(db: Db, p: Principal, req: Request)
    requires p.role == GUEST
    requires req.PostRoom? || req.PatchRoom? || req.GetRoomBookings?
    ensures Handle(db, Some(p), req) == Err(Forbidden(MsgForbiddenResource))
  {
  }

  /** "My bookings" is for guests only: an ADMIN is refused */
  lemma AdminCannotListOwnBookings(db: Db, p: Principal)
    requires p.role == ADMIN
    ensures Handle(db, Some(p), GetMyBookings) == Err(Forbidden(MsgForbiddenResource))
  {
  }

  /** The room listing is open to every authenticated role, and answers with
      the registry's filtered listing */
  lemma ListRoomsOpenToAllRoles(db: Db, p: Principal, q: RoomQuery)
    requires ValidateFilters(q).Ok?
    ensures Handle(db, Some(p), GetRooms(q)) == Ok(Committed(db, RoomsOut(Rooms.List(db, ValidateFilters(q).value))))
  {
  }

  /** The admin listings answer only an ADMIN, and then with whole tables:
      every user (hashes included), every room whatever its status, every
      booking whatever its status */
  lemma AdminListingsUnfiltered(db: Db, p: Principal)
    ensures Handle(db, Some(p), GetAdminUsers).Ok? <==> p.role == ADMIN
    ensures Handle(db, Some(p), GetAdminRooms).Ok? <==> p.role == ADMIN
    ensures Handle(db, Some(p), GetAdminBookings).Ok? <==> p.role == ADMIN
    ensures p.role == ADMIN ==>
              && Handle(db, Some(p), GetAdminUsers).value.item.users == db.users
              && Handle(db, Some(p), GetAdminRooms).value.item.rooms == db.rooms
              && Handle(db, Some(p), GetAdminBookings).value.item.bookings == db.bookings
  {
  }

  /** A state change: a request made with some identity, or a registration */
  datatype Action =
    | Call(caller: Option<Principal>, req: Request)
    | SignUp(email: string, password: string, role: Role, salt: Auth.Salt)

  /** The database after one action; a refused action leaves it as it was */
  function Step(db: Db, crypto: Auth.Crypto, a: Action): Db {
    match a
    case Call(caller, req) =>
      var r := Handle(db, caller, req);
      if r.Ok? then r.value.store else db
    case SignUp(email, password, role, salt) =>
      var r := Auth.Register(db, crypto, salt, email, password, role);
      if r.Ok? then r.value.store else db
  }

  /** The database after a sequence of actions, one at a time */
  function Run(db: Db, crypto: Auth.Crypto, actions: seq<Action>): Db
    decreases |actions|
  {
    if |actions| == 0 then db else Run(Step(db, crypto, actions[0]), crypto, actions[1..])
  }

  lemma StepPreservesConsistent(db: Db, crypto: Auth.Crypto, a: Action)
    requires Consistent(db)
    ensures Consistent(Step(db, crypto, a))
  {
    match a
    case Call(caller, req) =>
      HandlePreservesConsistent(db, caller, req);
    case SignUp(email, password, role, salt) =>
      if Auth.Register(db, crypto, salt, email, password, role).Ok? {
        Auth.RegisterPreservesWf(db, crypto, salt, email, password, role);
      }
  }

  /** Under one-at-a-time execution, every sequence of requests and
      registrations keeps the invariant; in particular no room ever holds two
      overlapping pending or confirmed bookings */
  lemma {:induction false} RunPreservesConsistent(db: Db, crypto: Auth.Crypto, actions: seq<Action>)
    requires Consistent(db)
    ensures Consistent(Run(db, crypto, actions))
    ensures NoDoubleBooking(Run(db, crypto, actions).bookings)
    decreases |actions|
  {
    if |actions| > 0 {
      StepPreservesConsistent(db, crypto, actions[0]);
      RunPreservesConsistent(Step(db, crypto, actions[0]), crypto, actions[1..]);
    }
  }

  /** No action ever edits or removes a user, and none adds an ADMIN */
  lemma StepAddsNoAdmin(db: Db, crypto: Auth.Crypto, a: Action)
    ensures db.users <= Step(db, crypto, a).users
    ensures forall i :: |db.users| <= i < |Step(db, crypto, a).users| ==> Step(db, crypto, a).users[i].role != ADMIN
  {
  }

  /** The ADMIN accounts after any sequence of actions are those present
      before it: there is no path to self-escalation */
  lemma {:induction false} NoSelfEscalation(db: Db, crypto: Auth.Crypto, actions: seq<Action>)
    ensures db.users <= Run(db, crypto, actions).users
    ensures forall i :: |db.users| <= i < |Run(db, crypto, actions).users| ==> Run(db, crypto, actions).users[i].role != ADMIN
    decreases |actions|
  {
    if |actions| > 0 {
      var db1 := Step(db, crypto, actions[0]);
      StepAddsNoAdmin(db, crypto, actions[0]);
      NoSelfEscalation(db1, crypto, actions[1..]);
    }
  }
}
