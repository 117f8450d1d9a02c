/** The role gate of every guarded route, read off its @Roles decorator (on
    the handler, else on the controller class): a caller passes when its role
    is one of those named, and any authenticated caller passes a route that
    names none. The ownership rule the services apply on top is here too. */
module Policy {
  import opened Enums
  import opened Outcomes

  datatype Route =
    | CreateRoom | UpdateRoom | ListRooms | RoomBookings
    | CreateBooking | CancelBooking | MyBookings
    | AdminUsers | AdminRooms | AdminBookings

  /** The roles the route's @Roles decorator names, if it has one. Only the
      room listing has none; the admin routes take the class-level ADMIN;
      every decorator but the one on "my bookings" names ADMIN, and OWNER
      and GUEST never share a route. */
  function RequiredRoles(route: Route): (r: Option<set<Role>>)
    ensures r.None? <==> route == ListRooms
    ensures route in {AdminUsers, AdminRooms, AdminBookings} ==> r == Some({ADMIN})
    ensures r.Some? ==> (ADMIN in r.value <==> route != MyBookings)
    ensures r.Some? ==> !(OWNER in r.value && GUEST in r.value)
    ensures r.Some? ==> (GUEST in r.value <==> route in {CreateBooking, CancelBooking, MyBookings})
  {
    match route
    case CreateRoom => Some({OWNER, ADMIN})
    case UpdateRoom => Some({OWNER, ADMIN})
    case ListRooms => None
    case RoomBookings => Some({OWNER, ADMIN})
    case CreateBooking => Some({GUEST, ADMIN})
    case CancelBooking => Some({GUEST, ADMIN})
    case MyBookings => Some({GUEST})
    case AdminUsers => Some({ADMIN})
    case AdminRooms => Some({ADMIN})
    case AdminBookings => Some({ADMIN})
  }

  /** Whether an authenticated caller with `role` passes the route's role
      gate: exactly the routes the per-role table grants it */
  predicate Allowed(role: Role, route: Route)
    ensures Allowed(role, route) <==> route in Permitted(role)
  {
    match RequiredRoles(route)
    case None => true
    case Some(roles) => role in roles
  }

  /** The routes each role may call, written per role rather than per route */
  function Permitted(role: Role): set<Route> {
    match role
    case ADMIN => {CreateRoom, UpdateRoom, ListRooms, RoomBookings, CreateBooking, CancelBooking,
                   AdminUsers, AdminRooms, AdminBookings}
    case OWNER => {CreateRoom, UpdateRoom, ListRooms, RoomBookings}
    case GUEST => {ListRooms, CreateBooking, CancelBooking, MyBookings}
  }

  /** The service-level rule for touching a room or booking: the caller owns
      it (is the room's owner, or the booking's guest) or is an ADMIN */
  predicate OwnsOrAdmin(ownerId: int, requesterId: int, requesterRole: Role)
    ensures requesterRole == ADMIN ==> OwnsOrAdmin(ownerId, requesterId, requesterRole)
    ensures requesterRole != ADMIN ==> (OwnsOrAdmin(ownerId, requesterId, requesterRole) <==> ownerId == requesterId)
  {
    ownerId == requesterId || requesterRole == ADMIN
  }
}
