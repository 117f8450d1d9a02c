/** The enumerations shared by users, rooms and bookings. */
module Enums {
  import opened Outcomes

  datatype Role = ADMIN | OWNER | GUEST

  datatype RoomStatus = ACTIVE | INACTIVE

  datatype BookingStatus = PENDING | CONFIRMED | CANCELLED

  /** A booking holds its room for its dates only while it is pending or confirmed */
  predicate Occupies(s: BookingStatus) {
    s == PENDING || s == CONFIRMED
  }

  /** The string value of each room status, the only strings IsEnum(RoomStatus) accepts */
  function RoomStatusName(s: RoomStatus): string {
    match s
    case ACTIVE => "ACTIVE"
    case INACTIVE => "INACTIVE"
  }

  /** The room status a request string names, if any */
  function ParseRoomStatus(name: string): (r: Option<RoomStatus>)
    ensures r.Some? ==> RoomStatusName(r.value) == name
    ensures r.None? ==> forall s: RoomStatus :: RoomStatusName(s) != name
  {
    if name == "ACTIVE" then Some(ACTIVE)
    else if name == "INACTIVE" then Some(INACTIVE)
    else None
  }

  /** Every status survives being written out and read back */
  lemma RoomStatusRoundTrip(s: RoomStatus)
    ensures ParseRoomStatus(RoomStatusName(s)) == Some(s)
  {
  }
}
