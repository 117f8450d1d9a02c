/** The three tables of the database (users, rooms, bookings) as immutable
    records, and the store that holds them with their autoincrement counters.
    Timestamps are integer instants; createdAt/updatedAt are not kept. */
module Records {
  import opened Enums

  datatype User = User(id: int, email: string, passwordHash: string, role: Role)

  datatype Room = Room(
    id: int,
    ownerId: int,
    name: string,
    price: int,
    capacity: int,
    status: RoomStatus)

  /** A claim on room `roomId` for the half-open interval [checkIn, checkOut) */
  datatype Booking = Booking(
    id: int,
    roomId: int,
    guestId: int,
    checkIn: int,
    checkOut: int,
    status: BookingStatus)

  /** The whole database; each `next…Id` is the value its autoincrement
      column hands to the next inserted row */
  datatype Db = Db(
    users: seq<User>,
    rooms: seq<Room>,
    bookings: seq<Booking>,
    nextUserId: int,
    nextRoomId: int,
    nextBookingId: int)

  /** A successful write: the database afterwards and the row the call returns */
  datatype Committed<T> = Committed(store: Db, item: T)

  /** A fresh database; autoincrement columns start at 1 */
  const EmptyDb: Db := Db([], [], [], 1, 1, 1)

  // The key columns, as functions the generic table queries take.
  function UserId(u: User): int { u.id }
  function UserEmail(u: User): string { u.email }
  function RoomId(r: Room): int { r.id }
  function BookingId(b: Booking): int { b.id }
}
