# Room reservation API — booking engine model

A Dafny model of the booking engine of a NestJS room-reservation API. The
API has users (ADMIN, OWNER or GUEST), rooms that owners register, and
bookings that guests place on rooms for a half-open interval
`[checkIn, checkOut)`. The model is pure and in memory:

- The database is a `Records.Db` value. It holds one sequence per table
  (users, rooms, bookings) and one autoincrement counter per table.
- Every service call that can fail is a function returning
  `Outcomes.Result`: either the new database and the returned row, or the
  one Nest exception the code throws, with the code's message. The calls
  that never throw (`Rooms.Create`, `Rooms.List`, `Bookings.ListForGuest`,
  `Bookings.ListAll`) return their value directly.
- Timestamps are integer instants.
- A failed call returns no database, so a refused operation leaves the
  database as it was by construction (`Api.Step`).

The modules follow the program's structure:

| file | module | models |
|---|---|---|
| `outcomes.dfy` | `Outcomes` | `Option`, the exception classes (`BadRequest`, `Unauthorized`, `Forbidden`, `NotFound`) and their messages |
| `enums.dfy` | `Enums` | `Role`, `RoomStatus`, `BookingStatus` |
| `tables.dfy` | `Tables` | the Prisma queries used (findFirst, findUnique, findMany with a where-clause, update) over a sequence of rows, plus the key discipline |
| `records.dfy` | `Records` | the user, room and booking rows, and the database |
| `overlap.dfy` | `Overlap` | the overlap query that booking creation and the room listing share, and the no-double-booking invariant |
| `invariants.dfy` | `Invariants` | what every reachable database satisfies |
| `bookings.dfy` | `Bookings` | `BookingsService` |
| `rooms.dfy` | `Rooms` | `RoomsService` |
| `auth.dfy` | `Auth` | `AuthService`, with bcrypt and JWT as opaque function values |
| `policy.dfy` | `Policy` | the `@Roles` gate of every guarded route, and the owner-or-ADMIN rule |
| `dtos.dfy` | `Dtos` | the inline DTO classes of the controllers and the global validation pipe |
| `api.dfy` | `Api` | the rooms, bookings and admin controllers as one request handler, and sequences of requests |
| `scenarios.dfy` | `Scenarios` | concrete scenarios: half-open windows, double cancel, booking an INACTIVE room |

The central result is `Api.RunPreservesConsistent`. Take any sequence of
requests and registrations, applied one at a time. Afterwards, per room,
the PENDING and CONFIRMED bookings are still pairwise non-overlapping, and
every booking still has `checkIn < checkOut`. Keys stay unique, every booking
names an existing room, and every room keeps the price and capacity bounds
the request validation enforces.

## Behaviours worth knowing

The model follows the code, including these behaviours of it:

- The booking service reports an overlap as `BadRequest` ("Room not
  available for selected dates"). A bad date range is also `BadRequest`
  ("Invalid date range"). There is no separate conflict error.
- `cancel` does not look at the booking's current status. Cancelling an
  already cancelled booking succeeds and changes nothing
  (`Bookings.RecancelSucceedsUnchanged`, `Scenarios.DoubleCancelAccepted`).
- Booking creation checks only that the room exists. It never reads the
  room's status, so an INACTIVE room can be booked
  (`Scenarios.InactiveRoomBookable`).
- `listForGuest` has no `orderBy`, so the code promises no order. The
  model returns table order; its contract fixes the contents (each of the
  guest's bookings exactly as often as it is stored) but not the order.
- Price ≥ 0 and capacity ≥ 1 are enforced only by the controller DTOs.
  `RoomsService.create` and `update` accept any value
  (`Rooms.ServiceAcceptsAnyPrice`). The bound therefore holds at the API
  level only (`Invariants.RoomBounds`).
- No code path produces a PENDING booking. Creation always inserts
  CONFIRMED.
- The check-then-insert in booking creation runs without a transaction or
  lock. The model is sequential; it does not claim that concurrent
  creations exclude each other.
- The ownership rule for cancelling (guest or ADMIN) sits behind a route
  gate of GUEST or ADMIN. An OWNER can never cancel, not even a booking on
  their own room.
- The "my bookings" route admits GUEST only, so an ADMIN gets 403 there.
- The admin users listing returns whole user rows, password hashes
  included.

## Model

| member | source | states |
|---|---|---|
| `Enums.ParseRoomStatus` | src/common/enums.ts:7-10 | a string names a room status exactly when it is the status's value, "ACTIVE" or "INACTIVE" |
| `Enums.RoomStatusRoundTrip` | src/common/enums.ts:7-10 | writing a status out and reading it back gives the same status |
| `Overlap.FirstBlocking` | src/bookings/bookings.service.ts:20-26 | the overlap query finds nothing iff no booking of that room is PENDING or CONFIRMED with `checkIn < window end` and `checkOut > window start`; any booking it returns is one such |
| `Overlap.BlocksIsConflict` | src/bookings/bookings.service.ts:22-24 | the query asked with a new booking's room and dates matches an existing booking exactly when the two conflict |
| `Overlap.TouchingNeverBlocks` | src/bookings/bookings.service.ts:24 | a booking that ends when the window starts, or starts when it ends, never blocks it |
| `Overlap.AppendKeepsNoDoubleBooking` | src/bookings/bookings.service.ts:20-29 | inserting an occupying booking the query found nothing for keeps every room free of overlapping active bookings |
| `Overlap.ReleaseKeepsNoDoubleBooking` | src/bookings/bookings.service.ts:36 | rewriting bookings without moving their rooms or dates, and without making any of them occupy its room, keeps the bookings free of overlaps and their ranges non-empty |
| `Bookings.Create` | src/bookings/bookings.service.ts:15-30 | an empty or inverted range fails first (BadRequest); then a missing room (NotFound); then an overlapping PENDING/CONFIRMED booking of the same room (BadRequest, other message). Success happens exactly when none applies, whatever the room's status. It appends one CONFIRMED booking with the caller's guest id and the given room and dates; nothing else changes |
| `Bookings.Cancel` | src/bookings/bookings.service.ts:32-37 | a missing id fails NotFound; someone other than the guest or an ADMIN gets Forbidden. Otherwise the matching booking becomes CANCELLED, whatever it was before, and every other booking and table is unchanged |
| `Bookings.ListForGuest` | src/bookings/bookings.service.ts:39-41 | returns the bookings whose guest is the given one, of any status, each exactly as often as it is stored, and nothing else |
| `Bookings.ListAll` | src/bookings/bookings.service.ts:43-45 | returns every booking exactly as often as it is stored, whatever its status; a booking is in it iff it is in its guest's own listing |
| `Bookings.ListAllIsUnionOfGuests` | src/bookings/bookings.service.ts:39-45 | the full listing holds a booking iff its guest's own listing does |
| `Bookings.CreatePreservesWf` | src/bookings/bookings.service.ts:16-29 | a successful creation keeps ids unique and fresh, keeps every booking on an existing room, and adds no double booking |
| `Bookings.CancelPreservesWf` | src/bookings/bookings.service.ts:33-36 | a successful cancellation keeps the database well formed |
| `Bookings.RecancelSucceedsUnchanged` | src/bookings/bookings.service.ts:36 | cancelling an already CANCELLED booking succeeds and leaves the database as it was |
| `Bookings.OverlappingSecondCreateFails` | src/bookings/bookings.service.ts:20-29 | after a successful booking, any later request for the same room over a meeting range is refused as unavailable |
| `Bookings.CancelThenRebook` | src/bookings/bookings.service.ts:23-36 | a cancelled booking no longer blocks: the same request succeeds again after cancellation |
| `Rooms.Create` | src/rooms/rooms.service.ts:32-34 | inserts a room whose owner is the given caller, with the given name, price and capacity, and the given status or ACTIVE when none is given; no bound is checked |
| `Rooms.Update` | src/rooms/rooms.service.ts:36-41 | a missing room fails NotFound; someone other than the owner or an ADMIN gets Forbidden. Otherwise only the supplied fields of that room change; ids, owners and all other rooms stay |
| `Rooms.List` | src/rooms/rooms.service.ts:43-60 | returns exactly the ACTIVE rooms within every supplied inclusive bound, each as often as it is stored. When both dates are given, it also drops any room with a PENDING/CONFIRMED booking meeting the window, by the booking query's own predicate |
| `Rooms.BookingsForRoom` | src/rooms/rooms.service.ts:62-67 | same NotFound and Forbidden guards as update; then every booking of that room, of any status, each exactly as often as it is stored, and no other booking |
| `Rooms.CreatedBookingListedForRoom` | src/rooms/rooms.service.ts:62-66 | a booking just created shows up in its room's booking listing for the room's owner or an ADMIN |
| `Rooms.CancelledBookingStillListed` | src/rooms/rooms.service.ts:62-66 | a cancelled booking stays in its room's booking listing, now with status CANCELLED |
| `Rooms.CreatePreservesWf` | src/rooms/rooms.service.ts:32-34 | creating a room keeps the database well formed |
| `Rooms.UpdatePreservesWf` | src/rooms/rooms.service.ts:36-41 | updating a room keeps room ids, so every booking still names an existing room |
| `Rooms.ServiceAcceptsAnyPrice` | src/rooms/rooms.service.ts:33 | the service stores a negative price unchanged |
| `Rooms.ListedRoomIsBookable` | src/rooms/rooms.service.ts:50-57 | a room the listing returns for a valid window can be booked for that window |
| `Rooms.UnlistedRoomIsTaken` | src/rooms/rooms.service.ts:50-57 | an ACTIVE room within the bounds that the listing drops for a valid window is refused as unavailable by booking creation |
| `Auth.Register` | src/security/auth.service.ts:11-18 | a taken email fails first; then the ADMIN role; otherwise exactly one user is added with the given email and role and a hash of the password. The reply carries id, email and role only |
| `Auth.Login` | src/security/auth.service.ts:20-28 | an unknown email and a wrong password fail with the same Unauthorized message; a match yields a token signed over the user's id and role |
| `Auth.RegisterPreservesWf` | src/security/auth.service.ts:12-16 | registration keeps user ids and emails unique |
| `Auth.RegisterThenLogin` | src/security/auth.service.ts:14-26 | right after registering, logging in with the same email and password yields the token for the new id and role |
| `Policy.Allowed` | src/rooms/rooms.controller.ts:84-110 | a role passes a route's gate exactly when the route is in that role's table: OWNER gets the room routes, GUEST gets listing, booking, cancelling and own bookings, ADMIN gets everything except own bookings |
| `Policy.RequiredRoles` | src/bookings/bookings.controller.ts:26-47 | only the room listing has no @Roles; the admin routes need ADMIN; ADMIN is in every other gate but "my bookings"; GUEST is in exactly the booking, cancelling and "my bookings" gates; no gate names both OWNER and GUEST |
| `Policy.OwnsOrAdmin` | src/bookings/bookings.service.ts:35 | an ADMIN always passes; anyone else passes exactly when they are the row's owner (the booking's guest, the room's owner) |
| `Dtos.ValidateCreateRoom` | src/rooms/rooms.controller.ts:11-28 | accepts exactly a string name, an integer price ≥ 0, an integer capacity ≥ 1, an absent or valid status, and no unknown property; the input it yields keeps those values |
| `Dtos.ValidateUpdateRoom` | src/rooms/rooms.controller.ts:30-50 | every field may be absent; a present one must meet the create bounds; absent fields stay absent in the patch |
| `Dtos.ValidateFilters` | src/rooms/rooms.controller.ts:52-80 | numeric filters must be integers when present; nothing else is checked |
| `Dtos.FiltersAcceptInvertedRanges` | src/rooms/rooms.controller.ts:52-80 | a query with min above max and an inverted window passes validation |
| `Dtos.FractionalOrNegativePriceRefused` | src/rooms/rooms.controller.ts:15-18 | a fractional or negative price is refused at creation |
| `Dtos.ValidateCreateBooking` | src/bookings/bookings.controller.ts:10-22 | accepts exactly an integer room id, two valid dates and no other property, so a body naming a guest is refused |
| `Api.Guard` | src/rooms/rooms.controller.ts:84 | no identity gives Unauthorized; a role outside the route's @Roles gives Forbidden; otherwise the caller passes unchanged |
| `Api.Handle` | src/bookings/bookings.controller.ts:26-47 | guards come before validation and the service; a refused caller never reaches them; read-only routes leave the database unchanged |
| `Api.HandlePreservesConsistent` | src/rooms/rooms.controller.ts:89-99 | every request keeps the invariant, including price ≥ 0 and capacity ≥ 1 for every stored room |
| `Api.BookingGuestIsCaller` | src/bookings/bookings.controller.ts:31-35 | a created booking's guest is the authenticated caller, and it is appended CONFIRMED |
| `Api.RoomOwnerIsCaller` | src/rooms/rooms.controller.ts:89-93 | a created room's owner is the authenticated caller |
| `Api.MyBookingsAreCallers` | src/bookings/bookings.controller.ts:43-47 | a GUEST's own listing succeeds and holds exactly the caller's bookings |
| `Api.OwnerCannotBookOrCancel` | src/bookings/bookings.controller.ts:31-41 | an OWNER is refused both booking and cancelling |
| `Api.GuestCannotManageRooms` | src/rooms/rooms.controller.ts:89-110 | a GUEST is refused room creation, room update and a room's bookings |
| `Api.AdminCannotListOwnBookings` | src/bookings/bookings.controller.ts:43-44 | an ADMIN is refused the own-bookings route |
| `Api.ListRoomsOpenToAllRoles` | src/rooms/rooms.controller.ts:101-104 | any authenticated caller with a valid query gets the registry's listing |
| `Api.AdminListingsUnfiltered` | src/admin/admin.controller.ts:8-30 | the three admin listings answer exactly ADMIN callers, with whole tables: every user, every room whatever its status, every booking whatever its status |
| `Api.StepPreservesConsistent` | src/bookings/bookings.service.ts:16-36 | one request or registration keeps the invariant |
| `Api.RunPreservesConsistent` | src/bookings/bookings.service.ts:16-36 | any sequence of requests and registrations applied one at a time keeps the invariant, so no room is ever double booked |
| `Api.StepAddsNoAdmin` | src/security/auth.service.ts:15-16 | one action never edits or removes a user and never adds an ADMIN |
| `Api.NoSelfEscalation` | src/security/auth.service.ts:15 | after any sequence of actions the ADMIN users are those present at the start |
| `Scenarios.HalfOpenWindows` | src/bookings/bookings.service.ts:20-27 | with [10, 12) booked, [11, 13) is refused and [12, 14) accepted |
| `Scenarios.EmptyRangeRefused` | src/bookings/bookings.service.ts:16 | `checkIn == checkOut` fails with "Invalid date range" on any database |
| `Scenarios.InactiveRoomBookable` | src/bookings/bookings.service.ts:17-18 | an INACTIVE room is booked like an ACTIVE one |
| `Scenarios.DoubleCancelAccepted` | src/bookings/bookings.service.ts:32-36 | cancelling the same booking twice succeeds twice |

## Left out

- Concurrency: the service's unlocked check-then-insert is modelled as one atomic step; interleavings of concurrent requests are not modelled.
- Prisma internals: storage is in-memory sequences. Ids come from autoincrement counters starting at 1. `createdAt`/`updatedAt` are not kept, and storage faults are not modelled.
- bcrypt and JWT: hashing, comparison and signing are function values. The only assumption is that a password matches any hash made from it. The salt is an input, so no determinism of hashing is assumed.
- `RolesGuard`, the `Roles` decorator, `AuthGuard('jwt')` and the JWT strategy are not part of this model. `@Roles(r1..rn)` is read as "the caller's role is one of r1..rn". A route without `@Roles` admits any authenticated caller. The token's `sub` is taken to be the caller's `userId`.
- class-transformer's conversion of strings to numbers and dates: request fields are taken after conversion (`Dtos.JsValue`). Validation failures are one `BadRequest`; class-validator's per-constraint messages are not reproduced.
- Explicit `null` in optional DTO fields is not modelled (validation skips it and Prisma would then reject it).
- Dtos.ValidateFilters: the listing query's dates carry no `IsDate`. Only absent or valid dates are modelled; what Prisma does with an Invalid Date is outside the model.
- Path parameters: `Number(id)` of a non-numeric id is not modelled; ids arrive as integers.
- Bookings.ListForGuest: does not state the order of the result, since the query has no `orderBy`; the same holds for `Bookings.ListAll`, `Rooms.List` and `Rooms.BookingsForRoom`. The model returns table order.
- Date parsing and time zones: instants are integers.
- The auth controller, its `RegisterDto`/`LoginDto` validation (`IsEmail`, `MinLength`), the DTO files under `src/*/dto/`, bootstrap, health probes and the seed script are thin wiring or fixtures and are not modelled.
- Foreign keys beyond booking → room (e.g. a room's owner being an existing user) are not modelled. The owner id comes from the verified token.
