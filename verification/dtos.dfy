/** The request bodies and query the controllers declare inline, and the
    global validation pipe that checks them (whitelisting, with unknown
    properties refused). Values are taken after class-transformer's
    conversion: numeric fields hold a number, date fields a Date. */
module Dtos {
  import opened Enums
  import opened Outcomes
  import Rooms
  import Bookings

  /** A request field after conversion. `NotFinite` is NaN or an infinity,
      what Number() makes of a non-numeric string; `InvalidDate` is the Date
      an unparseable string becomes. */
  datatype JsValue = Undefined | Str(s: string) | Num(n: real) | NotFinite | Date(instant: int) | InvalidDate | Other

  // The class-validator constraints the DTOs use.
  predicate IsString(v: JsValue) { v.Str? }
  predicate IsInt(v: JsValue) { v.Num? && v.n.Floor as real == v.n }
  predicate AtLeast(v: JsValue, k: int) { v.Num? && v.n >= k as real }
  predicate IsRoomStatus(v: JsValue) { v.Str? && ParseRoomStatus(v.s).Some? }
  predicate IsDate(v: JsValue) { v.Date? }

  /** `unknown` names the properties sent that the class does not declare */
  datatype CreateRoomBody = CreateRoomBody(name: JsValue, price: JsValue, capacity: JsValue, status: JsValue, unknown: set<string>)

  datatype UpdateRoomBody = UpdateRoomBody(name: JsValue, price: JsValue, capacity: JsValue, status: JsValue, unknown: set<string>)

  /** The listing query; its dates carry no IsDate, so only absent or valid ones are modelled */
  datatype RoomQuery = RoomQuery(
    priceMin: JsValue, priceMax: JsValue, capacityMin: JsValue, capacityMax: JsValue,
    checkIn: Option<int>, checkOut: Option<int>, unknown: set<string>)

  datatype CreateBookingBody = CreateBookingBody(roomId: JsValue, checkIn: JsValue, checkOut: JsValue, unknown: set<string>)

  /** A validated integer field as an int */
  function IntOf(v: JsValue): (r: int)
    requires IsInt(v)
    ensures r as real == v.n
  {
    v.n.Floor
  }

  /** An optional validated integer field */
  function OptIntOf(v: JsValue): (r: Option<int>)
    requires v.Undefined? || IsInt(v)
    ensures r.None? <==> v.Undefined?
    ensures r.Some? ==> r.value as real == v.n
  {
    if v.Undefined? then None else Some(IntOf(v))
  }

  /** An optional validated room status */
  function OptStatusOf(v: JsValue): (r: Option<RoomStatus>)
    requires v.Undefined? || IsRoomStatus(v)
    ensures r.None? <==> v.Undefined?
    ensures r.Some? ==> RoomStatusName(r.value) == v.s
  {
    if v.Undefined? then None else ParseRoomStatus(v.s)
  }

  /** CreateRoomDto: a string name, an integer price of at least 0, an integer
      capacity of at least 1, and optionally a room status */
  function ValidateCreateRoom(b: CreateRoomBody): (r: Result<Rooms.RoomInput>)
    ensures r.Err? ==> r.error == BadRequest(MsgValidationFailed)
    ensures b.unknown != {} ==> r.Err?
    ensures r.Ok? <==>
              && b.unknown == {}
              && b.name.Str?
              && b.price.Num? && b.price.n.Floor as real == b.price.n && b.price.n >= 0.0
              && b.capacity.Num? && b.capacity.n.Floor as real == b.capacity.n && b.capacity.n >= 1.0
              && (b.status.Undefined? || (b.status.Str? && (b.status.s == "ACTIVE" || b.status.s == "INACTIVE")))
    ensures r.Ok? ==>
              && r.value.price >= 0 && r.value.capacity >= 1
              && r.value.name == b.name.s
              && r.value.price as real == b.price.n && r.value.capacity as real == b.capacity.n
              && (r.value.status.None? <==> b.status.Undefined?)
              && (r.value.status.Some? ==> RoomStatusName(r.value.status.value) == b.status.s)
  {
    if && b.unknown == {}
       && IsString(b.name)
       && IsInt(b.price) && AtLeast(b.price, 0)
       && IsInt(b.capacity) && AtLeast(b.capacity, 1)
       && (b.status.Undefined? || IsRoomStatus(b.status))
    then Ok(Rooms.RoomInput(b.name.s, IntOf(b.price), IntOf(b.capacity), OptStatusOf(b.status)))
    else Err(BadRequest(MsgValidationFailed))
  }

  /** UpdateRoomDto: every field optional, each with the create bounds when present */
  function ValidateUpdateRoom(b: UpdateRoomBody): (r: Result<Rooms.RoomPatch>)
    ensures r.Err? ==> r.error == BadRequest(MsgValidationFailed)
    ensures r.Ok? <==>
              && b.unknown == {}
              && (b.name.Undefined? || b.name.Str?)
              && (b.price.Undefined? || (b.price.Num? && b.price.n.Floor as real == b.price.n && b.price.n >= 0.0))
              && (b.capacity.Undefined? || (b.capacity.Num? && b.capacity.n.Floor as real == b.capacity.n && b.capacity.n >= 1.0))
              && (b.status.Undefined? || (b.status.Str? && (b.status.s == "ACTIVE" || b.status.s == "INACTIVE")))
    ensures r.Ok? ==>
              && (r.value.name.None? <==> b.name.Undefined?)
              && (r.value.price.None? <==> b.price.Undefined?)
              && (r.value.capacity.None? <==> b.capacity.Undefined?)
              && (r.value.status.None? <==> b.status.Undefined?)
              && (r.value.name.Some? ==> r.value.name.value == b.name.s)
              && (r.value.price.Some? ==> r.value.price.value >= 0 && r.value.price.value as real == b.price.n)
              && (r.value.capacity.Some? ==> r.value.capacity.value >= 1 && r.value.capacity.value as real == b.capacity.n)
              && (r.value.status.Some? ==> RoomStatusName(r.value.status.value) == b.status.s)
  {
    if && b.unknown == {}
       && (b.name.Undefined? || IsString(b.name))
       && (b.price.Undefined? || (IsInt(b.price) && AtLeast(b.price, 0)))
       && (b.capacity.Undefined? || (IsInt(b.capacity) && AtLeast(b.capacity, 1)))
       && (b.status.Undefined? || IsRoomStatus(b.status))
    then
      var name := if b.name.Undefined? then None else Some(b.name.s);
      Ok(Rooms.RoomPatch(name, OptIntOf(b.price), OptIntOf(b.capacity), OptStatusOf(b.status)))
    else Err(BadRequest(MsgValidationFailed))
  }

  /** RoomFiltersDto: each numeric filter, when present, must be an integer;
      nothing relates the bounds to each other or the dates to each other */
  function ValidateFilters(q: RoomQuery): (r: Result<Rooms.RoomFilters>)
    ensures r.Err? ==> r.error == BadRequest(MsgValidationFailed)
    ensures r.Ok? <==>
              && q.unknown == {}
              && (q.priceMin.Undefined? || (q.priceMin.Num? && q.priceMin.n.Floor as real == q.priceMin.n))
              && (q.priceMax.Undefined? || (q.priceMax.Num? && q.priceMax.n.Floor as real == q.priceMax.n))
              && (q.capacityMin.Undefined? || (q.capacityMin.Num? && q.capacityMin.n.Floor as real == q.capacityMin.n))
              && (q.capacityMax.Undefined? || (q.capacityMax.Num? && q.capacityMax.n.Floor as real == q.capacityMax.n))
    ensures r.Ok? ==>
              && r.value.checkIn == q.checkIn && r.value.checkOut == q.checkOut
              && (r.value.priceMin.None? <==> q.priceMin.Undefined?)
              && (r.value.priceMin.Some? ==> r.value.priceMin.value as real == q.priceMin.n)
              && (r.value.priceMax.None? <==> q.priceMax.Undefined?)
              && (r.value.priceMax.Some? ==> r.value.priceMax.value as real == q.priceMax.n)
              && (r.value.capacityMin.None? <==> q.capacityMin.Undefined?)
              && (r.value.capacityMin.Some? ==> r.value.capacityMin.value as real == q.capacityMin.n)
              && (r.value.capacityMax.None? <==> q.capacityMax.Undefined?)
              && (r.value.capacityMax.Some? ==> r.value.capacityMax.value as real == q.capacityMax.n)
  {
    if && q.unknown == {}
       && (q.priceMin.Undefined? || IsInt(q.priceMin))
       && (q.priceMax.Undefined? || IsInt(q.priceMax))
       && (q.capacityMin.Undefined? || IsInt(q.capacityMin))
       && (q.capacityMax.Undefined? || IsInt(q.capacityMax))
    then Ok(Rooms.RoomFilters(OptIntOf(q.priceMin), OptIntOf(q.priceMax), OptIntOf(q.capacityMin),
                              OptIntOf(q.capacityMax), q.checkIn, q.checkOut))
    else Err(BadRequest(MsgValidationFailed))
  }

  /** CreateBookingDto: an integer room id and two valid dates; it has no
      guest field, so a body that names one is refused as unknown */
  function ValidateCreateBooking(b: CreateBookingBody): (r: Result<Bookings.BookingInput>)
    ensures r.Err? ==> r.error == BadRequest(MsgValidationFailed)
    ensures r.Ok? <==>
              && b.unknown == {}
              && b.roomId.Num? && b.roomId.n.Floor as real == b.roomId.n
              && b.checkIn.Date? && b.checkOut.Date?
    ensures r.Ok? ==>
              && r.value.roomId as real == b.roomId.n
              && r.value.checkIn == b.checkIn.instant
              && r.value.checkOut == b.checkOut.instant
  {
    if b.unknown == {} && IsInt(b.roomId) && IsDate(b.checkIn) && IsDate(b.checkOut)
    then Ok(Bookings.BookingInput(IntOf(b.roomId), b.checkIn.instant, b.checkOut.instant))
    else Err(BadRequest(MsgValidationFailed))
  }

  /** The filter query accepts inverted bounds and an inverted window */
  lemma FiltersAcceptInvertedRanges(lo: int, hi: int, checkIn: int, checkOut: int)
    requires lo > hi && checkIn >= checkOut
    ensures ValidateFilters(RoomQuery(Num(lo as real), Num(hi as real), Num(lo as real), Num(hi as real),
                                      Some(checkIn), Some(checkOut), {})).Ok?
  {
  }

  /** A fractional or negative price never passes room creation */
  lemma FractionalOrNegativePriceRefused(b: CreateRoomBody)
    requires b.price.Num? && (b.price.n < 0.0 || b.price.n.Floor as real != b.price.n)
    ensures ValidateCreateRoom(b) == Err(BadRequest(MsgValidationFailed))
  {
  }
}
