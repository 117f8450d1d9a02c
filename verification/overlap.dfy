/** The overlap query shared by booking creation and the availability filter
    of the room listing, and the no-double-booking invariant it protects. */
module Overlap {
  import opened Enums
  import opened Outcomes
  import opened Records
  import Tables

  /** The where-clause of the overlap query: `b` is on room `roomId`, still
      occupies it, and its dates meet the half-open window [checkIn, checkOut) */
  predicate Blocks(b: Booking, roomId: int, checkIn: int, checkOut: int) {
    && b.roomId == roomId
    && Occupies(b.status)
    && b.checkIn < checkOut
    && b.checkOut > checkIn
  }

  /** The booking a findFirst over the overlap query returns, if any */
  function FirstBlocking(bs: seq<Booking>, roomId: int, checkIn: int, checkOut: int): (r: Option<Booking>)
    ensures r.None? <==> forall i :: 0 <= i < |bs| ==> !Blocks(bs[i], roomId, checkIn, checkOut)
    ensures r.Some? ==> r.value in bs && r.value.roomId == roomId && Occupies(r.value.status)
    ensures r.Some? ==> r.value.checkIn < checkOut && checkIn < r.value.checkOut
  {
    Tables.Find(bs, (b: Booking) => Blocks(b, roomId, checkIn, checkOut))
  }

  /** Two bookings hold the same room at a common instant */
  predicate Conflict(a: Booking, b: Booking) {
    && a.roomId == b.roomId
    && Occupies(a.status)
    && Occupies(b.status)
    && a.checkIn < b.checkOut
    && b.checkIn < a.checkOut
  }

  /** Every booking's interval is non-empty */
  predicate ValidRanges(bs: seq<Booking>) {
    forall i :: 0 <= i < |bs| ==> bs[i].checkIn < bs[i].checkOut
  }

  /** Per room, the pending and confirmed bookings are pairwise disjoint */
  predicate NoDoubleBooking(bs: seq<Booking>) {
    forall i, j :: 0 <= i < j < |bs| ==> !Conflict(bs[i], bs[j])
  }

  /** A new occupying booking conflicts with an existing one exactly when the
      overlap query, asked with the new booking's room and dates, matches it */
  lemma BlocksIsConflict(existing: Booking, candidate: Booking)
    requires Occupies(candidate.status)
    ensures Blocks(existing, candidate.roomId, candidate.checkIn, candidate.checkOut)
            <==> Conflict(existing, candidate)
  {
  }

  /** Intervals that only touch (one ends when the other begins) never block */
  lemma TouchingNeverBlocks(b: Booking, checkIn: int, checkOut: int)
    requires b.checkOut == checkIn || b.checkIn == checkOut
    ensures !Blocks(b, b.roomId, checkIn, checkOut)
  {
  }

  /** Appending an occupying booking the overlap query found no match for
      keeps the table free of double bookings */
  lemma AppendKeepsNoDoubleBooking(bs: seq<Booking>, nb: Booking)
    requires NoDoubleBooking(bs)
    requires Occupies(nb.status)
    requires FirstBlocking(bs, nb.roomId, nb.checkIn, nb.checkOut).None?
    ensures NoDoubleBooking(bs + [nb])
  {
    var t := bs + [nb];
    forall i, j | 0 <= i < j < |t|
      ensures !Conflict(t[i], t[j])
    {
      if j == |bs| {
        assert !Blocks(bs[i], nb.roomId, nb.checkIn, nb.checkOut);
        BlocksIsConflict(bs[i], nb);
      }
    }
  }

  /** Rewriting rows without touching their rooms or dates and without making
      any of them occupy its room keeps the table free of double bookings */
  lemma ReleaseKeepsNoDoubleBooking(bs: seq<Booking>, p: Booking -> bool, f: Booking -> Booking)
    requires NoDoubleBooking(bs)
    requires forall b :: f(b).roomId == b.roomId && f(b).checkIn == b.checkIn && f(b).checkOut == b.checkOut
    requires forall b :: Occupies(f(b).status) ==> Occupies(b.status)
    ensures NoDoubleBooking(Tables.UpdateWhere(bs, p, f))
    ensures ValidRanges(bs) ==> ValidRanges(Tables.UpdateWhere(bs, p, f))
  {
    var t := Tables.UpdateWhere(bs, p, f);
    forall i, j | 0 <= i < j < |t|
      ensures !Conflict(t[i], t[j])
    {
      assert !Conflict(bs[i], bs[j]);
    }
  }
}
