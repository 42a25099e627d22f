/** The Next.js bookings handlers of app/api/bookings/route.ts. Each request
    reads the whole bookings file (a parameter here; a missing file reads
    as no bookings); POST appends to the list it read and writes that list
    back, and whether the write succeeds is a parameter. Unlike the other
    two stores, POST checks no required field. */
module AppBookingsRoute {
  import opened Base
  import opened Bookings

  /** GET /api/bookings: with a non-empty `date`, exactly the bookings on
      that date in stored order; otherwise all of them. */
  function Get(bookings: seq<Booking>, date: Option<string>): (r: seq<Booking>)
    ensures IsListing(bookings, date, r)
  {
    Listing(bookings, date)
  }

  /** POST /api/bookings. The record is the body's fields with the server's
      `id` and `createdAt`. A record whose (date, time) is already stored is
      refused and nothing is written; any other body is accepted, whatever
      fields it lacks: the list read, with the record pushed at its end, is
      written, and the record is returned, or 500 when the write fails. */
  method Post(bookings: seq<Booking>, req: BookingRequest, id: string, createdAt: string, saveSucceeds: bool)
    returns (res: Outcome<Booking>, written: Option<seq<Booking>>)
    ensures SlotTaken(bookings, req.date, req.time) ==>
      res == Failure(400, "This time slot is already booked") && written.None?
    ensures !SlotTaken(bookings, req.date, req.time) ==>
      written == Some(bookings + [NewBooking(req, id, createdAt)])
      && res == if saveSucceeds then Success(NewBooking(req, id, createdAt))
                else Failure(500, "Failed to create booking")
    ensures res.Failure? && res.status == 400 ==> SlotTaken(bookings, req.date, req.time)
    ensures written.Some? && SlotsUnique(bookings) ==> SlotsUnique(written.value)
  {
    var list := bookings;
    var booking := NewBooking(req, id, createdAt);
    var existing := SlotConflict(list, booking.date, booking.time);
    if existing.Some? {
      return Failure(400, "This time slot is already booked"), None;
    }
    if SlotsUnique(list) {
      AppendKeepsSlotsUnique(list, booking);
    }
    list := list + [booking];
    written := Some(list);
    if !saveSucceeds {
      return Failure(500, "Failed to create booking"), written;
    }
    res := Success(booking);
  }
}
