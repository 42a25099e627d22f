/** The Express server of server/index.js. Every handler reads the whole
    bookings file first and, after a change, writes the whole list back.
    Here the list read is a parameter (a file that cannot be read yields
    the empty list), a mutating handler returns the list it hands to
    `saveBookings` (None when it writes nothing), and whether that write
    succeeds is a parameter. */
module ServerIndex {
  import opened Base
  import opened Days
  import opened Bookings
  import opened SlotGrid

  /** GET /api/bookings: with a non-empty `date`, the bookings on that date
      in stored order; otherwise all of them. */
  function ListBookings(bookings: seq<Booking>, date: Option<string>): (r: seq<Booking>)
    ensures IsListing(bookings, date, r)
  {
    Listing(bookings, date)
  }

  /** GET /api/bookings/:id: the first booking with the id, or 404. */
  function GetBooking(bookings: seq<Booking>, id: string): (r: Outcome<Booking>)
    ensures r.Success? <==> exists i :: 0 <= i < |bookings| && bookings[i].id == id
    ensures r.Success? ==> r.value.id == id && exists i :: (0 <= i < |bookings| && bookings[i] == r.value
      && forall j :: 0 <= j < i ==> bookings[j].id != id)
    ensures r.Failure? ==> r == Failure(404, "Booking not found")
  {
    Lookup(bookings, id)
  }

  /** The loop over `requiredFields`: the first field whose value is falsy. */
  method FirstMissingField(req: BookingRequest) returns (missing: Option<Field>)
    ensures missing == FirstAbsent(req)
  {
    var i := 0;
    while i < |RequiredFields|
      invariant 0 <= i <= |RequiredFields|
      invariant forall j :: 0 <= j < i ==> IsPresent(req, RequiredFields[j])
    {
      if !IsPresent(req, RequiredFields[i]) {
        return Some(RequiredFields[i]);
      }
      i := i + 1;
    }
    return None;
  }

  /** POST /api/bookings. A falsy field is reported as "<field> is
      required", the first in the order name, email, phone, date, time,
      guests; a taken (date, time) as "This time slot is already booked";
      either way nothing is written. Otherwise the list with the new record
      appended is written, and the record is returned, or 500 when the
      write fails. */
  method CreateBooking(bookings: seq<Booking>, req: BookingRequest, id: string, createdAt: string,
                       saveSucceeds: bool)
    returns (res: Outcome<Booking>, written: Option<seq<Booking>>)
    ensures FirstAbsent(req).Some? ==>
      res == Failure(400, FieldName(FirstAbsent(req).value) + " is required") && written.None?
    ensures FirstAbsent(req).None? && SlotTaken(bookings, req.date, req.time) ==>
      res == Failure(400, "This time slot is already booked") && written.None?
    ensures FirstAbsent(req).None? && !SlotTaken(bookings, req.date, req.time) ==>
      written == Some(bookings + [NewBooking(req, id, createdAt)])
      && res == if saveSucceeds then Success(NewBooking(req, id, createdAt))
                else Failure(500, "Failed to save booking")
    ensures written.Some? && SlotsUnique(bookings) ==> SlotsUnique(written.value)
  {
    var missing := FirstMissingField(req);
    if missing.Some? {
      return Failure(400, FieldName(missing.value) + " is required"), None;
    }
    if SlotConflict(bookings, req.date, req.time).Some? {
      return Failure(400, "This time slot is already booked"), None;
    }
    var booking := NewBooking(req, id, createdAt);
    var updated := bookings + [booking];
    if SlotsUnique(bookings) {
      AppendKeepsSlotsUnique(bookings, booking);
    }
    written := Some(updated);
    if !saveSucceeds {
      res := Failure(500, "Failed to save booking");
    } else {
      res := Success(booking);
    }
  }

  /** DELETE /api/bookings/:id: removes the first booking with the id and
      writes the rest, in order; 404 and no write when no booking has it. */
  method DeleteBooking(bookings: seq<Booking>, id: string, saveSucceeds: bool)
    returns (res: Outcome<string>, written: Option<seq<Booking>>)
    ensures IndexOfId(bookings, id).None? ==> res == Failure(404, "Booking not found") && written.None?
    ensures IndexOfId(bookings, id).Some? ==>
      written == Some(RemoveAt(bookings, IndexOfId(bookings, id).value))
      && res == if saveSucceeds then Success("Booking deleted successfully")
                else Failure(500, "Failed to delete booking")
    ensures written.Some? && SlotsUnique(bookings) ==> SlotsUnique(written.value)
  {
    var index := IndexOfId(bookings, id);
    if index.None? {
      return Failure(404, "Booking not found"), None;
    }
    var updated := RemoveAt(bookings, index.value);
    if SlotsUnique(bookings) {
      RemoveKeepsSlotsUnique(bookings, index.value);
    }
    written := Some(updated);
    if !saveSucceeds {
      res := Failure(500, "Failed to delete booking");
    } else {
      res := Success("Booking deleted successfully");
    }
  }

  /** The `for` loop that steps a date from `start` to `end` a day at a
      time, pushing each. */
  method DaysInRange(start: Day, end: Day) returns (days: seq<Day>)
    ensures days == DayRange(start, end)
  {
    days := [];
    var d := start;
    while d <= end
      invariant d == start || start <= d <= end + 1
      invariant |days| == d - start
      invariant forall i :: 0 <= i < |days| ==> days[i] == start + i
      decreases end - d
    {
      days := days + [d];
      d := d + 1;
    }
  }

  /** GET /api/availability: 400 when `start` or `end` is missing;
      otherwise, from the bookings read, the summary of every day from
      start to end inclusive, in ascending order (none when start > end). */
  method GetAvailability(start: Option<Day>, end: Option<Day>, bookings: seq<Booking>)
    returns (res: Outcome<seq<DaySummary>>)
    ensures start.None? || end.None? ==> res == Failure(400, "Start and end dates are required")
    ensures start.Some? && end.Some? ==> res == Success(SummariesOf(bookings, DayRange(start.value, end.value)))
  {
    if start.None? || end.None? {
      return Failure(400, "Start and end dates are required");
    }
    var days := DaysInRange(start.value, end.value);
    return Success(SummariesOf(bookings, days));
  }
}
