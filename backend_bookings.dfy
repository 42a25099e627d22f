/** The Express router of backend/routes/bookings.js. It keeps the bookings
    in a module-level array, read once from the bookings file when the module
    loads and changed in place by create (`push`) and delete (`splice`).
    Writing the file back after a change ignores any failure and is not
    modelled; what was read at load time is the constructor's argument. */
module BackendBookings {
  import opened Base
  import opened Bookings

  class BookingRouter {
    /** The module-level `bookings` array. */
    var bookings: seq<Booking>

    /** Module load: the array starts as what the file held (empty when the
        file is absent or unreadable). Starting empty, no slot is taken
        twice. */
    constructor(loaded: seq<Booking>)
      ensures bookings == loaded
      ensures loaded == [] ==> SlotsUnique(bookings)
    {
      bookings := loaded;
    }

    /** GET /: with a non-empty `date`, the bookings on that date in stored
        order; otherwise all of them. */
    function List(date: Option<string>): (r: seq<Booking>)
      reads this
      ensures IsListing(bookings, date, r)
    {
      Listing(bookings, date)
    }

    /** GET /:id: the first booking with the id, or 404. */
    function Get(id: string): (r: Outcome<Booking>)
      reads this
      ensures r.Success? <==> exists i :: 0 <= i < |bookings| && bookings[i].id == id
      ensures r.Success? ==> r.value.id == id && exists i :: (0 <= i < |bookings| && bookings[i] == r.value
        && forall j :: 0 <= j < i ==> bookings[j].id != id)
      ensures r.Failure? ==> r == Failure(404, "Booking not found")
    {
      Lookup(bookings, id)
    }

    /** POST /: "All fields are required" when any of the six fields is
        falsy, "This time slot is already booked" when a stored booking has
        the same date and time, and in both cases the array is unchanged;
        otherwise exactly one new record is pushed at the end and returned
        (201). No slot taken once is taken twice afterwards. */
    method Create(req: BookingRequest, id: string, createdAt: string) returns (res: Outcome<Booking>)
      modifies this
      ensures !AllPresent(req) ==>
        res == Failure(400, "All fields are required") && bookings == old(bookings)
      ensures AllPresent(req) && SlotTaken(old(bookings), req.date, req.time) ==>
        res == Failure(400, "This time slot is already booked") && bookings == old(bookings)
      ensures AllPresent(req) && !SlotTaken(old(bookings), req.date, req.time) ==>
        res == Success(NewBooking(req, id, createdAt)) && bookings == old(bookings) + [NewBooking(req, id, createdAt)]
      ensures old(SlotsUnique(bookings)) ==> SlotsUnique(bookings)
    {
      if req.name == "" || req.email == "" || req.phone == "" || req.date == "" || req.time == "" || req.guests == 0 {
        assert !IsPresent(req, Name) || !IsPresent(req, Email) || !IsPresent(req, Phone)
          || !IsPresent(req, Date) || !IsPresent(req, Time) || !IsPresent(req, Guests);
        return Failure(400, "All fields are required");
      }
      assert AllPresent(req) by {
        forall f ensures IsPresent(req, f) {
          match f
          case Name =>
          case Email =>
          case Phone =>
          case Date =>
          case Time =>
          case Guests =>
        }
      }
      if SlotConflict(bookings, req.date, req.time).Some? {
        return Failure(400, "This time slot is already booked");
      }
      var booking := NewBooking(req, id, createdAt);
      if SlotsUnique(bookings) {
        AppendKeepsSlotsUnique(bookings, booking);
      }
      bookings := bookings + [booking];
      res := Success(booking);
    }

    /** DELETE /:id: splices out the first booking with the id, keeping the
        others in order; 404 and no change when no booking has it. */
    method Delete(id: string) returns (res: Outcome<string>)
      modifies this
      ensures IndexOfId(old(bookings), id).None? ==>
        res == Failure(404, "Booking not found") && bookings == old(bookings)
      ensures IndexOfId(old(bookings), id).Some? ==>
        res == Success("Booking deleted successfully")
        && bookings == RemoveAt(old(bookings), IndexOfId(old(bookings), id).value)
      ensures old(SlotsUnique(bookings)) ==> SlotsUnique(bookings)
    {
      var index := IndexOfId(bookings, id);
      if index.None? {
        return Failure(404, "Booking not found");
      }
      if SlotsUnique(bookings) {
        RemoveKeepsSlotsUnique(bookings, index.value);
      }
      bookings := RemoveAt(bookings, index.value);
      res := Success("Booking deleted successfully");
    }
  }
}
