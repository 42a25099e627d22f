/** The booking record shared by the three stores, the body of a create
    request, and the facts about a list of bookings that all three rely on:
    listing by date, lookup by id, the required fields and the one booking
    per (date, time) rule. */
module Bookings {
  import opened Base

  /** A stored reservation (the `Booking` type of app/api/store.ts). */
  datatype Booking = Booking(
    id: string, name: string, email: string, phone: string,
    date: string, time: string, guests: int, createdAt: string)

  /** The JSON body of a create request. A field the client left out reads
      as that field's falsy value ("" or 0). */
  datatype BookingRequest = BookingRequest(
    name: string, email: string, phone: string,
    date: string, time: string, guests: int)

  /** The six fields a client supplies (also the keys of the form's errors). */
  datatype Field = Name | Email | Phone | Date | Time | Guests

  /** The order in which the handlers check the fields. */
  const RequiredFields: seq<Field> := [Name, Email, Phone, Date, Time, Guests]

  /** The field's JSON key. */
  function FieldName(f: Field): string
  {
    match f
    case Name => "name"
    case Email => "email"
    case Phone => "phone"
    case Date => "date"
    case Time => "time"
    case Guests => "guests"
  }

  /** The field's value is truthy in JavaScript: a string that is not empty,
      a number that is not 0. */
  predicate IsPresent(req: BookingRequest, f: Field)
  {
    match f
    case Name => req.name != ""
    case Email => req.email != ""
    case Phone => req.phone != ""
    case Date => req.date != ""
    case Time => req.time != ""
    case Guests => req.guests != 0
  }

  /** The first field, in the order of RequiredFields, whose value is falsy. */
  function FirstAbsent(req: BookingRequest): (r: Option<Field>)
    ensures r.None? <==> forall f :: !IsPresent(req, f) ==> f !in RequiredFields
    ensures r.Some? ==> !IsPresent(req, r.value)
    ensures r.Some? ==> exists k :: (0 <= k < |RequiredFields| && RequiredFields[k] == r.value
      && forall j :: 0 <= j < k ==> IsPresent(req, RequiredFields[j]))
  {
    match FindFirst(RequiredFields, f => !IsPresent(req, f))
    case None => None
    case Some(k) => Some(RequiredFields[k])
  }

  /** Every one of the six fields is truthy. */
  predicate AllPresent(req: BookingRequest)
  {
    forall f :: IsPresent(req, f)
  }

  /** The handlers that stop at the first falsy field and the one that tests
      all six at once reject exactly the same requests. */
  lemma FirstAbsentIffNotAllPresent(req: BookingRequest)
    ensures FirstAbsent(req).None? <==> AllPresent(req)
  {
    if !AllPresent(req) {
      var f :| !IsPresent(req, f);
      assert f == RequiredFields[0] || f == RequiredFields[1] || f == RequiredFields[2]
        || f == RequiredFields[3] || f == RequiredFields[4] || f == RequiredFields[5];
    }
  }

  /** The stored record: the request's six fields with the server's `id`
      and `createdAt`. */
  function NewBooking(req: BookingRequest, id: string, createdAt: string): Booking
  {
    Booking(id, req.name, req.email, req.phone, req.date, req.time, req.guests, createdAt)
  }

  /** Some stored booking occupies the slot. */
  predicate SlotTaken(bookings: seq<Booking>, date: string, time: string)
  {
    exists i :: 0 <= i < |bookings| && bookings[i].date == date && bookings[i].time == time
  }

  /** `bookings.find(b => b.date === date && b.time === time)`, as an index. */
  function SlotConflict(bookings: seq<Booking>, date: string, time: string): (r: Option<nat>)
    ensures r.Some? <==> SlotTaken(bookings, date, time)
    ensures r.Some? ==> r.value < |bookings| && bookings[r.value].date == date && bookings[r.value].time == time
  {
    FindFirst(bookings, (b: Booking) => b.date == date && b.time == time)
  }

  /** The bookings on one date, in stored order. */
  function OnDate(bookings: seq<Booking>, date: string): seq<Booking>
  {
    Filter(bookings, (b: Booking) => b.date == date)
  }

  /** The bookings on a date are the stored ones with that date. */
  lemma OnDateMembers(bookings: seq<Booking>, date: string)
    ensures forall b :: b in OnDate(bookings, date) <==> b in bookings && b.date == date
  {
    FilterMembers(bookings, (b: Booking) => b.date == date);
  }

  /** A `date` query parameter that is given and not empty takes effect. */
  predicate HasDateFilter(date: Option<string>)
  {
    date.Some? && date.value != ""
  }

  /** What a listing must return: with a date, exactly the bookings on that
      date, each as often as stored and in stored order; without one, the
      whole list. */
  ghost predicate IsListing(bookings: seq<Booking>, date: Option<string>, r: seq<Booking>)
  {
    if HasDateFilter(date) then
      IsSubseq(r, bookings)
      && forall b :: multiset(r)[b] == if b.date == date.value then multiset(bookings)[b] else 0
    else r == bookings
  }

  /** The listing every store's GET handler computes. */
  function Listing(bookings: seq<Booking>, date: Option<string>): (r: seq<Booking>)
    ensures IsListing(bookings, date, r)
  {
    if HasDateFilter(date) then
      FilterIsSubseq(bookings, (b: Booking) => b.date == date.value);
      ListingCounts(bookings, date.value);
      OnDate(bookings, date.value)
    else bookings
  }

  lemma ListingCounts(bookings: seq<Booking>, date: string)
    ensures forall b :: (multiset(OnDate(bookings, date))[b]
      == if b.date == date then multiset(bookings)[b] else 0)
  {
    forall b ensures multiset(OnDate(bookings, date))[b] == if b.date == date then multiset(bookings)[b] else 0 {
      FilterMultiset(bookings, (x: Booking) => x.date == date, b);
    }
  }

  /** `bookings.findIndex(b => b.id === id)`, None standing for -1. */
  function IndexOfId(bookings: seq<Booking>, id: string): (r: Option<nat>)
    ensures r.Some? ==> r.value < |bookings| && bookings[r.value].id == id
    ensures r.Some? ==> forall j :: 0 <= j < r.value ==> bookings[j].id != id
    ensures r.None? <==> forall j :: 0 <= j < |bookings| ==> bookings[j].id != id
  {
    FindFirst(bookings, (b: Booking) => b.id == id)
  }

  /** The lookup every store's GET-by-id handler answers: the first booking
      with the id, or 404 "Booking not found" when there is none. */
  function Lookup(bookings: seq<Booking>, id: string): (r: Outcome<Booking>)
    ensures r.Success? <==> exists i :: 0 <= i < |bookings| && bookings[i].id == id
    ensures r.Success? ==> r.value.id == id && exists i :: (0 <= i < |bookings| && bookings[i] == r.value
      && forall j :: 0 <= j < i ==> bookings[j].id != id)
    ensures r.Failure? ==> r == Failure(404, "Booking not found")
  {
    match IndexOfId(bookings, id)
    case None => Failure(404, "Booking not found")
    case Some(i) => Success(bookings[i])
  }

  /** No two stored bookings share a (date, time) pair. */
  predicate SlotsUnique(bookings: seq<Booking>)
  {
    forall i, j :: 0 <= i < j < |bookings| ==>
      !(bookings[i].date == bookings[j].date && bookings[i].time == bookings[j].time)
  }

  /** Appending a booking whose slot is free keeps the slots unique. */
  lemma AppendKeepsSlotsUnique(bookings: seq<Booking>, b: Booking)
    requires SlotsUnique(bookings) && !SlotTaken(bookings, b.date, b.time)
    ensures SlotsUnique(bookings + [b])
  {
    var s := bookings + [b];
    forall i, j | 0 <= i < j < |s| ensures !(s[i].date == s[j].date && s[i].time == s[j].time) {
      if j == |bookings| {
        assert s[i] == bookings[i];
      } else {
        assert s[i] == bookings[i] && s[j] == bookings[j];
      }
    }
  }

  /** Removing any booking keeps the slots unique. */
  lemma RemoveKeepsSlotsUnique(bookings: seq<Booking>, k: nat)
    requires k < |bookings| && SlotsUnique(bookings)
    ensures SlotsUnique(RemoveAt(bookings, k))
  {
    var s := RemoveAt(bookings, k);
    forall i, j | 0 <= i < j < |s| ensures !(s[i].date == s[j].date && s[i].time == s[j].time) {
      var i' := if i < k then i else i + 1;
      var j' := if j < k then j else j + 1;
      assert s[i] == bookings[i'] && s[j] == bookings[j'];
    }
  }

  /** The bookings that occupy a slot. */
  function AtSlot(bookings: seq<Booking>, date: string, time: string): seq<Booking>
  {
    Filter(bookings, (b: Booking) => b.date == date && b.time == time)
  }

  /** With unique slots, a slot holds at most one booking, and exactly one
      when it is taken. */
  lemma {:induction false} AtMostOnePerSlot(bookings: seq<Booking>, date: string, time: string)
    requires SlotsUnique(bookings)
    ensures |AtSlot(bookings, date, time)| == if SlotTaken(bookings, date, time) then 1 else 0
    decreases |bookings|
  {
    if bookings != [] {
      var rest := bookings[1..];
      assert SlotsUnique(rest) by {
        forall i, j | 0 <= i < j < |rest|
          ensures !(rest[i].date == rest[j].date && rest[i].time == rest[j].time)
        {
          assert rest[i] == bookings[i + 1] && rest[j] == bookings[j + 1];
        }
      }
      AtMostOnePerSlot(rest, date, time);
      if bookings[0].date == date && bookings[0].time == time {
        assert !SlotTaken(rest, date, time) by {
          forall i | 0 <= i < |rest| ensures !(rest[i].date == date && rest[i].time == time) {
            assert rest[i] == bookings[i + 1];
          }
        }
      } else {
        assert SlotTaken(bookings, date, time) <==> SlotTaken(rest, date, time) by {
          if SlotTaken(bookings, date, time) {
            var i :| 0 <= i < |bookings| && bookings[i].date == date && bookings[i].time == time;
            assert rest[i - 1] == bookings[i];
          }
          if SlotTaken(rest, date, time) {
            var i :| 0 <= i < |rest| && rest[i].date == date && rest[i].time == time;
            assert bookings[i + 1] == rest[i];
          }
        }
      }
    }
  }

  /** A booking appended under an id nobody holds is what a lookup of that
      id finds afterwards. */
  lemma LookupAfterAppend(bookings: seq<Booking>, b: Booking)
    requires IndexOfId(bookings, b.id).None?
    ensures Lookup(bookings + [b], b.id) == Success(b)
  {
    var s := bookings + [b];
    assert s[|bookings|] == b;
    forall j | 0 <= j < |bookings| ensures s[j].id != b.id {
      assert s[j] == bookings[j];
    }
  }

  /** After removing the first booking with an id, a lookup of that id fails
      exactly when no later booking had the same id. */
  lemma LookupAfterRemove(bookings: seq<Booking>, id: string)
    requires IndexOfId(bookings, id).Some?
    ensures var k := IndexOfId(bookings, id).value;
      Lookup(RemoveAt(bookings, k), id).Failure?
      <==> forall j :: k < j < |bookings| ==> bookings[j].id != id
  {
    var k := IndexOfId(bookings, id).value;
    var s := RemoveAt(bookings, k);
    if Lookup(s, id).Failure? {
      forall j | k < j < |bookings| ensures bookings[j].id != id {
        assert s[j - 1] == bookings[j];
      }
    } else {
      forall j | 0 <= j < k ensures s[j].id != id {
        assert s[j] == bookings[j];
      }
      var i :| 0 <= i < |s| && s[i].id == id;
      assert s[i] == bookings[i + 1];
    }
  }
}
