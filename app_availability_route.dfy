/** The Next.js availability handler of app/api/availability/route.ts: the
    summary of every day of the requested interval, computed with the same
    grid and per-day filter as the Express server. The bookings read from
    the file are a parameter (a missing or unreadable file reads as no
    bookings). */
module AppAvailabilityRoute {
  import opened Base
  import opened Days
  import opened Bookings
  import opened SlotGrid

  /** `eachDayOfInterval({ start, end })` of date-fns from version 3 on:
      every day between the two ends, both included, once each; in
      ascending order when start <= end and from `start` down to `end`
      otherwise. */
  function EachDayOfInterval(start: Day, end: Day): (r: seq<Day>)
    ensures |r| == (if start <= end then end - start else start - end) + 1
    ensures r[0] == start && r[|r| - 1] == end
    ensures forall d :: d in r <==> (start <= d <= end || end <= d <= start)
    ensures start <= end ==> forall i, j :: 0 <= i < j < |r| ==> r[i] < r[j]
    ensures start > end ==> forall i, j :: 0 <= i < j < |r| ==> r[i] > r[j]
  {
    if start <= end then DayRange(start, end)
    else
      var r := Reversed(DayRange(end, start));
      assert forall d :: d in r <==> d in DayRange(end, start) by {
        forall d ensures d in r <==> d in DayRange(end, start) {
          var up := DayRange(end, start);
          if d in r {
            var i :| 0 <= i < |r| && r[i] == d;
            assert up[|up| - 1 - i] == d;
          }
          if d in up {
            var i :| 0 <= i < |up| && up[i] == d;
            assert r[|up| - 1 - i] == d;
          }
        }
      }
      r
  }

  /** The summary of a day, under its date-fns `yyyy-MM-dd` text. */
  function SummaryOfFormattedDay(bookings: seq<Booking>): Day -> DaySummary
  {
    d => Summarize(bookings, FormatDate(d))
  }

  /** GET /api/availability. A missing or empty `start` or `end` is
      answered with 400 before anything is computed; otherwise the answer
      holds one summary per day of the interval, in the interval's order,
      each the summary of that day's `yyyy-MM-dd` text. */
  function Get(start: Option<Day>, end: Option<Day>, bookings: seq<Booking>): (res: Outcome<seq<DaySummary>>)
    ensures start.None? || end.None? ==> res == Failure(400, "Start and end dates are required")
    ensures start.Some? && end.Some? ==>
      var days := EachDayOfInterval(start.value, end.value);
      res.Success? && |res.value| == |days|
      && forall i :: 0 <= i < |days| ==> res.value[i] == Summarize(bookings, FormatDate(days[i]))
  {
    if start.None? || end.None? then Failure(400, "Start and end dates are required")
    else Success(Map(EachDayOfInterval(start.value, end.value), SummaryOfFormattedDay(bookings)))
  }

  /** The answer for two given ends, before the dates are rendered. */
  lemma GetOnInterval(start: Day, end: Day, bookings: seq<Booking>)
    ensures Get(Some(start), Some(end), bookings)
      == Success(Map(EachDayOfInterval(start, end), SummaryOfFormattedDay(bookings)))
  {
  }

  /** Days of the years 1 to 9999 are summarized under the same text as
      the Express server uses. */
  lemma FormattedSummariesMatchServer(bookings: seq<Booking>, days: seq<Day>)
    requires forall i :: 0 <= i < |days| ==> InFourDigitYears(days[i])
    ensures Map(days, SummaryOfFormattedDay(bookings)) == SummariesOf(bookings, days)
  {
    forall i | 0 <= i < |days|
      ensures SummaryOfFormattedDay(bookings)(days[i]) == SummaryOfDay(bookings)(days[i])
    {
      FormatDateIsIsoDate(days[i]);
    }
  }

  /** Every day of a range within the years 1 to 9999 is in them. */
  lemma RangeInFourDigitYears(start: Day, end: Day)
    requires forall d :: start <= d <= end ==> InFourDigitYears(d)
    ensures forall i :: 0 <= i < |DayRange(start, end)| ==> InFourDigitYears(DayRange(start, end)[i])
  {
  }

  /** For an interval given in order within the years 1 to 9999, the
      answer is the Express server's: the summaries of the days from start
      to end, ascending. */
  lemma OrderedIntervalMatchesServer(start: Day, end: Day, bookings: seq<Booking>)
    requires start <= end
    requires forall d :: start <= d <= end ==> InFourDigitYears(d)
    ensures Get(Some(start), Some(end), bookings) == Success(SummariesOf(bookings, DayRange(start, end)))
  {
    var days := DayRange(start, end);
    RangeInFourDigitYears(start, end);
    FormattedSummariesMatchServer(bookings, days);
    GetOnInterval(start, end, bookings);
  }

  /** Summarizing days in reverse order gives the summaries in reverse order. */
  lemma SummariesOfReversed(bookings: seq<Booking>, days: seq<Day>)
    ensures SummariesOf(bookings, Reversed(days)) == Reversed(SummariesOf(bookings, days))
  {
    MapReversed(days, SummaryOfDay(bookings));
  }

  /** For an interval given backwards within the years 1 to 9999, the
      answer is the Express server's answer for the same days, reversed;
      the Express server itself answers no days at all for it. */
  lemma BackwardIntervalReversesServer(start: Day, end: Day, bookings: seq<Booking>)
    requires start > end
    requires forall d :: end <= d <= start ==> InFourDigitYears(d)
    ensures Get(Some(start), Some(end), bookings) == Success(Reversed(SummariesOf(bookings, DayRange(end, start))))
    ensures SummariesOf(bookings, DayRange(start, end)) == []
  {
    var up := DayRange(end, start);
    var f := SummaryOfFormattedDay(bookings);
    assert EachDayOfInterval(start, end) == Reversed(up);
    RangeInFourDigitYears(end, start);
    calc {
      Get(Some(start), Some(end), bookings);
      { GetOnInterval(start, end, bookings); }
      Success(Map(Reversed(up), f));
      { MapReversed(up, f); }
      Success(Reversed(Map(up, f)));
      { FormattedSummariesMatchServer(bookings, up); }
      Success(Reversed(SummariesOf(bookings, up)));
    }
  }

  /** A one-day interval on 1 January of year 0 is where the two servers
      part: the Express server dates it "0000-01-01", this route
      "0001-01-01". */
  lemma YearZeroDatedApart(bookings: seq<Booking>)
    ensures Get(Some(-719528), Some(-719528), bookings).value[0].date == "0001-01-01"
    ensures SummariesOf(bookings, DayRange(-719528, -719528))[0].date == "0000-01-01"
  {
    YearZeroRenderingsDiffer();
  }
}
