/** The month calendar of app/components/Calendar.tsx: for each day cell it
    looks up the day's summary among those fetched for the month, shows
    whether the day can be booked and how many slots it has, and lets the
    user pick it. The fetched summaries are a parameter; a day is named by
    its `YYYY-MM-DD` text. */
module Calendar {
  import opened Base
  import opened Days
  import opened Bookings
  import opened SlotGrid

  /** `availabilities.find(a => a.date === dateStr)`, as an index. */
  function FindSummary(summaries: seq<DaySummary>, dateStr: string): (r: Option<nat>)
    ensures r.Some? ==> (r.value < |summaries| && summaries[r.value].date == dateStr
      && forall j :: 0 <= j < r.value ==> summaries[j].date != dateStr)
    ensures r.None? <==> forall j :: 0 <= j < |summaries| ==> summaries[j].date != dateStr
  {
    FindFirst(summaries, (a: DaySummary) => a.date == dateStr)
  }

  /** `isDateAvailable`: `hasSlots` of the first summary for the day, or
      false when there is none. */
  function IsDateAvailable(summaries: seq<DaySummary>, dateStr: string): (r: bool)
    ensures r <==> exists i :: (0 <= i < |summaries| && summaries[i].date == dateStr
      && summaries[i].hasSlots && forall j :: 0 <= j < i ==> summaries[j].date != dateStr)
  {
    match FindSummary(summaries, dateStr)
    case None => false
    case Some(i) => summaries[i].hasSlots
  }

  /** `getAvailableSlots`: `availableSlots` of the first summary for the
      day, 0 when there is none (0 is also what `|| 0` keeps of a falsy
      count). */
  function AvailableSlots(summaries: seq<DaySummary>, dateStr: string): (n: int)
    ensures FindSummary(summaries, dateStr).None? ==> n == 0
    ensures FindSummary(summaries, dateStr).Some? ==>
      n == summaries[FindSummary(summaries, dateStr).value].availableSlots
  {
    match FindSummary(summaries, dateStr)
    case None => 0
    case Some(i) => if summaries[i].availableSlots != 0 then summaries[i].availableSlots else 0
  }

  /** A day cell: whether its button is enabled and, when clicked, the date
      it selects (None: the click does nothing). */
  datatype DayCell = DayCell(enabled: bool, onClick: Option<string>)

  /** The cell of a day: `disabled={!isCurrentMonth || !available ||
      loading}`, and the click selects the day only in the shown month and
      when it is available. */
  function Cell(summaries: seq<DaySummary>, dateStr: string, inMonth: bool, loading: bool): (r: DayCell)
    ensures r.enabled <==> inMonth && IsDateAvailable(summaries, dateStr) && !loading
    ensures r.onClick.Some? <==> inMonth && IsDateAvailable(summaries, dateStr)
    ensures r.onClick.Some? ==> r.onClick.value == dateStr
    ensures r.enabled ==> r.onClick == Some(dateStr)
  {
    var available := IsDateAvailable(summaries, dateStr);
    DayCell(!(!inMonth || !available || loading), if inMonth && available then Some(dateStr) else None)
  }

  /** Read against the summaries the filtering handlers answer for a range
      of days, the calendar shows for each day of the range exactly that
      day's own summary: available when some grid time is free that day,
      with the number of free grid times. */
  lemma CalendarShowsDaySummary(bookings: seq<Booking>, days: seq<Day>, d: Day)
    requires d in days
    ensures var summaries := SummariesOf(bookings, days);
      IsDateAvailable(summaries, IsoDate(d)) == Summarize(bookings, IsoDate(d)).hasSlots
      && AvailableSlots(summaries, IsoDate(d)) == Summarize(bookings, IsoDate(d)).availableSlots
  {
    var summaries := SummariesOf(bookings, days);
    var k :| 0 <= k < |days| && days[k] == d;
    assert summaries[k].date == IsoDate(d);
    var i := FindSummary(summaries, IsoDate(d)).value;
    assert summaries[i] == Summarize(bookings, IsoDate(days[i]));
  }
}
