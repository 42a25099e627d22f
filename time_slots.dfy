/** The slot picker of app/components/TimeSlots.tsx: which times it offers
    for the selected date, how it groups them into morning, afternoon and
    evening, and the counts it shows per group. What the component has
    fetched and the clock reading it keeps are the fields of a View. */
module TimeSlots {
  import opened Base
  import opened Bookings
  import opened SlotGrid
  import opened BackendAvailability

  /** The component's state at one render: the first day's summary fetched
      for the selected date (None before one has arrived), the selected
      date, today's `YYYY-MM-DD` text and the current minute of the day. */
  datatype View = View(availability: Option<DaySummary>, selectedDate: string, today: string, now: nat)

  /** The slot's hour:minute, read with `split(':')` and `parseInt`, is at
      or before the current minute. A time whose hour or minute is NaN
      never counts as passed: a `Date` set to NaN compares false. */
  predicate HasPassed(time: string, now: nat)
  {
    ClockMinutes(time).Some? && ClockMinutes(time).value <= now
  }

  /** `isTimeSlotAvailable`. */
  function IsTimeSlotAvailable(v: View, time: string): (r: bool)
    ensures v.availability.None? ==> !r
    ensures v.selectedDate == v.today && HasPassed(time, v.now) ==> !r
    ensures v.availability.Some? && !(v.selectedDate == v.today && HasPassed(time, v.now)) ==>
      (r <==> time in v.availability.value.availableTimes)
  {
    if v.availability.None? then false
    else if v.selectedDate == v.today && HasPassed(time, v.now) then false
    else time in v.availability.value.availableTimes
  }

  function AvailableTest(v: View): string -> bool
  {
    time => IsTimeSlotAvailable(v, time)
  }

  function UnavailableTest(v: View): string -> bool
  {
    time => !IsTimeSlotAvailable(v, time)
  }

  /** With a day's summary loaded, a time is offered exactly when it is a
      grid time nobody booked that day and, if the day is today, it has not
      passed yet. */
  lemma AvailableIffFreeAndAhead(bookings: seq<Booking>, v: View, time: string)
    requires v.availability == Some(Summarize(bookings, v.selectedDate))
    ensures IsTimeSlotAvailable(v, time) <==>
      time in Grid && !SlotTaken(bookings, v.selectedDate, time)
      && !(v.selectedDate == v.today && HasPassed(time, v.now))
  {
  }

  /** `availability?.availableTimes || []`. */
  function AllTimes(v: View): seq<string>
  {
    if v.availability.Some? then v.availability.value.availableTimes else []
  }

  /** The hour of the time parses to a number in [lo, hi). */
  predicate InHours(time: string, lo: int, hi: int)
  {
    HourOf(time).Some? && lo <= HourOf(time).value < hi
  }

  function PeriodTest(v: View, lo: int, hi: int): string -> bool
  {
    time => InHours(time, lo, hi) && IsTimeSlotAvailable(v, time)
  }

  datatype Periods = Periods(morning: seq<string>, afternoon: seq<string>, evening: seq<string>)

  /** `getTimeSlotsByPeriod`: the offered times of hours 11 to 14, 15 to 17
      and 18 to 21, each group in the order of the loaded times. */
  function TimeSlotsByPeriod(v: View): (r: Periods)
    ensures IsSubseq(r.morning, AllTimes(v)) && IsSubseq(r.afternoon, AllTimes(v))
      && IsSubseq(r.evening, AllTimes(v))
    ensures forall t :: t in r.morning <==> t in AllTimes(v) && InHours(t, 11, 15) && IsTimeSlotAvailable(v, t)
    ensures forall t :: t in r.afternoon <==> t in AllTimes(v) && InHours(t, 15, 18) && IsTimeSlotAvailable(v, t)
    ensures forall t :: t in r.evening <==> t in AllTimes(v) && InHours(t, 18, 22) && IsTimeSlotAvailable(v, t)
  {
    var all := AllTimes(v);
    FilterIsSubseq(all, PeriodTest(v, 11, 15));
    FilterIsSubseq(all, PeriodTest(v, 15, 18));
    FilterIsSubseq(all, PeriodTest(v, 18, 22));
    FilterMembers(all, PeriodTest(v, 11, 15));
    FilterMembers(all, PeriodTest(v, 15, 18));
    FilterMembers(all, PeriodTest(v, 18, 22));
    Periods(Filter(all, PeriodTest(v, 11, 15)), Filter(all, PeriodTest(v, 15, 18)),
            Filter(all, PeriodTest(v, 18, 22)))
  }

  /** No time is in two groups, and every offered time of hours 11 to 21
      is in one. */
  lemma PeriodsPartitionOfferedTimes(v: View)
    ensures var p := TimeSlotsByPeriod(v);
      forall t :: !(t in p.morning && t in p.afternoon) && !(t in p.morning && t in p.evening)
        && !(t in p.afternoon && t in p.evening)
    ensures var p := TimeSlotsByPeriod(v);
      forall t :: (t in AllTimes(v) && IsTimeSlotAvailable(v, t) && InHours(t, 11, 22))
        ==> t in p.morning || t in p.afternoon || t in p.evening
  {
  }

  /** With a day's summary loaded, every grid time that is free and, for
      today, still ahead is listed in a group. */
  lemma FreeGridTimeIsListed(bookings: seq<Booking>, v: View, i: nat)
    requires v.availability == Some(Summarize(bookings, v.selectedDate))
    requires i < |Grid| && !SlotTaken(bookings, v.selectedDate, Grid[i])
    requires !(v.selectedDate == v.today && HasPassed(Grid[i], v.now))
    ensures var p := TimeSlotsByPeriod(v);
      Grid[i] in p.morning || Grid[i] in p.afternoon || Grid[i] in p.evening
  {
    GridTimeAt(i);
    PeriodsPartitionOfferedTimes(v);
  }

  datatype SlotStats = SlotStats(total: int, booked: int, available: int)

  /** `getSlotStats`: how many of the times are offered, and how many not. */
  function GetSlotStats(v: View, slots: seq<string>): (r: SlotStats)
    ensures r.total == |slots| && r.available + r.booked == r.total
    ensures 0 <= r.available <= r.total
    ensures r.available == |Filter(slots, AvailableTest(v))|
    ensures r.booked == |Filter(slots, UnavailableTest(v))|
  {
    var available := |Filter(slots, AvailableTest(v))|;
    FilterSplitLength(slots, AvailableTest(v), UnavailableTest(v));
    SlotStats(|slots|, |slots| - available, available)
  }

  /** The groups hold only offered times, so none of them shows a booked slot. */
  lemma PeriodStatsShowNoBooked(v: View)
    ensures var p := TimeSlotsByPeriod(v);
      GetSlotStats(v, p.morning).booked == 0 && GetSlotStats(v, p.afternoon).booked == 0
      && GetSlotStats(v, p.evening).booked == 0
  {
    var p := TimeSlotsByPeriod(v);
    FilterAll(p.morning, AvailableTest(v));
    FilterAll(p.afternoon, AvailableTest(v));
    FilterAll(p.evening, AvailableTest(v));
  }

  /** On today's date the picker offers, over the whole grid, as many times
      as the counting router reports for today. */
  lemma TodayOffersBackendCount(bookings: seq<Booking>, v: View)
    requires v.selectedDate == v.today
    requires v.availability == Some(Summarize(bookings, v.today))
    ensures GetSlotStats(v, Grid).available == OpenAmongFirst(BookedTimes(bookings, v.today), v.now, 22)
  {
    var booked := BookedTimes(bookings, v.today);
    forall t | t in Grid ensures AvailableTest(v)(t) == OpenTest(booked, v.now)(t) {
      AvailableIffFreeAndAhead(bookings, v, t);
    }
    FilterCongruent(Grid, AvailableTest(v), OpenTest(booked, v.now));
    OpenTodayCount(booked, v.now);
  }
}
