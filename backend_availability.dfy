/** The availability router of backend/routes/availability.js: for each day
    of a range, a count of open slots that depends on the clock. Today's
    count walks the grid hour by hour and skips the slots already past; a
    later day gets a fixed total minus its bookings; an earlier day gets 0.
    The bookings are the snapshot read when the module loads, a parameter
    here, as are today's date text and the current minute of the day. */
module BackendAvailability {
  import opened Base
  import opened Text
  import opened Days
  import opened Bookings
  import opened SlotGrid

  /** One entry of the response: no list of times, only their count. */
  datatype DayCount = DayCount(date: string, hasSlots: bool, availableSlots: int)

  /** The handler's `isPastTime` test of a slot against the clock, `now`
      being the minute of the day (hour `now / 60`, minute `now % 60`). */
  predicate IsPast(hour: int, minute: int, now: nat)
  {
    hour < now / 60 || (hour == now / 60 && minute <= now % 60)
  }

  /** A slot counts as past exactly when it does not start after `now`; a
      slot starting at the current minute is past. */
  lemma IsPastIffNotLater(hour: int, minute: int, now: nat)
    requires 0 <= minute < 60
    ensures IsPast(hour, minute, now) <==> 60 * hour + minute <= now
  {
  }

  /** A time text is open today: not booked, and not at or before `now`. */
  predicate IsOpenNow(t: string, booked: seq<string>, now: nat)
  {
    t !in booked && !(ClockMinutes(t).Some? && ClockMinutes(t).value <= now)
  }

  function OpenTest(booked: seq<string>, now: nat): string -> bool
  {
    t => IsOpenNow(t, booked, now)
  }

  /** The grid times, in grid order, that are still open today. */
  function OpenToday(booked: seq<string>, now: nat): (r: seq<string>)
    ensures IsSubseq(r, Grid)
    ensures |r| <= 22
  {
    GridClock();
    FilterIsSubseq(Grid, OpenTest(booked, now));
    Filter(Grid, OpenTest(booked, now))
  }

  /** Grid entry i (time 11:00 + 30 i minutes) is open today exactly when
      nobody booked it and it starts after `now`. */
  lemma OpenTodayAt(booked: seq<string>, now: nat, i: nat)
    requires i < |Grid|
    ensures Grid[i] in OpenToday(booked, now) <==> Grid[i] !in booked && 660 + 30 * i > now
  {
    var t := Grid[i];
    OpenTodayMembers(booked, now, t);
    GridTimeAt(i);
    assert t in Grid;
  }

  lemma OpenTodayMembers(booked: seq<string>, now: nat, t: string)
    ensures t in OpenToday(booked, now) <==> t in Grid && IsOpenNow(t, booked, now)
  {
    FilterMembers(Grid, OpenTest(booked, now));
  }

  /** The i-th label the nested loops build: hour 11 + i / 2, minute 0 or
      30. */
  function VisitLabel(i: nat): string
  {
    SlotLabel(11 + i / 2, 30 * (i % 2))
  }

  /** The loops' test for their i-th slot: not past and not booked. */
  predicate CountsSlot(booked: seq<string>, now: nat, i: nat)
  {
    !IsPast(11 + i / 2, 30 * (i % 2), now) && VisitLabel(i) !in booked
  }

  /** Number of slots the loops count among the first k they visit. */
  function OpenAmongFirst(booked: seq<string>, now: nat, k: nat): (n: nat)
    ensures n <= k
  {
    if k == 0 then 0
    else OpenAmongFirst(booked, now, k - 1) + (if CountsSlot(booked, now, k - 1) then 1 else 0)
  }

  /** Counting over all 22 labels counts today's open grid times: the loops
      visit exactly the grid, in grid order. */
  lemma {:induction false} OpenAmongFirstFilters(booked: seq<string>, now: nat, k: nat)
    requires k <= |Grid|
    ensures OpenAmongFirst(booked, now, k) == |Filter(Grid[..k], OpenTest(booked, now))|
  {
    if k > 0 {
      OpenAmongFirstFilters(booked, now, k - 1);
      CountsSlotIffOpen(booked, now, k - 1);
      FilterPrefixStep(Grid, k - 1, OpenTest(booked, now));
    }
  }

  /** The loops count their i-th slot exactly when grid entry i is open. */
  lemma CountsSlotIffOpen(booked: seq<string>, now: nat, i: nat)
    requires i < |Grid|
    ensures CountsSlot(booked, now, i) <==> OpenTest(booked, now)(Grid[i])
  {
    GridLabelAt(i);
    CountedIffOpen(booked, now, 11 + i / 2, 30 * (i % 2));
  }

  lemma OpenTodayCount(booked: seq<string>, now: nat)
    ensures OpenAmongFirst(booked, now, 22) == |OpenToday(booked, now)|
  {
    OpenAmongFirstFilters(booked, now, 22);
    assert Grid[..22] == Grid;
  }

  /** The loops count a slot exactly when it is open. */
  lemma CountedIffOpen(booked: seq<string>, now: nat, hour: nat, minute: nat)
    requires hour < 100 && minute < 60
    ensures IsOpenNow(SlotLabel(hour, minute), booked, now)
      <==> !IsPast(hour, minute, now) && SlotLabel(hour, minute) !in booked
  {
    LabelClock(hour, minute);
    IsPastIffNotLater(hour, minute, now);
  }

  /** Visiting the slot at `hour` and `minute`, the k-th, adds one to the
      count exactly when it is open. */
  lemma CountStep(booked: seq<string>, now: nat, hour: nat, minute: nat, k: nat)
    requires 11 <= hour <= 21 && (minute == 0 || minute == 30)
    requires k == 2 * (hour - 11) + minute / 30
    ensures OpenAmongFirst(booked, now, k + 1) == OpenAmongFirst(booked, now, k)
      + (if !IsPast(hour, minute, now) && SlotLabel(hour, minute) !in booked then 1 else 0)
  {
    assert 11 + k / 2 == hour && 30 * (k % 2) == minute;
  }

  /** Today's count (lines 52-62): the nested `hour` / `minute` loops over
      11:00 to 21:30, adding one for each slot neither past nor booked, so
      the number of slots counted among all 22 visited; by OpenTodayCount
      that is the number of grid times still open. */
  method CountOpenToday(booked: seq<string>, now: nat) returns (count: int)
    ensures count == OpenAmongFirst(booked, now, 22)
    ensures 0 <= count <= 22
  {
    count := 0;
    var hour: nat := 11;
    ghost var k: nat := 0;
    while hour <= 21
      invariant 11 <= hour <= 22 && k == 2 * (hour - 11)
      invariant count == OpenAmongFirst(booked, now, k)
    {
      var minute: nat := 0;
      while minute < 60
        invariant minute == 0 || minute == 30 || minute == 60
        invariant k == 2 * (hour - 11) + minute / 30
        invariant count == OpenAmongFirst(booked, now, k)
      {
        var time := SlotLabel(hour, minute);
        var isPastTime := hour < now / 60 || (hour == now / 60 && minute <= now % 60);
        var isBooked := time in booked;
        CountStep(booked, now, hour, minute, k);
        if !isPastTime && !isBooked {
          count := count + 1;
        }
        minute := minute + 30;
        k := k + 1;
      }
      hour := hour + 1;
    }
  }

  /** A later day's count as written (lines 65-66): 21 minus the number of
      bookings on that day. */
  function FutureCount(booked: seq<string>): (n: int)
    ensures n <= 21
  {
    21 - |booked|
  }

  /** The count the comment above it describes, "all unbooked slots": the
      grid times nobody booked on that day. */
  function FutureCountFixed(booked: seq<string>): (n: int)
    ensures 0 <= n <= 22
    ensures n == |Grid| - |set t | t in Grid && t in booked|
  {
    GridClock();
    |FreeTimes(booked)|
  }

  /** The entry of one day: `today`'s count from the loops, a later day's
      from the fixed total, an earlier day's 0; `hasSlots` iff the count is
      positive. */
  function DayEntry(bookings: seq<Booking>, dateStr: string, today: string, now: nat): (r: DayCount)
    ensures r.date == dateStr
    ensures r.hasSlots <==> r.availableSlots > 0
    ensures !(dateStr == today || StrLess(today, dateStr)) ==> r.availableSlots == 0
  {
    var booked := BookedTimes(bookings, dateStr);
    var slots :=
      if dateStr == today then OpenAmongFirst(booked, now, 22)
      else if StrLess(today, dateStr) then FutureCount(booked)
      else 0;
    DayCount(dateStr, slots > 0, slots)
  }

  /** The entries of the given dates, in order. */
  function EntriesOf(bookings: seq<Booking>, dates: seq<string>, today: string, now: nat): (r: seq<DayCount>)
    ensures |r| == |dates|
    ensures forall i :: 0 <= i < |dates| ==> r[i] == DayEntry(bookings, dates[i], today, now)
  {
    seq(|dates|, i requires 0 <= i < |dates| => DayEntry(bookings, dates[i], today, now))
  }

  lemma EntriesOfAppend(bookings: seq<Booking>, dates: seq<string>, date: string, today: string, now: nat)
    ensures EntriesOf(bookings, dates + [date], today, now)
      == EntriesOf(bookings, dates, today, now) + [DayEntry(bookings, date, today, now)]
  {
    var l := EntriesOf(bookings, dates + [date], today, now);
    var r := EntriesOf(bookings, dates, today, now) + [DayEntry(bookings, date, today, now)];
    forall i | 0 <= i < |l| ensures l[i] == r[i] {
      if i < |dates| {
        assert (dates + [date])[i] == dates[i];
      }
    }
  }

  /** The body of the date loop (lines 41-75) for the day whose text is
      `dateStr`. */
  method DayAvailability(bookings: seq<Booking>, dateStr: string, today: string, now: nat)
    returns (entry: DayCount)
    ensures entry == DayEntry(bookings, dateStr, today, now)
  {
    var bookedTimeSlots := BookedTimes(bookings, dateStr);
    var availableSlots := 0;
    if dateStr == today {
      availableSlots := CountOpenToday(bookedTimeSlots, now);
    } else if StrLess(today, dateStr) {
      var totalSlots := 21;
      availableSlots := totalSlots - |bookedTimeSlots|;
    }
    var hasSlots := availableSlots > 0;
    entry := DayCount(dateStr, hasSlots, availableSlots);
  }

  /** One more day of the loop appends that day's entry. */
  lemma EntriesStep(bookings: seq<Booking>, start: Day, date: Day, today: string, now: nat)
    requires start <= date
    ensures EntriesOf(bookings, DateTexts(DayRange(start, date)), today, now)
      == EntriesOf(bookings, DateTexts(DayRange(start, date - 1)), today, now)
         + [DayEntry(bookings, IsoDate(date), today, now)]
  {
    DayRangeStep(start, date);
    DateTextsAppend(DayRange(start, date - 1), date);
    EntriesOfAppend(bookings, DateTexts(DayRange(start, date - 1)), IsoDate(date), today, now);
  }

  /** GET /: 400 when `start` or `end` is missing, before anything is
      computed; otherwise one entry per day from start to end inclusive, in
      ascending order (none when start > end), pushed by the date loop of
      lines 40-76. */
  method GetAvailability(start: Option<Day>, end: Option<Day>, bookings: seq<Booking>,
                         today: string, now: nat)
    returns (res: Outcome<seq<DayCount>>)
    ensures start.None? || end.None? ==> res == Failure(400, "Start and end dates are required")
    ensures start.Some? && end.Some? ==>
      res == Success(EntriesOf(bookings, DateTexts(DayRange(start.value, end.value)), today, now))
  {
    if start.None? || end.None? {
      return Failure(400, "Start and end dates are required");
    }
    var availability: seq<DayCount> := [];
    var date := start.value;
    while date <= end.value
      invariant date == start.value || start.value <= date <= end.value + 1
      invariant availability == EntriesOf(bookings, DateTexts(DayRange(start.value, date - 1)), today, now)
      decreases end.value - date
    {
      var entry := DayAvailability(bookings, IsoDate(date), today, now);
      EntriesStep(bookings, start.value, date, today, now);
      availability := availability + [entry];
      date := date + 1;
    }
    return Success(availability);
  }

  /** Today's entry counts exactly the grid times nobody booked that start
      after `now`, hence between 0 and 22. */
  lemma TodayEntryCountsOpenSlots(bookings: seq<Booking>, today: string, now: nat)
    ensures var e := DayEntry(bookings, today, today, now);
      e.date == today
      && e.availableSlots == |OpenToday(BookedTimes(bookings, today), now)|
      && 0 <= e.availableSlots <= 22
      && (e.hasSlots <==> e.availableSlots > 0)
  {
    OpenTodayCount(BookedTimes(bookings, today), now);
  }

  /** A later day's entry is 21 less the number of its bookings, whatever
      their times. */
  lemma LaterEntryCount(bookings: seq<Booking>, date: string, today: string, now: nat)
    requires date != today && StrLess(today, date)
    ensures DayEntry(bookings, date, today, now).availableSlots == 21 - |OnDate(bookings, date)|
    ensures DayEntry(bookings, date, today, now).hasSlots <==> |OnDate(bookings, date)| < 21
  {
  }

  /** An earlier day's entry has no slots. */
  lemma EarlierEntryIsEmpty(bookings: seq<Booking>, date: string, today: string, now: nat)
    requires date != today && !StrLess(today, date)
    ensures DayEntry(bookings, date, today, now) == DayCount(date, false, 0)
  {
  }

  /** As written, a later day with bookings at n distinct grid times is
      reported with one free slot fewer than it has: 22 - n slots are free,
      21 - n are reported. */
  lemma FutureCountMissesOneSlot(booked: seq<string>)
    requires Distinct(booked) && forall t :: t in booked ==> t in Grid
    ensures FutureCount(booked) == FutureCountFixed(booked) - 1
  {
    DistinctCardinality(booked);
    assert (set t | t in Grid && t in booked) == (set t | t in booked);
  }

  /** The first `k` grid times are distinct and are grid times. */
  lemma GridPrefix(k: nat)
    requires k <= |Grid|
    ensures Distinct(Grid[..k]) && forall t :: t in Grid[..k] ==> t in Grid
  {
    GridClock();
    var booked := Grid[..k];
    forall i, j | 0 <= i < j < k ensures booked[i] != booked[j] {
      assert booked[i] == Grid[i] && booked[j] == Grid[j];
    }
    forall t | t in booked ensures t in Grid {
      var i :| 0 <= i < k && booked[i] == t;
      assert Grid[i] == t;
    }
  }

  /** With 21 distinct grid times booked, exactly one grid time is free,
      and the count as written is 0. */
  lemma OneFreeLeft(booked: seq<string>, last: string)
    requires Distinct(booked) && forall t :: t in booked ==> t in Grid
    requires |booked| == 21 && last in Grid && last !in booked
    ensures FutureCount(booked) == 0 && FreeTimes(booked) == [last]
  {
    FutureCountMissesOneSlot(booked);
    var free := FreeTimes(booked);
    assert |free| == 1;
    assert last in free;
    var i :| 0 <= i < |free| && free[i] == last;
    assert free == [free[0]] && free[0] == last;
  }

  /** The last grid time, "21:30", is not among the 21 before it. */
  lemma LastSlotAfterPrefix()
    ensures |Grid| == 22 && Grid[21] == "21:30" && Grid[21] !in Grid[..21]
  {
    GridClock();
    var booked := Grid[..21];
    forall i | 0 <= i < 21 ensures booked[i] != Grid[21] {
      assert booked[i] == Grid[i];
    }
  }

  /** With the first 21 grid times booked, "21:30" is still free, yet the
      entry as written reports 0 slots and no availability. */
  lemma TwentyOneBookedHidesLastSlot()
    ensures FutureCount(Grid[..21]) == 0 && FreeTimes(Grid[..21]) == ["21:30"]
  {
    GridPrefix(21);
    LastSlotAfterPrefix();
    OneFreeLeft(Grid[..21], Grid[21]);
  }

  /** With every grid time booked, the entry as written reports -1 slots. */
  lemma AllBookedCountsNegative()
    ensures FutureCount(Grid) == -1 && FutureCountFixed(Grid) == 0
  {
    GridPrefix(22);
    assert Grid[..22] == Grid;
    FutureCountMissesOneSlot(Grid);
  }

  /** The entry of one day with a later day counted as the comment above
      the code says: the unbooked grid times. */
  function DayEntryFixed(bookings: seq<Booking>, dateStr: string, today: string, now: nat): (e: DayCount)
    ensures e.date == dateStr && (e.hasSlots <==> e.availableSlots > 0)
    ensures 0 <= e.availableSlots <= 22
  {
    var booked := BookedTimes(bookings, dateStr);
    var slots :=
      if dateStr == today then OpenAmongFirst(booked, now, 22)
      else if StrLess(today, dateStr) then FutureCountFixed(booked)
      else 0;
    DayCount(dateStr, slots > 0, slots)
  }

  /** Corrected, a later day reports what the filtering handlers report for
      it: the number of its grid times nobody booked, and whether there is
      one. */
  lemma FixedLaterEntryMatchesSummary(bookings: seq<Booking>, date: string, today: string, now: nat)
    requires date != today && StrLess(today, date)
    ensures DayEntryFixed(bookings, date, today, now).availableSlots == Summarize(bookings, date).availableSlots
    ensures DayEntryFixed(bookings, date, today, now).hasSlots == Summarize(bookings, date).hasSlots
  {
  }

  /** Before 11:00 no slot has passed, and today's count is the corrected
      count of a later day: the two branches agree. */
  lemma BeforeOpeningTodayMatchesFixed(booked: seq<string>, now: nat)
    requires now < 660
    ensures OpenAmongFirst(booked, now, 22) == FutureCountFixed(booked)
  {
    OpenTodayCount(booked, now);
    GridClock();
    forall t | t in Grid ensures OpenTest(booked, now)(t) == (t !in booked) {
      var i :| 0 <= i < |Grid| && Grid[i] == t;
      assert ClockMinutes(Grid[i]) == Some(660 + 30 * i);
    }
    FilterCongruent(Grid, OpenTest(booked, now), x => x !in booked);
  }
}
