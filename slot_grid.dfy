/** The fixed grid of reservation times and the per-day summary that the
    filtering availability handlers compute from it
    (server/index.js and app/api/availability/route.ts). */
module SlotGrid {
  import opened Base
  import opened Text
  import opened Bookings
  import opened Days

  /** `AVAILABLE_TIMES`: every half hour from 11:00 to 21:30. */
  const Grid: seq<string> := [
    "11:00", "11:30",
    "12:00", "12:30",
    "13:00", "13:30",
    "14:00", "14:30",
    "15:00", "15:30",
    "16:00", "16:30",
    "17:00", "17:30",
    "18:00", "18:30",
    "19:00", "19:30",
    "20:00", "20:30",
    "21:00", "21:30"
  ]

  /** The `HH:MM` text the counting handler builds with `padStart(2, '0')`. */
  function SlotLabel(hour: nat, minute: nat): string
  {
    PadDecimal(hour, 2) + ":" + PadDecimal(minute, 2)
  }

  /** `parseInt(time.split(':')[0])`: the hour of a time text, None for NaN. */
  function HourOf(t: string): Option<int>
  {
    ParseInt(Split(t, ':')[0])
  }

  /** The minute of the day a time text denotes, read the way the client
      reads it (`const [hours, minutes] = time.split(':')` and `parseInt`
      on both); None when either part is NaN. */
  function ClockMinutes(t: string): Option<int>
  {
    var parts := Split(t, ':');
    var h := ParseInt(parts[0]);
    var m := if |parts| > 1 then ParseInt(parts[1]) else None;
    if h.Some? && m.Some? then Some(60 * h.value + m.value) else None
  }

  lemma LabelChars(hour: nat, minute: nat)
    requires hour < 100 && minute < 100
    ensures SlotLabel(hour, minute)
      == [DigitChar(hour / 10), DigitChar(hour % 10), ':', DigitChar(minute / 10), DigitChar(minute % 10)]
  {
    PadTwoDigits(hour);
    PadTwoDigits(minute);
  }

  /** A label splits at its colon into its two padded fields. */
  lemma LabelParts(hour: nat, minute: nat)
    requires hour < 100 && minute < 100
    ensures Split(SlotLabel(hour, minute), ':') == [PadDecimal(hour, 2), PadDecimal(minute, 2)]
  {
    var hh := PadDecimal(hour, 2);
    var mm := PadDecimal(minute, 2);
    PadTwoDigits(hour);
    PadTwoDigits(minute);
    assert ':' !in hh && ':' !in mm;
    SplitOnce(hh, mm, ':');
    assert SlotLabel(hour, minute) == hh + [':'] + mm;
  }

  /** A label reads back as its hour and its minute of the day. */
  lemma LabelClock(hour: nat, minute: nat)
    requires hour < 100 && minute < 100
    ensures HourOf(SlotLabel(hour, minute)) == Some(hour)
    ensures ClockMinutes(SlotLabel(hour, minute)) == Some(60 * hour + minute)
  {
    var parts := Split(SlotLabel(hour, minute), ':');
    LabelParts(hour, minute);
    ParseTwoDigits(hour);
    ParseTwoDigits(minute);
    assert |parts| == 2 && parts[0] == PadDecimal(hour, 2) && parts[1] == PadDecimal(minute, 2);
  }

  /** Entry `i` of the grid is the label of hour 11 + i / 2 and minute
      0 or 30, the order in which the counting handler's loops visit them. */
  lemma GridLabelAt(i: nat)
    requires i < |Grid|
    ensures Grid[i] == SlotLabel(11 + i / 2, 30 * (i % 2))
  {
    GridIsLabels();
    HalfHourListAt(LabelOf(), Grid, i);
  }

  /** `SlotLabel` as a function value. */
  function LabelOf(): (nat, nat) -> string
  {
    (hour: nat, minute: nat) => SlotLabel(hour, minute)
  }

  /** A list of 22 entries, one for each half hour from 11:00 to 21:30,
      holds at `i` the entry of hour 11 + i / 2 and minute 30 * (i % 2):
      a case split over the 22 positions, made on an arbitrary `f` so
      that no case computes a label. */
  lemma HalfHourListAt(f: (nat, nat) -> string, s: seq<string>, i: nat)
    requires s == [f(11, 0), f(11, 30), f(12, 0), f(12, 30), f(13, 0), f(13, 30), f(14, 0), f(14, 30), f(15, 0), f(15, 30), f(16, 0), f(16, 30), f(17, 0), f(17, 30), f(18, 0), f(18, 30), f(19, 0), f(19, 30), f(20, 0), f(20, 30), f(21, 0), f(21, 30)]
    requires i < 22
    ensures s[i] == f(11 + i / 2, 30 * (i % 2))
  {
    if i == 0 {}
    else if i == 1 {}
    else if i == 2 {}
    else if i == 3 {}
    else if i == 4 {}
    else if i == 5 {}
    else if i == 6 {}
    else if i == 7 {}
    else if i == 8 {}
    else if i == 9 {}
    else if i == 10 {}
    else if i == 11 {}
    else if i == 12 {}
    else if i == 13 {}
    else if i == 14 {}
    else if i == 15 {}
    else if i == 16 {}
    else if i == 17 {}
    else if i == 18 {}
    else if i == 19 {}
    else if i == 20 {}
    else if i == 21 {}
  }

  lemma GridIsLabels()
    ensures Grid == [SlotLabel(11, 0), SlotLabel(11, 30), SlotLabel(12, 0), SlotLabel(12, 30), SlotLabel(13, 0), SlotLabel(13, 30), SlotLabel(14, 0), SlotLabel(14, 30), SlotLabel(15, 0), SlotLabel(15, 30), SlotLabel(16, 0), SlotLabel(16, 30), SlotLabel(17, 0), SlotLabel(17, 30), SlotLabel(18, 0), SlotLabel(18, 30), SlotLabel(19, 0), SlotLabel(19, 30), SlotLabel(20, 0), SlotLabel(20, 30), SlotLabel(21, 0), SlotLabel(21, 30)]
  {
    assert SlotLabel(11, 0) == "11:00" by { LabelChars(11, 0); }
    assert SlotLabel(11, 30) == "11:30" by { LabelChars(11, 30); }
    assert SlotLabel(12, 0) == "12:00" by { LabelChars(12, 0); }
    assert SlotLabel(12, 30) == "12:30" by { LabelChars(12, 30); }
    assert SlotLabel(13, 0) == "13:00" by { LabelChars(13, 0); }
    assert SlotLabel(13, 30) == "13:30" by { LabelChars(13, 30); }
    assert SlotLabel(14, 0) == "14:00" by { LabelChars(14, 0); }
    assert SlotLabel(14, 30) == "14:30" by { LabelChars(14, 30); }
    assert SlotLabel(15, 0) == "15:00" by { LabelChars(15, 0); }
    assert SlotLabel(15, 30) == "15:30" by { LabelChars(15, 30); }
    assert SlotLabel(16, 0) == "16:00" by { LabelChars(16, 0); }
    assert SlotLabel(16, 30) == "16:30" by { LabelChars(16, 30); }
    assert SlotLabel(17, 0) == "17:00" by { LabelChars(17, 0); }
    assert SlotLabel(17, 30) == "17:30" by { LabelChars(17, 30); }
    assert SlotLabel(18, 0) == "18:00" by { LabelChars(18, 0); }
    assert SlotLabel(18, 30) == "18:30" by { LabelChars(18, 30); }
    assert SlotLabel(19, 0) == "19:00" by { LabelChars(19, 0); }
    assert SlotLabel(19, 30) == "19:30" by { LabelChars(19, 30); }
    assert SlotLabel(20, 0) == "20:00" by { LabelChars(20, 0); }
    assert SlotLabel(20, 30) == "20:30" by { LabelChars(20, 30); }
    assert SlotLabel(21, 0) == "21:00" by { LabelChars(21, 0); }
    assert SlotLabel(21, 30) == "21:30" by { LabelChars(21, 30); }
  }

  /** Entry `i` of the grid is hour 11 + i / 2, and minute 660 + 30 * i of
      the day. */
  lemma GridTimeAt(i: nat)
    requires i < |Grid|
    ensures HourOf(Grid[i]) == Some(11 + i / 2)
    ensures ClockMinutes(Grid[i]) == Some(660 + 30 * i)
  {
    GridLabelAt(i);
    LabelClock(11 + i / 2, 30 * (i % 2));
  }

  /** The grid has 22 entries, starts at 11:00, ends at 21:30 and advances in
      steps of 30 minutes; so its times strictly increase and none occurs
      twice. */
  lemma GridClock()
    ensures |Grid| == 22 && Grid[0] == "11:00" && Grid[21] == "21:30"
    ensures forall i :: 0 <= i < |Grid| ==> ClockMinutes(Grid[i]) == Some(660 + 30 * i)
    ensures Distinct(Grid)
  {
    forall i | 0 <= i < |Grid| ensures ClockMinutes(Grid[i]) == Some(660 + 30 * i) {
      GridTimeAt(i);
    }
    forall i, j | 0 <= i < j < |Grid| ensures Grid[i] != Grid[j] {
      GridTimeAt(i);
      GridTimeAt(j);
    }
  }

  /** Five-character texts with the same middle character compare as
      strings character by character. */
  lemma FiveCharLess(a: string, b: string)
    requires |a| == 5 && |b| == 5 && a[2] == b[2]
    ensures StrLess(a, b) <==> (a[0] < b[0] || (a[0] == b[0] && (a[1] < b[1] || (a[1] == b[1]
      && (a[3] < b[3] || (a[3] == b[3] && a[4] < b[4]))))))
  {
    var a1, b1 := a[1..], b[1..];
    var a2, b2 := a1[1..], b1[1..];
    var a3, b3 := a2[1..], b2[1..];
    var a4, b4 := a3[1..], b3[1..];
    assert a1[0] == a[1] && b1[0] == b[1] && a2[0] == a[2] && b2[0] == b[2];
    assert a3[0] == a[3] && b3[0] == b[3] && a4[0] == a[4] && b4[0] == b[4];
    assert a4[1..] == [] && b4[1..] == [];
    assert StrLess(a4, b4) <==> a[4] < b[4];
    assert StrLess(a3, b3) <==> a[3] < b[3] || (a[3] == b[3] && StrLess(a4, b4));
    assert StrLess(a2, b2) <==> StrLess(a3, b3);
    assert StrLess(a1, b1) <==> a[1] < b[1] || (a[1] == b[1] && StrLess(a2, b2));
  }

  /** Four-digit numbers compare the way their digit strings do. */
  lemma DigitsLex(d1: int, e1: int, f1: int, g1: int, d2: int, e2: int, f2: int, g2: int)
    requires 0 <= d1 <= 9 && 0 <= e1 <= 9 && 0 <= f1 <= 9 && 0 <= g1 <= 9
    requires 0 <= d2 <= 9 && 0 <= e2 <= 9 && 0 <= f2 <= 9 && 0 <= g2 <= 9
    ensures 1000 * d1 + 100 * e1 + 10 * f1 + g1 < 1000 * d2 + 100 * e2 + 10 * f2 + g2
      <==> d1 < d2 || (d1 == d2 && (e1 < e2 || (e1 == e2 && (f1 < f2 || (f1 == f2 && g1 < g2)))))
  {
  }

  /** Two labels compare as strings the way their times compare on the
      clock (hour first, then minute). */
  lemma LabelOrder(h1: nat, m1: nat, h2: nat, m2: nat)
    requires h1 < 100 && m1 < 100 && h2 < 100 && m2 < 100
    ensures StrLess(SlotLabel(h1, m1), SlotLabel(h2, m2)) <==> 100 * h1 + m1 < 100 * h2 + m2
  {
    LabelChars(h1, m1);
    LabelChars(h2, m2);
    FiveCharLess(SlotLabel(h1, m1), SlotLabel(h2, m2));
    DigitsLex(h1 / 10, h1 % 10, m1 / 10, m1 % 10, h2 / 10, h2 % 10, m2 / 10, m2 % 10);
  }

  /** The grid is in strictly ascending string order. */
  lemma GridAscending()
    ensures forall i, j :: 0 <= i < j < |Grid| ==> StrLess(Grid[i], Grid[j])
  {
    forall i, j | 0 <= i < j < |Grid| ensures StrLess(Grid[i], Grid[j]) {
      GridLabelAt(i);
      GridLabelAt(j);
      LabelOrder(11 + i / 2, 30 * (i % 2), 11 + j / 2, 30 * (j % 2));
    }
  }

  /** A day's availability as the filtering handlers report it. */
  datatype DaySummary = DaySummary(
    date: string, hasSlots: bool, availableSlots: int, availableTimes: seq<string>)

  /** The times of the given bookings, in order (`.map(b => b.time)`). */
  function TimesOf(bookings: seq<Booking>): (r: seq<string>)
    ensures |r| == |bookings| && forall i :: 0 <= i < |bookings| ==> r[i] == bookings[i].time
  {
    seq(|bookings|, i requires 0 <= i < |bookings| => bookings[i].time)
  }

  /** `bookings.filter(b => b.date === date).map(b => b.time)`: one entry per
      booking on the date, and exactly the times taken on it. */
  function BookedTimes(bookings: seq<Booking>, date: string): (r: seq<string>)
    ensures |r| == |OnDate(bookings, date)|
    ensures forall t :: t in r <==> SlotTaken(bookings, date, t)
  {
    var onDate := OnDate(bookings, date);
    var r := TimesOf(onDate);
    OnDateMembers(bookings, date);
    assert forall t :: t in r <==> SlotTaken(bookings, date, t) by {
      forall t ensures t in r <==> SlotTaken(bookings, date, t) {
        if t in r {
          var k :| 0 <= k < |r| && r[k] == t;
          assert onDate[k] in onDate;
          var i :| 0 <= i < |bookings| && bookings[i] == onDate[k];
        }
        if SlotTaken(bookings, date, t) {
          var i :| 0 <= i < |bookings| && bookings[i].date == date && bookings[i].time == t;
          assert bookings[i] in onDate;
          var k :| 0 <= k < |onDate| && onDate[k] == bookings[i];
          assert r[k] == t;
        }
      }
    }
    r
  }

  /** The grid times that some booking on the date occupies. */
  ghost function TakenGridTimes(bookings: seq<Booking>, date: string): set<string>
  {
    set t | t in Grid && SlotTaken(bookings, date, t)
  }

  /** `AVAILABLE_TIMES.filter(time => !bookedTimes.includes(time))`: the grid
      times not booked, in grid order; one fewer than the grid for each
      distinct booked grid time. */
  function FreeTimes(booked: seq<string>): (r: seq<string>)
    ensures IsSubseq(r, Grid)
    ensures forall t :: t in r <==> t in Grid && t !in booked
    ensures |r| == |Grid| - |set t | t in Grid && t in booked|
  {
    GridClock();
    WithoutIsSubseq(Grid, booked);
    WithoutCount(Grid, booked);
    Without(Grid, booked)
  }

  /** The summary of one day (server/index.js lines 203-219, and the same
      code in app/api/availability/route.ts): exactly the grid times nobody
      booked on that day, in grid order, their number, and whether there is
      one. */
  function Summarize(bookings: seq<Booking>, date: string): (r: DaySummary)
    ensures r.date == date
    ensures r.availableSlots == |r.availableTimes|
    ensures r.hasSlots <==> r.availableSlots > 0
    ensures IsSubseq(r.availableTimes, Grid)
    ensures forall t :: t in r.availableTimes <==> t in Grid && !SlotTaken(bookings, date, t)
    ensures r.availableSlots == |Grid| - |TakenGridTimes(bookings, date)|
  {
    var booked := BookedTimes(bookings, date);
    var free := FreeTimes(booked);
    assert (set t | t in Grid && t in booked) == TakenGridTimes(bookings, date);
    DaySummary(date, |free| > 0, |free|, free)
  }

  /** A day nobody booked offers the whole grid: 22 slots. */
  lemma UnbookedDayOffersWholeGrid(bookings: seq<Booking>, date: string)
    requires forall i :: 0 <= i < |bookings| ==> bookings[i].date != date
    ensures Summarize(bookings, date).availableTimes == Grid
    ensures Summarize(bookings, date).availableSlots == 22
    ensures Summarize(bookings, date).hasSlots
  {
    var booked := BookedTimes(bookings, date);
    forall t | t in Grid ensures t !in booked {
      assert !SlotTaken(bookings, date, t);
    }
    WithoutDisjoint(Grid, booked);
    GridClock();
  }

  /** Booking one more free grid time on a day takes exactly that time out
      of the day's summary, and no other. */
  lemma BookingTakesOneSlot(bookings: seq<Booking>, b: Booking)
    requires b.time in Grid && !SlotTaken(bookings, b.date, b.time)
    ensures Summarize(bookings + [b], b.date).availableSlots == Summarize(bookings, b.date).availableSlots - 1
    ensures forall t :: (t in Summarize(bookings + [b], b.date).availableTimes
      <==> t in Summarize(bookings, b.date).availableTimes && t != b.time)
  {
    var s := bookings + [b];
    forall t ensures SlotTaken(s, b.date, t) <==> SlotTaken(bookings, b.date, t) || t == b.time {
      if SlotTaken(bookings, b.date, t) {
        var i :| 0 <= i < |bookings| && bookings[i].date == b.date && bookings[i].time == t;
        assert s[i] == bookings[i];
      }
      if SlotTaken(s, b.date, t) && t != b.time {
        var i :| 0 <= i < |s| && s[i].date == b.date && s[i].time == t;
        assert s[i] == bookings[i];
      }
      assert s[|bookings|] == b;
    }
    assert TakenGridTimes(s, b.date) == TakenGridTimes(bookings, b.date) + {b.time};
    assert b.time !in TakenGridTimes(bookings, b.date);
  }

  /** A booking on another date leaves a day's summary unchanged. */
  lemma OtherDateLeavesSummary(bookings: seq<Booking>, b: Booking, date: string)
    requires b.date != date
    ensures Summarize(bookings + [b], date) == Summarize(bookings, date)
  {
    var s := bookings + [b];
    FilterAppend(bookings, b, (x: Booking) => x.date == date);
    assert OnDate(s, date) == OnDate(bookings, date);
  }

  /** `days.map(...)`: the summary of each day, under its `YYYY-MM-DD` text. */
  function SummariesOf(bookings: seq<Booking>, days: seq<Day>): (r: seq<DaySummary>)
    ensures |r| == |days|
    ensures forall i :: 0 <= i < |days| ==> r[i] == Summarize(bookings, IsoDate(days[i]))
  {
    Map(days, SummaryOfDay(bookings))
  }

  /** The summary of a day, under its `YYYY-MM-DD` text. */
  function SummaryOfDay(bookings: seq<Booking>): Day -> DaySummary
  {
    d => Summarize(bookings, IsoDate(d))
  }
}
