/** Calendar days. A day is its ordinal: the number of days since
    1970-01-01 (JavaScript `Date` midnight values divided by a day). The
    handlers turn a day into its `YYYY-MM-DD` text, the form bookings
    store their `date` in. */
module Days {
  import opened Text

  type Day = int

  /** The proleptic Gregorian (year, month, day) of a day ordinal
      (the `getUTCFullYear`, `getUTCMonth() + 1`, `getUTCDate` of the
      `Date` at that midnight). Divisions are by positive constants, where
      Dafny's division floors as the algorithm needs. */
  function CivilDate(d: Day): (int, int, int)
  {
    var z := d + 719468;
    var era := z / 146097;
    var doe := z - era * 146097;
    var yoe := (doe - doe / 1460 + doe / 36524 - doe / 146096) / 365;
    var doy := doe - (365 * yoe + yoe / 4 - yoe / 100);
    var mp := (5 * doy + 2) / 153;
    var dayOfMonth := doy - (153 * mp + 2) / 5 + 1;
    var month := if mp < 10 then mp + 3 else mp - 9;
    var year := yoe + era * 400 + (if month <= 2 then 1 else 0);
    (year, month, dayOfMonth)
  }

  function Field2(n: int): string
  {
    if n < 0 then "-" + PadDecimal(-n, 2) else PadDecimal(n, 2)
  }

  /** `toISOString().split('T')[0]` of the day's midnight: four-digit
      years for 0000-9999, six digits and a sign outside that range. */
  function IsoDate(d: Day): string
  {
    var (y, m, dd) := CivilDate(d);
    var year :=
      if 0 <= y <= 9999 then PadDecimal(y, 4)
      else if y > 9999 then "+" + PadDecimal(y, 6)
      else "-" + PadDecimal(-y, 6);
    year + "-" + Field2(m) + "-" + Field2(dd)
  }

  /** The day lies in one of the years 1 to 9999. */
  predicate InFourDigitYears(d: Day)
  {
    1 <= CivilDate(d).0 <= 9999
  }

  /** date-fns `format(date, 'yyyy-MM-dd')` of the day: the year of the
      era, which is 1 - y for a year y <= 0, padded to at least four
      digits and never signed. */
  function FormatDate(d: Day): string
  {
    var (y, m, dd) := CivilDate(d);
    var year: nat := if y > 0 then y else 1 - y;
    PadDecimal(year, 4) + "-" + Field2(m) + "-" + Field2(dd)
  }

  /** In the years 1 to 9999 the two renderings of a day agree. */
  lemma FormatDateIsIsoDate(d: Day)
    requires InFourDigitYears(d)
    ensures FormatDate(d) == IsoDate(d)
  {
  }

  /** Day -719528 is 1 January of year 0. */
  lemma YearZeroCivilDate()
    ensures CivilDate(-719528) == (0, 1, 1)
  {
    var z := -719528 + 719468;
    assert z / 146097 == -1;
    var doe := z + 146097;
    assert doe == 146037;
    assert doe / 1460 == 100 && doe / 36524 == 3 && doe / 146096 == 0;
    assert (doe - 100 + 3) / 365 == 399;
    var doy := doe - (365 * 399 + 399 / 4 - 399 / 100);
    assert doy == 306;
    assert (5 * doy + 2) / 153 == 10;
    assert (153 * 10 + 2) / 5 == 306;
  }

  /** Outside them they differ: 1 January of year 0 is "0000-01-01" as an
      ISO text, but date-fns prints the year of the era, 1 (1 BC). */
  lemma YearZeroRenderingsDiffer()
    ensures IsoDate(-719528) == "0000-01-01"
    ensures FormatDate(-719528) == "0001-01-01"
  {
    IsoDateOfYearZero();
    FormatDateOfYearZero();
  }

  lemma IsoDateOfYearZero()
    ensures IsoDate(-719528) == "0000-01-01"
  {
    YearZeroCivilDate();
    assert PadDecimal(0, 4) == "0000";
    assert Field2(1) == "01";
  }

  lemma FormatDateOfYearZero()
    ensures FormatDate(-719528) == "0001-01-01"
  {
    YearZeroCivilDate();
    assert PadDecimal(1, 4) == "0001";
    assert Field2(1) == "01";
  }

  /** Number of days from `start` to `end` inclusive; none when start > end. */
  function DaysBetween(start: Day, end: Day): nat
  {
    if start <= end then end - start + 1 else 0
  }

  /** The days from `start` to `end` inclusive, in ascending order, one
      each; empty when start > end. */
  function DayRange(start: Day, end: Day): (r: seq<Day>)
    ensures |r| == DaysBetween(start, end)
    ensures forall i :: 0 <= i < |r| ==> r[i] == start + i
    ensures forall i, j :: 0 <= i < j < |r| ==> r[i] < r[j]
    ensures forall d :: d in r <==> start <= d <= end
  {
    var r := seq(DaysBetween(start, end), i => start + i);
    forall d | start <= d <= end ensures d in r {
      assert r[d - start] == d;
    }
    r
  }

  /** The `YYYY-MM-DD` text of each day, in order. */
  function DateTexts(days: seq<Day>): (r: seq<string>)
    ensures |r| == |days|
    ensures forall i :: 0 <= i < |days| ==> r[i] == IsoDate(days[i])
  {
    seq(|days|, i requires 0 <= i < |days| => IsoDate(days[i]))
  }

  /** Extending a range by the next day appends that day. */
  lemma DayRangeStep(start: Day, d: Day)
    requires start <= d
    ensures DayRange(start, d) == DayRange(start, d - 1) + [d]
  {
  }

  lemma DateTextsAppend(days: seq<Day>, d: Day)
    ensures DateTexts(days + [d]) == DateTexts(days) + [IsoDate(d)]
  {
  }
}
