# Restaurant booking system: a verified model

This project models a restaurant reservation system in Dafny. Guests pick
a day on a month calendar, then a half-hour slot between 11:00 and 21:30.
They fill in a form, and the booking is stored as a record with the fields
`id`, `name`, `email`, `phone`, `date`, `time`, `guests` and `createdAt`.

The system has three interchangeable back ends:

- an Express server that rereads and rewrites the bookings file on every
  request (`server/index.js`);
- an Express router that keeps the bookings in a module-level array and
  changes it in place (`backend/routes/bookings.js`), with an availability
  router that counts open slots against the clock
  (`backend/routes/availability.js`);
- Next.js route handlers (`app/api/bookings/route.ts`,
  `app/api/availability/route.ts`).

The client pieces modelled are:

- the slot picker (`app/components/TimeSlots.tsx`);
- the calendar (`app/components/Calendar.tsx`);
- the form's validation and input handlers
  (`app/components/BookingForm.tsx`).

Modules, one per source file, over five shared ones:

| module | file | models |
|---|---|---|
| Base | base.dfy | `filter`, `find`/`findIndex`, `splice`, `reverse` on sequences, with their laws |
| Text | text.dfy | `toString`/`padStart`, `parseInt` on digit texts, `trim`, `\s`, string `<`, `split` |
| Days | days.dfy | days as ordinals, their `YYYY-MM-DD` text, the inclusive range of days |
| Bookings | bookings.dfy | the record, the create request, required fields, listing, lookup, the one-booking-per-slot invariant |
| SlotGrid | slot_grid.dfy | the 22-slot grid `AVAILABLE_TIMES` and the per-day summary of the filtering handlers |
| ServerIndex | server_index.dfy | `server/index.js` |
| BackendBookings | backend_bookings.dfy | `backend/routes/bookings.js`, as a class whose field is the module-level array |
| BackendAvailability | backend_availability.dfy | `backend/routes/availability.js` |
| AppBookingsRoute | app_bookings_route.dfy | `app/api/bookings/route.ts` |
| AppAvailabilityRoute | app_availability_route.dfy | `app/api/availability/route.ts` |
| TimeSlots | time_slots.dfy | `app/components/TimeSlots.tsx` |
| Calendar | calendar.dfy | `app/components/Calendar.tsx` |
| BookingForm | booking_form.dfy | `app/components/BookingForm.tsx` |

Conventions of the model:

- A request handler's answer is an `Outcome`: `Success(value)`, or
  `Failure(status, error)` with the HTTP status and the JSON `error` text.
- A day is an integer ordinal (days since 1970-01-01). A booking's `date`
  is the `YYYY-MM-DD` text that the handlers compare.
- "Now" is the current minute of the day.
- The bookings a handler reads from the bookings file are a parameter. A
  missing or unreadable file reads as the empty list.
- A handler that writes returns the list it hands to the save routine.
  Whether the save succeeds is a parameter.
- Ids and timestamps are parameters. The model does not claim ids are
  unique: the source derives them from the clock.

## Model

| member | source | states |
|---|---|---|
| Base.FindFirst | server/index.js:150-154 | `findIndex`: the first index whose element satisfies the test, or None (-1) exactly when no element does |
| Base.Filter | server/index.js:73 | `filter`: no longer than its input; with FilterMembers, FilterIsSubseq and FilterMultiset, exactly the passing elements, each as often, in order |
| Base.Map | server/index.js:205-207 | `map`: one result per element, in order, the result at `i` being `f` of the element at `i` |
| Base.RemoveAt | server/index.js:156 | `splice(i, 1)`: one element shorter; the elements before `i` are kept in place and those after it move down one, in order |
| Base.Without | app/api/availability/route.ts:56 | `filter(t => !xs.includes(t))` keeps exactly the elements not in `xs` |
| Base.WithoutCount | app/api/availability/route.ts:56 | on a list without repetitions, removing `xs` takes away one element per distinct value of `xs` it holds |
| Base.FilterMembers | server/index.js:205-207 | a filter keeps exactly the elements that pass the test |
| Base.FilterIsSubseq | server/index.js:205-207 | a filter keeps the order of what it keeps |
| Base.FilterMultiset | server/index.js:72-77 | a filter keeps each passing element as often as it occurs, and no other |
| Base.MapReversed | app/api/availability/route.ts:47-50 | mapping a reversed sequence gives the mapped sequence reversed |
| Text.PadTwoDigits | backend/routes/availability.js:54 | `n.toString().padStart(2, '0')` for 0-99 is the two digits of `n` |
| Text.ParseInt | app/components/TimeSlots.tsx:104 | definition: `parseInt` reads the leading run of decimal digits, NaN (None) when there is none; ParsePadded and ParseTwoDigits give its value on padded numbers |
| Text.Split | app/components/TimeSlots.tsx:92 | `split(sep)`: at least one piece; the text before the first separator, then the split of the rest; SplitOnce gives the one-separator case |
| Text.StrLess | backend/routes/availability.js:63 | definition: `<` on strings, the lexicographic order of the characters with a proper prefix first; LabelOrder and BookingForm's date check rest on it |
| Text.ParsePadded | app/components/TimeSlots.tsx:92-94 | `parseInt` of a two-digit rendering, with any non-digit text after it, is the number |
| Text.ParseTwoDigits | app/components/TimeSlots.tsx:104 | `parseInt` of a two-digit rendering is the number |
| Text.SplitOnce | app/components/TimeSlots.tsx:92 | `split(sep)` of a text with one separator gives the parts before and after it |
| Text.Utf16Length | app/components/BookingForm.tsx:32 | `length` counts UTF-16 code units: the number of characters plus the number of those outside the Basic Multilingual Plane, so between the character count and twice it, and equal to it exactly when there is none |
| Text.Trim | app/components/BookingForm.tsx:32 | `trim()`: a contiguous part of the text; everything cut off is JavaScript white space; the result neither starts nor ends with white space |
| Days.DayRange | server/index.js:184-187 | the days from start to end inclusive, ascending, each once; none when start > end |
| Days.IsoDate | server/index.js:204 | definition: `toISOString().split('T')[0]`, the proleptic Gregorian date as `YYYY-MM-DD` with four-digit years for 0000-9999 and a signed six-digit year outside them |
| Days.FormatDate | app/api/availability/route.ts:51 | definition: date-fns `format(date, 'yyyy-MM-dd')`, the year of the era (1 - y for y <= 0) padded to at least four digits, never signed |
| Days.FormatDateIsIsoDate | app/api/availability/route.ts:51 | in the years 1 to 9999 the date-fns text of a day is its ISO text |
| Days.YearZeroRenderingsDiffer | app/api/availability/route.ts:51 | 1 January of year 0 is "0000-01-01" as an ISO text but "0001-01-01" in date-fns |
| Days.DateTexts | server/index.js:204 | the `YYYY-MM-DD` text of each day, in order |
| Bookings.FirstAbsent | server/index.js:107-112 | the first field, in the order name, email, phone, date, time, guests, whose value is falsy; None exactly when all six are truthy |
| Bookings.IsPresent | server/index.js:109 | definition: `bookingData[field]` is truthy, a non-empty string or a non-zero number of guests; FirstAbsentIffNotAllPresent relates it to both handlers' tests |
| Bookings.NewBooking | server/index.js:126-130 | definition: the request's six fields with the server's `id` and `createdAt`; LookupAfterAppend and CreateBooking use it |
| Bookings.FirstAbsentIffNotAllPresent | backend/routes/bookings.js:72-74 | the first-falsy-field check and the all-six test reject exactly the same requests |
| Bookings.SlotConflict | server/index.js:117-119 | finds a booking with the request's date and time exactly when the slot is taken, and the index it returns holds one |
| Bookings.SlotTaken | server/index.js:117-121 | definition: some stored booking has the date and the time; SlotConflict finds one exactly when it holds |
| Bookings.OnDateMembers | server/index.js:72-77 | the bookings on a date are exactly the stored ones with that date |
| Bookings.Listing | server/index.js:72-77 | with a non-empty date, a subsequence of the stored list holding each booking of that date as often as stored and no other; without one, the whole list |
| Bookings.IndexOfId | server/index.js:150 | the first index holding the id, or None exactly when no booking holds it |
| Bookings.Lookup | server/index.js:88-92 | succeeds exactly when some booking has the id, with the first such booking; otherwise 404 "Booking not found" |
| Bookings.AppendKeepsSlotsUnique | backend/routes/bookings.js:77-97 | appending a booking whose slot is free keeps every (date, time) pair unique |
| Bookings.RemoveKeepsSlotsUnique | backend/routes/bookings.js:110-115 | removing any booking keeps every (date, time) pair unique |
| Bookings.AtMostOnePerSlot | backend/routes/bookings.js:77-97 | with unique slots, a slot holds exactly one booking when taken and none otherwise |
| Bookings.LookupAfterAppend | server/index.js:126-132 | a booking appended under an id nobody holds is what a lookup of that id then finds |
| Bookings.LookupAfterRemove | server/index.js:150-156 | after removing the first booking with an id, a lookup of the id fails exactly when no later booking had it |
| SlotGrid.LabelParts | backend/routes/availability.js:54 | a label `HH:MM` splits at its colon into its two padded fields |
| SlotGrid.Grid | app/api/availability/route.ts:21-33 | the constant `AVAILABLE_TIMES`, every half hour from 11:00 to 21:30; GridClock states its 22 distinct entries |
| SlotGrid.HourOf | app/components/TimeSlots.tsx:104 | definition: `parseInt(time.split(':')[0])`; GridTimeAt gives its value on each grid entry |
| SlotGrid.ClockMinutes | app/components/TimeSlots.tsx:92-94 | definition: 60 times the parsed hour plus the parsed minute, NaN (None) when either is; LabelClock and GridTimeAt give its value on labels and grid entries |
| SlotGrid.LabelClock | app/components/TimeSlots.tsx:92-94 | a label reads back, through `split(':')` and `parseInt`, as its hour and its minute of the day |
| SlotGrid.GridLabelAt | backend/routes/availability.js:52-54 | grid entry `i` is the label of hour 11 + i/2 and minute 0 or 30, the order the counting loops visit |
| SlotGrid.GridTimeAt | app/api/availability/route.ts:21-33 | grid entry `i` is hour 11 + i/2 and minute 660 + 30i of the day |
| SlotGrid.GridClock | app/api/availability/route.ts:21-33 | the grid has 22 entries from "11:00" to "21:30" in 30-minute steps, none twice |
| SlotGrid.LabelOrder | app/api/availability/route.ts:21-33 | two labels compare as strings as their times compare on the clock |
| SlotGrid.GridAscending | app/api/availability/route.ts:21-33 | the grid is in strictly ascending order |
| SlotGrid.TimesOf | server/index.js:207 | `map(b => b.time)`: the bookings' times, in order |
| SlotGrid.BookedTimes | server/index.js:205-207 | one time per booking on the date, and exactly the times taken on it |
| SlotGrid.FreeTimes | app/api/availability/route.ts:56 | the grid times not booked, as a subsequence of the grid; one fewer than 22 for each distinct booked grid time |
| SlotGrid.Summarize | server/index.js:203-219 | a day's summary: exactly the grid times nobody booked that day, in grid order, their number, `hasSlots` exactly when there is one, and 22 less the number of distinct taken grid times |
| SlotGrid.UnbookedDayOffersWholeGrid | app/api/availability/route.ts:50-63 | a day with no bookings offers the whole grid: 22 slots |
| SlotGrid.BookingTakesOneSlot | app/api/availability/route.ts:52-56 | booking one more free grid time removes exactly that time from the day's summary and lowers its count by one |
| SlotGrid.OtherDateLeavesSummary | app/api/availability/route.ts:52-54 | a booking on another date leaves a day's summary unchanged |
| SlotGrid.SummariesOf | server/index.js:203-219 | one summary per day, in order, each that day's summary under its date text |
| ServerIndex.ListBookings | server/index.js:67-82 | GET /api/bookings: the date-filtered subsequence, or everything without a date |
| ServerIndex.GetBooking | server/index.js:85-99 | GET /api/bookings/:id: the first booking with the id, or 404 "Booking not found" |
| ServerIndex.FirstMissingField | server/index.js:107-112 | the loop over the required fields stops at the first falsy one |
| ServerIndex.CreateBooking | server/index.js:102-144 | "<field> is required" for the first falsy field, then "This time slot is already booked", and in both cases nothing is written; otherwise the list with exactly the new record appended is written, and the record is answered, or 500 "Failed to save booking"; unique slots stay unique |
| ServerIndex.DeleteBooking | server/index.js:147-168 | 404 and no write for an unknown id; otherwise the list without exactly the first booking with the id is written, and "Booking deleted successfully" is answered, or 500 "Failed to delete booking"; unique slots stay unique |
| ServerIndex.DaysInRange | server/index.js:184-187 | the date loop yields the days from start to end inclusive, ascending |
| ServerIndex.GetAvailability | server/index.js:171-219 | 400 "Start and end dates are required" when a bound is missing; otherwise the summary of each day of the range, in order |
| BackendBookings.BookingRouter.constructor | backend/routes/bookings.js:10-19 | the array starts as what the file held; an empty start has unique slots |
| BackendBookings.BookingRouter.List | backend/routes/bookings.js:37-45 | the date-filtered subsequence, or everything without a date |
| BackendBookings.BookingRouter.Get | backend/routes/bookings.js:55-58 | the first booking with the id, or 404 "Booking not found" |
| BackendBookings.BookingRouter.Create | backend/routes/bookings.js:67-105 | "All fields are required" when any field is falsy, "This time slot is already booked" when the slot is taken, the array unchanged in both cases; otherwise exactly the new record is pushed at the end and returned; unique slots stay unique |
| BackendBookings.BookingRouter.Delete | backend/routes/bookings.js:108-118 | splices out exactly the first booking with the id, keeping the others in order; 404 and no change when none has it; unique slots stay unique |
| BackendAvailability.IsPastIffNotLater | backend/routes/availability.js:55 | a slot is past exactly when it starts at or before the current minute |
| BackendAvailability.IsPast | backend/routes/availability.js:55 | definition: the hour is before the current hour, or equal to it with the minute at or before the current minute; IsPastIffNotLater restates it on minutes of the day |
| BackendAvailability.OpenToday | backend/routes/availability.js:50-62 | the grid times still open today, in grid order |
| BackendAvailability.OpenTodayMembers | backend/routes/availability.js:55-58 | a time is open today exactly when it is a grid time, not booked, and not at or before now |
| BackendAvailability.OpenTodayAt | backend/routes/availability.js:55-58 | grid entry `i` is open exactly when nobody booked it and it starts after now |
| BackendAvailability.OpenAmongFirst | backend/routes/availability.js:52-61 | the loops count at most one slot per slot visited |
| BackendAvailability.OpenAmongFirstFilters | backend/routes/availability.js:52-61 | counting the first `k` slots the loops visit counts the open times among the first `k` grid times |
| BackendAvailability.CountsSlotIffOpen | backend/routes/availability.js:54-58 | the loops count their i-th slot exactly when grid entry `i` is open |
| BackendAvailability.OpenTodayCount | backend/routes/availability.js:52-62 | the count over all 22 slots is the number of grid times open today |
| BackendAvailability.CountedIffOpen | backend/routes/availability.js:54-58 | the loops' test on a label is "not booked and starting after now" |
| BackendAvailability.CountStep | backend/routes/availability.js:53-60 | each slot visited adds one to the count exactly when it is neither past nor booked |
| BackendAvailability.CountOpenToday | backend/routes/availability.js:50-62 | today's count from the nested loops is the open-slot count, between 0 and 22 |
| BackendAvailability.FutureCount | backend/routes/availability.js:63-66 | a later day, as written: 21 less the number of bookings on it |
| BackendAvailability.FutureCountFixed | backend/routes/availability.js:64 | the count the comment promises, "all unbooked slots": the number of grid times nobody booked, between 0 and 22 |
| BackendAvailability.EntriesOf | backend/routes/availability.js:40-76 | one entry per date, in order |
| BackendAvailability.DayEntry | backend/routes/availability.js:41-70 | the entry of one day carries its date text and `hasSlots` exactly when its count is positive; a day before today counts 0; TodayEntryCountsOpenSlots and LaterEntryCount give the other two counts |
| BackendAvailability.DayAvailability | backend/routes/availability.js:41-75 | the loop body computes the day's entry |
| BackendAvailability.GetAvailability | backend/routes/availability.js:27-76 | 400 "Start and end dates are required" when a bound is missing, before anything is computed; otherwise one entry per day from start to end inclusive, in order |
| BackendAvailability.TodayEntryCountsOpenSlots | backend/routes/availability.js:50-62 | today's entry counts the grid times nobody booked that start after now, between 0 and 22, with `hasSlots` exactly when positive |
| BackendAvailability.LaterEntryCount | backend/routes/availability.js:63-70 | a later day reports 21 less its number of bookings, and slots exactly when it has fewer than 21 bookings |
| BackendAvailability.EarlierEntryIsEmpty | backend/routes/availability.js:49 | an earlier day reports 0 slots and none available |
| BackendAvailability.FutureCountMissesOneSlot | backend/routes/availability.js:65-66 | as written, a later day with bookings at `n` distinct grid times reports one slot fewer than the 22 - n it has |
| BackendAvailability.OneFreeLeft | backend/routes/availability.js:65-66 | with 21 distinct grid times booked on a later day, exactly one grid time is free, yet 0 slots are reported |
| BackendAvailability.TwentyOneBookedHidesLastSlot | backend/routes/availability.js:65-66 | with the first 21 grid times booked, "21:30" is free yet 0 slots are reported |
| BackendAvailability.AllBookedCountsNegative | backend/routes/availability.js:65-66 | with all 22 grid times booked, -1 slots are reported |
| BackendAvailability.DayEntryFixed | backend/routes/availability.js:63-70 | the corrected entry: count between 0 and 22, `hasSlots` exactly when positive |
| BackendAvailability.FixedLaterEntryMatchesSummary | backend/routes/availability.js:63-70 | corrected, a later day reports the count and `hasSlots` of the filtering handlers' summary |
| BackendAvailability.BeforeOpeningTodayMatchesFixed | backend/routes/availability.js:50-66 | before 11:00, today's count equals the corrected count of a later day |
| AppBookingsRoute.Get | app/api/bookings/route.ts:40-46 | the date-filtered subsequence, or everything without a date |
| AppBookingsRoute.Post | app/api/bookings/route.ts:56-91 | a taken slot answers "This time slot is already booked" and writes nothing; any other body, whatever it lacks, is appended as exactly one record at the end and written, and the record is answered, or 500 "Failed to create booking"; a 400 happens only for a taken slot; unique slots stay unique |
| AppAvailabilityRoute.EachDayOfInterval | app/api/availability/route.ts:47 | every day between the two ends, both included, once each, from `start` to `end`: ascending, or descending when start > end |
| AppAvailabilityRoute.Get | app/api/availability/route.ts:35-64 | 400 "Start and end dates are required" when a bound is missing; otherwise one summary per day of the interval, in its order, each under the day's date-fns `yyyy-MM-dd` text |
| AppAvailabilityRoute.FormattedSummariesMatchServer | app/api/availability/route.ts:50-64 | days of the years 1 to 9999 get the same summaries as on the Express server |
| AppAvailabilityRoute.OrderedIntervalMatchesServer | app/api/availability/route.ts:47-64 | for start <= end within the years 1 to 9999 the answer is the Express server's |
| AppAvailabilityRoute.SummariesOfReversed | app/api/availability/route.ts:50 | summarising days in reverse order reverses the summaries |
| AppAvailabilityRoute.BackwardIntervalReversesServer | app/api/availability/route.ts:47-64 | for start > end within the years 1 to 9999 the answer is the Express server's for the same days reversed, while that server answers no days |
| AppAvailabilityRoute.YearZeroDatedApart | app/api/availability/route.ts:51 | for 1 January of year 0 this route dates the summary "0001-01-01" where the Express server dates it "0000-01-01" |
| TimeSlots.IsTimeSlotAvailable | app/components/TimeSlots.tsx:88-98 | nothing loaded: never; today and at or before now: never; otherwise exactly when the time is among the loaded free times |
| TimeSlots.HasPassed | app/components/TimeSlots.tsx:91-95 | definition: the slot's parsed hour and minute are at or before the clock; a NaN part never counts as passed |
| TimeSlots.AvailableIffFreeAndAhead | app/components/TimeSlots.tsx:88-98 | with a day's summary loaded, a time is offered exactly when it is a grid time nobody booked that day and, today, is still ahead |
| TimeSlots.TimeSlotsByPeriod | app/components/TimeSlots.tsx:100-117 | morning, afternoon and evening are order-preserving subsequences of the loaded times, holding exactly the offered ones of hours [11,15), [15,18) and [18,21] |
| TimeSlots.PeriodsPartitionOfferedTimes | app/components/TimeSlots.tsx:103-114 | no time is in two periods, and every offered time of hours 11 to 21 is in one |
| TimeSlots.FreeGridTimeIsListed | app/components/TimeSlots.tsx:100-117 | every grid time free that day and, today, still ahead is listed in a period |
| TimeSlots.GetSlotStats | app/components/TimeSlots.tsx:119-124 | `total` is the number of slots, `available` the offered ones, `booked` the others, and available + booked = total |
| TimeSlots.PeriodStatsShowNoBooked | app/components/TimeSlots.tsx:100-124 | the stats of each period show no booked slot |
| TimeSlots.TodayOffersBackendCount | app/components/TimeSlots.tsx:88-98 | on today's date the picker offers, over the grid, as many times as the counting router reports for today |
| Calendar.FindSummary | app/components/Calendar.tsx:97 | the first summary with the date, or None exactly when there is none |
| Calendar.IsDateAvailable | app/components/Calendar.tsx:95-99 | true exactly when the first summary with the date has slots; false when none has the date |
| Calendar.AvailableSlots | app/components/Calendar.tsx:101-105 | 0 when no summary has the date, otherwise the first match's count |
| Calendar.Cell | app/components/Calendar.tsx:159-160 | the button is enabled exactly in the month shown, on an available day, when not loading; a click selects the day exactly in the month on an available day |
| Calendar.CalendarShowsDaySummary | app/components/Calendar.tsx:95-105 | over the filtering handlers' answer for a range, each day shows its own summary's availability and count |
| BookingForm.WithField | app/components/BookingForm.tsx:73-76 | `{...form, [name]: value}` changes the named field and no other |
| BookingForm.IsValidEmail | app/components/BookingForm.tsx:37-40 | definition: one `@`, not first, followed by a white-space-free text with an inner `.`; EmailCheckIsPattern proves it is the pattern |
| BookingForm.IsValidPhone | app/components/BookingForm.tsx:43-46 | definition: ten or more digits, white space or `-`, after an optional `+`; PhoneCheckIsPattern proves it is the pattern |
| BookingForm.EmailCheckSound | app/components/BookingForm.tsx:37-38 | every text the e-mail test accepts matches `^[^\s@]+@[^\s@]+\.[^\s@]+$` |
| BookingForm.EmailCheckComplete | app/components/BookingForm.tsx:37-38 | every text matching the e-mail pattern passes the test |
| BookingForm.EmailCheckIsPattern | app/components/BookingForm.tsx:37-40 | the e-mail test accepts exactly the texts the pattern matches |
| BookingForm.PhoneCheckIsPattern | app/components/BookingForm.tsx:43-46 | the phone test accepts exactly the texts matching `^\+?[\d\s-]{10,}$` |
| BookingForm.DecimalValue | app/components/BookingForm.tsx:63 | the decimal text of a number reads back as that number |
| BookingForm.NumberValue | app/components/BookingForm.tsx:63 | definition: `Number` of a whole-number text, surrounding white space ignored, the empty text 0, NaN (None) otherwise; DecimalValue and TrimDigits give its value on decimal texts |
| BookingForm.GuestsOutOfRange | app/components/BookingForm.tsx:63-65 | definition: the number of guests is below 1 or above 10, false for NaN; GuestsTextError gives it on decimal texts |
| BookingForm.GuestsTextError | app/components/BookingForm.tsx:63-65 | the guests text of a number `n` is an error exactly when `n` is not between 1 and 10 |
| BookingForm.TrimDigits | app/components/BookingForm.tsx:63 | a digit text has nothing to trim |
| BookingForm.RecordStep | app/components/BookingForm.tsx:31-65 | recording the next check's outcome extends the error record by that field's message exactly when it fails |
| BookingForm.CompleteRecord | app/components/BookingForm.tsx:67-68 | after all six checks the record holds a message exactly for each failing field, and is empty exactly when none fails |
| BookingForm.NameTooShort | app/components/BookingForm.tsx:32 | definition: the trimmed name is shorter than two UTF-16 code units; NameTooShortIff characterises it |
| BookingForm.IsDateText | app/components/BookingForm.tsx:48-55 | definition: the `YYYY-MM-DD` texts with month 01-12 and day 01-31 that `new Date` reads as a day; MonthThirteenIsNoDate shows one it rejects |
| BookingForm.ChecksOf | app/components/BookingForm.tsx:31-65 | definition: the six failing conditions of `validateForm`, the e-mail and phone ones as the regular expressions; RunChecks computes it |
| BookingForm.NameTooShortIff | app/components/BookingForm.tsx:32-34 | a name is too short exactly when, trimmed, it is empty or one character of the Basic Multilingual Plane |
| BookingForm.AstralNameIsLongEnough | app/components/BookingForm.tsx:32-34 | the one-character name "𝒜" (U+1D49C) has length 2 and raises no name error |
| BookingForm.MonthThirteenIsNoDate | app/components/BookingForm.tsx:48-55 | "2025-13-45" is an invalid `Date`, so it raises no date error whatever the day |
| BookingForm.RunChecks | app/components/BookingForm.tsx:31-65 | the six checks: trimmed name shorter than 2 UTF-16 code units, e-mail and phone not matching their patterns, a `YYYY-MM-DD` date with month 01-12 and day 01-31 that is before today (any other text is an invalid `Date` and passes), an empty time, guests outside 1-10 |
| BookingForm.ValidateForm | app/components/BookingForm.tsx:28-69 | one message per failing field, with that field's text, and no other key; valid exactly when no field fails |
| BookingForm.Note | app/components/BookingForm.tsx:32-34 | `if (fails) errors.f = message`: the record gains that one message exactly when the check fails |
| BookingForm.RecordAll | app/components/BookingForm.tsx:31-65 | the six recording statements in field order leave a message exactly for the failing checks |
| BookingForm.HandleChange | app/components/BookingForm.tsx:71-82 | the named field takes the value, its message is cleared, every other message is kept, the banner error is cleared |
| BookingForm.HandleDateSelect | app/components/BookingForm.tsx:84-95 | the date takes the value and the time is reset to ""; only the date and time messages are cleared |
| BookingForm.HandleTimeSelect | app/components/BookingForm.tsx:97-106 | the time takes the value; only its message is cleared |
| BookingForm.ChangeHidesOnlyItsMessage | app/components/BookingForm.tsx:77-80 | after a change the changed field shows no message and every other field shows what it showed |
| BookingForm.DateSelectRequiresNewTime | app/components/BookingForm.tsx:84-95 | after a date is picked the form fails the time check, and neither the date nor the time shows a message |
| BookingForm.TimeSelectKeepsOtherChecks | app/components/BookingForm.tsx:97-106 | picking a time leaves every other check's outcome unchanged; the time check then fails exactly when the time is empty |

## Left out

- File persistence: reading and writing the bookings file and the JSON encoding are not modelled. What was read is a parameter. A missing or unreadable file reads as the empty list. Save success is a parameter in `server/index.js` and `app/api/bookings/route.ts`.
- BackendBookings: the router's `saveBookings` swallows every failure and changes no state, so it is not modelled.
- Transport and bootstrap: Express and Next.js routing, CORS, server start-up and the `try`/`catch` 500 answers for unexpected exceptions are not modelled. The exception is `app/api/bookings/route.ts`, whose failed save is answered with 500.
- HTTP 200 and 201 are both `Success`.
- Logging: the `console.log` and `console.error` calls of the handlers, the routers and the client components only write to the console, so they are not modelled.
- Request bodies are typed records: a field the body leaves out reads as its falsy value ("" or 0). Extra fields carried along by `...bookingData` are not modelled. Neither is `Number(guests)` in `backend/routes/bookings.js`: guests are already a number here.
- JavaScript `Date` parsing of query texts, invalid dates, time zones, and the mix of `toISOString()` (UTC) with `getHours()` (local time) are not modelled. Days are abstract ordinals. "Today" is a date text and "now" a minute of the day, both parameters.
- AppAvailabilityRoute.Get: dates its summaries with date-fns `format`, which prints the year of the era and no sign, where the Express server prints `toISOString`'s year. The two agree only in the years 1 to 9999, so OrderedIntervalMatchesServer and BackwardIntervalReversesServer are stated for those years (YearZeroDatedApart shows where they part).
- AppAvailabilityRoute.EachDayOfInterval: for start > end it follows date-fns from version 3 on (days from start down to end). The date-fns version is not fixed by the files modelled.
- Clock and random sources for ids and timestamps are parameters. Id uniqueness is not claimed.
- Concurrency between the slot check and the save is not modelled.
- React rendering, effects, timers and fetching in the client are not modelled. Neither is calendar month navigation (`setMonth` overflow), nor the confirmation page's locale formatting.
- `app/lib/api.ts` and `app/api/store.ts`'s seed data are not part of this model. The `Booking` type of `app/api/store.ts` is the record's shape.
- Text.ParseInt: `parseInt`'s leading white space and sign are not modelled, and neither is the `0x` prefix that makes `parseInt` without a radix read hexadecimal. The texts it reads here are grid labels and split parts, so neither case arises.
- Text.StrLess: compares characters by code point where JavaScript's `<` compares UTF-16 code units. The two orders differ only on text outside the Basic Multilingual Plane, and the texts compared here (dates and grid labels) are ASCII.
- BookingForm.NumberValue: covers whole-number texts with optional surrounding white space and sign. Fractions, exponents, hexadecimal and `Infinity` texts read as NaN here, where JavaScript gives a number.
- BookingForm.ChecksOf: the date check compares `YYYY-MM-DD` texts as strings, which matches calendar order for four-digit years. A text that is not of that shape with month 01-12 and day 01-31 is an invalid `Date` and raises no error. A day beyond the month's end, such as the 30th of February, is taken as a day; JavaScript engines differ on it (some roll it over into the next month, some give an invalid `Date`). Other texts `new Date` accepts, with a time or another layout, are not modelled.
- BookingForm.ValidateForm: computes all six checks before recording any message. The checks only read the form, so this changes nothing. Storing the record in React state and the form submission are not modelled.
- TimeSlots.View: state that was fetched is taken as given. The component's slot grid rendering and time formatting (`toLocaleTimeString`) are not modelled.

## Findings

| source | as written | input that shows it | evidently intended | confidence | as-written member | corrected member |
|---|---|---|---|---|---|---|
| backend/routes/availability.js:65-66 | a later day reports `21 - bookedTimeSlots.length` slots, and `hasSlots` when that is positive | a later day with bookings at the 21 grid times 11:00 to 21:00: 0 slots and `hasSlots` false are reported, though 21:30 is free; with all 22 booked, -1 | the number of grid times nobody booked that day (22 less the distinct booked grid times): what the comment "count all unbooked slots" and the other two handlers give | not executed | BackendAvailability.FutureCount, BackendAvailability.FutureCountMissesOneSlot, BackendAvailability.TwentyOneBookedHidesLastSlot, BackendAvailability.AllBookedCountsNegative | BackendAvailability.FutureCountFixed, BackendAvailability.DayEntryFixed, BackendAvailability.FixedLaterEntryMatchesSummary |
