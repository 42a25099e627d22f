/** The reservation form of app/components/BookingForm.tsx: the checks
    `validateForm` makes before the form is sent, and the three input
    handlers, each of which yields the next form and error record. A field
    the user types into holds text, the number of guests included (a
    number input hands over its text; the initial 1 is the text "1"). */
module BookingForm {
  import opened Base
  import opened Text
  import opened Bookings

  datatype FormData = FormData(
    name: string, email: string, phone: string, date: string, time: string, guests: string)

  /** The form, the per-field messages (`validationErrors`; a key holding ""
      shows nothing) and the banner `error`. */
  datatype FormState = FormState(form: FormData, errors: map<Field, string>, error: string)

  function FieldValue(form: FormData, f: Field): string
  {
    match f
    case Name => form.name
    case Email => form.email
    case Phone => form.phone
    case Date => form.date
    case Time => form.time
    case Guests => form.guests
  }

  /** `{ ...form, [f]: value }`. */
  function WithField(form: FormData, f: Field, value: string): (r: FormData)
    ensures FieldValue(r, f) == value
    ensures forall g :: g != f ==> FieldValue(r, g) == FieldValue(form, g)
  {
    match f
    case Name => form.(name := value)
    case Email => form.(email := value)
    case Phone => form.(phone := value)
    case Date => form.(date := value)
    case Time => form.(time := value)
    case Guests => form.(guests := value)
  }

  // ---- the e-mail pattern ^[^\s@]+@[^\s@]+\.[^\s@]+$ ----

  /** A character of the class `[^\s@]`. */
  predicate Plain(c: char)
  {
    !IsJsWhitespace(c) && c != '@'
  }

  predicate AllPlain(t: string)
  {
    forall k :: 0 <= k < |t| ==> Plain(t[k])
  }

  /** The strings the e-mail pattern matches: a non-empty run of `[^\s@]`,
      an `@`, a non-empty run, a `.`, and a non-empty run to the end. */
  ghost predicate EmailPattern(s: string)
  {
    exists i, j :: 0 < i && i + 1 < j < |s| - 1 && s[i] == '@' && s[j] == '.'
      && AllPlain(s[..i]) && AllPlain(s[i + 1..j]) && AllPlain(s[j + 1..])
  }

  /** A direct test: exactly one `@`, not first, and after it a text free of
      white space holding a `.` that is neither its first nor its last
      character. */
  function IsValidEmail(s: string): bool
  {
    match FindFirst(s, Is('@'))
    case None => false
    case Some(i) =>
      var rest := s[i + 1..];
      0 < i && AllPlain(s[..i]) && AllPlain(rest) && |rest| >= 3 && '.' in rest[1..|rest| - 1]
  }

  lemma AllPlainSplit(t: string, k: nat)
    requires k <= |t|
    ensures AllPlain(t) <==> AllPlain(t[..k]) && AllPlain(t[k..])
  {
    assert forall m :: 0 <= m < k ==> t[..k][m] == t[m];
    assert forall m :: k <= m < |t| ==> t[k..][m - k] == t[m];
  }

  /** A part of a text free of `\s` and `@` is free of them too. */
  lemma AllPlainSlice(t: string, lo: nat, hi: nat)
    requires AllPlain(t) && lo <= hi <= |t|
    ensures AllPlain(t[lo..hi])
  {
    assert forall m :: 0 <= m < hi - lo ==> t[lo..hi][m] == t[lo + m];
  }

  /** Every string the direct test accepts matches the pattern. */
  lemma EmailCheckSound(s: string)
    requires IsValidEmail(s)
    ensures EmailPattern(s)
  {
    var i := FindFirst(s, Is('@')).value;
    var rest := s[i + 1..];
    var mid := rest[1..|rest| - 1];
    var m :| 0 <= m < |mid| && mid[m] == '.';
    var j := i + 2 + m;
    assert s[j] == rest[m + 1] == '.';
    AllPlainSlice(rest, 0, m + 1);
    AllPlainSlice(rest, m + 2, |rest|);
    assert s[i + 1..j] == rest[0..m + 1];
    assert s[j + 1..] == rest[m + 2..|rest|];
    assert 0 < i && i + 1 < j < |s| - 1 && s[i] == '@' && s[j] == '.'
      && AllPlain(s[..i]) && AllPlain(s[i + 1..j]) && AllPlain(s[j + 1..]);
  }

  /** The `@` of a match is its first one. */
  lemma PatternAt(s: string, i: nat)
    requires 0 < i < |s| && s[i] == '@' && AllPlain(s[..i])
    ensures FindFirst(s, Is('@')) == Some(i)
  {
    forall k | 0 <= k < i ensures s[k] != '@' {
      assert s[..i][k] == s[k];
    }
  }

  /** Every string the pattern matches passes the direct test. */
  lemma EmailCheckComplete(s: string, i: nat, j: nat)
    requires 0 < i && i + 1 < j < |s| - 1 && s[i] == '@' && s[j] == '.'
    requires AllPlain(s[..i]) && AllPlain(s[i + 1..j]) && AllPlain(s[j + 1..])
    ensures IsValidEmail(s)
  {
    PatternAt(s, i);
    var rest := s[i + 1..];
    var k := j - i - 1;
    assert rest[..k] == s[i + 1..j];
    assert rest[k..] == ['.'] + s[j + 1..];
    assert AllPlain(rest[k..]) by {
      AllPlainSplit(rest[k..], 1);
      assert rest[k..][1..] == s[j + 1..];
    }
    AllPlainSplit(rest, k);
    assert rest[1..|rest| - 1][k - 1] == '.';
  }

  /** The direct test accepts exactly the strings the pattern matches. */
  lemma EmailCheckIsPattern(s: string)
    ensures IsValidEmail(s) <==> EmailPattern(s)
  {
    if IsValidEmail(s) {
      EmailCheckSound(s);
    }
    if EmailPattern(s) {
      var i, j :| 0 < i && i + 1 < j < |s| - 1 && s[i] == '@' && s[j] == '.'
        && AllPlain(s[..i]) && AllPlain(s[i + 1..j]) && AllPlain(s[j + 1..]);
      EmailCheckComplete(s, i, j);
    }
  }

  // ---- the phone pattern ^\+?[\d\s-]{10,}$ ----

  /** A character of the class `[\d\s-]`. */
  predicate PhoneChar(c: char)
  {
    IsDigit(c) || IsJsWhitespace(c) || c == '-'
  }

  /** Ten or more characters of the class `[\d\s-]`, and nothing else. */
  predicate PhoneBody(t: string)
  {
    |t| >= 10 && forall m :: 0 <= m < |t| ==> PhoneChar(t[m])
  }

  /** The strings the phone pattern matches: a phone body, or a `+`
      followed by one. */
  predicate PhonePattern(s: string)
  {
    PhoneBody(s) || (|s| > 0 && s[0] == '+' && PhoneBody(s[1..]))
  }

  /** A direct test: a leading `+` is always taken as the optional sign. */
  function IsValidPhone(s: string): bool
  {
    PhoneBody(if |s| > 0 && s[0] == '+' then s[1..] else s)
  }

  /** Taking a leading `+` as the sign loses no match, since `+` is not in
      the class. */
  lemma PhoneCheckIsPattern(s: string)
    ensures IsValidPhone(s) <==> PhonePattern(s)
  {
    if |s| > 0 && s[0] == '+' {
      assert !PhoneChar(s[0]);
    }
  }

  // ---- the number of guests ----

  predicate AllDigits(t: string)
  {
    forall k :: 0 <= k < |t| ==> IsDigit(t[k])
  }

  /** `Number(text)` for the texts a number input holds when they are
      whole numbers: surrounding white space is ignored, the empty text is
      0, an optional sign may precede the digits; None (NaN) for any other
      text. */
  function NumberValue(text: string): Option<int>
  {
    var t := Trim(text);
    if t == [] then Some(0)
    else if (t[0] == '+' || t[0] == '-') && |t| > 1 && AllDigits(t[1..]) then
      var v: int := DigitsValue(t[1..]);
      Some(if t[0] == '-' then -v else v)
    else if AllDigits(t) then Some(DigitsValue(t))
    else None
  }

  /** `guests < 1 || guests > 10`: a NaN compares false both ways and so
      passes. */
  predicate GuestsOutOfRange(guests: string)
  {
    var n := NumberValue(guests);
    n.Some? && (n.value < 1 || n.value > 10)
  }

  /** Reading back the decimal text of a number gives the number. */
  lemma {:induction false} DecimalValue(n: nat)
    ensures DigitsValue(Decimal(n)) == n
    decreases n
  {
    if n >= 10 {
      DecimalValue(n / 10);
      var s := Decimal(n);
      assert s[..|s| - 1] == Decimal(n / 10);
    }
  }

  /** A number input holding the decimal text of `n` has a guests error
      exactly when `n` is not between 1 and 10. */
  lemma GuestsTextError(n: nat)
    ensures GuestsOutOfRange(Decimal(n)) <==> n < 1 || n > 10
  {
    TrimDigits(Decimal(n));
    DecimalValue(n);
  }

  /** A non-empty digit text has no white space to trim. */
  lemma TrimDigits(s: string)
    requires s != [] && AllDigits(s)
    ensures Trim(s) == s
  {
    assert LeadingSpace(s) == 0 by { assert !IsJsWhitespace(s[0]); }
    assert ContentEnd(s, 0, |s|) == |s| by { assert !IsJsWhitespace(s[|s| - 1]); }
  }

  // ---- validateForm ----

  /** The value of the two digits of `s` at `k` and `k + 1`. */
  function TwoDigitsAt(s: string, k: nat): int
    requires k + 1 < |s|
  {
    10 * (s[k] as int - '0' as int) + (s[k + 1] as int - '0' as int)
  }

  /** The `YYYY-MM-DD` texts `new Date` reads as a day: four digits of
      year, a month from 01 to 12 and a day from 01 to 31 (the calendar
      writes the form's date in this shape). Any other text, the empty one
      included, is an invalid `Date`. */
  predicate IsDateText(s: string)
  {
    |s| == 10 && s[4] == '-' && s[7] == '-'
    && (forall k :: 0 <= k < 10 && k != 4 && k != 7 ==> IsDigit(s[k]))
    && 1 <= TwoDigitsAt(s, 5) <= 12 && 1 <= TwoDigitsAt(s, 8) <= 31
  }

  /** A month beyond December is not a day, so it raises no date error. */
  lemma MonthThirteenIsNoDate(form: FormData, today: string)
    requires form.date == "2025-13-45"
    ensures !ChecksOf(form, today).date
  {
    assert TwoDigitsAt(form.date, 5) == 13;
  }

  /** Which of the six checks fail, in the form's field order. */
  datatype Checks = Checks(name: bool, email: bool, phone: bool, date: bool, time: bool, guests: bool)

  function Failed(c: Checks, f: Field): bool
  {
    match f
    case Name => c.name
    case Email => c.email
    case Phone => c.phone
    case Date => c.date
    case Time => c.time
    case Guests => c.guests
  }

  /** What `validateForm` holds against each field; `today` is the current
      day's `YYYY-MM-DD` text, and date texts of that shape compare in
      calendar order as strings. A date that is not such a text is an
      invalid `Date`, which compares false with today and so raises no
      date error. */
  ghost function ChecksOf(form: FormData, today: string): Checks
  {
    Checks(NameTooShort(form.name), !EmailPattern(form.email), !PhonePattern(form.phone),
           IsDateText(form.date) && StrLess(form.date, today), form.time == "",
           GuestsOutOfRange(form.guests))
  }

  ghost predicate HasError(form: FormData, f: Field, today: string)
  {
    Failed(ChecksOf(form, today), f)
  }

  /** `name.trim().length < 2`, the length counted in UTF-16 code units. */
  predicate NameTooShort(name: string)
  {
    Utf16Length(Trim(name)) < 2
  }

  /** A name is too short exactly when, once trimmed, it is empty or a
      single character of the Basic Multilingual Plane; one character
      outside it already has length 2. */
  lemma NameTooShortIff(name: string)
    ensures NameTooShort(name) <==>
      var t := Trim(name); t == [] || (|t| == 1 && !IsAstral(t[0]))
  {
    var t := Trim(name);
    if |t| == 1 {
      assert t[1..] == [];
    }
  }

  /** The one-character name "𝒜" (U+1D49C) has length 2 and passes. */
  lemma AstralNameIsLongEnough()
    ensures !NameTooShort("\U{1D49C}")
  {
    NameTooShortIff("\U{1D49C}");
  }

  const NameMessage := "Name must be at least 2 characters long"
  const EmailMessage := "Please enter a valid email address"
  const PhoneMessage := "Please enter a valid phone number (min 10 digits)"
  const DateMessage := "Please select a future date"
  const TimeMessage := "Please select a time slot"
  const GuestsMessage := "Number of guests must be between 1 and 10"

  /** The message `validateForm` records for a failing field. */
  function ErrorMessage(f: Field): string
  {
    match f
    case Name => NameMessage
    case Email => EmailMessage
    case Phone => PhoneMessage
    case Date => DateMessage
    case Time => TimeMessage
    case Guests => GuestsMessage
  }

  /** The position of a field in the order `validateForm` checks them. */
  function Rank(f: Field): nat
  {
    match f
    case Name => 0
    case Email => 1
    case Phone => 2
    case Date => 3
    case Time => 4
    case Guests => 5
  }

  /** The errors record after the first `k` checks. */
  predicate RecordsFirst(errors: map<Field, string>, c: Checks, k: nat)
  {
    forall f :: (f in errors <==> Rank(f) < k && Failed(c, f))
      && (f in errors ==> errors[f] == ErrorMessage(f))
  }

  /** Recording the outcome of the next check extends the record by one. */
  lemma RecordStep(before: map<Field, string>, after: map<Field, string>, c: Checks, f: Field)
    requires RecordsFirst(before, c, Rank(f))
    requires after == if Failed(c, f) then before[f := ErrorMessage(f)] else before
    ensures RecordsFirst(after, c, Rank(f) + 1)
  {
    forall g ensures (g in after <==> Rank(g) < Rank(f) + 1 && Failed(c, g))
      && (g in after ==> after[g] == ErrorMessage(g))
    {
      if g != f {
        assert Rank(g) != Rank(f);
        assert (g in after <==> g in before) && (g in after ==> after[g] == before[g]);
      }
    }
  }

  /** The record after all six checks is `validateForm`'s result: an
      empty record exactly when no check fails. */
  lemma CompleteRecord(errors: map<Field, string>, form: FormData, today: string)
    requires RecordsFirst(errors, ChecksOf(form, today), 6)
    ensures forall f :: f in errors <==> HasError(form, f, today)
    ensures forall f :: f in errors ==> errors[f] == ErrorMessage(f)
    ensures |errors| == 0 <==> forall f :: !HasError(form, f, today)
  {
    if |errors| != 0 {
      var f :| f in errors;
    }
  }

  /** The six checks of `validateForm`, the e-mail and phone ones made by
      the direct tests (each agrees with its pattern). The checks read the
      form only, so making them before recording any message changes
      nothing. */
  method RunChecks(form: FormData, today: string) returns (c: Checks)
    ensures c == ChecksOf(form, today)
  {
    EmailCheckIsPattern(form.email);
    PhoneCheckIsPattern(form.phone);
    c := Checks(NameTooShort(form.name), !IsValidEmail(form.email), !IsValidPhone(form.phone),
                IsDateText(form.date) && StrLess(form.date, today), form.time == "",
                GuestsOutOfRange(form.guests));
  }

  /** `validateForm`: one message for each field that fails its check, and
      the form is valid exactly when no field fails. */
  method ValidateForm(form: FormData, today: string) returns (valid: bool, errors: map<Field, string>)
    ensures forall f :: f in errors <==> HasError(form, f, today)
    ensures forall f :: f in errors ==> errors[f] == ErrorMessage(f)
    ensures valid <==> forall f :: !HasError(form, f, today)
  {
    var c := RunChecks(form, today);
    errors := RecordAll(c);
    valid := |errors| == 0;
    CompleteRecord(errors, form, today);
  }

  /** The six `if (<check fails>) errors.<field> = <message>` statements,
      in the form's field order, starting from the empty record. */
  method RecordAll(c: Checks) returns (errors: map<Field, string>)
    ensures RecordsFirst(errors, c, 6)
  {
    errors := map[];
    errors := Note(errors, c, Name);
    errors := Note(errors, c, Email);
    errors := Note(errors, c, Phone);
    errors := Note(errors, c, Date);
    errors := Note(errors, c, Time);
    errors := Note(errors, c, Guests);
  }

  /** `if (<check fails>) errors.<field> = <message>`. */
  method Note(before: map<Field, string>, c: Checks, f: Field) returns (after: map<Field, string>)
    requires RecordsFirst(before, c, Rank(f))
    ensures after == if Failed(c, f) then before[f := ErrorMessage(f)] else before
    ensures RecordsFirst(after, c, Rank(f) + 1)
  {
    after := before;
    if Failed(c, f) {
      after := after[f := ErrorMessage(f)];
    }
    RecordStep(before, after, c, f);
  }

  // ---- the input handlers ----

  /** The field shows a message: its key holds a non-empty text. */
  predicate Shows(errors: map<Field, string>, f: Field)
  {
    f in errors && errors[f] != ""
  }

  /** `handleChange` for the input named `f`: that field takes the value,
      its message is cleared, and the banner error is cleared. */
  function HandleChange(s: FormState, f: Field, value: string): (r: FormState)
    ensures r.form == WithField(s.form, f, value)
    ensures r.errors.Keys == s.errors.Keys + {f} && r.errors[f] == ""
    ensures forall g :: g != f && g in s.errors ==> r.errors[g] == s.errors[g]
    ensures r.error == ""
  {
    FormState(WithField(s.form, f, value), s.errors[f := ""], "")
  }

  /** `handleDateSelect`: the date takes the value and the chosen time is
      reset; the date and time messages are cleared, all else is kept. */
  function HandleDateSelect(s: FormState, date: string): (r: FormState)
    ensures r.form == s.form.(date := date, time := "")
    ensures r.errors.Keys == s.errors.Keys + {Date, Time} && r.errors[Date] == "" && r.errors[Time] == ""
    ensures forall g :: g != Date && g != Time && g in s.errors ==> r.errors[g] == s.errors[g]
    ensures r.error == s.error
  {
    FormState(s.form.(date := date, time := ""), s.errors[Date := ""][Time := ""], s.error)
  }

  /** `handleTimeSelect`: the time takes the value and its message is
      cleared, all else is kept. */
  function HandleTimeSelect(s: FormState, time: string): (r: FormState)
    ensures r.form == s.form.(time := time)
    ensures r.errors.Keys == s.errors.Keys + {Time} && r.errors[Time] == ""
    ensures forall g :: g != Time && g in s.errors ==> r.errors[g] == s.errors[g]
    ensures r.error == s.error
  {
    FormState(s.form.(time := time), s.errors[Time := ""], s.error)
  }

  /** After a change, the changed field shows no message and every other
      field shows what it showed before. */
  lemma ChangeHidesOnlyItsMessage(s: FormState, f: Field, value: string)
    ensures forall g :: Shows(HandleChange(s, f, value).errors, g) <==> g != f && Shows(s.errors, g)
  {
  }

  /** After a date is picked, no time is chosen: the form fails validation
      until a time is picked, whatever it held before. */
  lemma DateSelectRequiresNewTime(s: FormState, date: string, today: string)
    ensures HasError(HandleDateSelect(s, date).form, Time, today)
    ensures !Shows(HandleDateSelect(s, date).errors, Date) && !Shows(HandleDateSelect(s, date).errors, Time)
  {
  }

  /** Picking a time leaves the form's other fields, and so their checks,
      as they were; the time check then passes exactly when the time is
      not empty. */
  lemma TimeSelectKeepsOtherChecks(s: FormState, time: string, today: string)
    ensures forall g :: g != Time ==> (HasError(HandleTimeSelect(s, time).form, g, today) <==> HasError(s.form, g, today))
    ensures HasError(HandleTimeSelect(s, time).form, Time, today) <==> time == ""
  {
  }
}
