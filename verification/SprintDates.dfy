/** Date arithmetic on date strings, in UTC milliseconds. An invalid time, NaN in the code, is `None`. */
module SprintDates {
  import opened Calendar
  import opened CivilDate
  import opened Digits
  import opened Prelude

  const DAY_MS := 86_400_000

  /** The largest time value, in days either side of the epoch (ECMA-262 5.1, section 15.9.1.1). */
  const MAX_DAYS := 100_000_000

  datatype DateError = InvalidTimeValue

  predicate IsDate(day: int) {
    -MAX_DAYS <= day <= MAX_DAYS
  }

  // ---- Reading ----

  /** `split("-")` */
  function Split(s: string): (parts: seq<string>)
    ensures |parts| > 0
  {
    if s == "" then [""]
    else if s[0] == '-' then [""] + Split(s[1..])
    else
      var rest := Split(s[1..]);
      [[s[0]] + rest[0]] + rest[1..]
  }

  /** `Number` on a string. NaN is `None`, and so are the infinities: either makes the time invalid. */
  type Numbers = string -> Option<real>

  /** What `Number` gives on blank text, digits, or digits after a plus sign. */
  function Numeral(s: string): Option<nat> {
    var t := Trim(s);
    if t == "" then Some(0)
    else if AllDigits(t) then Some(Value(t))
    else if t[0] == '+' && |t| > 1 && AllDigits(t[1..]) then Some(Value(t[1..]))
    else None
  }

  /** Whatever else `num` reads, such as `1e3` or `0x1f`, it reads short numerals. */
  ghost predicate ReadsDigits(num: Numbers) {
    forall s :: Numeral(s).Some? && Numeral(s).value < 1_000_000 ==> num(s) == Some(Numeral(s).value as real)
  }

  /** There is such a reader: one that reads nothing else. */
  function PlainNumber(s: string): Option<real> {
    var n := Numeral(s);
    if n.Some? then Some(n.value as real) else None
  }

  lemma PlainReadsDigits()
    ensures ReadsDigits(PlainNumber)
  {
  }

  /** `Date.UTC` drops the fraction of each of its numbers. */
  function Trunc(x: real): int {
    if x >= 0.0 then x.Floor else -(-x).Floor
  }

  /** The three numbers, the month counted from 0; a missing month or day is 1, anything after the day is ignored. */
  function Fields(num: Numbers, iso: string): Option<Civil> {
    var parts := Split(iso);
    var year := num(parts[0]);
    var month := if |parts| > 1 then num(parts[1]) else Some(1.0);
    var day := if |parts| > 2 then num(parts[2]) else Some(1.0);
    if year.None? || month.None? || day.None? then None
    else Some(Civil(Trunc(year.value), Trunc(month.value - 1.0), Trunc(day.value)))
  }

  /** The day number a string is read as. Months and days out of range roll over. */
  function ReadDay(num: Numbers, iso: string): Option<int> {
    var c := Fields(num, iso);
    if c.None? then None
    else
      var day := UtcDay(c.value.year, c.value.month, c.value.day);
      if IsDate(day) then Some(day) else None
  }

  function ToUtc(num: Numbers, iso: string): Option<int> {
    var day := ReadDay(num, iso);
    if day.Some? then Some(day.value * DAY_MS) else None
  }

  // ---- Writing ----

  /** The date part of `toISOString`: four digits, or a sign and six digits (section 15.9.1.15.1). */
  function IsoYear(year: int): string {
    if 0 <= year <= 9999 then Padded(Decimal(year), 4)
    else if year < 0 then "-" + Padded(Decimal(-year), 6)
    else "+" + Padded(Decimal(year), 6)
  }

  function IsoDate(c: Civil): string {
    IsoYear(c.year) + "-" + Pad(c.month + 1) + "-" + Pad(c.day)
  }

  /** `toISOString().slice(0, 10)` */
  function Printed(day: int): string {
    Take(IsoDate(FromDay(day)), 10)
  }

  /** `toISOString` throws on an invalid time. */
  function AddDays(num: Numbers, iso: string, days: int): Result<string, DateError> {
    var day := ReadDay(num, iso);
    if day.Some? && IsDate(day.value + days) then Ok(Printed(day.value + days)) else Err(InvalidTimeValue)
  }

  /** The rounded number of days from one time to another; NaN if either is. */
  function DaysBetween(from: Option<int>, to: Option<int>): Option<int> {
    if from.Some? && to.Some? then Some(Round((to.value - from.value) as real / DAY_MS as real)) else None
  }

  function DaysInclusive(num: Numbers, startDate: string, endDate: string): Option<int> {
    var days := DaysBetween(ToUtc(num, startDate), ToUtc(num, endDate));
    if days.Some? then Some(days.value + 1) else None
  }

  function DaysRemaining(num: Numbers, today: string, endDate: string): Option<int> {
    var days := DaysBetween(ToUtc(num, today), ToUtc(num, endDate));
    if days.Some? then Some(days.value + 1) else None
  }

  /** A comparison with NaN is false. */
  predicate AtOrAfter(a: Option<int>, b: Option<int>) {
    a.Some? && b.Some? && a.value >= b.value
  }

  predicate IsAfter(num: Numbers, later: string, earlier: string) {
    var a, b := ToUtc(num, later), ToUtc(num, earlier);
    a.Some? && b.Some? && a.value > b.value
  }

  predicate IsWithin(num: Numbers, today: string, startDate: string, endDate: string) {
    AtOrAfter(ToUtc(num, today), ToUtc(num, startDate)) && AtOrAfter(ToUtc(num, endDate), ToUtc(num, today))
  }

  // ---- Counting days ----

  /** Rounding never rounds: every time value is a whole number of days. */
  lemma WholeDays(days: int)
    ensures Round((days * DAY_MS) as real / DAY_MS as real) == days
  {
    assert (days * DAY_MS) as real == days as real * DAY_MS as real;
    assert (days * DAY_MS) as real / DAY_MS as real == days as real;
  }

  /** The fraction goes, towards 0. */
  lemma TruncInTerms(x: real)
    ensures x >= 0.0 ==> 0 <= Trunc(x) && Trunc(x) as real <= x < Trunc(x) as real + 1.0
    ensures x <= 0.0 ==> Trunc(x) <= 0 && Trunc(x) as real - 1.0 < x <= Trunc(x) as real
  {
  }

  /** A time value lies within a hundred million days of the epoch; any other date cannot be read, nor be added to. */
  lemma ReadInTerms(num: Numbers, iso: string, days: int)
    ensures Fields(num, iso).None? ==> ReadDay(num, iso).None?
    ensures Fields(num, iso).Some? ==>
      var c := Fields(num, iso).value;
      var day := UtcDay(c.year, c.month, c.day);
      ReadDay(num, iso) == if -100_000_000 <= day <= 100_000_000 then Some(day) else None
    ensures AddDays(num, iso, days) ==
      var day := ReadDay(num, iso);
      if day.Some? && -100_000_000 <= day.value + days <= 100_000_000 then Ok(Printed(day.value + days))
      else Err(InvalidTimeValue)
  {
    hide UtcDay, Fields, Printed;
  }

  /** The count is the difference of the day numbers, both ends included, and NaN exactly if one of them is. */
  lemma DaysApart(num: Numbers, startDate: string, endDate: string)
    ensures
      var from, to := ReadDay(num, startDate), ReadDay(num, endDate);
      DaysInclusive(num, startDate, endDate) ==
      if from.Some? && to.Some? then Some(to.value - from.value + 1) else None
    ensures DaysRemaining(num, startDate, endDate) == DaysInclusive(num, startDate, endDate)
  {
    hide ReadDay;
    if ReadDay(num, startDate).Some? && ReadDay(num, endDate).Some? {
      WholeDays(ReadDay(num, endDate).value - ReadDay(num, startDate).value);
    }
  }

  /** Two stretches sharing a day count it twice. */
  lemma StretchesAdd(num: Numbers, a: string, b: string, c: string)
    requires DaysInclusive(num, a, b).Some? && DaysInclusive(num, b, c).Some?
    ensures DaysInclusive(num, a, c) == Some(DaysInclusive(num, a, b).value + DaysInclusive(num, b, c).value - 1)
  {
    hide ReadDay, DaysInclusive;
    DaysApart(num, a, b);
    DaysApart(num, b, c);
    DaysApart(num, a, c);
  }

  /** Today is within the box exactly if it has begun and days remain; no date that cannot be read is. */
  lemma WithinMeansStartedWithDaysLeft(num: Numbers, today: string, startDate: string, endDate: string)
    ensures
      var started, left := DaysInclusive(num, startDate, today), DaysRemaining(num, today, endDate);
      && (IsWithin(num, today, startDate, endDate)
          <==> started.Some? && started.value >= 1 && left.Some? && left.value >= 1)
      && (IsAfter(num, today, endDate) <==> left.Some? && left.value <= 0)
  {
    hide ReadDay, DaysInclusive, DaysRemaining;
    DaysApart(num, startDate, today);
    DaysApart(num, today, endDate);
  }

  /** Time order is calendar order, of the dates the strings stand for. */
  lemma AfterIsLaterOnTheCalendar(num: Numbers, later: string, earlier: string)
    ensures
      var a, b := ReadDay(num, later), ReadDay(num, earlier);
      IsAfter(num, later, earlier) <==> a.Some? && b.Some? && Earlier(FromDay(b.value), FromDay(a.value))
  {
    hide ReadDay, FromDay, MakeDay, Real, Earlier;
    var a, b := ReadDay(num, later), ReadDay(num, earlier);
    if a.Some? && b.Some? {
      DayRoundTrip(a.value);
      DayRoundTrip(b.value);
      DaysFollowDates(FromDay(b.value), FromDay(a.value));
    }
  }

  /** A string stands for the date it spells, the year as `Date.UTC` reads it, when that date is on the calendar. */
  lemma SpelledDate(num: Numbers, iso: string)
    requires ReadDay(num, iso).Some?
    ensures
      var c := Fields(num, iso).value;
      var spelled := Civil(UtcYear(c.year), c.month, c.day);
      Real(spelled)
      <==> FromDay(ReadDay(num, iso).value).month == c.month && FromDay(ReadDay(num, iso).value).day == c.day
    ensures
      var c := Fields(num, iso).value;
      var spelled := Civil(UtcYear(c.year), c.month, c.day);
      Real(spelled) ==> FromDay(ReadDay(num, iso).value) == spelled
  {
    hide MakeDay, FromDay, Fields, Real;
    var c := Fields(num, iso).value;
    SurvivesIfReal(UtcYear(c.year), c.month, c.day);
    if Real(Civil(UtcYear(c.year), c.month, c.day)) {
      DateRoundTrip(Civil(UtcYear(c.year), c.month, c.day));
    }
  }

  // ---- Splitting and reading numbers ----

  lemma {:induction false} SplitAt(a: string, rest: string)
    requires '-' !in a
    ensures Split(a + "-" + rest) == [a] + Split(rest)
  {
    var s := a + "-" + rest;
    if a == "" {
      assert s[1..] == rest;
    } else {
      SplitAt(a[1..], rest);
      assert s[1..] == a[1..] + "-" + rest;
      assert a == [a[0]] + a[1..];
    }
  }

  lemma {:induction false} SplitNone(a: string)
    requires '-' !in a
    ensures Split(a) == [a]
  {
    if a != "" {
      SplitNone(a[1..]);
      assert a == [a[0]] + a[1..];
    }
  }

  lemma WholeNumbers(n: nat)
    ensures Trunc(n as real) == n && Trunc(n as real - 1.0) == n - 1
  {
    assert n as real - 1.0 == (n - 1) as real;
    if n == 0 {
      assert (1.0).Floor == 1;
    }
  }

  lemma ShortNumeral(s: string)
    requires AllDigits(s) && s != "" && |s| <= 6
    ensures Value(s) < 1_000_000
  {
    ValuePads(s);
    assert Power10(6) == 1_000_000;
    PowersGrow(|s|, 6);
  }

  lemma {:induction false} PowersGrow(a: nat, b: nat)
    requires a <= b
    ensures Power10(a) <= Power10(b)
    decreases b
  {
    if a < b {
      PowersGrow(a, b - 1);
    }
  }

  lemma DigitsRead(num: Numbers, s: string)
    requires ReadsDigits(num)
    requires AllDigits(s) && s != "" && |s| <= 6
    ensures '-' !in s && num(s) == Some(Value(s) as real)
    ensures Trunc(Value(s) as real) == Value(s) && Trunc(Value(s) as real - 1.0) == Value(s) - 1
  {
    Unspaced(s);
    ShortNumeral(s);
    assert Numeral(s) == Some(Value(s));
    WholeNumbers(Value(s));
  }

  lemma SignedRead(num: Numbers, s: string)
    requires ReadsDigits(num)
    requires 1 < |s| <= 7 && s[0] == '+' && AllDigits(s[1..])
    ensures '-' !in s && num(s) == Some(Value(s[1..]) as real)
    ensures Trunc(Value(s[1..]) as real) == Value(s[1..])
  {
    assert IsDigit(s[1..][|s| - 2]);
    Unspaced(s);
    assert !IsDigit(s[0]);
    assert forall i :: 1 <= i < |s| ==> s[i] == s[1..][i - 1];
    ShortNumeral(s[1..]);
    assert Numeral(s) == Some(Value(s[1..]));
    WholeNumbers(Value(s[1..]));
  }

  lemma BlankRead(num: Numbers)
    requires ReadsDigits(num)
    ensures num("") == Some(0.0) && Trunc(0.0) == 0
  {
    assert Numeral("") == Some(0);
  }

  lemma ThreeParts(y: string, m: string, d: string)
    requires '-' !in y && '-' !in m && '-' !in d
    ensures Split(y + "-" + m + "-" + d) == [y, m, d] && Split(y + "-" + m) == [y, m]
  {
    hide Split;
    SplitAt(y, m + "-" + d);
    SplitAt(m, d);
    SplitNone(d);
    SplitAt(y, m);
    SplitNone(m);
    assert y + "-" + m + "-" + d == y + "-" + (m + "-" + d);
  }

  /** Without a month it is January, without a day the first; what comes after a day is ignored. */
  lemma FieldsInTerms(num: Numbers, y: string, m: string, d: string, more: string)
    requires '-' !in y && '-' !in m && '-' !in d
    ensures Fields(num, y) == if num(y).Some? then Some(Civil(Trunc(num(y).value), 0, 1)) else None
    ensures
      Fields(num, y + "-" + m) ==
      if num(y).Some? && num(m).Some? then Some(Civil(Trunc(num(y).value), Trunc(num(m).value - 1.0), 1)) else None
    ensures
      Fields(num, y + "-" + m + "-" + d + "-" + more) ==
      if num(y).Some? && num(m).Some? && num(d).Some?
      then Some(Civil(Trunc(num(y).value), Trunc(num(m).value - 1.0), Trunc(num(d).value))) else None
  {
    hide Split, Trunc;
    assert Trunc(1.0) == 1 && Trunc(1.0 - 1.0) == 0 by {
      WholeNumbers(1);
      WholeNumbers(0);
    }
    SplitNone(y);
    ThreeParts(y, m, d);
    var s := y + "-" + m + "-" + d + "-" + more;
    assert s == y + "-" + (m + "-" + (d + "-" + more));
    SplitAt(y, m + "-" + (d + "-" + more));
    SplitAt(m, d + "-" + more);
    SplitAt(d, more);
  }

  lemma ShapedFields(num: Numbers, iso: string)
    requires ReadsDigits(num)
    requires IsShaped(iso)
    ensures Fields(num, iso) == Some(Parts(iso))
  {
    hide Split, Numeral, Trunc, ReadsDigits, Value, Trim;
    var y, m, d := iso[..4], iso[5..7], iso[8..];
    DigitsRead(num, y);
    DigitsRead(num, m);
    DigitsRead(num, d);
    ThreeParts(y, m, d);
    assert iso == y + "-" + m + "-" + d;
  }

  lemma ShapedRange(iso: string)
    requires IsShaped(iso)
    ensures 0 <= Parts(iso).year < 10_000 && -1 <= Parts(iso).month < 99 && 0 <= Parts(iso).day < 100
  {
    ValuePads(iso[..4]);
    ValuePads(iso[5..7]);
    ValuePads(iso[8..]);
    assert Power10(4) == 10_000 && Power10(2) == 100;
  }

  /** On the shape the date field writes, the reader sees the shape's own numbers. */
  lemma ShapedReads(num: Numbers, iso: string)
    requires ReadsDigits(num)
    requires IsShaped(iso)
    ensures Fields(num, iso) == Some(Parts(iso))
    ensures ReadDay(num, iso) == Some(UtcDay(Parts(iso).year, Parts(iso).month, Parts(iso).day))
  {
    hide UtcDay, Fields, Parts;
    ShapedFields(num, iso);
    ShapedRange(iso);
    ReadableRange(Parts(iso).year, Parts(iso).month, Parts(iso).day);
  }

  lemma ReadableRange(year: int, month: int, day: int)
    requires 0 <= year <= 100_000 && -1 <= month <= 1_000_000 && 0 <= day <= 100
    ensures IsDate(UtcDay(year, month, day))
  {
    hide DayFromYear, IsLeap;
    var y := UtcYear(year) + month / 12;
    assert -1 <= month / 12 <= 83_334 && -1 <= y <= 185_300;
    MonthsGrow(IsLeap(y), 0, month % 12);
    BeforeYearEnd(IsLeap(y), month % 12);
    YearBound(y);
  }

  lemma BeforeYearEnd(leap: bool, month: int)
    requires 0 <= month < 12
    ensures 0 <= DaysBefore(leap, month) <= 335
  {
  }

  lemma YearBound(y: int)
    requires -1 <= y <= 185_300
    ensures -1_000_000 <= DayFromYear(y) <= 70_000_000
  {
  }

  // ---- What a printed date is read as ----

  predicate Signed(s: string) {
    s != "" && (s[0] == '+' || s[0] == '-')
  }

  /** Years within the range of a time value have at most six digits. */
  lemma YearInRange(d: int)
    requires -MAX_DAYS <= d <= MAX_DAYS
    ensures -999_999 <= FromDay(d).year <= 999_999
  {
    hide DayFromYear, MakeDay, FromDay;
    var year := FromDay(d).year;
    YearStarts(d);
    FarYears();
    if year > 999_999 {
      YearsGrow(999_999, year);
    } else if year < -999_999 {
      YearLength(year);
      YearsGrow(year, -999_999);
      if year + 1 < -999_999 {
        YearsGrow(year + 1, -999_999);
      }
    }
  }

  lemma YearStarts(d: int)
    ensures DayFromYear(FromDay(d).year) <= d < DayFromYear(FromDay(d).year) + DaysInYear(FromDay(d).year)
  {
    hide DayFromYear, YearFromDay, MonthOf, IsLeap, DaysInYear;
  }

  lemma FarYears()
    ensures DayFromYear(999_999) > MAX_DAYS && DayFromYear(-999_999) < -MAX_DAYS
  {
  }

  lemma YearTextReads(year: int)
    requires -999_999 <= year <= 999_999
    ensures
      var y := IsoYear(year);
      && |y| == (if Signed(y) then 7 else 4)
      && AllDigits(if Signed(y) then y[1..] else y)
      && Value(if Signed(y) then y[1..] else y) == (if year < 0 then -year else year)
      && (y[0] == '-' <==> year < 0)
  {
    assert Power10(4) == 10_000 && Power10(6) == 1_000_000;
    if 0 <= year <= 9999 {
      PaddedReads(year, 4);
      assert IsDigit(IsoYear(year)[0]);
    } else {
      PaddedReads(if year < 0 then -year else year, 6);
    }
  }

  /** Four digits for the years 0 to 9999, else a sign and six. */
  lemma YearInTerms(year: int)
    requires -999_999 <= year <= 999_999
    ensures 0 <= year <= 9999 ==> |IsoYear(year)| == 4 && AllDigits(IsoYear(year)) && Value(IsoYear(year)) == year
    ensures !(0 <= year <= 9999) ==>
      && |IsoYear(year)| == 7 && IsoYear(year)[0] == (if year < 0 then '-' else '+') && AllDigits(IsoYear(year)[1..])
      && Value(IsoYear(year)[1..]) == (if year < 0 then -year else year)
  {
    YearTextReads(year);
    FirstDigit(year);
  }

  /** The text of a date: the whole date for four-digit years, else the signed year and the month only. */
  lemma PrintedText(c: Civil)
    requires Real(c) && -999_999 <= c.year <= 999_999
    ensures Take(IsoDate(c), 10) ==
            if 0 <= c.year <= 9999 then IsoYear(c.year) + "-" + Pad(c.month + 1) + "-" + Pad(c.day)
            else IsoYear(c.year) + "-" + Pad(c.month + 1)
    ensures |Pad(c.month + 1)| == 2 && |Pad(c.day)| == 2
  {
    hide IsLeap, IsoYear, Pad;
    YearTextReads(c.year);
    AtLeast28(c.year, c.month);
    PadReads(c.month + 1);
    PadReads(c.day);
    FirstDigit(c.year);
  }

  lemma FirstDigit(year: int)
    requires -999_999 <= year <= 999_999
    ensures Signed(IsoYear(year)) <==> !(0 <= year <= 9999)
    ensures !(0 <= year <= 9999) ==> IsoYear(year)[0] == (if year < 0 then '-' else '+')
  {
    YearTextReads(year);
    if 0 <= year <= 9999 {
      assert Power10(4) == 10_000;
      PaddedReads(year, 4);
      assert IsDigit(IsoYear(year)[0]);
    }
  }

  /**
   * The day a printed date is read as: four-digit years through `Date.UTC`, longer
   * ones at the first of their month, and a negative year as that many months,
   * and its month as that many days, from the year 1900 on.
   */
  function Reread(c: Civil): int {
    if c.year < 0 then UtcDay(0, -c.year - 1, c.month + 1)
    else if c.year > 9999 then UtcDay(c.year, c.month, 1)
    else UtcDay(c.year, c.month, c.day)
  }

  lemma ReadPrintedYear(num: Numbers, c: Civil)
    requires ReadsDigits(num)
    requires Real(c) && 0 <= c.year <= 9999
    ensures Fields(num, Take(IsoDate(c), 10)) == Some(c)
  {
    hide IsLeap, IsoYear, Pad, Trim, Split, Take, IsoDate, Trunc, Numeral;
    var y, m, d := IsoYear(c.year), Pad(c.month + 1), Pad(c.day);
    PrintedText(c);
    YearTextReads(c.year);
    FirstDigit(c.year);
    AtLeast28(c.year, c.month);
    PadReads(c.month + 1);
    PadReads(c.day);
    DigitsRead(num, y);
    DigitsRead(num, m);
    DigitsRead(num, d);
    ThreeParts(y, m, d);
  }

  lemma ReadPrintedFarYear(num: Numbers, c: Civil)
    requires ReadsDigits(num)
    requires Real(c) && 9999 < c.year <= 999_999
    ensures Fields(num, Take(IsoDate(c), 10)) == Some(Civil(c.year, c.month, 1))
  {
    hide IsLeap, IsoYear, Pad, Trim, Split, Take, IsoDate, Trunc, Numeral;
    var y, m := IsoYear(c.year), Pad(c.month + 1);
    PrintedText(c);
    YearTextReads(c.year);
    FirstDigit(c.year);
    AtLeast28(c.year, c.month);
    PadReads(c.month + 1);
    SignedRead(num, y);
    DigitsRead(num, m);
    ThreeParts(y, m, "");
    WholeNumbers(1);
  }

  lemma ReadPrintedNegativeYear(num: Numbers, c: Civil)
    requires ReadsDigits(num)
    requires Real(c) && -999_999 <= c.year < 0
    ensures Fields(num, Take(IsoDate(c), 10)) == Some(Civil(0, -c.year - 1, c.month + 1))
  {
    hide IsLeap, IsoYear, Pad, Trim, Split, Take, IsoDate, Trunc, Numeral;
    var y, m := IsoYear(c.year), Pad(c.month + 1);
    PrintedText(c);
    YearTextReads(c.year);
    FirstDigit(c.year);
    AtLeast28(c.year, c.month);
    PadReads(c.month + 1);
    DigitsRead(num, y[1..]);
    DigitsRead(num, m);
    BlankRead(num);
    assert y + "-" + m == "" + "-" + y[1..] + "-" + m;
    ThreeParts("", y[1..], m);
  }

  lemma ReadPrinted(num: Numbers, d: int)
    requires ReadsDigits(num)
    requires IsDate(d)
    ensures ReadDay(num, Printed(d)) == Some(Reread(FromDay(d)))
  {
    hide FromDay, UtcDay, Fields, Take, IsoDate, Real;
    var c := FromDay(d);
    DayRoundTrip(d);
    YearInRange(d);
    if c.year < 0 {
      ReadPrintedNegativeYear(num, c);
      NegativeMonths(c);
      ReadableRange(0, -c.year - 1, c.month + 1);
    } else if c.year <= 9999 {
      ReadPrintedYear(num, c);
      NegativeMonths(c);
      ReadableRange(c.year, c.month, c.day);
    } else {
      ReadPrintedFarYear(num, c);
      FirstOfMonth(d, c);
    }
  }

  lemma NegativeMonths(c: Civil)
    requires Real(c)
    ensures 0 <= c.month < 12 && 1 <= c.day <= 31
  {
  }

  /** The first of a far month is a date too. */
  lemma FirstOfMonth(d: int, c: Civil)
    requires IsDate(d) && Real(c) && c.year > 9999 && d == MakeDay(c.year, c.month, c.day)
    ensures IsDate(UtcDay(c.year, c.month, 1)) && UtcDay(c.year, c.month, 1) == d - c.day + 1
  {
    hide DayFromYear, IsLeap, DaysBefore;
    DaysCount(c.year, c.month, c.day);
    NegativeMonths(c);
    InRange(c.month);
    YearsGrow(1970, c.year);
    EpochYear();
    MonthsGrow(IsLeap(c.year), 0, c.month);
    StartsAtZero(IsLeap(c.year));
  }

  lemma StartsAtZero(leap: bool)
    ensures DaysBefore(leap, 0) == 0
  {
  }

  /** Which dates survive being printed and read: the years 100 to 9999, and later the firsts of months. */
  lemma RereadIsItself(d: int)
    ensures
      var c := FromDay(d);
      Reread(c) == d <==> 100 <= c.year <= 9999 || (c.year > 9999 && c.day == 1)
  {
    hide FromDay, MakeDay;
    var c := FromDay(d);
    DayRoundTrip(d);
    if c.year < 0 {
      NegativeRereadsLate(d, c);
    } else if c.year <= 9999 {
      MisreadYear(c);
    } else {
      DaysCount(c.year, c.month, c.day);
    }
  }

  /** A year read as 1900 years later is a different day. */
  lemma MisreadYear(c: Civil)
    requires Real(c) && 0 <= c.year
    ensures UtcDay(c.year, c.month, c.day) == MakeDay(c.year, c.month, c.day) <==> c.year >= 100
  {
    hide DayFromYear;
    if c.year < 100 {
      InRange(c.month);
      YearsGrow(c.year, 1900 + c.year);
    }
  }

  /** A negative year is read as a day after 1899. */
  lemma NegativeRereadsLate(d: int, c: Civil)
    requires Real(c) && c.year < 0 && d == MakeDay(c.year, c.month, c.day)
    ensures d < -719_000 && Reread(c) > -30_000
  {
    hide DayFromYear, IsLeap;
    NegativeMonths(c);
    InRange(c.month);
    DayWithinYear(c);
    LaterYear(c.year, 0);
    YearZero();
    var y := 1900 + (-c.year - 1) / 12;
    if y > 1900 {
      YearsGrow(1900, y);
    }
    MonthsGrow(IsLeap(y), 0, (-c.year - 1) % 12);
    StartsAtZero(IsLeap(y));
  }

  lemma YearZero()
    ensures DayFromYear(0) == -719_528 && DayFromYear(1900) == -25_567
  {
  }

  /**
   * A result reads back as the day it stands for exactly if it lands in the years
   * 100 to 9999, or later on the first of a month.
   */
  lemma ReadsBack(num: Numbers, iso: string, days: int)
    requires ReadsDigits(num)
    requires AddDays(num, iso, days).Ok?
    ensures
      var day := ReadDay(num, iso).value + days;
      var c := FromDay(day);
      ReadDay(num, AddDays(num, iso, days).value) == Some(day)
      <==> 100 <= c.year <= 9999 || (c.year > 9999 && c.day == 1)
  {
    hide ReadDay, FromDay, Printed, Reread;
    var day := ReadDay(num, iso).value + days;
    ReadPrinted(num, day);
    RereadIsItself(day);
  }

  /** Planning a sprint of `n + 1` days makes it `n + 1` days long, exactly for those results. */
  lemma PlannedLength(num: Numbers, startDate: string, n: int)
    requires ReadsDigits(num)
    requires AddDays(num, startDate, n).Ok?
    ensures
      var c := FromDay(ReadDay(num, startDate).value + n);
      DaysInclusive(num, startDate, AddDays(num, startDate, n).value) == Some(n + 1)
      <==> 100 <= c.year <= 9999 || (c.year > 9999 && c.day == 1)
  {
    hide FromDay, DaysInclusive, Printed, Fields;
    ReadsBack(num, startDate, n);
    DaysApart(num, startDate, AddDays(num, startDate, n).value);
  }

  // ---- Adding twice ----

  /** Two days print alike: the same day, or the same month outside the four-digit years, or neither is a date. */
  ghost predicate PrintAlike(a: int, b: int) {
    if !IsDate(a) || !IsDate(b) then !IsDate(a) && !IsDate(b)
    else
      var c, d := FromDay(a), FromDay(b);
      a == b || (c.year == d.year && c.month == d.month && !(0 <= c.year <= 9999))
  }

  lemma SameText(c: Civil, d: Civil)
    requires Real(c) && Real(d) && -999_999 <= c.year <= 999_999 && -999_999 <= d.year <= 999_999
    ensures Take(IsoDate(c), 10) == Take(IsoDate(d), 10)
            <==> c == d || (c.year == d.year && c.month == d.month && !(0 <= c.year <= 9999))
  {
    hide IsLeap, IsoYear, Pad, Take, IsoDate, Signed, Value, AllDigits;
    PrintedText(c);
    PrintedText(d);
    YearTextReads(c.year);
    YearTextReads(d.year);
    NegativeMonths(c);
    NegativeMonths(d);
    PadReads(c.month + 1);
    PadReads(d.month + 1);
    PadReads(c.day);
    PadReads(d.day);
    var s, t := Take(IsoDate(c), 10), Take(IsoDate(d), 10);
    var y, z := IsoYear(c.year), IsoYear(d.year);
    assert s[0] == y[0] && t[0] == z[0];
    if s == t {
      SameFirst(y, z);
      FirstDigit(c.year);
      FirstDigit(d.year);
      if 0 <= c.year <= 9999 {
        SameParts(y + "-" + Pad(c.month + 1), Pad(c.day), z + "-" + Pad(d.month + 1), Pad(d.day));
      }
      SameParts(y, Pad(c.month + 1), z, Pad(d.month + 1));
    }
  }

  lemma SameParts(a: string, x: string, b: string, y: string)
    requires |a| == |b| && a + "-" + x == b + "-" + y
    ensures a == b && x == y
  {
    var s, t := a + "-" + x, b + "-" + y;
    assert s[..|a|] == a && t[..|b|] == b;
    assert s[|a| + 1..] == x && t[|b| + 1..] == y;
  }

  lemma SameFirst(y: string, z: string)
    requires y != "" && z != "" && y[0] == z[0]
    ensures Signed(y) == Signed(z)
  {
  }

  lemma PrintedSame(a: int, b: int)
    requires IsDate(a) && IsDate(b)
    ensures Printed(a) == Printed(b) <==> PrintAlike(a, b)
  {
    hide FromDay, Take, IsoDate, Real, MakeDay;
    DayRoundTrip(a);
    DayRoundTrip(b);
    YearInRange(a);
    YearInRange(b);
    SameText(FromDay(a), FromDay(b));
  }

  /**
   * Adding twice is adding once exactly if the day the first result is read as,
   * and the day it stands for, print alike after the second addition.
   */
  lemma AddDaysComposes(num: Numbers, iso: string, first: int, second: int)
    requires ReadsDigits(num)
    requires AddDays(num, iso, first).Ok?
    ensures
      var day := ReadDay(num, iso).value + first;
      AddDays(num, AddDays(num, iso, first).value, second) == AddDays(num, iso, first + second)
      <==> PrintAlike(Reread(FromDay(day)) + second, day + second)
  {
    hide ReadDay, FromDay, Printed, Reread;
    var day := ReadDay(num, iso).value + first;
    ReadPrinted(num, day);
    var read := Reread(FromDay(day));
    if IsDate(read + second) && IsDate(day + second) {
      PrintedSame(read + second, day + second);
    }
  }

  /** In particular whenever the first result reads back. */
  lemma AddDaysAdds(num: Numbers, iso: string, first: int, second: int)
    requires ReadsDigits(num)
    requires AddDays(num, iso, first).Ok?
    requires
      var c := FromDay(ReadDay(num, iso).value + first);
      100 <= c.year <= 9999 || (c.year > 9999 && c.day == 1)
    ensures AddDays(num, AddDays(num, iso, first).value, second) == AddDays(num, iso, first + second)
  {
    hide ReadDay, FromDay, Printed, Reread;
    AddDaysComposes(num, iso, first, second);
    RereadIsItself(ReadDay(num, iso).value + first);
  }

  // ---- One day before the year 100 ----

  lemma Texts()
    ensures IsoYear(100) == "0100" && IsoYear(99) == "0099" && IsoYear(1999) == "1999"
    ensures Pad(1) == "01" && Pad(12) == "12" && Pad(31) == "31"
  {
    assert Decimal(1) == "1" && Decimal(9) == "9" && Decimal(3) == "3";
    assert Decimal(10) == "10" && Decimal(19) == "19" && Decimal(99) == "99";
    assert Decimal(12) == "12" && Decimal(31) == "31";
    assert Decimal(100) == "100" && Decimal(199) == "199" && Decimal(1999) == "1999";
  }

  lemma DayNumbers()
    ensures MakeDay(100, 0, 1) == -683_003 && MakeDay(99, 11, 31) == -683_004 && MakeDay(1999, 11, 31) == 10_956
  {
    assert DayFromYear(100) == -683_003 && DayFromYear(99) == -683_368 && DayFromYear(1999) == 10_592;
    hide DayFromYear;
    assert !IsLeap(99) && !IsLeap(1999);
  }

  /** The text is right, and is read as the last day of 1999: no days, counted as 693 960. */
  lemma YearNinetyNineIsMisread(num: Numbers)
    requires ReadsDigits(num)
    ensures AddDays(num, "0100-01-01", -1) == Ok("0099-12-31")
    ensures ReadDay(num, "0099-12-31") == ReadDay(num, "1999-12-31")
    ensures DaysInclusive(num, "0100-01-01", "0099-12-31") == Some(693_960)
  {
    hide FromDay, MakeDay, DaysInclusive, Fields, IsoYear, Pad, DayFromYear;
    Texts();
    DayNumbers();
    var first, last, misread := Civil(100, 0, 1), Civil(99, 11, 31), Civil(1999, 11, 31);
    assert Take(IsoDate(first), 10) == "0100-01-01" && Take(IsoDate(last), 10) == "0099-12-31";
    assert Take(IsoDate(misread), 10) == "1999-12-31";
    ReadPrintedYear(num, first);
    ReadPrintedYear(num, last);
    ReadPrintedYear(num, misread);
    DateRoundTrip(last);
    DaysApart(num, "0100-01-01", "0099-12-31");
  }
}
