/** `Date.prototype.toISOString` and reading that format back (ECMA-262 5.1, sections 15.9.1.10 and 15.9.1.15). */
module IsoTime {
  import opened Calendar
  import opened CivilDate
  import opened Digits
  import opened Prelude
  import opened SprintDates

  const HOUR_MS := 3_600_000
  const MINUTE_MS := 60_000

  /** Milliseconds since the epoch, within the range of a time value. */
  type Time = t: int | -MAX_DAYS * DAY_MS <= t <= MAX_DAYS * DAY_MS

  datatype Clock = Clock(hour: nat, minute: nat, second: nat, milli: nat)

  /** The time of day, from the milliseconds since midnight. */
  function ClockOf(inDay: nat): Clock {
    Clock(inDay / HOUR_MS, inDay / MINUTE_MS % 60, inDay / 1000 % 60, inDay % 1000)
  }

  function InDay(c: Clock): nat {
    c.hour * HOUR_MS + c.minute * MINUTE_MS + c.second * 1000 + c.milli
  }

  predicate OnClock(c: Clock) {
    c.hour <= 23 && c.minute <= 59 && c.second <= 59 && c.milli <= 999
  }

  function ClockText(c: Clock): string {
    "T" + Pad(c.hour) + ":" + Pad(c.minute) + ":" + Pad(c.second) + "." + Padded(Decimal(c.milli), 3) + "Z"
  }

  function ToIsoString(t: Time): string {
    IsoDate(FromDay(t / DAY_MS)) + ClockText(ClockOf(t % DAY_MS))
  }

  /** `YYYY-MM-DD`, or a sign and six digits for the year. */
  predicate IsDateText(s: string) {
    var n := if Signed(s) then 7 else 4;
    && |s| == n + 6
    && s[n] == '-' && s[n + 3] == '-'
    && AllDigits(s[n - (if Signed(s) then 6 else 4)..n])
    && AllDigits(s[n + 1..n + 3]) && AllDigits(s[n + 4..])
  }

  function DateIn(s: string): Civil
    requires IsDateText(s)
  {
    var n := if Signed(s) then 7 else 4;
    var year: int := Value(s[n - (if Signed(s) then 6 else 4)..n]);
    Civil(if s[0] == '-' then -year else year, Value(s[n + 1..n + 3]) - 1, Value(s[n + 4..]))
  }

  predicate IsClockText(s: string) {
    && |s| == 14
    && s[0] == 'T' && s[3] == ':' && s[6] == ':' && s[9] == '.' && s[13] == 'Z'
    && AllDigits(s[1..3]) && AllDigits(s[4..6]) && AllDigits(s[7..9]) && AllDigits(s[10..13])
  }

  function ClockIn(s: string): Clock
    requires IsClockText(s)
  {
    Clock(Value(s[1..3]), Value(s[4..6]), Value(s[7..9]), Value(s[10..13]))
  }

  function TimeOf(c: Civil, clock: Clock): int {
    MakeDay(c.year, c.month, c.day) * DAY_MS + InDay(clock)
  }

  /** `new Date(s)` on the full format; `None` stands for the invalid date. */
  function ParseTime(s: string): Option<Time> {
    if |s| < 14 || !IsDateText(s[..|s| - 14]) || !IsClockText(s[|s| - 14..]) then None
    else
      var c, clock := DateIn(s[..|s| - 14]), ClockIn(s[|s| - 14..]);
      if !(0 <= c.month < 12 && 1 <= c.day <= 31 && OnClock(clock)) then None
      else
        var t := TimeOf(c, clock);
        if -MAX_DAYS * DAY_MS <= t <= MAX_DAYS * DAY_MS then Some(t) else None
  }

  // ---- The round trip ----

  /** Hours, minutes, seconds and milliseconds add up again. */
  lemma ClockRoundTrip(inDay: nat)
    requires inDay < DAY_MS
    ensures OnClock(ClockOf(inDay)) && InDay(ClockOf(inDay)) == inDay
  {
    var seconds, minutes, hours := inDay / 1000, inDay / MINUTE_MS, inDay / HOUR_MS;
    assert minutes == seconds / 60;
    assert hours == minutes / 60;
    assert inDay == 1000 * seconds + inDay % 1000;
    assert seconds == 60 * minutes + seconds % 60;
    assert minutes == 60 * hours + minutes % 60;
  }

  lemma ClockTextReads(c: Clock)
    requires OnClock(c)
    ensures IsClockText(ClockText(c)) && ClockIn(ClockText(c)) == c && |ClockText(c)| == 14
  {
    PadReads(c.hour);
    PadReads(c.minute);
    PadReads(c.second);
    assert Power10(3) == 1000;
    PaddedReads(c.milli, 3);
    ClockShape(Pad(c.hour), Pad(c.minute), Pad(c.second), Padded(Decimal(c.milli), 3));
  }

  lemma ClockShape(h: string, m: string, s: string, ms: string)
    requires |h| == |m| == |s| == 2 && |ms| == 3
    ensures
      var text := "T" + h + ":" + m + ":" + s + "." + ms + "Z";
      && |text| == 14
      && text[0] == 'T' && text[3] == ':' && text[6] == ':' && text[9] == '.' && text[13] == 'Z'
      && text[1..3] == h && text[4..6] == m && text[7..9] == s && text[10..13] == ms
  {
  }

  lemma DateTextReads(c: Civil)
    requires Real(c) && -999_999 <= c.year <= 999_999
    ensures IsDateText(IsoDate(c)) && DateIn(IsoDate(c)) == c
  {
    hide IsLeap, IsoYear, Pad, Signed, Value, AllDigits;
    AtLeast28(c.year, c.month);
    PadReads(c.month + 1);
    PadReads(c.day);
    YearTextReads(c.year);
    DateShape(IsoYear(c.year), Pad(c.month + 1), Pad(c.day));
  }

  lemma DateShape(y: string, m: string, d: string)
    requires |m| == |d| == 2 && |y| == (if Signed(y) then 7 else 4)
    ensures
      var s := y + "-" + m + "-" + d;
      && Signed(s) == Signed(y) && s[0] == y[0]
      && |s| == |y| + 6 && s[|y|] == '-' && s[|y| + 3] == '-'
      && s[..|y|] == y && s[|y| + 1..|y| + 3] == m && s[|y| + 4..] == d
      && s[1..|y|] == y[1..]
  {
  }

  /** Every time value prints as text that reads back as the same time. */
  lemma TimeRoundTrip(t: Time)
    ensures ParseTime(ToIsoString(t)) == Some(t)
  {
    hide FromDay, MakeDay, IsoDate, ClockText, IsDateText, IsClockText, DateIn, ClockIn, ClockOf, InDay, OnClock;
    var d, clock := t / DAY_MS, ClockOf(t % DAY_MS);
    var c := FromDay(d);
    DayRoundTrip(d);
    YearInRange(d);
    DateTextReads(c);
    ClockRoundTrip(t % DAY_MS);
    ClockTextReads(clock);
    AtLeast28(c.year, c.month);
    var s := ToIsoString(t);
    assert s[..|s| - 14] == IsoDate(c) && s[|s| - 14..] == ClockText(clock);
  }

  /** One time of day in words: hours, minutes, seconds and milliseconds after the day the date names. */
  lemma TimeInTerms(day: int, hour: nat, minute: nat, second: nat, milli: nat)
    requires -MAX_DAYS <= day < MAX_DAYS && hour < 24 && minute < 60 && second < 60 && milli < 1000
    ensures
      var t := day * 86_400_000 + hour * 3_600_000 + minute * 60_000 + second * 1000 + milli;
      && -MAX_DAYS * DAY_MS <= t <= MAX_DAYS * DAY_MS
      && ToIsoString(t) ==
         IsoDate(FromDay(day)) + "T" + Pad(hour) + ":" + Pad(minute) + ":" + Pad(second)
         + "." + Padded(Decimal(milli), 3) + "Z"
  {
    hide FromDay, IsoDate, Pad, Padded, Decimal;
    var inDay := hour * 3_600_000 + minute * 60_000 + second * 1000 + milli;
    var t := day * 86_400_000 + inDay;
    DayAndTime(day, inDay);
    ClockFields(hour, minute, second, milli);
    var date := IsoDate(FromDay(day));
    assert date + ClockText(Clock(hour, minute, second, milli)) ==
      date + "T" + Pad(hour) + ":" + Pad(minute) + ":" + Pad(second) + "." + Padded(Decimal(milli), 3) + "Z";
  }

  lemma DayAndTime(day: int, inDay: nat)
    requires -MAX_DAYS <= day < MAX_DAYS && inDay < 86_400_000
    ensures -MAX_DAYS * DAY_MS <= day * 86_400_000 + inDay <= MAX_DAYS * DAY_MS
    ensures (day * 86_400_000 + inDay) / DAY_MS == day && (day * 86_400_000 + inDay) % DAY_MS == inDay
  {
  }

  lemma ClockFields(hour: nat, minute: nat, second: nat, milli: nat)
    requires hour < 24 && minute < 60 && second < 60 && milli < 1000
    ensures ClockOf(hour * 3_600_000 + minute * 60_000 + second * 1000 + milli) == Clock(hour, minute, second, milli)
  {
    var inDay := hour * 3_600_000 + minute * 60_000 + second * 1000 + milli;
    assert inDay / 60_000 == hour * 60 + minute;
    assert inDay / 1000 == (hour * 60 + minute) * 60 + second;
  }
}
