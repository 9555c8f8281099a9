/** The date picker's month grid and its text field. */
module Calendar {
  import opened CivilDate
  import opened Digits
  import opened Prelude

  const WEEKS := 6
  const DAYS_PER_WEEK := 7

  /** `day` is 1 to 31; `inMonth` is false for days borrowed from the neighbouring months. */
  datatype CalendarDay = CalendarDay(iso: string, day: int, inMonth: bool)

  datatype Month = Month(year: int, month: int)

  /** What `String.prototype.trim` strips: WhiteSpace and LineTerminator of ECMA-262 5.1, sections 7.2 and 7.3. */
  predicate IsSpace(c: char) {
    || c == '\t' || c == '\n' || c == '\r' || c == ' '
    || c == '\U{000B}' || c == '\U{000C}' || c == '\U{00A0}' || c == '\U{FEFF}'
    || c == '\U{1680}' || '\U{2000}' <= c <= '\U{200A}' || c == '\U{2028}' || c == '\U{2029}'
    || c == '\U{202F}' || c == '\U{205F}' || c == '\U{3000}'
  }

  function TrimStart(s: string): string {
    if s != "" && IsSpace(s[0]) then TrimStart(s[1..]) else s
  }

  function TrimEnd(s: string): string {
    if s != "" && IsSpace(s[|s| - 1]) then TrimEnd(s[..|s| - 1]) else s
  }

  function Trim(s: string): string {
    TrimEnd(TrimStart(s))
  }

  predicate AllSpace(s: string) {
    forall i :: 0 <= i < |s| ==> IsSpace(s[i])
  }

  lemma {:induction false} TrimStartStrips(s: string)
    ensures |TrimStart(s)| <= |s|
    ensures AllSpace(s[..|s| - |TrimStart(s)|]) && s[|s| - |TrimStart(s)|..] == TrimStart(s)
    ensures TrimStart(s) != "" ==> !IsSpace(TrimStart(s)[0])
  {
    if s != "" && IsSpace(s[0]) {
      TrimStartStrips(s[1..]);
    }
  }

  lemma {:induction false} TrimEndStrips(s: string)
    ensures |TrimEnd(s)| <= |s|
    ensures AllSpace(s[|TrimEnd(s)|..]) && s[..|TrimEnd(s)|] == TrimEnd(s)
    ensures TrimEnd(s) != "" ==> !IsSpace(TrimEnd(s)[|TrimEnd(s)| - 1])
    decreases |s|
  {
    if s != "" && IsSpace(s[|s| - 1]) {
      var front := s[..|s| - 1];
      TrimEndStrips(front);
      assert forall i :: |TrimEnd(s)| <= i < |front| ==> s[i] == front[|TrimEnd(s)|..][i - |TrimEnd(s)|];
    }
  }

  lemma {:induction false} TrimPadded(before: string, s: string, after: string)
    requires AllSpace(before) && AllSpace(after)
    requires s != "" && !IsSpace(s[0]) && !IsSpace(s[|s| - 1])
    ensures Trim(before + s + after) == s
    decreases |before| + |after|
  {
    var text := before + s + after;
    if before != "" {
      assert text[1..] == before[1..] + s + after;
      TrimPadded(before[1..], s, after);
    } else if after != "" {
      var n := |after| - 1;
      assert text[..|text| - 1] == before + s + after[..n] && text[0] == s[0];
      TrimPadded(before, s, after[..n]);
      assert TrimStart(text) == text && TrimStart(text[..|text| - 1]) == text[..|text| - 1];
    } else {
      assert text == s;
    }
  }

  /** What trimming takes off is space, and what it leaves neither starts nor ends with one. */
  lemma TrimStrips(s: string) returns (before: string, after: string)
    ensures s == before + Trim(s) + after && AllSpace(before) && AllSpace(after)
    ensures Trim(s) != "" ==> !IsSpace(Trim(s)[0]) && !IsSpace(Trim(s)[|Trim(s)| - 1])
  {
    var middle := TrimStart(s);
    TrimStartStrips(s);
    TrimEndStrips(middle);
    before, after := s[..|s| - |middle|], middle[|Trim(s)|..];
  }

  /** `^\d{4}-\d{2}-\d{2}$` */
  predicate IsShaped(s: string) {
    && |s| == 10
    && s[4] == '-' && s[7] == '-'
    && AllDigits(s[..4]) && AllDigits(s[5..7]) && AllDigits(s[8..])
  }

  /** The three numbers in a shaped string, the month counted from 0. */
  function Parts(s: string): Civil
    requires IsShaped(s)
  {
    Civil(Value(s[..4]), Value(s[5..7]) - 1, Value(s[8..]))
  }

  /** `padStart(2, "0")` of a number's text. */
  function Pad(value: int): string {
    Padded(Text(value), 2)
  }

  function ToIso(year: int, month: int, day: int): string {
    Text(year) + "-" + Pad(month + 1) + "-" + Pad(day)
  }

  function ParseIsoDate(value: string): Option<Civil> {
    var text := Trim(value);
    if !IsShaped(text) then None
    else
      var c := Parts(text);
      var stamp := FromDay(UtcDay(c.year, c.month, c.day));
      if stamp.month != c.month || stamp.day != c.day then None else Some(c)
  }

  function CellOf(day: int, month: int): CalendarDay {
    var c := FromDay(day);
    CalendarDay(ToIso(c.year, c.month, c.day), c.day, c.month == month)
  }

  /** The first cell's day. */
  function GridStart(year: int, month: int): int {
    UtcDay(year, month, 1) - WeekDay(UtcDay(year, month, 1))
  }

  /** Forty-two days in a row from `GridStart`, each shown as its date. */
  method MonthGrid(year: int, month: int) returns (cells: seq<CalendarDay>)
    ensures |cells| == 42
    ensures forall i :: 0 <= i < |cells| ==> cells[i] == CellOf(GridStart(year, month) + i, month)
    ensures forall i :: 0 <= i < |cells| ==>
              var date := FromDay(GridStart(year, month) + i);
              && cells[i].day == date.day && (cells[i].inMonth <==> date.month == month)
              && cells[i].iso == Text(date.year) + "-" + Pad(date.month + 1) + "-" + Pad(date.day)
  {
    hide MakeDay, FromDay;
    var firstWeekday := WeekDay(UtcDay(year, month, 1));
    cells := [];
    for index := 0 to WEEKS * DAYS_PER_WEEK
      invariant |cells| == index
      invariant forall i :: 0 <= i < |cells| ==> cells[i] == CellOf(GridStart(year, month) + i, month)
    {
      DaysCount(UtcYear(year), month, index - firstWeekday + 1);
      var stamp := FromDay(UtcDay(year, month, index - firstWeekday + 1));
      var cellMonth := stamp.month;
      cells := cells + [CalendarDay(ToIso(stamp.year, cellMonth, stamp.day), stamp.day, cellMonth == month)];
    }
  }

  function ShiftMonth(year: int, month: int, delta: int): Month {
    var stamp := FromDay(UtcDay(year, month + delta, 1));
    Month(stamp.year, stamp.month)
  }

  // ---- Parsing accepts the real dates ----

  /** Year 0 is a leap year but is read as 1900, which is not. Every other year keeps its February. */
  lemma UtcLeap(year: int)
    requires 0 <= year <= 9999
    ensures IsLeap(UtcYear(year)) == (IsLeap(year) && year != 0)
  {
  }

  /** A date survives the trip through its day number exactly if it is real. */
  lemma SurvivesIfReal(year: int, month: int, day: int)
    ensures
      var c := FromDay(MakeDay(year, month, day));
      c.month == month && c.day == day <==> Real(Civil(year, month, day))
  {
    var d := MakeDay(year, month, day);
    var c := FromDay(d);
    DayRoundTrip(d);
    if c.month == month && c.day == day {
      SameYear(c.year, year, month, day);
    } else if Real(Civil(year, month, day)) {
      DateRoundTrip(Civil(year, month, day));
    }
  }

  lemma SameYear(y: int, z: int, month: int, day: int)
    requires 0 <= month < 12 && MakeDay(y, month, day) == MakeDay(z, month, day)
    ensures y == z
  {
    hide DayFromYear, IsLeap;
    InRange(month);
    if y < z {
      YearsGrow(y, z);
    } else if z < y {
      YearsGrow(z, y);
    }
  }

  /** The dates the field accepts: shaped, and on the calendar; 29 February of year 0 is the one real date refused. */
  lemma ParseAcceptsRealDates(value: string)
    ensures
      ParseIsoDate(value) ==
      if IsShaped(Trim(value)) && Real(Parts(Trim(value))) && Parts(Trim(value)) != Civil(0, 1, 29)
      then Some(Parts(Trim(value)))
      else None
  {
    if IsShaped(Trim(value)) {
      var c := Parts(Trim(value));
      ValuePads(Trim(value)[..4]);
      assert Power10(4) == 10000;
      SurvivesIfReal(UtcYear(c.year), c.month, c.day);
      UtcLeap(c.year);
    }
  }

  // ---- Parsing inverts printing ----

  lemma PadReads(n: nat)
    requires n <= 99
    ensures |Pad(n)| == 2 && AllDigits(Pad(n)) && Value(Pad(n)) == n
  {
    assert Power10(2) == 100;
    PaddedReads(n, 2);
  }

  lemma YearText(year: int)
    ensures |Text(year)| == 4 && AllDigits(Text(year)) <==> 1000 <= year <= 9999
    ensures year >= 0 ==> AllDigits(Text(year)) && Value(Text(year)) == year
    ensures year < 0 ==> Text(year) == "-" + Text(-year)
  {
    assert Power10(4) == 10000 && Power10(3) == 1000;
    if year >= 0 {
      DecimalReads(year);
      DecimalLength(year, 3);
      DecimalLength(year, 4);
    } else {
      assert !IsDigit(Text(year)[0]);
    }
  }

  lemma Unspaced(s: string)
    requires s != "" && !IsSpace(s[0]) && !IsSpace(s[|s| - 1])
    ensures Trim(s) == s
  {
  }

  lemma IsoShape(y: string, m: string, d: string)
    requires |m| == 2 && |d| == 2 && AllDigits(m) && AllDigits(d) && |y| == 4 && AllDigits(y)
    ensures
      var s := y + "-" + m + "-" + d;
      IsShaped(s) && s[..4] == y && s[5..7] == m && s[8..] == d && Trim(s) == s
  {
    hide Trim;
    var s := y + "-" + m + "-" + d;
    assert s[..4] == y && s[4] == '-';
    assert s[5..7] == m && s[7] == '-';
    assert s[8..] == d;
    assert s[0] == y[0] && s[9] == d[1];
    Unspaced(s);
  }

  lemma IsoReads(c: Civil)
    requires Real(c) && 1000 <= c.year <= 9999
    ensures
      var s := ToIso(c.year, c.month, c.day);
      IsShaped(s) && Trim(s) == s && Parts(s) == c
  {
    AtLeast28(c.year, c.month);
    PadReads(c.month + 1);
    PadReads(c.day);
    YearText(c.year);
    IsoShape(Text(c.year), Pad(c.month + 1), Pad(c.day));
  }

  /** The year's text takes up all but the last six characters. */
  lemma IsoUnshaped(c: Civil)
    requires Real(c) && !(1000 <= c.year <= 9999)
    ensures
      var s := ToIso(c.year, c.month, c.day);
      !IsShaped(s) && Trim(s) == s
  {
    var s := ToIso(c.year, c.month, c.day);
    AtLeast28(c.year, c.month);
    PadReads(c.month + 1);
    PadReads(c.day);
    YearText(c.year);
    assert s[|s| - 1] == Pad(c.day)[1];
    if c.year >= 0 {
      DecimalReads(c.year);
    }
    assert s[0] == Text(c.year)[0];
    Unspaced(s);
    if |s| == 10 {
      assert s[..4] == Text(c.year);
    }
  }

  /** The field reads a cell's text back as the cell's date exactly for the four-digit years. */
  lemma ParseInvertsCell(day: int, month: int)
    ensures
      var c := FromDay(day);
      ParseIsoDate(CellOf(day, month).iso) == if 1000 <= c.year <= 9999 then Some(c) else None
  {
    var c := FromDay(day);
    DayRoundTrip(day);
    ParseAcceptsRealDates(CellOf(day, month).iso);
    if 1000 <= c.year <= 9999 {
      IsoReads(c);
    } else {
      IsoUnshaped(c);
    }
  }

  // ---- The grid ----

  /** The first cell is the Sunday on or before the first of the month: whole weeks from 4 January 1970, a Sunday. */
  lemma GridStartsOnSunday(year: int, month: int)
    ensures WeekDay(GridStart(year, month)) == 0
    ensures (GridStart(year, month) - 3) % 7 == 0
    ensures GridStart(year, month) <= UtcDay(year, month, 1) < GridStart(year, month) + 7
  {
    hide MakeDay, FromDay;
  }

  /**
   * Of the 42 cells exactly the days 1 to the month's length are marked as in the month,
   * in that order, without a gap.
   */
  lemma InMonthCells(year: int, month: int, index: int)
    requires 0 <= month < 12 && 0 <= index < 42
    ensures
      var cell := CellOf(GridStart(year, month) + index, month);
      var day := index - WeekDay(UtcDay(year, month, 1)) + 1;
      && (cell.inMonth <==> 1 <= day <= MonthLength(UtcYear(year), month))
      && (cell.inMonth ==> cell.day == day && cell.iso == ToIso(UtcYear(year), month, day))
  {
    hide MakeDay, FromDay;
    var y := UtcYear(year);
    var day := index - WeekDay(UtcDay(year, month, 1)) + 1;
    GridStartsOnSunday(year, month);
    AtLeast28(y, month);
    DaysCount(y, month, day);
    if day < 1 {
      DaysRollBack(y, month, day);
    } else if day <= MonthLength(y, month) {
      DateRoundTrip(Civil(y, month, day));
    } else {
      DaysRollOn(y, month, day);
    }
  }

  /** The month's own days all fit. */
  lemma MonthFits(year: int, month: int, day: int)
    requires 0 <= month < 12 && 1 <= day <= MonthLength(UtcYear(year), month)
    ensures 0 <= day - 1 + WeekDay(UtcDay(year, month, 1)) < 42
  {
    AtLeast28(UtcYear(year), month);
  }

  lemma LeadingZero(s: string, c: Civil)
    requires IsShaped(s) && Parts(s).year < 1000 && c.year > 0
    ensures ToIso(c.year, c.month, c.day) != s
  {
    var y := s[..4];
    ValuePads(y);
    assert Power10(3) == 1000;
    DecimalLength(Value(y), 3);
    DecimalReads(c.year);
    assert s[0] == y[0] == '0';
    assert ToIso(c.year, c.month, c.day)[0] == Decimal(c.year)[0];
  }

  /** A four-digit year, two-digit month and day print as they were written. */
  lemma PrintsAsWritten(s: string)
    requires IsShaped(s) && Parts(s).year >= 1000
    ensures ToIso(Parts(s).year, Parts(s).month, Parts(s).day) == s
  {
    ValuePads(s[..4]);
    ValuePads(s[5..7]);
    ValuePads(s[8..]);
    YearText(Value(s[..4]));
    assert Power10(4) == 10000;
    assert s == s[..4] + "-" + s[5..7] + "-" + s[8..];
  }

  /** Opening the picker on an accepted value shows a cell with that value exactly from the year 1000 on. */
  lemma GridShowsTheValue(value: string)
    requires ParseIsoDate(value).Some?
    ensures
      var c := ParseIsoDate(value).value;
      c.year >= 1000 <==>
      exists day :: 0 <= day - GridStart(c.year, c.month) < 42 && CellOf(day, c.month).iso == Trim(value)
  {
    hide MakeDay, FromDay;
    var c := ParseIsoDate(value).value;
    ParseAcceptsRealDates(value);
    if c.year >= 1000 {
      var i := c.day - 1 + WeekDay(UtcDay(c.year, c.month, 1));
      MonthFits(c.year, c.month, c.day);
      InMonthCells(c.year, c.month, i);
      PrintsAsWritten(Trim(value));
    } else {
      forall day | 0 <= day - GridStart(c.year, c.month) < 42
        ensures CellOf(day, c.month).iso != Trim(value)
      {
        CellYear(c.year, c.month, day - GridStart(c.year, c.month));
        LeadingZero(Trim(value), FromDay(day));
      }
    }
  }

  /** No cell is more than a month from the month shown. */
  lemma CellYear(year: int, month: int, index: int)
    requires 0 <= month < 12 && 0 <= index < 42
    ensures UtcYear(year) - 1 <= FromDay(GridStart(year, month) + index).year <= UtcYear(year) + 1
  {
    hide MakeDay, FromDay;
    var y := UtcYear(year);
    var day := index - WeekDay(UtcDay(year, month, 1)) + 1;
    AtLeast28(y, month);
    DaysCount(y, month, day);
    if day < 1 {
      DaysRollBack(y, month, day);
    } else if day <= MonthLength(y, month) {
      DateRoundTrip(Civil(y, month, day));
    } else {
      DaysRollOn(y, month, day);
    }
  }

  // ---- Paging ----

  /** Paging adds months: the month is counted from the year `Date.UTC` reads. */
  lemma ShiftCountsMonths(year: int, month: int, delta: int)
    ensures
      var shown := ShiftMonth(year, month, delta);
      0 <= shown.month < 12 && 12 * shown.year + shown.month == 12 * UtcYear(year) + month + delta
  {
    hide FromDay, DayFromYear, DaysBefore;
    var y, m := UtcYear(year) + (month + delta) / 12, (month + delta) % 12;
    InRange(m);
    DateRoundTrip(Civil(y, m, 1));
  }

  lemma SameMonth(a: Month, b: Month)
    requires 0 <= a.month < 12 && 0 <= b.month < 12
    ensures a == b <==> 12 * a.year + a.month == 12 * b.year + b.month
  {
  }

  /** Paging twice is paging once by the sum exactly if the month paged through is not in the years 0 to 99. */
  lemma ShiftsAdd(year: int, month: int, first: int, second: int)
    ensures
      var through := ShiftMonth(year, month, first);
      ShiftMonth(through.year, through.month, second) == ShiftMonth(year, month, first + second)
      <==> !(0 <= (12 * UtcYear(year) + month + first) / 12 <= 99)
  {
    hide MakeDay, FromDay, ShiftMonth;
    var through := ShiftMonth(year, month, first);
    ShiftCountsMonths(year, month, first);
    ShiftCountsMonths(through.year, through.month, second);
    ShiftCountsMonths(year, month, first + second);
    SameMonth(ShiftMonth(through.year, through.month, second), ShiftMonth(year, month, first + second));
  }

  /** Paging there and back returns exactly if neither month is in the years 0 to 99. */
  lemma ShiftReturns(year: int, month: int, delta: int)
    requires 0 <= month < 12
    ensures
      var through := ShiftMonth(year, month, delta);
      ShiftMonth(through.year, through.month, -delta) == Month(year, month)
      <==> !(0 <= year <= 99) && !(0 <= (12 * UtcYear(year) + month + delta) / 12 <= 99)
  {
    hide MakeDay, FromDay, ShiftMonth;
    var through := ShiftMonth(year, month, delta);
    ShiftCountsMonths(year, month, delta);
    ShiftCountsMonths(through.year, through.month, -delta);
    SameMonth(ShiftMonth(through.year, through.month, -delta), Month(year, month));
  }

  // ---- Where they fail ----

  /** One page back from January 100, and one page on again, is January 2000. */
  lemma PagingBackFromTheYear100()
    ensures ShiftMonth(100, 0, -1) == Month(99, 11)
    ensures ShiftMonth(99, 11, 1) == Month(2000, 0)
  {
    hide MakeDay, FromDay, ShiftMonth;
    ShiftCountsMonths(100, 0, -1);
    ShiftCountsMonths(99, 11, 1);
  }

  /** A real date that the field refuses. */
  lemma LeapDayOfYear0IsRefused()
    ensures Real(Civil(0, 1, 29)) && ParseIsoDate("0000-02-29") == None
  {
    hide FromDay, MakeDay, ParseIsoDate, Parts, IsShaped, Trim;
    LeapDayText();
    ParseAcceptsRealDates("0000-02-29");
  }

  lemma LeapDayText()
    ensures
      var s := "0000-02-29";
      Trim(s) == s && IsShaped(s) && Parts(s) == Civil(0, 1, 29)
  {
    hide Value, Trim;
    var s := "0000-02-29";
    Unspaced(s);
    LeapDayNumbers();
    assert s[..4] == "0000" && s[5..7] == "02" && s[8..] == "29";
  }

  lemma LeapDayNumbers()
    ensures AllDigits("0000") && AllDigits("02") && AllDigits("29")
    ensures Value("0000") == 0 && Value("02") == 2 && Value("29") == 29
  {
    hide Value;
    assert Decimal(2) == "2" && Decimal(29) == "29" && Decimal(0) == "0";
    assert Padded(Decimal(0), 4) == "0000" && Padded(Decimal(2), 2) == "02" && Padded(Decimal(29), 2) == "29";
    PaddedReads(0, 4);
    PaddedReads(2, 2);
    PaddedReads(29, 2);
  }

  lemma YearTextOf999()
    ensures ToIso(999, 0, 1) == "999-01-01"
  {
    assert Decimal(9) == "9" && Decimal(99) == "99" && Decimal(999) == "999";
    assert Pad(1) == "01" by {
      assert Decimal(1) == "1";
    }
  }

  /** A cell of the year 999 cannot be read back. */
  lemma CellOfYear999IsNotRead()
    ensures
      var cell := CellOf(MakeDay(999, 0, 1), 0);
      cell.iso == "999-01-01" && cell.day == 1 && ParseIsoDate(cell.iso) == None
  {
    hide FromDay, MakeDay, ToIso, ParseIsoDate;
    DateRoundTrip(Civil(999, 0, 1));
    YearTextOf999();
    ParseInvertsCell(MakeDay(999, 0, 1), 0);
  }
}
