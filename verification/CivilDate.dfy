/**
 * Day numbers and Gregorian dates: the abstract operations of ECMA-262 5.1,
 * sections 15.9.1.3 to 15.9.1.6 and 15.9.1.12, on whole days.
 */
module CivilDate {

  /** Months count from 0, days from 1. */
  datatype Civil = Civil(year: int, month: int, day: int)

  predicate IsLeap(y: int) {
    y % 4 == 0 && (y % 100 != 0 || y % 400 == 0)
  }

  function DaysInYear(y: int): int {
    if IsLeap(y) then 366 else 365
  }

  function DayFromYear(y: int): int {
    365 * (y - 1970) + (y - 1969) / 4 - (y - 1901) / 100 + (y - 1601) / 400
  }

  function DaysIn(leap: bool, month: int): int {
    if month == 1 then (if leap then 29 else 28)
    else if month == 3 || month == 5 || month == 8 || month == 10 then 30
    else 31
  }

  function MonthLength(year: int, month: int): int {
    DaysIn(IsLeap(year), month)
  }

  /** Days of the year before the given month. */
  function DaysBefore(leap: bool, month: int): int {
    var february := if leap then 29 else 28;
    match month
    case 0 => 0
    case 1 => 31
    case 2 => 31 + february
    case 3 => 62 + february
    case 4 => 92 + february
    case 5 => 123 + february
    case 6 => 153 + february
    case 7 => 184 + february
    case 8 => 215 + february
    case 9 => 245 + february
    case 10 => 276 + february
    case 11 => 306 + february
    case _ => 337 + february
  }

  ghost predicate Real(c: Civil) {
    0 <= c.month < 12 && 1 <= c.day <= MonthLength(c.year, c.month)
  }

  lemma YearLength(y: int)
    ensures DayFromYear(y + 1) - DayFromYear(y) == DaysInYear(y)
  {
    FourthYears(y);
    Centuries(y);
    FourthCenturies(y);
    Multiples(y);
  }

  lemma FourthYears(y: int)
    ensures (y + 1 - 1969) / 4 == (y - 1969) / 4 + (if y % 4 == 0 then 1 else 0)
  {
  }

  lemma Centuries(y: int)
    ensures (y + 1 - 1901) / 100 == (y - 1901) / 100 + (if y % 100 == 0 then 1 else 0)
  {
  }

  lemma FourthCenturies(y: int)
    ensures (y + 1 - 1601) / 400 == (y - 1601) / 400 + (if y % 400 == 0 then 1 else 0)
  {
  }

  lemma Multiples(y: int)
    ensures y % 400 == 0 ==> y % 100 == 0
    ensures y % 100 == 0 ==> y % 4 == 0
  {
  }

  lemma {:induction false} YearsGrow(y: int, z: int)
    requires y < z
    ensures DayFromYear(y) + 365 * (z - y) <= DayFromYear(z) <= DayFromYear(y) + 366 * (z - y)
    decreases z - y
  {
    hide DayFromYear, IsLeap;
    YearLength(z - 1);
    if y < z - 1 {
      YearsGrow(y, z - 1);
    }
  }

  function YearUp(d: int, y: int): (year: int)
    requires DayFromYear(y) <= d
    ensures DayFromYear(year) <= d < DayFromYear(year + 1)
    decreases d - DayFromYear(y)
  {
    YearLength(y);
    if d < DayFromYear(y + 1) then y else YearUp(d, y + 1)
  }

  function YearDown(d: int, y: int): (year: int)
    requires d < DayFromYear(y + 1)
    ensures DayFromYear(year) <= d < DayFromYear(year + 1)
    decreases DayFromYear(y + 1) - d
  {
    YearLength(y);
    if DayFromYear(y) <= d then y else YearDown(d, y - 1)
  }

  /** YearFromTime: the largest year that starts on or before the day. */
  function YearFromDay(d: int): (year: int)
    ensures DayFromYear(year) <= d < DayFromYear(year) + DaysInYear(year)
  {
    var year := if 0 <= d then YearUp(d, 1970) else YearDown(d, 1969);
    YearLength(year);
    year
  }

  lemma YearIsUnique(d: int, y: int)
    requires DayFromYear(y) <= d < DayFromYear(y + 1)
    ensures YearFromDay(d) == y
  {
    hide DayFromYear, DaysInYear, YearFromDay;
    var z := YearFromDay(d);
    YearLength(z);
    if y < z {
      if y + 1 < z {
        YearsGrow(y + 1, z);
      }
    } else if z < y {
      if z + 1 < y {
        YearsGrow(z + 1, y);
      }
    }
  }

  /** The table adds up the month lengths. */
  lemma MonthsAddUp(leap: bool, month: int)
    requires 0 <= month < 12
    ensures DaysBefore(leap, month + 1) == DaysBefore(leap, month) + DaysIn(leap, month)
  {
  }

  lemma {:induction false} MonthsGrow(leap: bool, m: int, n: int)
    requires 0 <= m <= n <= 12
    ensures DaysBefore(leap, m) + 28 * (n - m) <= DaysBefore(leap, n)
    decreases n
  {
    if m < n {
      MonthsAddUp(leap, n - 1);
      MonthsGrow(leap, m, n - 1);
    }
  }

  /** MonthFromTime, from the day within the year. */
  function MonthOf(leap: bool, dayInYear: int): (month: int)
    requires 0 <= dayInYear < (if leap then 366 else 365)
    ensures 0 <= month < 12
    ensures DaysBefore(leap, month) <= dayInYear < DaysBefore(leap, month + 1)
  {
    if dayInYear < DaysBefore(leap, 1) then 0
    else if dayInYear < DaysBefore(leap, 2) then 1
    else if dayInYear < DaysBefore(leap, 3) then 2
    else if dayInYear < DaysBefore(leap, 4) then 3
    else if dayInYear < DaysBefore(leap, 5) then 4
    else if dayInYear < DaysBefore(leap, 6) then 5
    else if dayInYear < DaysBefore(leap, 7) then 6
    else if dayInYear < DaysBefore(leap, 8) then 7
    else if dayInYear < DaysBefore(leap, 9) then 8
    else if dayInYear < DaysBefore(leap, 10) then 9
    else if dayInYear < DaysBefore(leap, 11) then 10
    else 11
  }

  /** The date of a day counted from 0 at the start of the year. */
  function InYear(year: int, leap: bool, dayInYear: int): Civil
    requires 0 <= dayInYear < (if leap then 366 else 365)
  {
    var month := MonthOf(leap, dayInYear);
    Civil(year, month, dayInYear - DaysBefore(leap, month) + 1)
  }

  /** The date of a day number. */
  function FromDay(d: int): Civil {
    var year := YearFromDay(d);
    InYear(year, IsLeap(year), d - DayFromYear(year))
  }

  /** MakeDay: months and days beyond their range roll over. */
  function MakeDay(year: int, month: int, date: int): int {
    var y := year + month / 12;
    DayFromYear(y) + DaysBefore(IsLeap(y), month % 12) + date - 1
  }

  function WeekDay(d: int): int {
    (d + 4) % 7
  }

  lemma EpochYear()
    ensures DayFromYear(1970) == 0
  {
  }

  lemma EpochMonth()
    ensures DaysBefore(IsLeap(1970), 0) == 0 && 0 / 12 == 0 && 0 % 12 == 0
  {
  }

  /** 4 January 1970 was a Sunday. */
  lemma ASunday()
    ensures MakeDay(1970, 0, 4) == 3 && WeekDay(3) == 0
  {
    hide DayFromYear, IsLeap, DaysBefore;
    EpochYear();
    EpochMonth();
  }

  /** Each day is the next day of the week. */
  lemma WeekDaysFollow(d: int)
    ensures 0 <= WeekDay(d) < 7 && WeekDay(d + 1) == (if WeekDay(d) == 6 then 0 else WeekDay(d) + 1)
  {
    var week := (d + 4) / 7;
    assert d + 4 == 7 * week + WeekDay(d);
    if WeekDay(d) == 6 {
      assert d + 5 == 7 * (week + 1);
    }
  }

  lemma MonthIsUnique(leap: bool, month: int, dayInYear: int)
    requires 0 <= month < 12 && DaysBefore(leap, month) <= dayInYear < DaysBefore(leap, month + 1)
    ensures 0 <= dayInYear < (if leap then 366 else 365)
    ensures MonthOf(leap, dayInYear) == month
  {
    MonthsGrow(leap, 0, month);
    MonthsGrow(leap, month + 1, 12);
    var found := MonthOf(leap, dayInYear);
    if found < month {
      MonthsGrow(leap, found + 1, month);
    } else if month < found {
      MonthsGrow(leap, month + 1, found);
    }
  }

  /** Every day number is the date it is written as. */
  lemma DayRoundTrip(d: int)
    ensures Real(FromDay(d))
    ensures MakeDay(FromDay(d).year, FromDay(d).month, FromDay(d).day) == d
  {
    hide DayFromYear, YearFromDay, MonthOf, IsLeap;
    var c := FromDay(d);
    InRange(c.month);
  }

  lemma InRange(month: int)
    requires 0 <= month < 12
    ensures month / 12 == 0 && month % 12 == month
  {
  }

  lemma DayWithinYear(c: Civil)
    requires Real(c)
    ensures 0 <= DaysBefore(IsLeap(c.year), c.month) + c.day - 1 < DaysInYear(c.year)
  {
    MonthsGrow(IsLeap(c.year), 0, c.month);
    MonthsGrow(IsLeap(c.year), c.month + 1, 12);
  }

  lemma FromDayOfYear(year: int, leap: bool, start: int, d: int, dayInYear: int)
    requires leap == IsLeap(year) && start == DayFromYear(year)
    requires 0 <= dayInYear < (if leap then 366 else 365)
    requires d == start + dayInYear
    ensures FromDay(d) == InYear(year, leap, dayInYear)
  {
    hide DayFromYear, YearFromDay, IsLeap, InYear;
    YearLength(year);
    YearIsUnique(d, year);
  }

  lemma InYearInverts(year: int, leap: bool, month: int, day: int)
    requires 0 <= month < 12 && 1 <= day <= DaysIn(leap, month)
    ensures 0 <= DaysBefore(leap, month) + day - 1 < (if leap then 366 else 365)
    ensures InYear(year, leap, DaysBefore(leap, month) + day - 1) == Civil(year, month, day)
  {
    MonthIsUnique(leap, month, DaysBefore(leap, month) + day - 1);
  }

  lemma FromDayOfMonth(year: int, month: int, day: int, leap: bool, start: int, d: int)
    requires leap == IsLeap(year) && start == DayFromYear(year)
    requires 0 <= month < 12 && 1 <= day <= DaysIn(leap, month)
    requires d == start + DaysBefore(leap, month) + day - 1
    ensures FromDay(d) == Civil(year, month, day)
  {
    hide DayFromYear, FromDay, DaysBefore, DaysIn, IsLeap, InYear;
    InYearInverts(year, leap, month, day);
    FromDayOfYear(year, leap, start, d, DaysBefore(leap, month) + day - 1);
  }

  lemma MakeDayOf(c: Civil)
    requires Real(c)
    ensures MakeDay(c.year, c.month, c.day) == DayFromYear(c.year) + DaysBefore(IsLeap(c.year), c.month) + c.day - 1
  {
    InRange(c.month);
  }

  /** Every date is the day number it is counted as. */
  lemma DateRoundTrip(c: Civil)
    requires Real(c)
    ensures FromDay(MakeDay(c.year, c.month, c.day)) == c
  {
    hide DayFromYear, FromDay, DaysBefore, DaysIn, IsLeap, MakeDay;
    MakeDayOf(c);
    FromDayOfMonth(c.year, c.month, c.day, IsLeap(c.year), DayFromYear(c.year), MakeDay(c.year, c.month, c.day));
  }

  ghost predicate Earlier(a: Civil, b: Civil) {
    || a.year < b.year
    || (a.year == b.year && (a.month < b.month || (a.month == b.month && a.day < b.day)))
  }

  /** Counting days and comparing dates agree. */
  lemma DaysFollowDates(a: Civil, b: Civil)
    requires Real(a) && Real(b)
    ensures Earlier(a, b) <==> MakeDay(a.year, a.month, a.day) < MakeDay(b.year, b.month, b.day)
  {
    EarlierIsLess(a, b);
    EarlierIsLess(b, a);
  }

  lemma EarlierIsLess(a: Civil, b: Civil)
    requires Real(a) && Real(b)
    ensures Earlier(a, b) ==> MakeDay(a.year, a.month, a.day) < MakeDay(b.year, b.month, b.day)
  {
    hide DayFromYear, DaysBefore, IsLeap, DaysInYear;
    InRange(a.month);
    InRange(b.month);
    if a.year < b.year {
      DayWithinYear(a);
      DayWithinYear(b);
      LaterYear(a.year, b.year);
    } else if a.year == b.year {
      if a.month < b.month {
        LaterMonth(IsLeap(a.year), a.month, b.month);
      }
    }
  }

  lemma LaterYear(y: int, z: int)
    requires y < z
    ensures DayFromYear(y) + DaysInYear(y) <= DayFromYear(z)
  {
    hide DayFromYear, IsLeap;
    YearLength(y);
    if y + 1 < z {
      YearsGrow(y + 1, z);
    }
  }

  lemma LaterMonth(leap: bool, m: int, n: int)
    requires 0 <= m < n < 12
    ensures DaysBefore(leap, m) + DaysIn(leap, m) <= DaysBefore(leap, n)
  {
    MonthsAddUp(leap, m);
    MonthsGrow(leap, m + 1, n);
  }

  // ---- Days that roll into the neighbouring month ----

  function MonthBefore(c: Civil): Civil {
    if c.month == 0 then Civil(c.year - 1, 11, c.day) else Civil(c.year, c.month - 1, c.day)
  }

  function MonthAfter(c: Civil): Civil {
    if c.month == 11 then Civil(c.year + 1, 0, c.day) else Civil(c.year, c.month + 1, c.day)
  }

  /** Month lengths add up: the month after starts where this one ends. */
  lemma MonthsFollow(year: int, month: int)
    requires 0 <= month < 12
    ensures
      var after := MonthAfter(Civil(year, month, 1));
      MakeDay(after.year, after.month, 1) == MakeDay(year, month, 1) + MonthLength(year, month)
  {
    hide DayFromYear, IsLeap;
    InRange(month);
    if month == 11 {
      InRange(0);
      YearLength(year);
    } else {
      InRange(month + 1);
    }
  }

  lemma DaysCount(year: int, month: int, date: int)
    ensures MakeDay(year, month, date) == MakeDay(year, month, 1) + date - 1
  {
  }

  lemma AtLeast28(year: int, month: int)
    requires 0 <= month < 12
    ensures 28 <= MonthLength(year, month) <= 31
  {
  }

  lemma RollsInto(d: int, c: Civil)
    requires Real(c) && d == MakeDay(c.year, c.month, 1) + c.day - 1
    ensures FromDay(d) == c
  {
    hide FromDay, MakeDay, Real;
    DaysCount(c.year, c.month, c.day);
    assert d == MakeDay(c.year, c.month, c.day);
    DateRoundTrip(c);
  }

  /** A day of -27 to 0 falls in the month before. */
  lemma DaysRollBack(year: int, month: int, date: int)
    requires 0 <= month < 12 && -27 <= date <= 0
    ensures
      var c, before := FromDay(MakeDay(year, month, date)), MonthBefore(Civil(year, month, 1));
      c.year == before.year && c.month == before.month
  {
    hide FromDay, MakeDay;
    var before := MonthBefore(Civil(year, month, 1));
    var day := MonthLength(before.year, before.month) + date;
    AtLeast28(before.year, before.month);
    MonthsFollow(before.year, before.month);
    DaysCount(year, month, date);
    RollsInto(MakeDay(year, month, date), before.(day := day));
  }

  /** Up to 28 days past the end fall in the month after. */
  lemma DaysRollOn(year: int, month: int, date: int)
    requires 0 <= month < 12 && MonthLength(year, month) < date <= MonthLength(year, month) + 28
    ensures
      var c, after := FromDay(MakeDay(year, month, date)), MonthAfter(Civil(year, month, 1));
      c.year == after.year && c.month == after.month
  {
    hide FromDay, MakeDay;
    var after := MonthAfter(Civil(year, month, 1));
    var day := date - MonthLength(year, month);
    AtLeast28(after.year, after.month);
    MonthsFollow(year, month);
    DaysCount(year, month, date);
    RollsInto(MakeDay(year, month, date), after.(day := day));
  }

  // ---- Date.UTC ----

  /** `Date.UTC` reads the years 0 to 99 as 1900 to 1999. */
  function UtcYear(year: int): int {
    if 0 <= year <= 99 then 1900 + year else year
  }

  function UtcDay(year: int, month: int, date: int): int {
    MakeDay(UtcYear(year), month, date)
  }
}
