/** Calendar dates as Date.UTC and the Date getters compute them: the proleptic
    Gregorian calendar, with days counted from 1 January 1970. */
module CivilCalendar {
  import opened Text

  datatype CivilDate = CivilDate(y: int, mo: int, d: int)

  function DaysBeforeYear(y: int): int {
    365 * (y - 1970) + (y - 1969) / 4 - (y - 1901) / 100 + (y - 1601) / 400
  }

  predicate IsLeap(y: int) {
    y % 4 == 0 && (y % 100 != 0 || y % 400 == 0)
  }

  function DaysInYear(y: int): int {
    if IsLeap(y) then 366 else 365
  }

  /** How many multiples of 4, of 100 and of 400 the year `y` adds to those counted before it. */
  lemma MoreFours(y: int)
    ensures (y - 1968) / 4 - (y - 1969) / 4 == if y % 4 == 0 then 1 else 0
  {
  }

  lemma MoreHundreds(y: int)
    ensures (y - 1900) / 100 - (y - 1901) / 100 == if y % 100 == 0 then 1 else 0
  {
  }

  lemma MoreFourHundreds(y: int)
    ensures (y - 1600) / 400 - (y - 1601) / 400 == if y % 400 == 0 then 1 else 0
  {
  }

  lemma CenturyIsFour(y: int)
    requires y % 100 == 0
    ensures y % 4 == 0
  {
    var k := y / 100;
    assert y == 4 * (25 * k);
  }

  lemma FourHundredIsCentury(y: int)
    requires y % 400 == 0
    ensures y % 100 == 0
  {
    var k := y / 400;
    assert y == 100 * (4 * k);
  }

  function LeapDay(y: int): int {
    (if y % 4 == 0 then 1 else 0) - (if y % 100 == 0 then 1 else 0) + (if y % 400 == 0 then 1 else 0)
  }

  lemma LeapDayIs(y: int)
    ensures DaysInYear(y) == 365 + LeapDay(y)
  {
    if y % 100 == 0 {
      CenturyIsFour(y);
    }
    if y % 400 == 0 {
      FourHundredIsCentury(y);
    }
  }

  lemma YearLength(y: int)
    ensures DaysBeforeYear(y + 1) == DaysBeforeYear(y) + DaysInYear(y)
  {
    hide DaysInYear;
    LeapDayIs(y);
    MoreFours(y);
    MoreHundreds(y);
    MoreFourHundreds(y);
  }

  /** Days of the year before month `mo`, which may also be 13: the year's length. */
  function DaysBeforeMonth(y: int, mo: int): int
    requires 1 <= mo <= 13
  {
    (if mo == 1 then 0
     else if mo == 2 then 31
     else if mo == 3 then 59
     else if mo == 4 then 90
     else if mo == 5 then 120
     else if mo == 6 then 151
     else if mo == 7 then 181
     else if mo == 8 then 212
     else if mo == 9 then 243
     else if mo == 10 then 273
     else if mo == 11 then 304
     else if mo == 12 then 334
     else 365)
    + (if mo > 2 && IsLeap(y) then 1 else 0)
  }

  function DaysInMonth(y: int, mo: int): int
    requires 1 <= mo <= 12
  {
    DaysBeforeMonth(y, mo + 1) - DaysBeforeMonth(y, mo)
  }

  predicate ValidDate(c: CivilDate) {
    1 <= c.mo <= 12 && 1 <= c.d <= DaysInMonth(c.y, c.mo)
  }

  /** Date.UTC(y, mo - 1, d) in days; `d` may run past the month's end, as the source's walk lets it. */
  function DayNumber(y: int, mo: int, d: int): int
    requires 1 <= mo <= 12
  {
    DaysBeforeYear(y) + DaysBeforeMonth(y, mo) + d - 1
  }

  function YearFrom(day: int, y: int): (r: int)
    ensures DaysBeforeYear(r) <= day < DaysBeforeYear(r + 1)
    decreases if DaysBeforeYear(y) <= day then day - DaysBeforeYear(y) else DaysBeforeYear(y) - day + 366
  {
    YearLength(y);
    YearLength(y - 1);
    if day < DaysBeforeYear(y) then YearFrom(day, y - 1)
    else if DaysBeforeYear(y + 1) <= day then YearFrom(day, y + 1)
    else y
  }

  function MonthFrom(y: int, inYear: int, mo: int): (r: int)
    requires 1 <= mo <= 12 && DaysBeforeMonth(y, mo) <= inYear < DaysInYear(y)
    ensures 1 <= r <= 12 && DaysBeforeMonth(y, r) <= inYear < DaysBeforeMonth(y, r + 1)
    decreases 12 - mo
  {
    if mo < 12 && DaysBeforeMonth(y, mo + 1) <= inYear then MonthFrom(y, inYear, mo + 1) else mo
  }

  /** The date of day `inYear` of the year, counted from zero. */
  function DateInYear(y: int, inYear: int): (c: CivilDate)
    requires 0 <= inYear < DaysInYear(y)
    ensures ValidDate(c) && c.y == y && DaysBeforeMonth(y, c.mo) + c.d - 1 == inYear
  {
    var mo := MonthFrom(y, inYear, 1);
    CivilDate(y, mo, inYear - DaysBeforeMonth(y, mo) + 1)
  }

  function DateOfDay(day: int): (c: CivilDate)
    ensures ValidDate(c)
  {
    var y := YearFrom(day, 1970);
    YearLength(y);
    DateInYear(y, day - DaysBeforeYear(y))
  }

  /** A day's date names that day again. */
  lemma DayOfDate(day: int)
    ensures var c := DateOfDay(day); DayNumber(c.y, c.mo, c.d) == day
  {
  }

  lemma {:induction false} YearsAscend(y: int, z: int)
    requires y <= z
    ensures DaysBeforeYear(y) + 365 * (z - y) <= DaysBeforeYear(z)
    decreases z - y
  {
    if y < z {
      YearLength(z - 1);
      YearsAscend(y, z - 1);
    }
  }

  lemma YearsUnique(a: CivilDate, b: CivilDate)
    requires ValidDate(a) && ValidDate(b) && a.y < b.y
    ensures DayNumber(a.y, a.mo, a.d) < DayNumber(b.y, b.mo, b.d)
  {
    hide DaysBeforeYear, IsLeap;
    YearLength(a.y);
    YearsAscend(a.y + 1, b.y);
  }

  /** Two valid dates of the same day are the same date. */
  lemma DatesUnique(a: CivilDate, b: CivilDate)
    requires ValidDate(a) && ValidDate(b)
    requires DayNumber(a.y, a.mo, a.d) == DayNumber(b.y, b.mo, b.d)
    ensures a == b
  {
    hide DaysBeforeYear, IsLeap;
    if a.y < b.y {
      YearsUnique(a, b);
    } else if b.y < a.y {
      YearsUnique(b, a);
    }
  }

  lemma DateOfDayNumber(c: CivilDate)
    requires ValidDate(c)
    ensures DateOfDay(DayNumber(c.y, c.mo, c.d)) == c
  {
    var day := DayNumber(c.y, c.mo, c.d);
    DayOfDate(day);
    DatesUnique(DateOfDay(day), c);
  }

  // ----- the calendar on the wall

  /** Thirty days hath September; the year 1900 had no leap day, and 2000 had one. */
  predicate LastOfMonth(c: CivilDate) {
    if c.mo in {4, 6, 9, 11} then c.d == 30
    else if c.mo != 2 then c.d == 31
    else if c.y % 4 == 0 && (c.y % 100 != 0 || c.y % 400 == 0) then c.d == 29
    else c.d == 28
  }

  function Tomorrow(c: CivilDate): CivilDate {
    if !LastOfMonth(c) then CivilDate(c.y, c.mo, c.d + 1)
    else if c.mo == 12 then CivilDate(c.y + 1, 1, 1)
    else CivilDate(c.y, c.mo + 1, 1)
  }

  lemma MonthEnds(c: CivilDate)
    requires ValidDate(c)
    ensures LastOfMonth(c) <==> c.d == DaysInMonth(c.y, c.mo)
  {
  }

  lemma YearIsItsMonths(y: int)
    ensures DaysBeforeMonth(y, 13) == DaysInYear(y)
  {
  }

  lemma FirstDay()
    ensures DateOfDay(0) == CivilDate(1970, 1, 1)
  {
    hide DateOfDay;
    assert DayNumber(1970, 1, 1) == 0;
    DateOfDayNumber(CivilDate(1970, 1, 1));
  }

  lemma TomorrowIsNext(c: CivilDate)
    requires ValidDate(c)
    ensures ValidDate(Tomorrow(c))
    ensures var n := Tomorrow(c); DayNumber(n.y, n.mo, n.d) == DayNumber(c.y, c.mo, c.d) + 1
  {
    hide DaysBeforeYear, LastOfMonth;
    MonthEnds(c);
    YearLength(c.y);
    YearIsItsMonths(c.y);
  }

  /** Day numbers count the calendar: day 0 is 1 January 1970, and every day's date is followed by the next day's. */
  lemma DateOfNextDay(day: int)
    ensures DateOfDay(0) == CivilDate(1970, 1, 1)
    ensures DateOfDay(day + 1) == Tomorrow(DateOfDay(day))
  {
    hide DateOfDay, Tomorrow, DayNumber;
    FirstDay();
    DayOfDate(day);
    TomorrowIsNext(DateOfDay(day));
    DateOfDayNumber(Tomorrow(DateOfDay(day)));
  }

  /** 0 is Sunday; 1 January 1970 was a Thursday. */
  function DayOfWeek(day: int): (r: int)
    ensures 0 <= r < 7
  {
    (day + 4) % 7
  }

  /** The days whose dates have a four-digit year (and no two-digit one, which Date.UTC moves to the 1900s). */
  predicate FourDigitYear(day: int) {
    DaysBeforeYear(100) <= day < DaysBeforeYear(10000)
  }

  lemma FourDigitYearDate(day: int)
    requires FourDigitYear(day)
    ensures 100 <= DateOfDay(day).y < 10000
  {
    var y := DateOfDay(day).y;
    if y < 100 {
      YearsAscend(y + 1, 100);
    } else if y >= 10000 {
      YearsAscend(10000, y);
    }
  }

  /** Those days and no others: the years from 100 to 9999. */
  lemma FourDigitYears(day: int)
    ensures FourDigitYear(day) <==> 100 <= DateOfDay(day).y <= 9999
  {
    hide DateOfDay;
    var c := DateOfDay(day);
    DayOfDate(day);
    YearLength(c.y);
    if FourDigitYear(day) {
      FourDigitYearDate(day);
    } else if 100 <= c.y <= 9999 {
      YearsAscend(100, c.y);
      YearsAscend(c.y + 1, 10000);
    }
  }

  function DateKey(c: CivilDate): (s: string)
    requires ValidDate(c) && 0 <= c.y < 10000
    ensures |s| == 10
  {
    FourDigits(c.y) + "-" + TwoDigits(c.mo) + "-" + TwoDigits(c.d)
  }

  /** Only its own date has a date's key, so an override hits one day. */
  lemma DateKeysDiffer(a: CivilDate, b: CivilDate)
    requires ValidDate(a) && 0 <= a.y < 10000
    requires ValidDate(b) && 0 <= b.y < 10000
    requires DateKey(a) == DateKey(b)
    ensures a == b
  {
    var k, l := DateKey(a), DateKey(b);
    assert k[..4] == FourDigits(a.y) && k[5..7] == TwoDigits(a.mo) && k[8..] == TwoDigits(a.d);
    assert l[..4] == FourDigits(b.y) && l[5..7] == TwoDigits(b.mo) && l[8..] == TwoDigits(b.d);
    FourDigitsRead(a.y);
    FourDigitsRead(b.y);
    TwoDigitsRead(a.mo);
    TwoDigitsRead(b.mo);
    TwoDigitsRead(a.d);
    TwoDigitsRead(b.d);
  }
}
