/** The slots' timestamps: RFC 3339 section 5.6, minute precision, with the zone's offset. */
module Timestamps {
  import opened Options
  import opened Text
  import opened CivilCalendar
  import opened TimeZones

  function HHMM(minutes: int): (s: string)
    requires 0 <= minutes < 6000
    ensures |s| == 5
  {
    TwoDigits(minutes / 60) + ":" + TwoDigits(minutes % 60)
  }

  /** The instants a stamp can spell: a year of four digits, an offset below a day. */
  predicate Printable(z: Zone, t: int) {
    FourDigitYear(LocalDay(z, t)) && -DAY_MINUTES < z(t / MINUTE) < DAY_MINUTES
  }

  function Stamp(date: CivilDate, minutes: int, offset: int): (s: string)
    requires ValidDate(date) && 0 <= date.y < 10000
    requires 0 <= minutes < DAY_MINUTES && -DAY_MINUTES < offset < DAY_MINUTES
    ensures |s| == 25
  {
    DateKey(date) + "T" + HHMM(minutes) + ":00"
    + (if offset < 0 then "-" else "+") + HHMM(if offset < 0 then -offset else offset)
  }

  lemma PrintableYear(z: Zone, t: int)
    requires Printable(z, t)
    ensures 100 <= DateOfDay(LocalDay(z, t)).y < 10000
  {
    FourDigitYearDate(LocalDay(z, t));
  }

  /** The digits of `s[i..j]` as a number, when they are digits. */
  function Field(s: string, i: nat, j: nat): Option<int>
    requires i <= j <= |s|
  {
    if AllDigits(s[i..j]) then Some(Number(s[i..j])) else None
  }

  datatype Stamped = Stamped(date: CivilDate, minutes: int, offset: int)

  /** The reader's half: the date, the time and the offset of a stamp. */
  function ReadStamp(s: string): (r: Option<Stamped>)
    ensures r.Some? ==> ValidDate(r.value.date)
  {
    if |s| != 25 || s[4] != '-' || s[7] != '-' || s[10] != 'T' || s[13] != ':' || s[16..19] != ":00"
       || (s[19] != '+' && s[19] != '-') || s[22] != ':' then None
    else
      match (Field(s, 0, 4), Field(s, 5, 7), Field(s, 8, 10))
      case (Some(y), Some(mo), Some(d)) =>
        if !ValidDate(CivilDate(y, mo, d)) then None
        else
          (match (Field(s, 11, 13), Field(s, 14, 16), Field(s, 20, 22), Field(s, 23, 25))
           case (Some(h), Some(min), Some(oh), Some(om)) =>
             if !(h < 24 && min < 60 && oh < 24 && om < 60) then None
             else
               var offset := oh * 60 + om;
               Some(Stamped(CivilDate(y, mo, d), h * 60 + min, if s[19] == '-' then -offset else offset))
           case _ => None)
      case _ => None
  }

  /** Date.parse of a stamp: the instant whose wall clock, east of UTC by the offset, it spells. */
  function DateParse(s: string): Option<int> {
    match ReadStamp(s)
    case Some(r) => Some((DayNumber(r.date.y, r.date.mo, r.date.d) * DAY_MINUTES + r.minutes - r.offset) * MINUTE)
    case None => None
  }

  lemma HHMMRead(s: string, i: nat, minutes: int)
    requires 0 <= minutes < DAY_MINUTES && i + 5 <= |s| && s[i..i + 5] == HHMM(minutes)
    ensures Field(s, i, i + 2) == Some(minutes / 60) && s[i + 2] == ':' && Field(s, i + 3, i + 5) == Some(minutes % 60)
  {
    assert s[i..i + 2] == s[i..i + 5][..2] == TwoDigits(minutes / 60);
    assert s[i + 3..i + 5] == s[i..i + 5][3..] == TwoDigits(minutes % 60);
    assert s[i + 2] == s[i..i + 5][2];
    TwoDigitsRead(minutes / 60);
    TwoDigitsRead(minutes % 60);
  }

  lemma DateKeyRead(s: string, c: CivilDate)
    requires ValidDate(c) && 0 <= c.y < 10000 && |s| >= 10 && s[..10] == DateKey(c)
    ensures Field(s, 0, 4) == Some(c.y) && s[4] == '-' && Field(s, 5, 7) == Some(c.mo)
    ensures s[7] == '-' && Field(s, 8, 10) == Some(c.d)
  {
    assert s[0..4] == s[..10][..4] == FourDigits(c.y);
    assert s[5..7] == s[..10][5..7] == TwoDigits(c.mo);
    assert s[8..10] == s[..10][8..] == TwoDigits(c.d);
    assert s[4] == s[..10][4] && s[7] == s[..10][7];
    FourDigitsRead(c.y);
    TwoDigitsRead(c.mo);
    TwoDigitsRead(c.d);
  }

  lemma StampFields(c: CivilDate, minutes: int, offset: int)
    requires ValidDate(c) && 0 <= c.y < 10000
    requires 0 <= minutes < DAY_MINUTES && -DAY_MINUTES < offset < DAY_MINUTES
    ensures var s := Stamp(c, minutes, offset);
      && s[..10] == DateKey(c) && s[10] == 'T' && s[11..16] == HHMM(minutes) && s[16..19] == ":00"
      && s[19] == (if offset < 0 then '-' else '+')
      && s[20..25] == HHMM(if offset < 0 then -offset else offset)
  {
  }

  lemma StampRead(c: CivilDate, minutes: int, offset: int)
    requires ValidDate(c) && 0 <= c.y < 10000
    requires 0 <= minutes < DAY_MINUTES && -DAY_MINUTES < offset < DAY_MINUTES
    ensures ReadStamp(Stamp(c, minutes, offset)) == Some(Stamped(c, minutes, offset))
  {
    hide Stamp, Field, HHMM, DateKey, DaysInMonth;
    var s := Stamp(c, minutes, offset);
    var abs := if offset < 0 then -offset else offset;
    StampFields(c, minutes, offset);
    DateKeyRead(s, c);
    HHMMRead(s, 11, minutes);
    HHMMRead(s, 20, abs);
  }

  lemma DatesSpelled()
    ensures ValidDate(CivilDate(2026, 10, 23)) && ValidDate(CivilDate(987, 2, 5))
    ensures DateKey(CivilDate(2026, 10, 23)) == "2026-10-23" && DateKey(CivilDate(987, 2, 5)) == "0987-02-05"
  {
    assert FourDigits(2026) == "2026" && TwoDigits(10) == "10" && TwoDigits(23) == "23";
    assert FourDigits(987) == "0987" && TwoDigits(2) == "02" && TwoDigits(5) == "05";
  }

  lemma ClocksSpelled()
    ensures HHMM(0) == "00:00" && HHMM(990) == "16:30" && HHMM(210) == "03:30"
    ensures HHMM(67) == "01:07" && HHMM(545) == "09:05"
  {
  }

  /** Stamps as they are spelled, east and west of Greenwich and there. */
  lemma StampsSpelled()
    ensures ValidDate(CivilDate(2026, 10, 23)) && ValidDate(CivilDate(987, 2, 5))
    ensures Stamp(CivilDate(2026, 10, 23), 990, 0) == "2026-10-23T16:30:00+00:00"
    ensures Stamp(CivilDate(2026, 10, 23), 990, 210) == "2026-10-23T16:30:00+03:30"
    ensures Stamp(CivilDate(987, 2, 5), 67, -545) == "0987-02-05T01:07:00-09:05"
  {
    DatesSpelled();
    ClocksSpelled();
    hide DateKey, HHMM, ValidDate;
  }

  lemma StampParse(c: CivilDate, minutes: int, offset: int)
    requires ValidDate(c) && 0 <= c.y < 10000
    requires 0 <= minutes < DAY_MINUTES && -DAY_MINUTES < offset < DAY_MINUTES
    ensures DateParse(Stamp(c, minutes, offset)) ==
            Some((DayNumber(c.y, c.mo, c.d) * DAY_MINUTES + minutes - offset) * MINUTE)
  {
    StampRead(c, minutes, offset);
  }

  lemma WallClock(z: Zone, t: int, c: CivilDate, offset: int)
    requires ValidDate(c) && DayNumber(c.y, c.mo, c.d) == LocalDay(z, t)
    requires offset == WallMinute(z, t) - t / MINUTE
    ensures (DayNumber(c.y, c.mo, c.d) * DAY_MINUTES + LocalMinute(z, t) - offset) * MINUTE == t - t % MINUTE
  {
  }

  lemma StampOfWall(c: CivilDate, minutes: int, offset: int, whole: int)
    requires ValidDate(c) && 0 <= c.y < 10000
    requires 0 <= minutes < DAY_MINUTES && -DAY_MINUTES < offset < DAY_MINUTES
    requires (DayNumber(c.y, c.mo, c.d) * DAY_MINUTES + minutes - offset) * MINUTE == whole
    ensures DateParse(Stamp(c, minutes, offset)) == Some(whole)
  {
    StampParse(c, minutes, offset);
  }

  lemma OffsetShown(z: Zone, t: int)
    ensures WallMinute(z, t) - t / MINUTE == z(t / MINUTE)
  {
  }

  lemma ShownStamp(z: Zone, t: int, c: CivilDate)
    requires Printable(z, t) && ValidDate(c) && 0 <= c.y < 10000
    requires DayNumber(c.y, c.mo, c.d) == LocalDay(z, t)
    ensures DateParse(Stamp(c, LocalMinute(z, t), WallMinute(z, t) - t / MINUTE)) == Some(t - t % MINUTE)
  {
    hide DateParse, Stamp, DayNumber, WallMinute, LocalDay, LocalMinute, DaysInMonth;
    var offset := WallMinute(z, t) - t / MINUTE;
    OffsetShown(z, t);
    WallClock(z, t, c, offset);
    StampOfWall(c, LocalMinute(z, t), offset, t - t % MINUTE);
  }

  /** A slot's `at`: reading it gives its own minute back, whatever the zone's offset. */
  function IsoWithOffset(z: Zone, t: int): (s: string)
    requires Printable(z, t)
    ensures |s| == 25
    ensures DateParse(s) == Some(t - t % MINUTE)
  {
    PrintableYear(z, t);
    DayOfDate(LocalDay(z, t));
    ShownStamp(z, t, DateOfDay(LocalDay(z, t)));
    Stamp(DateOfDay(LocalDay(z, t)), LocalMinute(z, t), WallMinute(z, t) - t / MINUTE)
  }
}
