/** The workspace's callback hours: which wall times of a day are open (shared/callbackSlots.ts). */
module CallbackHours {
  import opened Options
  import opened Text
  import opened CivilCalendar
  import opened Timestamps
  import Sorting

  /** One stored interval, read defensively: a field that is not a string is None. */
  datatype RawInterval = NotAnObject | RawInterval(from: Option<string>, to: Option<string>)

  /** One override; `intervals` is None when the field is not an array. */
  datatype Override = Override(date: Option<string>, closed: bool, intervals: Option<seq<RawInterval>>)

  /** `weekly` has the days whose field is an array. */
  datatype Hours = Hours(weekly: map<string, seq<RawInterval>>, overrides: seq<Option<Override>>)

  datatype HoursInterval = HoursInterval(from: string, to: string)

  datatype Clock = Clock(h: int, m: int) {
    function Minutes(): int {
      h * 60 + m
    }
  }

  /** Minutes of the day, `from` before `to`. */
  datatype Span = Span(from: int, to: int)

  predicate ValidSpan(s: Span) {
    0 <= s.from < s.to < 1440
  }

  const DAY_KEYS: seq<string> := ["sun", "mon", "tue", "wed", "thu", "fri", "sat"]
  const MAX_INTERVALS_PER_DAY := 6

  /** One or two digits, a colon, two digits; an hour below 24 and a minute below 60. */
  function ParseHHMM(v: Option<string>): (r: Option<Clock>)
    ensures r.Some? ==> 0 <= r.value.h < 24 && 0 <= r.value.m < 60
  {
    if v.None? then None
    else
      var s := Trim(v.value);
      if !(4 <= |s| <= 5) || s[|s| - 3] != ':' || !AllDigits(s[..|s| - 3]) || !AllDigits(s[|s| - 2..]) then None
      else
        var h, m := Number(s[..|s| - 3]), Number(s[|s| - 2..]);
        if h > 23 || m > 59 then None else Some(Clock(h, m))
  }

  /** The printed form reads back as the same clock: what lets the walk parse the intervals again. */
  lemma ParsePrinted(minutes: int)
    requires 0 <= minutes < 1440
    ensures ParseHHMM(Some(HHMM(minutes))) == Some(Clock(minutes / 60, minutes % 60))
  {
    var s := HHMM(minutes);
    TrimTidy(s);
    assert s[..2] == TwoDigits(minutes / 60) && s[3..] == TwoDigits(minutes % 60);
    TwoDigitsRead(minutes / 60);
    TwoDigitsRead(minutes % 60);
  }

  lemma DigitsOfTwo(s: string)
    requires |s| == 2 && AllDigits(s)
    ensures Number(s) < 100
    ensures s == [Digit(Number(s) / 10), Digit(Number(s) % 10)]
  {
    NumberOfTwo(s);
  }

  lemma DigitsOfOne(s: string)
    requires |s| == 1 && AllDigits(s)
    ensures Number(s) < 10
    ensures s == [Digit(Number(s))]
  {
    assert Number(s[..0]) == 0;
  }

  /** The texts of a clock, white space around them aside: two digits of minutes, and of hours one or two. */
  ghost predicate Spells(text: string, h: int, m: int) {
    && 0 <= h < 24 && 0 <= m < 60
    && exists hour :: Trim(text) == hour + ":" + [Digit(m / 10), Digit(m % 10)]
                   && (hour == [Digit(h / 10), Digit(h % 10)] || (h < 10 && hour == [Digit(h)]))
  }

  lemma SpelledParses(text: string, hour: string, h: int, m: int)
    requires 0 <= h < 24 && 0 <= m < 60
    requires Trim(text) == hour + ":" + [Digit(m / 10), Digit(m % 10)]
    requires hour == [Digit(h / 10), Digit(h % 10)] || (h < 10 && hour == [Digit(h)])
    ensures ParseHHMM(Some(text)) == Some(Clock(h, m))
  {
    hide Trim;
    var s, minute := Trim(text), [Digit(m / 10), Digit(m % 10)];
    assert s[..|s| - 3] == hour && s[|s| - 2..] == minute && s[|s| - 3] == ':';
    NumberOfTwo(minute);
    if |hour| == 2 {
      NumberOfTwo(hour);
    } else {
      DigitsOfOne(hour);
    }
  }

  /** A text is read as a clock exactly when it spells that clock. */
  lemma ClockRead(text: string, h: int, m: int)
    ensures ParseHHMM(Some(text)) == Some(Clock(h, m)) <==> Spells(text, h, m)
  {
    hide Trim, Number;
    if ParseHHMM(Some(text)) == Some(Clock(h, m)) {
      var s := Trim(text);
      var hour, minute := s[..|s| - 3], s[|s| - 2..];
      assert s == hour + ":" + minute;
      DigitsOfTwo(minute);
      if |hour| == 2 {
        DigitsOfTwo(hour);
      } else {
        DigitsOfOne(hour);
      }
    }
    if Spells(text, h, m) {
      var hour :| Trim(text) == hour + ":" + [Digit(m / 10), Digit(m % 10)]
               && (hour == [Digit(h / 10), Digit(h % 10)] || (h < 10 && hour == [Digit(h)]));
      SpelledParses(text, hour, h, m);
    }
  }

  function SpanOf(raw: RawInterval): (r: Option<Span>)
    ensures r.Some? ==> ValidSpan(r.value)
  {
    if raw.NotAnObject? then None
    else
      match (ParseHHMM(raw.from), ParseHHMM(raw.to))
      case (Some(f), Some(t)) => if f.Minutes() >= t.Minutes() then None else Some(Span(f.Minutes(), t.Minutes()))
      case _ => None
  }

  lemma ReadClock(v: Option<string>)
    ensures ParseHHMM(v).Some? ==> v.Some?
    ensures ParseHHMM(v).Some? ==> var r := ParseHHMM(v).value;
      Spells(v.value, r.h, r.m) && r.Minutes() < 1440 && r.Minutes() / 60 == r.h && r.Minutes() % 60 == r.m
  {
    hide ParseHHMM, Spells;
    if ParseHHMM(v).Some? {
      ParsedIsText(v);
      var c := ParseHHMM(v).value;
      ClockRead(v.value, c.h, c.m);
    }
  }

  lemma ParsedIsText(v: Option<string>)
    ensures ParseHHMM(v).Some? ==> v.Some?
  {
  }

  /** The span of a stored interval: both its texts spell a clock, the first before the second. */
  lemma SpanRead(raw: RawInterval, s: Span)
    requires raw.RawInterval?
    ensures SpanOf(raw) == Some(s) <==>
      && raw.from.Some? && raw.to.Some? && s.from < s.to
      && Spells(raw.from.value, s.from / 60, s.from % 60) && Spells(raw.to.value, s.to / 60, s.to % 60)
  {
    hide ParseHHMM, Spells;
    ReadClock(raw.from);
    ReadClock(raw.to);
    if raw.from.Some? && raw.to.Some? {
      ClockRead(raw.from.value, s.from / 60, s.from % 60);
      ClockRead(raw.to.value, s.to / 60, s.to % 60);
    }
  }

  function Spans(list: seq<RawInterval>): (r: seq<Span>)
    ensures forall s :: s in r ==> ValidSpan(s)
  {
    if list == [] then []
    else
      var last := SpanOf(list[|list| - 1]);
      Spans(list[..|list| - 1]) + if last.Some? then [last.value] else []
  }

  function StartsFirst(): (Span, Span) -> bool {
    (a: Span, b: Span) => a.from <= b.from
  }

  /** The first six of the day's valid spans, in order of their starts. */
  function UsableSpans(list: seq<RawInterval>): (r: seq<Span>)
    ensures |r| <= MAX_INTERVALS_PER_DAY
    ensures forall i :: 0 <= i < |r| ==> ValidSpan(r[i])
  {
    var sorted := Sorting.Sort(StartsFirst(), Spans(list));
    Sorting.SortKeepsMembers(StartsFirst(), Spans(list));
    assert forall i :: 0 <= i < |sorted| ==> sorted[i] in sorted;
    if |sorted| <= MAX_INTERVALS_PER_DAY then sorted else sorted[..MAX_INTERVALS_PER_DAY]
  }

  lemma {:induction false} SpansComplete(list: seq<RawInterval>)
    ensures forall s :: s in Spans(list) <==> exists raw :: raw in list && SpanOf(raw) == Some(s)
  {
    if list != [] {
      SpansComplete(list[..|list| - 1]);
      assert list == list[..|list| - 1] + [list[|list| - 1]];
    }
  }

  /** How many entries of the list are valid intervals. */
  function ValidEntries(list: seq<RawInterval>): set<int> {
    set i | 0 <= i < |list| && SpanOf(list[i]).Some?
  }

  lemma {:induction false} SpansCounted(list: seq<RawInterval>)
    ensures |Spans(list)| == |ValidEntries(list)|
  {
    hide SpanOf;
    if list != [] {
      var n := |list| - 1;
      SpansCounted(list[..n]);
      assert ValidEntries(list) == ValidEntries(list[..n]) + if SpanOf(list[n]).Some? then {n} else {};
    }
  }

  lemma LeftOut(list: seq<RawInterval>, s: Span)
    requires s in Spans(list) && s !in UsableSpans(list)
    ensures var r := UsableSpans(list);
      |r| == MAX_INTERVALS_PER_DAY && forall i :: 0 <= i < |r| ==> r[i].from <= s.from
  {
    var sorted := Sorting.Sort(StartsFirst(), Spans(list));
    Sorting.SortKeepsMembers(StartsFirst(), Spans(list));
    Sorting.SortSorts(StartsFirst(), Spans(list));
    var j :| 0 <= j < |sorted| && sorted[j] == s;
    assert forall i :: 0 <= i < j ==> StartsFirst()(sorted[i], sorted[j]);
  }

  /** Only what the resolver would honour: valid spans of the list in order, all of them or the six that start first. */
  lemma UsableSpansEarliest(list: seq<RawInterval>)
    ensures var r := UsableSpans(list);
      && |r| == (if |ValidEntries(list)| < 6 then |ValidEntries(list)| else 6)
      && (forall s :: s in r ==> exists raw :: raw in list && SpanOf(raw) == Some(s))
      && (forall i, j :: 0 <= i < j < |r| ==> r[i].from <= r[j].from)
      && (forall raw, s :: raw in list && SpanOf(raw) == Some(s) && s !in r ==>
            |r| == 6 && forall i :: 0 <= i < |r| ==> r[i].from <= s.from)
  {
    hide SpanOf, ValidEntries;
    SpansCounted(list);
    var r := UsableSpans(list);
    var sorted := Sorting.Sort(StartsFirst(), Spans(list));
    SpansComplete(list);
    Sorting.SortKeepsMembers(StartsFirst(), Spans(list));
    Sorting.SortSorts(StartsFirst(), Spans(list));
    forall i, j | 0 <= i < j < |r|
      ensures r[i].from <= r[j].from
    {
      assert StartsFirst()(sorted[i], sorted[j]);
    }
    forall s | s in r
      ensures s in Spans(list)
    {
      assert s in sorted;
    }
    forall raw, s | raw in list && SpanOf(raw) == Some(s) && s !in r
      ensures |r| == MAX_INTERVALS_PER_DAY && forall i :: 0 <= i < |r| ==> r[i].from <= s.from
    {
      LeftOut(list, s);
    }
  }

  function Printed(s: Span): HoursInterval
    requires ValidSpan(s)
  {
    HoursInterval(HHMM(s.from), HHMM(s.to))
  }

  method UsableIntervals(list: seq<RawInterval>) returns (out: seq<HoursInterval>)
    ensures |out| == |UsableSpans(list)|
    ensures forall i :: 0 <= i < |out| ==> out[i] == Printed(UsableSpans(list)[i])
  {
    var found: seq<Span> := [];
    for i := 0 to |list|
      invariant found == Spans(list[..i])
    {
      assert list[..i + 1][..i] == list[..i];
      if list[i].NotAnObject? {
        continue;
      }
      var f := ParseHHMM(list[i].from);
      var t := ParseHHMM(list[i].to);
      if f.None? || t.None? || f.value.Minutes() >= t.value.Minutes() {
        continue;
      }
      found := found + [Span(f.value.Minutes(), t.value.Minutes())];
    }
    assert list[..|list|] == list;
    var sorted := Sorting.Sort(StartsFirst(), found);
    if |sorted| > MAX_INTERVALS_PER_DAY {
      sorted := sorted[..MAX_INTERVALS_PER_DAY];
    }
    assert sorted == UsableSpans(list);
    out := seq(|sorted|, i requires 0 <= i < |sorted| => Printed(sorted[i]));
  }

  /** Does the override list name this date? The first entry that does. */
  function FindOverride(overrides: seq<Option<Override>>, key: string): (r: Option<Override>)
    ensures r.Some? ==> Some(r.value) in overrides && r.value.date == Some(key)
    ensures r.None? ==> forall o :: Some(o) in overrides ==> o.date != Some(key)
  {
    if overrides == [] then None
    else if overrides[0].Some? && overrides[0].value.date == Some(key) then overrides[0]
    else FindOverride(overrides[1..], key)
  }

  function IntervalsFor(hours: Hours, key: string, dow: int): (r: seq<RawInterval>)
    requires 0 <= dow < 7
  {
    var hit := FindOverride(hours.overrides, key);
    if hit.Some? && hit.value.closed then []
    else if hit.Some? && hit.value.intervals.Some? then hit.value.intervals.value
    else if DAY_KEYS[dow] in hours.weekly then hours.weekly[DAY_KEYS[dow]]
    else []
  }

  function IntervalsForDate(hours: Hours, day: int): seq<RawInterval> {
    if FourDigitYear(day) then
      FourDigitYearDate(day);
      IntervalsFor(hours, DateKey(DateOfDay(day)), DayOfWeek(day))
    else []
  }

  /** The weekday's own list: day 3 was a Sunday, and the week goes on from there. */
  lemma WeekdayHours(hours: Hours, week: int, k: nat)
    requires k < 7 && FourDigitYear(7 * week + 3 + k)
    requires forall o :: Some(o) in hours.overrides ==> o.date != Some(DateKey(DateOfDay(7 * week + 3 + k)))
    ensures var name := ["sun", "mon", "tue", "wed", "thu", "fri", "sat"][k];
      IntervalsForDate(hours, 7 * week + 3 + k) == if name in hours.weekly then hours.weekly[name] else []
  {
    hide DateKey, DateOfDay, FourDigitYear;
    assert DayOfWeek(7 * week + 3 + k) == k;
  }

  /** The open spans of each day under these hours. */
  function OpenSpans(hours: Hours): int -> seq<Span> {
    (day: int) => UsableSpans(IntervalsForDate(hours, day))
  }

  /** The first override of a date closes that date or replaces its intervals, or leaves it to the week; every other
      date is as it was. */
  lemma OverrideDay(hours: Hours, closed: bool, intervals: Option<seq<RawInterval>>, day: int, other: int)
    requires FourDigitYear(day) && FourDigitYear(other) && day != other
    ensures 100 <= DateOfDay(day).y < 10000
    ensures var o := Override(Some(DateKey(DateOfDay(day))), closed, intervals);
      var changed := hours.(overrides := [Some(o)] + hours.overrides);
      && IntervalsForDate(changed, other) == IntervalsForDate(hours, other)
      && IntervalsForDate(changed, day) ==
           (if closed then []
            else if intervals.Some? then intervals.value
            else IntervalsForDate(hours.(overrides := []), day))
  {
    hide DateKey, DateOfDay, DayOfWeek, DayNumber;
    FourDigitYearDate(day);
    FourDigitYearDate(other);
    var key := DateKey(DateOfDay(day));
    var changed := hours.(overrides := [Some(Override(Some(key), closed, intervals))] + hours.overrides);
    DayOfDate(day);
    DayOfDate(other);
    if key == DateKey(DateOfDay(other)) {
      DateKeysDiffer(DateOfDay(day), DateOfDay(other));
    }
    assert changed.overrides[1..] == hours.overrides;
  }
}
