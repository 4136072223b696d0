/** computeCallbackSlots itself: its nested loops, proved to collect the walk
    of CallbackSlots and to mark each instant free or not. */
module ComputeSlots {
  import opened Options
  import opened CivilCalendar
  import opened TimeZones
  import opened Timestamps
  import opened CallbackHours
  import opened CallbackSlots
  import opened SlotWalkProofs
  import Sorting

  lemma DeskSpansValid(desk: Desk, now: int)
    requires desk.hours.Some?
    ensures OpenSpansValid(WalkOf(desk, now)) && SoundStarts(WalkOf(desk, now))
  {
    var w := WalkOf(desk, now);
    ZoneStartsSound(w);
    forall day, s | s in w.open(day)
      ensures ValidSpan(s)
    {
      var spans := UsableSpans(IntervalsForDate(desk.hours.value, day));
      assert w.open(day) == spans;
      var i :| 0 <= i < |spans| && spans[i] == s;
    }
  }

  lemma YearsBetween(a: int, b: int, day: int)
    requires FourDigitYear(a) && FourDigitYear(b) && a <= day <= b
    ensures FourDigitYear(day)
  {
  }

  lemma OfferedPrintable(desk: Desk, now: int)
    requires ClockInRange(desk, now)
    ensures forall t :: t in OfferedTimes(desk, now) ==> Printable(desk.zone, t) && t % MINUTE == 0
  {
    if desk.hours.Some? {
      var w := WalkOf(desk, now);
      DeskSpansValid(desk, now);
      TimesShape(w);
      forall t | t in Times(w)
        ensures Printable(desk.zone, t) && t % MINUTE == 0
      {
        YearsBetween(w.today, w.today + MAX_WALK_DAYS, LocalDay(w.z, t));
      }
    }
  }

  /** How a desk prints instants; an instant no stamp can spell prints as nothing, and none is offered. */
  function Printer(z: Zone): int -> string {
    (t: int) => if Printable(z, t) then IsoWithOffset(z, t) else ""
  }

  function FreeNow(desk: Desk, booked: seq<int>, now: int): int -> bool {
    (t: int) => Free(SlotLength(desk), Capacity(desk.capacity), booked, now, t)
  }

  function Marked(stamp: int -> string, free: int -> bool, times: seq<int>): (r: seq<Slot>)
    ensures |r| == |times|
    ensures forall i :: 0 <= i < |times| ==> r[i] == Slot(stamp(times[i]), free(times[i]))
  {
    if times == [] then []
    else
      var t := times[|times| - 1];
      Marked(stamp, free, times[..|times| - 1]) + [Slot(stamp(t), free(t))]
  }

  function SlotsOf(desk: Desk, booked: seq<Option<int>>, now: int): seq<Slot> {
    Marked(Printer(desk.zone), FreeNow(desk, Countable(Capacity(desk.capacity), booked), now), OfferedTimes(desk, now))
  }

  /** Every printed slot reads back as its instant. */
  lemma SlotsReadBack(desk: Desk, booked: seq<Option<int>>, now: int)
    requires ClockInRange(desk, now)
    ensures var times, slots := OfferedTimes(desk, now), SlotsOf(desk, booked, now);
      |slots| == |times| && forall i :: 0 <= i < |times| ==> DateParse(slots[i].at) == Some(times[i])
  {
    var times, slots := OfferedTimes(desk, now), SlotsOf(desk, booked, now);
    OfferedPrintable(desk, now);
    forall i | 0 <= i < |times|
      ensures DateParse(slots[i].at) == Some(times[i])
    {
      assert times[i] in times;
      PrintedReadsBack(desk.zone, times[i]);
      assert slots[i].at == Printer(desk.zone)(times[i]);
    }
  }

  lemma PrintedReadsBack(z: Zone, t: int)
    requires Printable(z, t) && t % MINUTE == 0
    ensures DateParse(Printer(z)(t)) == Some(t)
  {
    hide IsoWithOffset, DateParse, Printable;
    assert Printer(z)(t) == IsoWithOffset(z, t);
  }

  /** The list a visitor sees: at most 128 slots, strictly in order, none past the horizon, at most 32 of a local
      day and `daysAhead` local days; each the start of a wall time its own date's hours offer, and available
      exactly when it is soon enough from now and its bookings are below the capacity. */
  lemma SlotsShape(desk: Desk, booked: seq<Option<int>>, now: int)
    requires ClockInRange(desk, now) && desk.hours.Some?
    ensures var slots, times, w := SlotsOf(desk, booked, now), OfferedTimes(desk, now), WalkOf(desk, now);
      && |slots| == |times| <= MAX_SLOTS
      && (forall i :: 0 <= i < |slots| ==>
            && DateParse(slots[i].at) == Some(times[i]) && IsStart(w, times[i]) && times[i] <= now + MAX_AHEAD_MS
            && (slots[i].available <==>
                  Free(w.slot, Capacity(desk.capacity), Countable(Capacity(desk.capacity), booked), now, times[i])))
      && (forall i, j :: 0 <= i < j < |slots| ==> times[i] < times[j])
      && (forall day :: |OnDay(desk.zone, times, day)| <= MAX_PER_DAY)
      && |LocalDays(desk.zone, times)| <= ClampInt(desk.daysAhead, DAYS_AHEAD)
  {
    hide Times, Collected, DateParse, IsStart, Free, OnDay, LocalDays, Countable, Capacity, ClampInt, ClockInRange;
    var w := WalkOf(desk, now);
    DeskSpansValid(desk, now);
    TimesShape(w);
    SlotsReadBack(desk, booked, now);
    var times := OfferedTimes(desk, now);
    assert forall i :: 0 <= i < |times| ==> times[i] in times;
  }

  /** Nothing open is passed over: in a zone with at most one change around that day, a wall time that exists, on the
      grid of a span of one of the first `daysAhead` open days, is a slot of the list, unless it lies past the window,
      its day has its 32 slots or the list its 128. */
  lemma OpenTimeIsListed(desk: Desk, booked: seq<Option<int>>, now: int, k: nat, s: Span, m: int)
    requires ClockInRange(desk, now) && desk.hours.Some? && k < MAX_WALK_DAYS
    requires var day := LocalDay(desk.zone, now) + k;
      && AtMostOneChange(desk.zone, (day - 1) * DAY_MINUTES, (day + 2) * DAY_MINUTES)
      && s in OpenSpans(desk.hours.value)(day) && OnGrid(s, SlotLength(desk), m)
      && Exists(desk.zone, day * DAY_MINUTES + m)
    requires OpenDaysFrom(WalkOf(desk, now), 0, k) < ClampInt(desk.daysAhead, DAYS_AHEAD)
    ensures var day := LocalDay(desk.zone, now) + k;
      var start, slots := StartOf(desk.zone, day, m), SlotsOf(desk, booked, now);
      && start.Some?
      && (|| start.value > now + MAX_AHEAD_MS
          || (exists i :: 0 <= i < |slots| && DateParse(slots[i].at) == start)
          || |OnDay(desk.zone, OfferedTimes(desk, now), day)| == MAX_PER_DAY
          || |slots| == MAX_SLOTS)
  {
    hide SlotsOf, DateParse, OpenSpans, FourDigitYear, OnDay, Collected, Exists, AtMostOneChange, StartOf, OpenDaysFrom,
      OpenSpansValid, SoundStarts, SlotLength, ClampInt;
    var w := WalkOf(desk, now);
    var day := w.today + k;
    DeskSpansValid(desk, now);
    assert ValidSpan(s) by { SpanOpen(desk, now, day, s); }
    StartComplete(desk.zone, day, m);
    if w.start(day, m).value <= w.horizon {
      NothingOpenIsPassedOver(w, k, s, m);
      SlotsReadBack(desk, booked, now);
      if |Times(w)| != MAX_SLOTS {
        TimesAreCollected(w, day);
      }
      var times := OfferedTimes(desk, now);
      if w.start(day, m).value in times {
        var i :| 0 <= i < |times| && times[i] == w.start(day, m).value;
        assert DateParse(SlotsOf(desk, booked, now)[i].at) == w.start(day, m);
      }
    }
  }

  lemma SpanOpen(desk: Desk, now: int, day: int, s: Span)
    requires desk.hours.Some? && s in OpenSpans(desk.hours.value)(day)
    ensures ValidSpan(s)
  {
    DeskSpansValid(desk, now);
    assert s in WalkOf(desk, now).open(day);
  }

  /** A list that is not full holds all that was collected. */
  lemma TimesAreCollected(w: Walk, day: int)
    requires ValidWalk(w) && |Times(w)| != MAX_SLOTS
    ensures OnDay(w.z, Times(w), day) == OnDay(w.z, Collected(w), day)
  {
    hide Collected;
    Sorting.SortKeepsMembers(Earlier(), Collected(w));
  }

  // ----- the loops

  /** The day `offset` days after the one shown now: date arithmetic on the local date, no zone lookup. */
  method DayAfter(z: Zone, now: int, offset: nat) returns (day: int)
    ensures day == LocalDay(z, now) + offset
  {
    var today := PartsInTz(z, now);
    DayOfDate(LocalDay(z, now));
    day := DayNumber(today.y, today.mo, today.d + offset);
  }

  method StartAt(w: Walk, day: int, m: int) returns (t: Option<int>)
    requires w.start == Starts(w.z)
    ensures t == w.start(day, m)
  {
    hide DayNumber, MinuteOfWall, DateOfDay, DaysInMonth;
    var c := DateOfDay(day);
    DayOfDate(day);
    t := WallInstant(c.y, c.mo, c.d, m / 60, m % 60, w.z);
  }

  method DayIntervals(hours: Hours, day: int) returns (list: seq<HoursInterval>)
    requires FourDigitYear(day)
    ensures |list| == |OpenSpans(hours)(day)|
    ensures forall i :: 0 <= i < |list| ==>
      ValidSpan(OpenSpans(hours)(day)[i]) && list[i] == Printed(OpenSpans(hours)(day)[i])
  {
    FourDigitYearDate(day);
    list := UsableIntervals(IntervalsFor(hours, DateKey(DateOfDay(day)), DayOfWeek(day)));
  }

  method ParsedSpan(it: HoursInterval, ghost s: Span) returns (from: int, to: int)
    requires ValidSpan(s) && it == Printed(s)
    ensures from == s.from && to == s.to
  {
    hide HHMM, ParseHHMM;
    ParsePrinted(s.from);
    ParsePrinted(s.to);
    var f := ParseHHMM(Some(it.from));
    var t := ParseHHMM(Some(it.to));
    from, to := f.value.Minutes(), t.value.Minutes();
  }

  method CollectSpan(w: Walk, day: int, from: int, to: int, instants: seq<int>, seen: set<int>, inDay: int)
    returns (instants': seq<int>, seen': set<int>, inDay': int)
    requires ValidWalk(w) && w.start == Starts(w.z)
    requires seen == Members(instants)
    ensures (instants', inDay') == WalkSpan(w, day, from, to, instants, inDay)
    ensures seen' == Members(instants')
  {
    hide StartOf, DateOfDay;
    instants', seen', inDay' := instants, seen, inDay;
    var m := from;
    while m < to && inDay' < MAX_PER_DAY
      invariant WalkSpan(w, day, m, to, instants', inDay') == WalkSpan(w, day, from, to, instants, inDay)
      invariant seen' == Members(instants')
      decreases if m < to then to - m else 0
    {
      var t := StartAt(w, day, m);
      if t.None? || t.value in seen' {
        m := m + w.slot;
        continue;
      }
      if t.value > w.horizon {
        break;
      }
      MembersAppend(instants', t.value);
      seen' := seen' + {t.value};
      instants' := instants' + [t.value];
      inDay' := inDay' + 1;
      m := m + w.slot;
    }
  }

  method CollectDay(w: Walk, day: int, list: seq<HoursInterval>, instants: seq<int>, seen: set<int>,
                    ghost spans: seq<Span>)
    returns (instants': seq<int>, seen': set<int>)
    requires ValidWalk(w) && w.start == Starts(w.z)
    requires |list| == |spans| && forall i :: 0 <= i < |list| ==> ValidSpan(spans[i]) && list[i] == Printed(spans[i])
    requires seen == Members(instants)
    ensures instants' == WalkDay(w, day, spans, instants, 0).0
    ensures seen' == Members(instants')
  {
    hide WalkSpan, StartOf;
    instants', seen' := instants, seen;
    var inDay := 0;
    var i := 0;
    assert spans[0..] == spans;
    while i < |list|
      invariant 0 <= i <= |list|
      invariant WalkDay(w, day, spans[i..], instants', inDay) == WalkDay(w, day, spans, instants, 0)
      invariant seen' == Members(instants')
    {
      var from, to := ParsedSpan(list[i], spans[i]);
      assert spans[i..][0] == spans[i] && spans[i..][1..] == spans[i + 1..];
      instants', seen', inDay := CollectSpan(w, day, from, to, instants', seen', inDay);
      i := i + 1;
    }
  }

  method ComputeCallbackSlots(desk: Desk, booked: seq<Option<int>>, now: int) returns (slots: seq<Slot>)
    requires ClockInRange(desk, now)
    ensures slots == SlotsOf(desk, booked, now)
  {
    if desk.hours.None? {
      return [];
    }
    var w := WalkOf(desk, now);
    var instants := CollectInstants(desk, now, w);
    var sorted := Sorting.Sort(Earlier(), instants);
    var times := FirstSlots(sorted);
    var capacity := Capacity(desk.capacity);
    var counted := Countable(capacity, booked);
    slots := Marked(Printer(desk.zone), FreeNow(desk, counted, now), times);
  }

  method CollectInstants(desk: Desk, now: int, w: Walk) returns (instants: seq<int>)
    requires desk.hours.Some? && ClockInRange(desk, now) && w == WalkOf(desk, now)
    ensures instants == Collected(w)
  {
    hide StartOf, DaysBeforeYear, UsableSpans, IntervalsForDate, WalkDay;
    instants := [];
    var seen: set<int> := {};
    var openDays, offset := 0, 0;
    while offset < MAX_WALK_DAYS && openDays < w.daysAhead && |instants| < MAX_SLOTS
      invariant 0 <= offset <= MAX_WALK_DAYS && 0 <= openDays
      invariant WalkDays(w, offset, openDays, instants) == Collected(w)
      invariant seen == Members(instants)
    {
      var day := DayAfter(desk.zone, now, offset);
      YearsBetween(w.today, w.today + MAX_WALK_DAYS, day);
      var list := DayIntervals(desk.hours.value, day);
      offset := offset + 1;
      if |list| == 0 {
        continue;
      }
      openDays := openDays + 1;
      instants, seen := CollectDay(w, day, list, instants, seen, w.open(day));
    }
  }

  /** Is the asked time (None when it does not parse) within a minute of an available slot? */
  predicate IsBookableSlot(slots: seq<Slot>, asked: Option<int>) {
    asked.Some? && exists i :: 0 <= i < |slots| && Bookable(slots[i], asked.value)
  }

  predicate Bookable(s: Slot, t: int) {
    var at := DateParse(s.at);
    s.available && at.Some? && -TOLERANCE_MS <= at.value - t <= TOLERANCE_MS
  }

  /** A free offered instant within a minute of the asked time. */
  ghost predicate Grants(desk: Desk, booked: seq<int>, now: int, t: int, asked: int) {
    && t in OfferedTimes(desk, now)
    && -TOLERANCE_MS <= t - asked <= TOLERANCE_MS
    && Free(SlotLength(desk), Capacity(desk.capacity), booked, now, t)
  }

  /** `slots` prints `times`, marked by `free`. */
  ghost predicate Lists(slots: seq<Slot>, times: seq<int>, free: int -> bool) {
    |slots| == |times|
    && forall i :: 0 <= i < |slots| ==> DateParse(slots[i].at) == Some(times[i]) && slots[i].available == free(times[i])
  }

  lemma BookableInList(slots: seq<Slot>, times: seq<int>, free: int -> bool, asked: int)
    requires Lists(slots, times, free)
    ensures IsBookableSlot(slots, Some(asked)) <==>
      exists t :: t in times && free(t) && -TOLERANCE_MS <= t - asked <= TOLERANCE_MS
  {
    hide DateParse;
    if IsBookableSlot(slots, Some(asked)) {
      var i :| 0 <= i < |slots| && Bookable(slots[i], asked);
      assert times[i] in times && free(times[i]);
    }
    if exists t :: t in times && free(t) && -TOLERANCE_MS <= t - asked <= TOLERANCE_MS {
      var t :| t in times && free(t) && -TOLERANCE_MS <= t - asked <= TOLERANCE_MS;
      var i :| 0 <= i < |times| && times[i] == t;
      assert Bookable(slots[i], asked);
    }
  }

  lemma SlotsListed(desk: Desk, booked: seq<Option<int>>, now: int)
    requires ClockInRange(desk, now)
    ensures Lists(SlotsOf(desk, booked, now), OfferedTimes(desk, now),
                  FreeNow(desk, Countable(Capacity(desk.capacity), booked), now))
  {
    hide OfferedTimes, IsoWithOffset, DateParse, Free;
    SlotsReadBack(desk, booked, now);
  }

  /** Booking accepts exactly the times within a minute of a free offered instant. */
  lemma BookableMeans(desk: Desk, booked: seq<Option<int>>, now: int, asked: int)
    requires ClockInRange(desk, now)
    ensures IsBookableSlot(SlotsOf(desk, booked, now), Some(asked)) <==>
      exists t :: Grants(desk, Countable(Capacity(desk.capacity), booked), now, t, asked)
  {
    hide OfferedTimes, SlotsOf, Lists, Free, IsBookableSlot;
    var counted := Countable(Capacity(desk.capacity), booked);
    SlotsListed(desk, booked, now);
    BookableInList(SlotsOf(desk, booked, now), OfferedTimes(desk, now), FreeNow(desk, counted, now), asked);
    forall t
      ensures Grants(desk, counted, now, t, asked) <==>
        (t in OfferedTimes(desk, now) && FreeNow(desk, counted, now)(t) && -TOLERANCE_MS <= t - asked <= TOLERANCE_MS)
    {
    }
  }
}
