/** Hours whose slots overbook: three ways a workspace's settings put two offered instants closer than a slot's
    length, each with the run of bookings that passes the capacity. */
module OverbookedHours {
  import opened Options
  import opened CivilCalendar
  import opened TimeZones
  import opened Timestamps
  import opened CallbackHours
  import opened CallbackSlots
  import opened ComputeSlots
  import opened BookingRuns
  import Sorting

  // ----- a week of equal days

  ghost predicate Ascending(spans: seq<Span>) {
    && |spans| <= MAX_INTERVALS_PER_DAY
    && (forall i :: 0 <= i < |spans| ==> ValidSpan(spans[i]))
    && (forall i, j :: 0 <= i < j < |spans| ==> spans[i].from < spans[j].from)
  }

  function Stored(spans: seq<Span>): (r: seq<RawInterval>)
    requires forall s :: s in spans ==> ValidSpan(s)
  {
    if spans == [] then []
    else
      assert ValidSpan(spans[|spans| - 1]) by { assert spans[|spans| - 1] in spans; }
      var last := Printed(spans[|spans| - 1]);
      Stored(spans[..|spans| - 1]) + [RawInterval(Some(last.from), Some(last.to))]
  }

  lemma StoredSpan(s: Span)
    requires ValidSpan(s)
    ensures SpanOf(RawInterval(Some(Printed(s).from), Some(Printed(s).to))) == Some(s)
  {
    hide HHMM, ParseHHMM, Clock.Minutes;
    ParsePrinted(s.from);
    ParsePrinted(s.to);
    ClockMinutes(s.from);
    ClockMinutes(s.to);
  }

  lemma ClockMinutes(minutes: int)
    ensures Clock(minutes / 60, minutes % 60).Minutes() == minutes
  {
  }

  lemma {:induction false} StoredSpans(spans: seq<Span>)
    requires forall s :: s in spans ==> ValidSpan(s)
    ensures Spans(Stored(spans)) == spans
  {
    hide Printed, SpanOf;
    if spans != [] {
      var front, last := spans[..|spans| - 1], spans[|spans| - 1];
      StoredSpans(front);
      StoredSpan(last);
      assert Stored(spans)[..|Stored(spans)| - 1] == Stored(front);
    }
  }

  lemma StoredUsable(spans: seq<Span>)
    requires Ascending(spans)
    ensures UsableSpans(Stored(spans)) == spans
  {
    hide Spans, Stored;
    StoredSpans(spans);
    Sorting.SortSorts(StartsFirst(), spans);
    Sorting.SortedUnique(StartsFirst(), spans, Sorting.Sort(StartsFirst(), spans));
  }

  function AllWeek(spans: seq<Span>): Hours
    requires forall s :: s in spans ==> ValidSpan(s)
  {
    Hours(map k | k in DAY_KEYS :: Stored(spans), [])
  }

  lemma AllWeekOpen(spans: seq<Span>, day: int)
    requires Ascending(spans) && FourDigitYear(day)
    ensures OpenSpans(AllWeek(spans))(day) == spans
  {
    hide DateKey, DateOfDay, DaysBeforeYear, UsableSpans, Stored;
    StoredUsable(spans);
    FourDigitYearDate(day);
  }

  /** One open day offered, one callback a slot. */
  function OneDayDesk(spans: seq<Span>, zone: Zone, slot: int): Desk
    requires forall s :: s in spans ==> ValidSpan(s)
  {
    Desk(Some(AllWeek(spans)), zone, Some(slot as real), Some(1.0), Some(1.0))
  }

  ghost predicate StartsAtMidnight(z: Zone) {
    RealZone(z) && z(0) == 0
  }

  lemma MidnightClock(spans: seq<Span>, zone: Zone, slot: int)
    requires Ascending(spans) && spans != [] && StartsAtMidnight(zone) && 10 <= slot <= 240
    ensures var desk := OneDayDesk(spans, zone, slot);
      && ClockInRange(desk, 0) && SlotLength(desk) == slot && Capacity(desk.capacity) == Some(1)
      && WalkOf(desk, 0) == Walk(zone, Starts(zone), OpenSpans(AllWeek(spans)), slot, 0, 1, MAX_AHEAD_MS)
      && OpenSpans(AllWeek(spans))(0) == spans
  {
    hide AllWeek, OpenSpans;
    assert FourDigitYear(0) && FourDigitYear(MAX_WALK_DAYS);
    AllWeekOpen(spans, 0);
    assert (slot as real).Floor == slot;
  }

  /** The walk of that desk is its first day. */
  lemma OneDayCollected(w: Walk)
    requires ValidWalk(w) && w.daysAhead == 1 && w.open(w.today) != []
    ensures Collected(w) == WalkDay(w, w.today, w.open(w.today), [], 0).0
  {
    hide WalkDay;
    var acc := WalkDay(w, w.today, w.open(w.today), [], 0).0;
    assert WalkDays(w, 1, 1, acc) == acc;
  }

  /** A start collected on that day is offered. */
  lemma CollectedOffered(spans: seq<Span>, zone: Zone, slot: int, t: int)
    requires Ascending(spans) && spans != [] && StartsAtMidnight(zone) && 10 <= slot <= 240
    requires var w := WalkOf(OneDayDesk(spans, zone, slot), 0);
      var collected := WalkDay(w, 0, spans, [], 0).0;
      t in collected && |collected| <= MAX_SLOTS && t >= LEAD_MS
    ensures OfferedAt(OneDayDesk(spans, zone, slot), 0, t)
  {
    hide WalkDay, ClockInRange, AllWeek, OpenSpans, SlotLength, Capacity;
    MidnightClock(spans, zone, slot);
    var w := WalkOf(OneDayDesk(spans, zone, slot), 0);
    OneDayCollected(w);
    Sorting.SortKeepsMembers(Earlier(), Collected(w));
  }

  /** Two instants so offered and too close: the slots are not spaced, and bookings can pass the capacity. */
  lemma TooClose(desk: Desk, t: int, u: int) returns (events: seq<Event>)
    requires Capacity(desk.capacity) == Some(1) && OfferedAt(desk, 0, t) && OfferedAt(desk, 0, u)
    requires t < u < t + SlotLength(desk) * MINUTE
    ensures !Spaced(desk) && ClocksOk(desk, events)
    ensures InWindow(Run(desk, [], events), SlotLength(desk), t) == 2
  {
    hide OfferedAt, SlotLength, Capacity, InWindow;
    assert Offered(desk, t) && Offered(desk, u);
    events := CloseSlotsOverbook(desk, 1, 0, t, 0, u);
  }

  // ----- three such desks

  function Utc(): Zone {
    (u: int) => 0
  }

  lemma UtcStart(m: int)
    requires 0 <= m < DAY_MINUTES
    ensures StartOf(Utc(), 0, m) == Some(m * MINUTE)
  {
    assert Utc()(m) == 0;
  }

  /** One o'clock to a quarter past, and five past to twenty past. */
  function Overlapping(): seq<Span> {
    [Span(60, 75), Span(65, 80)]
  }

  /** One o'clock to a quarter past, then straight on: slots of ten minutes start at 60 and 70, then at 75. */
  function OffGrid(): seq<Span> {
    [Span(60, 75), Span(75, 85)]
  }

  lemma OneStep(w: Walk, day: int, m: int, to: int, acc: seq<int>, inDay: int, t: int)
    requires ValidWalk(w) && m < to && inDay < MAX_PER_DAY
    requires w.start(day, m) == Some(t) && t !in acc && t <= w.horizon
    ensures WalkSpan(w, day, m, to, acc, inDay) == WalkSpan(w, day, m + w.slot, to, acc + [t], inDay + 1)
  {
  }

  lemma OneSkip(w: Walk, day: int, m: int, to: int, acc: seq<int>, inDay: int)
    requires ValidWalk(w) && m < to && inDay < MAX_PER_DAY && w.start(day, m).None?
    ensures WalkSpan(w, day, m, to, acc, inDay) == WalkSpan(w, day, m + w.slot, to, acc, inDay)
  {
  }

  lemma SpanEnds(w: Walk, day: int, m: int, to: int, acc: seq<int>, inDay: int)
    requires ValidWalk(w) && m >= to
    ensures WalkSpan(w, day, m, to, acc, inDay) == (acc, inDay)
  {
  }

  lemma TwoSpans(w: Walk, day: int, a: Span, b: Span)
    requires ValidWalk(w)
    ensures var r := WalkSpan(w, day, a.from, a.to, [], 0);
      WalkDay(w, day, [a, b], [], 0) == WalkSpan(w, day, b.from, b.to, r.0, r.1)
  {
    hide WalkSpan;
    var r := WalkSpan(w, day, a.from, a.to, [], 0);
    var q := WalkSpan(w, day, b.from, b.to, r.0, r.1);
    assert [a, b][1..] == [b] && [b][1..] == [];
    assert WalkDay(w, day, [b], r.0, r.1) == WalkDay(w, day, [], q.0, q.1) == q;
  }

  /** Intervals that overlap. */
  lemma OverlapOverbooks() returns (events: seq<Event>)
    ensures var desk := OneDayDesk(Overlapping(), Utc(), 15);
      !Spaced(desk) && ClocksOk(desk, events) && InWindow(Run(desk, [], events), 15, 60 * MINUTE) == 2
  {
    hide WalkSpan, WalkDay, StartOf, ClockInRange, AllWeek, OpenSpans, OfferedAt, Spaced, InWindow, SlotLength;
    var spans, t, u := Overlapping(), 60 * MINUTE, 65 * MINUTE;
    var desk := OneDayDesk(spans, Utc(), 15);
    MidnightClock(spans, Utc(), 15);
    var w := WalkOf(desk, 0);
    UtcStart(60);
    UtcStart(65);
    OneStep(w, 0, 60, 75, [], 0, t);
    SpanEnds(w, 0, 75, 75, [] + [t], 1);
    OneStep(w, 0, 65, 80, [] + [t], 1, u);
    SpanEnds(w, 0, 80, 80, [] + [t] + [u], 2);
    TwoSpans(w, 0, Span(60, 75), Span(65, 80));
    CollectedOffered(spans, Utc(), 15, t);
    CollectedOffered(spans, Utc(), 15, u);
    events := TooClose(desk, t, u);
  }

  /** Intervals that follow each other off the grid. */
  lemma OffGridOverbooks() returns (events: seq<Event>)
    ensures var desk := OneDayDesk(OffGrid(), Utc(), 10);
      !Spaced(desk) && ClocksOk(desk, events) && InWindow(Run(desk, [], events), 10, 70 * MINUTE) == 2
  {
    hide WalkSpan, WalkDay, StartOf, ClockInRange, AllWeek, OpenSpans, OfferedAt, Spaced, InWindow, SlotLength;
    var spans, s, t, u := OffGrid(), 60 * MINUTE, 70 * MINUTE, 75 * MINUTE;
    var desk := OneDayDesk(spans, Utc(), 10);
    MidnightClock(spans, Utc(), 10);
    var w := WalkOf(desk, 0);
    UtcStart(60);
    UtcStart(70);
    UtcStart(75);
    OneStep(w, 0, 60, 75, [], 0, s);
    OneStep(w, 0, 70, 75, [] + [s], 1, t);
    SpanEnds(w, 0, 80, 75, [] + [s] + [t], 2);
    OneStep(w, 0, 75, 85, [] + [s] + [t], 2, u);
    SpanEnds(w, 0, 85, 85, [] + [s] + [t] + [u], 3);
    TwoSpans(w, 0, Span(60, 75), Span(75, 85));
    CollectedOffered(spans, Utc(), 10, t);
    CollectedOffered(spans, Utc(), 10, u);
    events := TooClose(desk, t, u);
  }

  /** The clock springs from one to two in the morning. */
  function SpringForward(): Zone {
    (u: int) => if u < 60 then 0 else 60
  }

  /** Half past midnight exists, a quarter past one does not, and two o'clock comes half an hour after the first. */
  lemma SpringStarts()
    ensures StartOf(SpringForward(), 0, 30) == Some(30 * MINUTE)
    ensures StartOf(SpringForward(), 0, 75) == None
    ensures StartOf(SpringForward(), 0, 120) == Some(60 * MINUTE)
  {
    var z := SpringForward();
    assert z(30) == 0 && z(15) == 0 && z(75) == 60 && z(120) == 60 && z(60) == 60;
    assert Refine(z, 75, 15, 3) == Refine(z, 75, 75, 2) == Refine(z, 75, 15, 1) == Refine(z, 75, 75, 0);
  }

  /** One interval on one grid, with slots the change of the clock is no multiple of. */
  lemma SpringForwardOverbooks() returns (events: seq<Event>)
    ensures var desk := OneDayDesk([Span(30, 150)], SpringForward(), 45);
      !Spaced(desk) && ClocksOk(desk, events) && InWindow(Run(desk, [], events), 45, 30 * MINUTE) == 2
  {
    hide WalkSpan, WalkDay, StartOf, ClockInRange, AllWeek, OpenSpans, OfferedAt, Spaced, InWindow, SlotLength;
    var spans, zone, t, u := [Span(30, 150)], SpringForward(), 30 * MINUTE, 60 * MINUTE;
    var desk := OneDayDesk(spans, zone, 45);
    MidnightClock(spans, zone, 45);
    var w := WalkOf(desk, 0);
    SpringStarts();
    OneStep(w, 0, 30, 150, [], 0, t);
    OneSkip(w, 0, 75, 150, [] + [t], 1);
    OneStep(w, 0, 120, 150, [] + [t], 1, u);
    SpanEnds(w, 0, 165, 150, [] + [t] + [u], 2);
    OneSpan(w, 0, Span(30, 150));
    CollectedOffered(spans, zone, 45, t);
    CollectedOffered(spans, zone, 45, u);
    events := TooClose(desk, t, u);
  }

  /** The same hours with slots of half an hour, which the change of the clock is a multiple of, are spaced. */
  lemma SpringForwardHalfHours()
    ensures Spaced(OneDayDesk([Span(30, 150)], SpringForward(), 30))
  {
    hide AllWeek, UsableSpans, OpenSpans, Spaced;
    var desk := OneDayDesk([Span(30, 150)], SpringForward(), 30);
    assert SlotLength(desk) == 30;
    forall day, s | s in OpenSpans(desk.hours.value)(day)
      ensures s == Span(30, 150)
    {
      EveryDayOpen(day);
    }
    AlignedHoursAreSpaced(desk, 0, 0);
  }

  lemma EveryDayOpen(day: int)
    ensures OpenSpans(AllWeek([Span(30, 150)]))(day) in {[], [Span(30, 150)]}
  {
    hide AllWeek;
    if FourDigitYear(day) {
      AllWeekOpen([Span(30, 150)], day);
    } else {
      assert UsableSpans([]) == [];
    }
  }

  lemma OneSpan(w: Walk, day: int, a: Span)
    requires ValidWalk(w)
    ensures WalkDay(w, day, [a], [], 0) == WalkSpan(w, day, a.from, a.to, [], 0)
  {
    hide WalkSpan;
    assert [a][1..] == [];
  }
}
