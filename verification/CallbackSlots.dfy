/** The slot walk: which instants a workspace's hours offer, in which order, and which are free
    (shared/callbackSlots.ts, computeCallbackSlots). */
module CallbackSlots {
  import opened Options
  import opened CivilCalendar
  import opened TimeZones
  import opened Timestamps
  import opened CallbackHours
  import Sorting

  const LEAD_MS := 5 * 60_000
  const TOLERANCE_MS := 60_000
  const MAX_PER_DAY := 32
  const MAX_SLOTS := 128
  const MAX_WALK_DAYS := 62
  const MAX_AHEAD_MS := 30 * 24 * 60 * 60_000

  datatype Range = Range(min: int, max: int, default: int)
  const SLOT_MINUTES := Range(10, 240, 30)
  const DAYS_AHEAD := Range(1, 14, 4)

  /** Math.trunc. */
  function Trunc(x: real): int {
    if x >= 0.0 then x.Floor else -((-x).Floor)
  }

  /** A setting that is not a finite number (None) reads as the default. */
  function ClampInt(value: Option<real>, range: Range): (n: int)
    requires range.min <= range.default <= range.max
    ensures range.min <= n <= range.max
    ensures value.None? ==> n == range.default
    ensures value.Some? && range.min <= Trunc(value.value) <= range.max ==> n == Trunc(value.value)
  {
    if value.None? then range.default
    else if Trunc(value.value) < range.min then range.min
    else if Trunc(value.value) > range.max then range.max
    else Trunc(value.value)
  }

  function Capacity(value: Option<real>): (c: Option<int>)
    ensures c.Some? ==> c.value >= 1
    ensures c.None? <==> value.None? || value.value < 1.0
  {
    if value.Some? && value.value >= 1.0 then Some(Trunc(value.value)) else None
  }

  datatype Slot = Slot(at: string, available: bool)

  // ----- the walk, as a function of the open spans of each day

  /** `start(day, m)` is the instant of minute `m` of `day`, `open(day)` that day's spans. */
  datatype Walk = Walk(z: Zone, start: (int, int) -> Option<int>, open: int -> seq<Span>,
                       slot: int, today: int, daysAhead: int, horizon: int)

  predicate ValidWalk(w: Walk) {
    w.slot >= 10 && w.daysAhead >= 1
  }

  /** A start of the grid of `s`: `from + k * slot`, before `to`. */
  predicate OnGrid(s: Span, slot: int, m: int)
    requires slot > 0
  {
    s.from <= m < s.to && (m - s.from) % slot == 0
  }

  /** One interval: its starts from minute `m` on, after the instants already collected. */
  function WalkSpan(w: Walk, day: int, m: int, to: int, acc: seq<int>, inDay: int): (r: (seq<int>, int))
    requires ValidWalk(w)
    decreases if m < to then to - m else 0
  {
    if m >= to || inDay >= MAX_PER_DAY then (acc, inDay)
    else
      var t := w.start(day, m);
      if t.None? || t.value in acc then WalkSpan(w, day, m + w.slot, to, acc, inDay)
      else if t.value > w.horizon then (acc, inDay)
      else WalkSpan(w, day, m + w.slot, to, acc + [t.value], inDay + 1)
  }

  function WalkDay(w: Walk, day: int, spans: seq<Span>, acc: seq<int>, inDay: int): (r: (seq<int>, int))
    requires ValidWalk(w)
  {
    if spans == [] then (acc, inDay)
    else
      var r := WalkSpan(w, day, spans[0].from, spans[0].to, acc, inDay);
      WalkDay(w, day, spans[1..], r.0, r.1)
  }

  function WalkDays(w: Walk, offset: nat, openDays: nat, acc: seq<int>): seq<int>
    requires ValidWalk(w)
    decreases MAX_WALK_DAYS - offset
  {
    if offset >= MAX_WALK_DAYS || openDays >= w.daysAhead || |acc| >= MAX_SLOTS then acc
    else
      var day := w.today + offset;
      if w.open(day) == [] then WalkDays(w, offset + 1, openDays, acc)
      else WalkDays(w, offset + 1, openDays + 1, WalkDay(w, day, w.open(day), acc, 0).0)
  }

  function Collected(w: Walk): seq<int>
    requires ValidWalk(w)
  {
    WalkDays(w, 0, 0, [])
  }

  function Earlier(): (int, int) -> bool {
    (a: int, b: int) => a <= b
  }

  function FirstSlots(s: seq<int>): seq<int> {
    if |s| <= MAX_SLOTS then s else s[..MAX_SLOTS]
  }

  /** The instants offered: the collected ones in order, the first 128. */
  function Times(w: Walk): seq<int>
    requires ValidWalk(w)
  {
    FirstSlots(Sorting.Sort(Earlier(), Collected(w)))
  }

  /** How many bookings lie in [lo, hi). */
  function CountIn(booked: seq<int>, lo: int, hi: int): (n: nat)
    ensures n <= |booked|
  {
    if booked == [] then 0
    else CountIn(booked[..|booked| - 1], lo, hi)
         + if lo <= booked[|booked| - 1] < hi then 1 else 0
  }

  /** The bookings that count for the slot at `t`: from a minute before it until a minute before its end. */
  function InWindow(booked: seq<int>, slot: int, t: int): nat {
    CountIn(booked, t - TOLERANCE_MS, t + slot * MINUTE - TOLERANCE_MS)
  }

  predicate Free(slot: int, capacity: Option<int>, booked: seq<int>, now: int, t: int) {
    t >= now + LEAD_MS && (capacity.Some? ==> InWindow(booked, slot, t) < capacity.value)
  }

  // ----- the inputs

  /** `zone` is the one callbackHoursTimeZone picks; `hours` is None when they are not an object. */
  datatype Desk = Desk(hours: Option<Hours>, zone: Zone, slotMinutes: Option<real>,
                       daysAhead: Option<real>, capacity: Option<real>)

  function SlotLength(desk: Desk): (n: int)
    ensures 10 <= n <= 240
  {
    ClampInt(desk.slotMinutes, SLOT_MINUTES)
  }

  function Starts(z: Zone): (int, int) -> Option<int> {
    (day: int, m: int) => StartOf(z, day, m)
  }

  function WalkOf(desk: Desk, now: int): (w: Walk)
    requires desk.hours.Some?
    ensures ValidWalk(w)
  {
    Walk(desk.zone, Starts(desk.zone), OpenSpans(desk.hours.value), SlotLength(desk), LocalDay(desk.zone, now),
         ClampInt(desk.daysAhead, DAYS_AHEAD), now + MAX_AHEAD_MS)
  }

  /** Clocks that keep every date of the walk in the years with four digits. */
  ghost predicate ClockInRange(desk: Desk, now: int) {
    RealZone(desk.zone)
    && FourDigitYear(LocalDay(desk.zone, now)) && FourDigitYear(LocalDay(desk.zone, now) + MAX_WALK_DAYS)
  }

  function OfferedTimes(desk: Desk, now: int): seq<int> {
    if desk.hours.None? then [] else Times(WalkOf(desk, now))
  }

  /** The bookings the slots are counted against: none without a capacity, and none that is not a time. */
  function Countable(capacity: Option<int>, booked: seq<Option<int>>): seq<int> {
    if capacity.None? || booked == [] then []
    else
      var last := booked[|booked| - 1];
      Countable(capacity, booked[..|booked| - 1]) + if last.Some? then [last.value] else []
  }
}
