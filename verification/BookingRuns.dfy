/** Runs of booking requests against a workspace's slots: each request recomputes the slots from the
    bookings open at that moment and is accepted only when its time is bookable. */
module BookingRuns {
  import opened Options
  import opened TimeZones
  import opened CallbackHours
  import opened CallbackSlots
  import opened SlotWalkProofs
  import opened ComputeSlots

  /** A request at the server's clock `now`, or an open callback that was closed. */
  datatype Event = Ask(now: int, asked: Option<int>) | Close(index: nat)

  function Known(booked: seq<int>): (r: seq<Option<int>>)
    ensures |r| == |booked|
  {
    if booked == [] then [] else Known(booked[..|booked| - 1]) + [Some(booked[|booked| - 1])]
  }

  function Step(desk: Desk, booked: seq<int>, e: Event): seq<int> {
    match e
    case Ask(now, asked) =>
      if IsBookableSlot(SlotsOf(desk, Known(booked), now), asked) then booked + [asked.value] else booked
    case Close(i) =>
      if i < |booked| then booked[..i] + booked[i + 1..] else booked
  }

  function Run(desk: Desk, booked: seq<int>, events: seq<Event>): seq<int> {
    if events == [] then booked
    else Step(desk, Run(desk, booked, events[..|events| - 1]), events[|events| - 1])
  }

  ghost predicate ClockOk(desk: Desk, e: Event) {
    e.Ask? ==> ClockInRange(desk, e.now)
  }

  ghost predicate ClocksOk(desk: Desk, events: seq<Event>) {
    forall e :: e in events ==> ClockOk(desk, e)
  }

  ghost predicate OfferedAt(desk: Desk, now: int, t: int) {
    ClockInRange(desk, now) && t in OfferedTimes(desk, now) && t >= now + LEAD_MS
  }

  /** Some visitor may at some time be shown `t` as soon enough to pick. */
  ghost predicate Offered(desk: Desk, t: int) {
    exists now :: OfferedAt(desk, now, t)
  }

  ghost predicate WithinCapacity(desk: Desk, capacity: int, booked: seq<int>) {
    forall t :: Offered(desk, t) ==> InWindow(booked, SlotLength(desk), t) <= capacity
  }

  /** Any two instants ever offered lie at least a slot's length apart. */
  ghost predicate Spaced(desk: Desk) {
    forall t, u :: Offered(desk, t) && Offered(desk, u) && t < u ==> u - t >= SlotLength(desk) * MINUTE
  }

  lemma CountableAppend(capacity: Option<int>, known: seq<Option<int>>, last: int)
    requires capacity.Some?
    ensures Countable(capacity, known + [Some(last)]) == Countable(capacity, known) + [last]
  {
    assert (known + [Some(last)])[..|known|] == known;
  }

  lemma {:induction false} KnownCountable(capacity: Option<int>, booked: seq<int>)
    requires capacity.Some?
    ensures Countable(capacity, Known(booked)) == booked
  {
    if booked == [] {
      assert Known(booked) == [];
    } else {
      hide Countable;
      var front, last := booked[..|booked| - 1], booked[|booked| - 1];
      KnownCountable(capacity, front);
      assert Known(booked) == Known(front) + [Some(last)];
      assert booked == front + [last];
      CountableAppend(capacity, Known(front), last);
    }
  }

  lemma CountAppend(booked: seq<int>, b: int, lo: int, hi: int)
    ensures CountIn(booked + [b], lo, hi) == CountIn(booked, lo, hi) + if lo <= b < hi then 1 else 0
  {
    assert (booked + [b])[..|booked|] == booked;
  }

  lemma {:induction false} CountConcat(a: seq<int>, b: seq<int>, lo: int, hi: int)
    ensures CountIn(a + b, lo, hi) == CountIn(a, lo, hi) + CountIn(b, lo, hi)
  {
    if b == [] {
      assert a + b == a;
    } else {
      CountConcat(a, b[..|b| - 1], lo, hi);
      assert a + b == (a + b[..|b| - 1]) + [b[|b| - 1]];
      CountAppend(a + b[..|b| - 1], b[|b| - 1], lo, hi);
    }
  }

  lemma CountClose(booked: seq<int>, i: nat, lo: int, hi: int)
    requires i < |booked|
    ensures CountIn(booked[..i] + booked[i + 1..], lo, hi) <= CountIn(booked, lo, hi)
  {
    assert booked == booked[..i] + ([booked[i]] + booked[i + 1..]);
    CountConcat(booked[..i], booked[i + 1..], lo, hi);
    CountConcat(booked[..i], [booked[i]] + booked[i + 1..], lo, hi);
    CountConcat([booked[i]], booked[i + 1..], lo, hi);
  }

  /** An accepted time counts for the slot it was granted for, and for no other. */
  lemma GrantedForOneSlot(desk: Desk, booked: seq<int>, now: int, t: int, asked: int, u: int)
    requires Spaced(desk) && Offered(desk, t) && Offered(desk, u)
    requires -TOLERANCE_MS <= t - asked <= TOLERANCE_MS
    ensures InWindow(booked + [asked], SlotLength(desk), u)
         == InWindow(booked, SlotLength(desk), u) + if u == t then 1 else 0
  {
    hide OfferedAt, SlotLength, CountIn;
    var slot := SlotLength(desk);
    assert u != t ==> u - t >= slot * MINUTE || t - u >= slot * MINUTE;
    CountAppend(booked, asked, u - TOLERANCE_MS, u + slot * MINUTE - TOLERANCE_MS);
  }

  lemma AskKeepsCapacity(desk: Desk, capacity: int, booked: seq<int>, now: int, asked: int)
    requires Capacity(desk.capacity) == Some(capacity) && Spaced(desk)
    requires ClockInRange(desk, now) && WithinCapacity(desk, capacity, booked)
    requires IsBookableSlot(SlotsOf(desk, Known(booked), now), Some(asked))
    ensures WithinCapacity(desk, capacity, booked + [asked])
  {
    hide SlotsOf, IsBookableSlot, OfferedTimes, InWindow, SlotLength, Spaced;
    BookableMeans(desk, Known(booked), now, asked);
    KnownCountable(Capacity(desk.capacity), booked);
    var t :| Grants(desk, booked, now, t, asked);
    assert OfferedAt(desk, now, t);
    forall u | Offered(desk, u)
      ensures InWindow(booked + [asked], SlotLength(desk), u) <= capacity
    {
      GrantedForOneSlot(desk, booked, now, t, asked, u);
    }
  }

  lemma CloseKeepsCapacity(desk: Desk, capacity: int, booked: seq<int>, i: nat)
    requires WithinCapacity(desk, capacity, booked) && i < |booked|
    ensures WithinCapacity(desk, capacity, booked[..i] + booked[i + 1..])
  {
    hide OfferedAt, SlotLength;
    forall t | Offered(desk, t)
      ensures InWindow(booked[..i] + booked[i + 1..], SlotLength(desk), t) <= capacity
    {
      CountClose(booked, i, t - TOLERANCE_MS, t + SlotLength(desk) * MINUTE - TOLERANCE_MS);
    }
  }

  lemma StepKeepsCapacity(desk: Desk, capacity: int, booked: seq<int>, e: Event)
    requires Capacity(desk.capacity) == Some(capacity) && Spaced(desk)
    requires ClockOk(desk, e) && WithinCapacity(desk, capacity, booked)
    ensures WithinCapacity(desk, capacity, Step(desk, booked, e))
  {
    hide SlotsOf, WithinCapacity, Spaced, ClockInRange, Capacity;
    match e
    case Ask(now, asked) =>
      if IsBookableSlot(SlotsOf(desk, Known(booked), now), asked) {
        assert asked == Some(asked.value);
        AskKeepsCapacity(desk, capacity, booked, now, asked.value);
      }
    case Close(i) =>
      if i < |booked| {
        CloseKeepsCapacity(desk, capacity, booked, i);
      }
  }

  /** With slots apart, no slot's window ever holds more than its capacity, over any run of requests and
      closings, whatever the clocks: what was within capacity stays so. */
  lemma {:induction false} RunKeepsCapacity(desk: Desk, capacity: int, booked: seq<int>, events: seq<Event>)
    requires Capacity(desk.capacity) == Some(capacity) && Spaced(desk)
    requires ClocksOk(desk, events) && WithinCapacity(desk, capacity, booked)
    ensures WithinCapacity(desk, capacity, Run(desk, booked, events))
  {
    if events != [] {
      var e := events[|events| - 1];
      assert e in events;
      RunKeepsCapacity(desk, capacity, booked, events[..|events| - 1]);
      StepKeepsCapacity(desk, capacity, Run(desk, booked, events[..|events| - 1]), e);
    }
  }

  // ----- and without it, they do

  function Repeat(n: nat, x: int): (r: seq<int>)
    ensures |r| == n && forall i :: 0 <= i < n ==> r[i] == x
  {
    if n == 0 then [] else Repeat(n - 1, x) + [x]
  }

  /** The same request `n` times. */
  function Asks(n: nat, now: int, asked: int): seq<Event> {
    if n == 0 then [] else Asks(n - 1, now, asked) + [Ask(now, Some(asked))]
  }

  lemma {:induction false} AsksClocks(desk: Desk, n: nat, now: int, asked: int)
    requires ClockInRange(desk, now)
    ensures ClocksOk(desk, Asks(n, now, asked))
  {
    if n > 0 {
      AsksClocks(desk, n - 1, now, asked);
    }
  }

  lemma {:induction false} CountSame(n: nat, x: int, lo: int, hi: int)
    ensures CountIn(Repeat(n, x), lo, hi) == if lo <= x < hi then n else 0
  {
    if n > 0 {
      CountSame(n - 1, x, lo, hi);
      assert Repeat(n, x)[..n - 1] == Repeat(n - 1, x);
    }
  }

  lemma RepeatInWindow(n: nat, slot: int, t: int)
    requires slot >= 1
    ensures InWindow(Repeat(n, t - TOLERANCE_MS), slot, t) == n
  {
    hide CountIn;
    CountSame(n, t - TOLERANCE_MS, t - TOLERANCE_MS, t + slot * MINUTE - TOLERANCE_MS);
  }

  lemma AskGranted(desk: Desk, capacity: int, booked: seq<int>, now: int, t: int, asked: int)
    requires Capacity(desk.capacity) == Some(capacity) && OfferedAt(desk, now, t)
    requires -TOLERANCE_MS <= t - asked <= TOLERANCE_MS
    requires InWindow(booked, SlotLength(desk), t) < capacity
    ensures Step(desk, booked, Ask(now, Some(asked))) == booked + [asked]
  {
    hide SlotsOf, IsBookableSlot, OfferedTimes, InWindow, SlotLength;
    BookableMeans(desk, Known(booked), now, asked);
    KnownCountable(Capacity(desk.capacity), booked);
    assert Grants(desk, booked, now, t, asked);
  }

  lemma {:induction false} FillSlot(desk: Desk, capacity: int, now: int, t: int, n: nat)
    requires Capacity(desk.capacity) == Some(capacity) && OfferedAt(desk, now, t) && n <= capacity
    ensures Run(desk, [], Asks(n, now, t - TOLERANCE_MS)) == Repeat(n, t - TOLERANCE_MS)
  {
    hide OfferedAt, Step, SlotLength, InWindow, Capacity;
    var events := Asks(n, now, t - TOLERANCE_MS);
    if n > 0 {
      FillSlot(desk, capacity, now, t, n - 1);
      var booked := Repeat(n - 1, t - TOLERANCE_MS);
      assert events[..|events| - 1] == Asks(n - 1, now, t - TOLERANCE_MS);
      RepeatInWindow(n - 1, SlotLength(desk), t);
      AskGranted(desk, capacity, booked, now, t, t - TOLERANCE_MS);
      assert booked + [t - TOLERANCE_MS] == Repeat(n, t - TOLERANCE_MS);
    }
  }

  lemma OfferedClock(desk: Desk, now: int, t: int)
    requires OfferedAt(desk, now, t)
    ensures ClockInRange(desk, now)
  {
  }

  /** A slot full of its own bookings leaves a close later one empty, whose booking then counts for the first. */
  lemma FullThenOneMore(n: nat, slot: int, t: int, u: int)
    requires slot >= 1 && t < u < t + slot * MINUTE
    ensures InWindow(Repeat(n, t - TOLERANCE_MS), slot, u) == 0
    ensures InWindow(Repeat(n, t - TOLERANCE_MS) + [u - TOLERANCE_MS], slot, t) == n + 1
  {
    hide CountIn;
    RepeatInWindow(n, slot, t);
    CountSame(n, t - TOLERANCE_MS, u - TOLERANCE_MS, u + slot * MINUTE - TOLERANCE_MS);
    CountAppend(Repeat(n, t - TOLERANCE_MS), u - TOLERANCE_MS, t - TOLERANCE_MS, t + slot * MINUTE - TOLERANCE_MS);
  }

  /** Two offered instants closer than a slot's length: fill the first to its capacity from a minute
      before it, then take the second once, and the first slot's window holds one too many. */
  lemma CloseSlotsOverbook(desk: Desk, capacity: int, now: int, t: int, later: int, u: int) returns (events: seq<Event>)
    requires Capacity(desk.capacity) == Some(capacity) && capacity >= 1
    requires OfferedAt(desk, now, t) && OfferedAt(desk, later, u) && t < u < t + SlotLength(desk) * MINUTE
    ensures ClocksOk(desk, events)
    ensures InWindow(Run(desk, [], events), SlotLength(desk), t) == capacity + 1
  {
    hide OfferedAt, Step, SlotLength, InWindow, Capacity;
    var fill := Asks(capacity, now, t - TOLERANCE_MS);
    OfferedClock(desk, now, t);
    AsksClocks(desk, capacity, now, t - TOLERANCE_MS);
    events := fill + [Ask(later, Some(u - TOLERANCE_MS))];
    FillSlot(desk, capacity, now, t, capacity);
    assert events[..|events| - 1] == fill;
    FullThenOneMore(capacity, SlotLength(desk), t, u);
    AskGranted(desk, capacity, Repeat(capacity, t - TOLERANCE_MS), later, u, u - TOLERANCE_MS);
    OfferedClock(desk, now, t);
    OfferedClock(desk, later, u);
  }

  lemma {:induction false} EmptyWithin(desk: Desk, capacity: int)
    requires capacity >= 1
    ensures WithinCapacity(desk, capacity, [])
  {
  }

  /** Exactly when the hours keep the capacity over every run: when the instants they ever offer are apart. */
  lemma CapacityKeptIffSpaced(desk: Desk, capacity: int)
    requires Capacity(desk.capacity) == Some(capacity)
    ensures (forall events :: ClocksOk(desk, events) ==> WithinCapacity(desk, capacity, Run(desk, [], events)))
            <==> Spaced(desk)
  {
    hide SlotLength, OfferedAt;
    EmptyWithin(desk, capacity);
    if Spaced(desk) {
      forall events | ClocksOk(desk, events)
        ensures WithinCapacity(desk, capacity, Run(desk, [], events))
      {
        RunKeepsCapacity(desk, capacity, [], events);
      }
    } else {
      var t, u :| Offered(desk, t) && Offered(desk, u) && t < u && u - t < SlotLength(desk) * MINUTE;
      var now :| OfferedAt(desk, now, t);
      var later :| OfferedAt(desk, later, u);
      var events := CloseSlotsOverbook(desk, capacity, now, t, later, u);
      assert !WithinCapacity(desk, capacity, Run(desk, [], events));
    }
  }

  // ----- hours that keep slots apart

  /** Open spans that start on one grid of the slot's length, which divides the day, in a zone whose offsets differ
      by whole slots: a jump of an hour with slots of 10, 15, 20, 30 or 60 minutes. */
  ghost predicate AlignedHours(desk: Desk, shift: int, grid: int) {
    && desk.hours.Some? && (forall u :: desk.zone(u) % SlotLength(desk) == shift)
    && DAY_MINUTES % SlotLength(desk) == 0
    && forall day, s :: s in OpenSpans(desk.hours.value)(day) ==> s.from % SlotLength(desk) == grid
  }

  lemma SameRemainder(slot: int, a: int, b: int)
    requires slot > 0 && a < b && a % slot == b % slot
    ensures b - a >= slot
  {
    assert b - a == slot * (b / slot - a / slot);
    if b / slot - a / slot <= 0 {
      MulMonotone(slot, b / slot - a / slot, 0);
      assert false;
    }
    MulMonotone(slot, 1, b / slot - a / slot);
  }

  lemma AddMultiple(slot: int, a: int, k: int)
    requires slot > 0
    ensures (a + k * slot) % slot == a % slot
  {
    var n := a + k * slot;
    assert slot * (n / slot - a / slot - k) == a % slot - n % slot;
    var e := n / slot - a / slot - k;
    if e >= 1 {
      MulMonotone(slot, 1, e);
    } else if e <= -1 {
      MulMonotone(slot, e, -1);
    }
    assert e == 0;
  }

  lemma CancelRemainder(slot: int, a: int, b: int, c: int, d: int)
    requires slot > 0 && (a + c) % slot == (b + d) % slot && c % slot == d % slot
    ensures a % slot == b % slot
  {
    var k := (a + c) / slot - (b + d) / slot - c / slot + d / slot;
    assert a - b == slot * ((a + c) / slot) - slot * ((b + d) / slot) - slot * (c / slot) + slot * (d / slot);
    assert a == b + k * slot;
    AddMultiple(slot, b, k);
  }

  lemma AlignedStart(w: Walk, grid: int, t: int)
    requires ValidWalk(w) && IsStart(w, t) && DAY_MINUTES % w.slot == 0
    requires forall day, s :: s in w.open(day) ==> s.from % w.slot == grid
    ensures t % MINUTE == 0 && WallMinute(w.z, t) % w.slot == grid
  {
    var day, m := LocalDay(w.z, t), LocalMinute(w.z, t);
    var s :| s in w.open(day) && OnGrid(s, w.slot, m);
    var per := DAY_MINUTES / w.slot;
    assert DAY_MINUTES == w.slot * per;
    assert m - s.from == w.slot * ((m - s.from) / w.slot);
    assert WallMinute(w.z, t) == day * DAY_MINUTES + m;
    assert day * DAY_MINUTES == (day * per) * w.slot;
    AddMultiple(w.slot, s.from, (m - s.from) / w.slot);
    AddMultiple(w.slot, m, day * per);
  }

  /** A workspace can tell from its settings alone: aligned hours never overbook. */
  lemma AlignedHoursAreSpaced(desk: Desk, shift: int, grid: int)
    requires AlignedHours(desk, shift, grid)
    ensures Spaced(desk)
  {
    hide OfferedAt, SlotLength, OpenSpans, WallMinute;
    forall t, u | Offered(desk, t) && Offered(desk, u) && t < u
      ensures u - t >= SlotLength(desk) * MINUTE
    {
      var now :| OfferedAt(desk, now, t);
      var later :| OfferedAt(desk, later, u);
      OfferedAligned(desk, shift, grid, now, t);
      OfferedAligned(desk, shift, grid, later, u);
      AlignedApart(desk, shift, t, u);
    }
  }

  lemma AlignedApart(desk: Desk, shift: int, t: int, u: int)
    requires t % MINUTE == 0 && u % MINUTE == 0 && t < u
    requires forall v :: desk.zone(v) % SlotLength(desk) == shift
    requires WallMinute(desk.zone, t) % SlotLength(desk) == WallMinute(desk.zone, u) % SlotLength(desk)
    ensures u - t >= SlotLength(desk) * MINUTE
  {
    var slot, a, b := SlotLength(desk), t / MINUTE, u / MINUTE;
    hide SlotLength;
    assert desk.zone(a) % slot == desk.zone(b) % slot;
    CancelRemainder(slot, a, b, desk.zone(a), desk.zone(b));
    SameRemainder(slot, a, b);
  }

  lemma OfferedAligned(desk: Desk, shift: int, grid: int, now: int, t: int)
    requires AlignedHours(desk, shift, grid) && OfferedAt(desk, now, t)
    ensures t % MINUTE == 0 && WallMinute(desk.zone, t) % SlotLength(desk) == grid
  {
    hide ClockInRange, SlotLength, OpenSpans, Times, Collected, IsStart, OpenSpansValid, SoundStarts, OnDay, LocalDays;
    var w := WalkOf(desk, now);
    DeskSpansValid(desk, now);
    TimesShape(w);
    assert t in Times(w);
    AlignedStart(w, grid, t);
  }
}
