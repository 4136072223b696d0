/** A visitor's slots in plain terms: the stored hours' own texts, minutes and milliseconds
    (shared/callbackSlots.ts, computeCallbackSlots and isBookableSlot). */
module SlotMeaning {
  import opened Options
  import opened CivilCalendar
  import opened TimeZones
  import opened Timestamps
  import opened CallbackHours
  import opened CallbackSlots
  import opened SlotWalkProofs
  import opened ComputeSlots
  import opened BookingRuns

  /** A number setting, rounded towards zero, moved into its range. */
  function Within(value: Option<real>, min: int, max: int, usual: int): int {
    if value.None? then usual
    else if value.value < min as real then min
    else if value.value >= (max + 1) as real then max
    else value.value.Floor
  }

  /** Slots of 10 to 240 minutes, half an hour unless told; 1 to 14 open days, four unless told. */
  lemma SettingsRead(desk: Desk, now: int)
    requires desk.hours.Some?
    ensures SlotLength(desk) == Within(desk.slotMinutes, 10, 240, 30)
    ensures WalkOf(desk, now).daysAhead == Within(desk.daysAhead, 1, 14, 4)
  {
  }

  /** The bookings that are times in [lo, hi). */
  function Between(booked: seq<Option<int>>, lo: int, hi: int): set<int> {
    set i | 0 <= i < |booked| && booked[i].Some? && lo <= booked[i].value < hi
  }

  lemma {:induction false} CountedBetween(capacity: int, booked: seq<Option<int>>, lo: int, hi: int)
    ensures CountIn(Countable(Some(capacity), booked), lo, hi) == |Between(booked, lo, hi)|
  {
    if booked != [] {
      var n := |booked| - 1;
      var front, last := booked[..n], booked[n];
      CountedBetween(capacity, front, lo, hi);
      var counts := last.Some? && lo <= last.value < hi;
      assert Between(booked, lo, hi) == Between(front, lo, hi) + if counts then {n} else {};
      assert n !in Between(front, lo, hi);
      var counted := Countable(Some(capacity), front);
      if last.Some? {
        CountAppend(counted, last.value, lo, hi);
      } else {
        assert counted + [] == counted;
      }
    }
  }

  /** Soon enough, and without a capacity of one or more, or with room for one more booking from a minute before the
      slot until a minute before the next. */
  ghost predicate MayPick(desk: Desk, booked: seq<Option<int>>, now: int, t: int, slot: int) {
    && t >= now + 300_000
    && (desk.capacity.Some? && desk.capacity.value >= 1.0 ==>
          |Between(booked, t - 60_000, t + slot * 60_000 - 60_000)| as real + 1.0 <= desk.capacity.value)
  }

  lemma FreeMeans(desk: Desk, booked: seq<Option<int>>, now: int, t: int)
    ensures Free(SlotLength(desk), Capacity(desk.capacity), Countable(Capacity(desk.capacity), booked), now, t)
        <==> MayPick(desk, booked, now, t, SlotLength(desk))
  {
    hide CountIn, Countable, SlotLength;
    var slot := SlotLength(desk);
    if Capacity(desk.capacity).Some? {
      var c := Capacity(desk.capacity).value;
      CountedBetween(c, booked, t - 60_000, t + slot * 60_000 - 60_000);
      var n := |Between(booked, t - 60_000, t + slot * 60_000 - 60_000)|;
      assert c == desk.capacity.value.Floor;
      assert n < c <==> n as real + 1.0 <= desk.capacity.value;
    }
  }

  /** The hours open this minute: some interval stored for the day spells a time from which whole slots lead to it,
      and a later time that it lies before. */
  ghost predicate OpenAt(list: seq<RawInterval>, slot: int, minute: int) {
    exists raw, h, m, k, h', m' :: raw in list && OpensAt(raw, slot, minute, h, m, k, h', m')
  }

  ghost predicate OpensAt(raw: RawInterval, slot: int, minute: int, h: int, m: int, k: int, h': int, m': int) {
    && raw.RawInterval? && raw.from.Some? && raw.to.Some?
    && Spells(raw.from.value, h, m) && Spells(raw.to.value, h', m')
    && k >= 0 && minute == 60 * h + m + k * slot < 60 * h' + m'
  }

  lemma GridStep(s: Span, slot: int, minute: int) returns (k: int)
    requires slot > 0 && OnGrid(s, slot, minute)
    ensures k >= 0 && minute == s.from + k * slot
  {
    k := (minute - s.from) / slot;
    assert minute - s.from == slot * k;
    if k < 0 {
      MulMonotone(slot, k, -1);
      assert false;
    }
  }

  lemma RawOfSpan(raw: RawInterval, s: Span)
    requires SpanOf(raw) == Some(s)
    ensures raw.RawInterval?
  {
  }

  lemma SpanOpens(list: seq<RawInterval>, s: Span, slot: int, minute: int)
    requires slot > 0 && s in UsableSpans(list) && OnGrid(s, slot, minute)
    ensures OpenAt(list, slot, minute)
  {
    hide SpanOf, UsableSpans, Spells, OnGrid;
    UsableSpansEarliest(list);
    var raw :| raw in list && SpanOf(raw) == Some(s);
    RawOfSpan(raw, s);
    SpanRead(raw, s);
    var k := GridStep(s, slot, minute);
    GridBefore(s, slot, minute);
    assert OpensAt(raw, slot, minute, s.from / 60, s.from % 60, k, s.to / 60, s.to % 60);
  }

  lemma GridBefore(s: Span, slot: int, minute: int)
    requires slot > 0 && OnGrid(s, slot, minute)
    ensures minute < s.to
  {
  }

  /** The minute the zone's clocks show at `t`, counted through the days from its own 1 January 1970. */
  function ClockMinute(z: Zone, t: int): int {
    t / 60_000 + z(t / 60_000)
  }

  /** What a slot of the list is. */
  ghost predicate IsSlot(desk: Desk, booked: seq<Option<int>>, now: int, s: Slot, t: int)
    requires desk.hours.Some?
  {
    var slot := Within(desk.slotMinutes, 10, 240, 30);
    var shown := ClockMinute(desk.zone, t);
    && DateParse(s.at) == Some(t) && t % 60_000 == 0 && t <= now + 2_592_000_000
    && OpenAt(IntervalsForDate(desk.hours.value, shown / 1440), slot, shown % 1440)
    && (s.available <==> MayPick(desk, booked, now, t, slot))
  }

  lemma StartOpens(desk: Desk, now: int, t: int)
    requires desk.hours.Some? && IsStart(WalkOf(desk, now), t)
    ensures var shown := ClockMinute(desk.zone, t);
      t % 60_000 == 0 && OpenAt(IntervalsForDate(desk.hours.value, shown / 1440), SlotLength(desk), shown % 1440)
  {
    hide IntervalsForDate, OpenAt, SlotLength, UsableSpans, OnGrid;
    var w := WalkOf(desk, now);
    var s :| s in w.open(LocalDay(w.z, t)) && OnGrid(s, w.slot, LocalMinute(w.z, t));
    SpanOpens(IntervalsForDate(desk.hours.value, LocalDay(w.z, t)), s, w.slot, LocalMinute(w.z, t));
  }

  /** The offered instants the zone's clocks show on one day, and the days they show. */
  function OnDate(z: Zone, times: seq<int>, day: int): set<int> {
    set t | t in times && ClockMinute(z, t) / 1440 == day
  }

  function Dates(z: Zone, times: seq<int>): set<int> {
    set t | t in times :: ClockMinute(z, t) / 1440
  }

  lemma SameDates(z: Zone, times: seq<int>, day: int)
    ensures OnDate(z, times, day) == OnDay(z, times, day) && Dates(z, times) == LocalDays(z, times)
  {
  }

  /** The visitor's list in order, at most 128 slots, 32 of a day and on as many days as the workspace offers: each
      prints a whole minute at most thirty days ahead that its own local date's stored intervals open, and can be picked
      exactly when it is five minutes away or more and has room for another booking. */
  lemma EachSlot(desk: Desk, booked: seq<Option<int>>, now: int)
    requires ClockInRange(desk, now) && desk.hours.Some?
    ensures var slots, times := SlotsOf(desk, booked, now), OfferedTimes(desk, now);
      && |slots| == |times| <= 128
      && (forall i, j :: 0 <= i < j < |times| ==> times[i] < times[j])
      && (forall i :: 0 <= i < |times| ==> IsSlot(desk, booked, now, slots[i], times[i]))
      && (forall i :: 0 <= i < |times| ==>
            0 <= ClockMinute(desk.zone, times[i]) / 1440 - ClockMinute(desk.zone, now) / 1440 < 62)
      && (forall day :: |OnDate(desk.zone, times, day)| <= 32)
      && |Dates(desk.zone, times)| <= Within(desk.daysAhead, 1, 14, 4)
  {
    hide SlotsOf, OfferedTimes, DateParse, IsStart, Free, OnDay, LocalDays, Countable, Capacity, ClampInt, OnDate,
      Dates, ClockInRange, MayPick, OpenAt, Within, SlotLength, IntervalsForDate;
    SlotsShape(desk, booked, now);
    SettingsRead(desk, now);
    var slots, times := SlotsOf(desk, booked, now), OfferedTimes(desk, now);
    forall i | 0 <= i < |times|
      ensures IsSlot(desk, booked, now, slots[i], times[i])
    {
      StartOpens(desk, now, times[i]);
      FreeMeans(desk, booked, now, times[i]);
    }
    WithinTheWalk(desk, now);
    forall day
      ensures |OnDate(desk.zone, times, day)| <= 32
    {
      SameDates(desk.zone, times, day);
    }
    SameDates(desk.zone, times, 0);
  }

  lemma WithinTheWalk(desk: Desk, now: int)
    requires ClockInRange(desk, now) && desk.hours.Some?
    ensures var times := OfferedTimes(desk, now);
      forall i :: 0 <= i < |times| ==>
        0 <= ClockMinute(desk.zone, times[i]) / 1440 - ClockMinute(desk.zone, now) / 1440 < 62
  {
    hide Times, Collected, IsStart, OnDay, LocalDays, SoundStarts, OpenSpansValid, ClockInRange;
    DeskSpansValid(desk, now);
    TimesShape(WalkOf(desk, now));
    var times := OfferedTimes(desk, now);
    assert forall i :: 0 <= i < |times| ==> times[i] in times;
  }

  // ----- nothing open is left out

  predicate IsOpen(hours: Hours, day: int) {
    UsableSpans(IntervalsForDate(hours, day)) != []
  }

  /** The open days from `today` on, before `until`. */
  function OpenDays(hours: Hours, today: int, until: int): set<int> {
    set d | today <= d < until && IsOpen(hours, d)
  }

  lemma OpenDaysStep(hours: Hours, day: int, until: int)
    requires day < until
    ensures |OpenDays(hours, day, until)| == |OpenDays(hours, day + 1, until)| + if IsOpen(hours, day) then 1 else 0
  {
    hide IsOpen;
    var later := OpenDays(hours, day + 1, until);
    assert OpenDays(hours, day, until) == later + if IsOpen(hours, day) then {day} else {};
    assert day !in later;
  }

  lemma WalkOpens(desk: Desk, now: int, day: int)
    requires desk.hours.Some?
    ensures WalkOf(desk, now).open(day) == [] <==> !IsOpen(desk.hours.value, day)
    ensures WalkOf(desk, now).today == LocalDay(desk.zone, now)
  {
    hide UsableSpans, IntervalsForDate;
  }

  lemma {:induction false} OpenDaysCounted(desk: Desk, now: int, offset: nat, k: nat)
    requires desk.hours.Some? && offset <= k
    ensures var today := LocalDay(desk.zone, now);
      OpenDaysFrom(WalkOf(desk, now), offset, k) == |OpenDays(desk.hours.value, today + offset, today + k)|
    decreases k - offset
  {
    hide LocalDay, IsOpen, WalkOf;
    var hours, today := desk.hours.value, LocalDay(desk.zone, now);
    if offset == k {
      assert OpenDays(hours, today + offset, today + k) == {};
    } else {
      hide OpenDays;
      OpenDaysCounted(desk, now, offset + 1, k);
      OpenDaysStep(hours, today + offset, today + k);
      WalkOpens(desk, now, today + offset);
    }
  }

  /** In a zone with at most one change around that day: a minute whole slots into one of the usable intervals of a day
      among the first open ones, which some instant shows, is a slot of the list, unless that instant lies more than
      thirty days ahead, its day already shows 32 slots or the list 128. */
  lemma OpenTimeIsASlot(desk: Desk, booked: seq<Option<int>>, now: int, k: nat, s: Span, j: nat)
    requires ClockInRange(desk, now) && desk.hours.Some? && k < 62
    requires var today := ClockMinute(desk.zone, now) / 1440;
      var m := s.from + j * Within(desk.slotMinutes, 10, 240, 30);
      && AtMostOneChange(desk.zone, (today + k - 1) * 1440, (today + k + 2) * 1440)
      && s in UsableSpans(IntervalsForDate(desk.hours.value, today + k)) && m < s.to
      && Exists(desk.zone, (today + k) * 1440 + m)
      && |OpenDays(desk.hours.value, today, today + k)| < Within(desk.daysAhead, 1, 14, 4)
    ensures var day := ClockMinute(desk.zone, now) / 1440 + k;
      var m := s.from + j * Within(desk.slotMinutes, 10, 240, 30);
      var slots := SlotsOf(desk, booked, now);
      exists t :: StartOf(desk.zone, day, m) == Some(t)
        && (|| t > now + 2_592_000_000
            || (exists i :: 0 <= i < |slots| && DateParse(slots[i].at) == Some(t))
            || |OnDate(desk.zone, OfferedTimes(desk, now), day)| == 32
            || |slots| == 128)
  {
    hide SlotsOf, DateParse, UsableSpans, IntervalsForDate, OfferedTimes, OnDay, OnDate, Exists, AtMostOneChange,
      StartOf, SlotLength, ClockInRange, Within, OpenDays, OpenDaysFrom;
    SettingsRead(desk, now);
    var day := ClockMinute(desk.zone, now) / 1440 + k;
    var m := s.from + j * Within(desk.slotMinutes, 10, 240, 30);
    OnTheGrid(s, SlotLength(desk), j);
    OpenDaysCounted(desk, now, 0, k);
    OpenTimeIsListed(desk, booked, now, k, s, m);
    SameDates(desk.zone, OfferedTimes(desk, now), day);
    assert StartOf(desk.zone, day, m) == Some(StartOf(desk.zone, day, m).value);
  }

  lemma OnTheGrid(s: Span, slot: int, j: nat)
    requires slot > 0 && s.from + j * slot < s.to
    ensures OnGrid(s, slot, s.from + j * slot)
  {
    assert j * slot == slot * j;
    MultipleRemainder(slot, j);
    MulMonotone(slot, 0, j);
  }

  // ----- a request and a closing

  /** Some offered instant within a minute of the asked time may be picked. */
  ghost predicate Takes(desk: Desk, booked: seq<int>, now: int, asked: int) {
    exists t :: t in OfferedTimes(desk, now) && -60_000 <= t - asked <= 60_000
             && MayPick(desk, Known(booked), now, t, SlotLength(desk))
  }

  /** A request adds its own time exactly when it is taken, and otherwise changes nothing. */
  lemma RequestTaken(desk: Desk, booked: seq<int>, now: int, asked: Option<int>)
    requires ClockInRange(desk, now)
    ensures Step(desk, booked, Ask(now, asked))
         == if asked.Some? && Takes(desk, booked, now, asked.value) then booked + [asked.value] else booked
  {
    hide SlotsOf, Takes, Grants, ClockInRange, Bookable;
    if asked.Some? {
      assert asked == Some(asked.value);
      BookableMeans(desk, Known(booked), now, asked.value);
      GrantsTake(desk, booked, now, asked.value);
      assert IsBookableSlot(SlotsOf(desk, Known(booked), now), Some(asked.value))
        <==> Takes(desk, booked, now, asked.value);
    }
  }

  lemma GrantsTake(desk: Desk, booked: seq<int>, now: int, asked: int)
    ensures Takes(desk, booked, now, asked) <==>
      exists t :: Grants(desk, Countable(Capacity(desk.capacity), Known(booked)), now, t, asked)
  {
    hide OfferedTimes, SlotLength, Free, MayPick;
    var counted := Countable(Capacity(desk.capacity), Known(booked));
    if t :| Grants(desk, counted, now, t, asked) {
      FreeMeans(desk, Known(booked), now, t);
      assert Takes(desk, booked, now, asked);
    }
    if Takes(desk, booked, now, asked) {
      var t :| t in OfferedTimes(desk, now) && -60_000 <= t - asked <= 60_000
            && MayPick(desk, Known(booked), now, t, SlotLength(desk));
      FreeMeans(desk, Known(booked), now, t);
      assert Grants(desk, counted, now, t, asked);
      assert exists u :: Grants(desk, Countable(Capacity(desk.capacity), Known(booked)), now, u, asked);
    }
  }

  lemma OneLess(booked: seq<int>, i: nat, lo: int, hi: int)
    requires i < |booked|
    ensures CountIn(booked[..i] + booked[i + 1..], lo, hi)
         == CountIn(booked, lo, hi) - if lo <= booked[i] < hi then 1 else 0
  {
    hide CountIn;
    assert booked == booked[..i + 1] + booked[i + 1..];
    assert booked[..i + 1] == booked[..i] + [booked[i]];
    CountConcat(booked[..i], booked[i + 1..], lo, hi);
    CountConcat(booked[..i + 1], booked[i + 1..], lo, hi);
    CountAppend(booked[..i], booked[i], lo, hi);
  }

  lemma OthersStay(booked: seq<int>, i: nat)
    requires i < |booked|
    ensures multiset(booked[..i] + booked[i + 1..]) == multiset(booked) - multiset{booked[i]}
  {
    assert booked == booked[..i] + [booked[i]] + booked[i + 1..];
  }

  /** Closing a callback takes its booking away, out of every window it counted in, and leaves the others. */
  lemma ClosingFrees(desk: Desk, booked: seq<int>, i: nat, t: int)
    requires i < |booked|
    ensures var left := Step(desk, booked, Close(i));
      && multiset(left) == multiset(booked) - multiset{booked[i]}
      && InWindow(left, SlotLength(desk), t) == InWindow(booked, SlotLength(desk), t)
           - if t - 60_000 <= booked[i] < t + (SlotLength(desk) - 1) * 60_000 then 1 else 0
  {
    hide CountIn, SlotLength;
    var left := Step(desk, booked, Close(i));
    assert left == booked[..i] + booked[i + 1..];
    OthersStay(booked, i);
    OneLess(booked, i, t - 60_000, t + SlotLength(desk) * 60_000 - 60_000);
  }
}
