/** What the slot walk collects: where every instant comes from, how many there
    may be, and that nothing open is passed over. */
module SlotWalkProofs {
  import opened Options
  import opened Sets
  import opened TimeZones
  import opened CallbackHours
  import opened CallbackSlots
  import Sorting

  lemma NextOnGrid(a: int, slot: int)
    requires slot > 0 && a % slot == 0
    ensures (a + slot) % slot == 0
  {
    assert a == slot * (a / slot);
    assert a + slot == slot * (a / slot + 1);
    MultipleRemainder(slot, a / slot + 1);
  }

  lemma MultipleRemainder(slot: int, q: int)
    requires slot > 0
    ensures (slot * q) % slot == 0
  {
    var n := slot * q;
    assert slot * (q - n / slot) == n % slot;
    OnlyZeroMultiple(slot, q - n / slot);
  }

  lemma OnlyZeroMultiple(slot: int, e: int)
    requires 0 <= slot * e < slot
    ensures e == 0
  {
    if e >= 1 {
      MulMonotone(slot, 1, e);
      assert false;
    } else if e <= -1 {
      MulMonotone(slot, e, -1);
      assert false;
    }
  }

  lemma MulMonotone(a: int, x: int, y: int)
    requires a >= 0 && x <= y
    ensures a * x <= a * y
  {
  }

  /** Every start found shows the wall time it was asked for. */
  ghost predicate SoundStarts(w: Walk) {
    forall day, m :: 0 <= m < DAY_MINUTES && w.start(day, m).Some? ==>
      ShowsMinute(w.z, w.start(day, m).value, day, m)
  }

  ghost predicate ShowsMinute(z: Zone, t: int, day: int, m: int) {
    t % MINUTE == 0 && LocalDay(z, t) == day && LocalMinute(z, t) == m
  }

  lemma ZoneStartsSound(w: Walk)
    requires w.start == Starts(w.z)
    ensures SoundStarts(w)
  {
    forall day, m | 0 <= m < DAY_MINUTES && w.start(day, m).Some?
      ensures ShowsMinute(w.z, w.start(day, m).value, day, m)
    {
      StartSound(w.z, day, m);
    }
  }

  /** `t` shows, on its own local date, a wall time `from + k * slot` before the `to` of an open span of that date. */
  ghost predicate IsStart(w: Walk, t: int)
    requires ValidWalk(w)
  {
    && t % MINUTE == 0
    && exists s :: s in w.open(LocalDay(w.z, t)) && OnGrid(s, w.slot, LocalMinute(w.z, t))
  }

  /** The instants of the list on one local day. */
  function OnDay(z: Zone, s: seq<int>, day: int): set<int> {
    set t | t in s && LocalDay(z, t) == day
  }

  function LocalDays(z: Zone, s: seq<int>): set<int> {
    set t | t in s :: LocalDay(z, t)
  }

  /** `more` continues `acc` with `n` new instants, all starts of `day` inside the booking window. */
  ghost predicate Extends(w: Walk, day: int, acc: seq<int>, more: seq<int>, n: int)
    requires ValidWalk(w)
  {
    && acc <= more && |more| == |acc| + n
    && Sorting.Distinct(more)
    && forall i :: |acc| <= i < |more| ==>
         LocalDay(w.z, more[i]) == day && more[i] <= w.horizon && IsStart(w, more[i])
  }

  lemma {:induction false} SpanExtends(w: Walk, day: int, s: Span, m: int, acc: seq<int>, inDay: int)
    requires ValidWalk(w) && SoundStarts(w) && ValidSpan(s) && s in w.open(day)
    requires s.from <= m && (m - s.from) % w.slot == 0
    requires Sorting.Distinct(acc)
    ensures var r := WalkSpan(w, day, m, s.to, acc, inDay);
      && Extends(w, day, acc, r.0, r.1 - inDay)
      && inDay <= r.1 && (inDay <= MAX_PER_DAY ==> r.1 <= MAX_PER_DAY)
    decreases if m < s.to then s.to - m else 0
  {
    if m < s.to && inDay < MAX_PER_DAY {
      var t := w.start(day, m);
      NextOnGrid(m - s.from, w.slot);
      if t.None? || t.value in acc {
        SpanExtends(w, day, s, m + w.slot, acc, inDay);
      } else if t.value <= w.horizon {
        assert OnGrid(s, w.slot, m);
        SpanExtends(w, day, s, m + w.slot, acc + [t.value], inDay + 1);
      }
    }
  }

  lemma {:induction false} DayExtends(w: Walk, day: int, spans: seq<Span>, acc: seq<int>, inDay: int)
    requires ValidWalk(w) && SoundStarts(w)
    requires forall s :: s in spans ==> ValidSpan(s) && s in w.open(day)
    requires Sorting.Distinct(acc)
    ensures var r := WalkDay(w, day, spans, acc, inDay);
      && Extends(w, day, acc, r.0, r.1 - inDay)
      && inDay <= r.1 && (inDay <= MAX_PER_DAY ==> r.1 <= MAX_PER_DAY)
  {
    if spans != [] {
      var s := spans[0];
      assert (s.from - s.from) % w.slot == 0;
      SpanExtends(w, day, s, s.from, acc, inDay);
      var r := WalkSpan(w, day, s.from, s.to, acc, inDay);
      DayExtends(w, day, spans[1..], r.0, r.1);
    }
  }

  ghost predicate OpenSpansValid(w: Walk) {
    forall day, s :: s in w.open(day) ==> ValidSpan(s)
  }

  ghost predicate StartsSoFar(w: Walk, offset: nat, acc: seq<int>)
    requires ValidWalk(w)
  {
    forall t :: t in acc ==>
      IsStart(w, t) && t <= w.horizon && w.today <= LocalDay(w.z, t) < w.today + offset
  }

  ghost predicate DaysWithinCap(z: Zone, acc: seq<int>) {
    forall day :: |OnDay(z, acc, day)| <= MAX_PER_DAY
  }

  /** The state of the walk before day `today + offset`. */
  ghost predicate WalkedSoFar(w: Walk, offset: nat, openDays: nat, acc: seq<int>)
    requires ValidWalk(w)
  {
    && Sorting.Distinct(acc)
    && StartsSoFar(w, offset, acc)
    && DaysWithinCap(w.z, acc)
    && |LocalDays(w.z, acc)| <= openDays
    && openDays <= w.daysAhead
    && |acc| < MAX_SLOTS + MAX_PER_DAY
  }

  function Members(s: seq<int>): set<int> {
    set t | t in s
  }

  lemma MembersAppend(s: seq<int>, t: int)
    ensures Members(s + [t]) == Members(s) + {t}
  {
  }

  lemma {:induction false} MembersBound(s: seq<int>)
    ensures |Members(s)| <= |s|
  {
    if s != [] {
      MembersBound(s[..|s| - 1]);
      assert Members(s) == Members(s[..|s| - 1]) + {s[|s| - 1]};
    }
  }

  lemma PrefixMembers(a: seq<int>, b: seq<int>)
    requires a <= b
    ensures forall t :: t in a ==> t in b
  {
    assert b == a + b[|a|..];
  }

  lemma ExtendedMembers(w: Walk, day: int, acc: seq<int>, more: seq<int>, n: int)
    requires ValidWalk(w) && Extends(w, day, acc, more, n)
    ensures forall t :: t in more ==>
      t in acc || (t in more[|acc|..] && LocalDay(w.z, t) == day && t <= w.horizon && IsStart(w, t))
  {
    forall t | t in more && t !in acc
      ensures t in more[|acc|..] && LocalDay(w.z, t) == day && t <= w.horizon && IsStart(w, t)
    {
      var i :| 0 <= i < |more| && more[i] == t;
      assert more[|acc|..][i - |acc|] == t;
    }
  }

  lemma ExtendedDays(w: Walk, day: int, acc: seq<int>, more: seq<int>, n: int)
    requires ValidWalk(w) && Extends(w, day, acc, more, n) && n <= MAX_PER_DAY
    requires DaysWithinCap(w.z, acc) && day !in LocalDays(w.z, acc)
    ensures DaysWithinCap(w.z, more)
    ensures |LocalDays(w.z, more)| <= |LocalDays(w.z, acc)| + 1
  {
    ExtendedMembers(w, day, acc, more, n);
    PrefixMembers(acc, more);
    forall d
      ensures |OnDay(w.z, more, d)| <= MAX_PER_DAY
    {
      if d == day {
        MembersBound(more[|acc|..]);
        SubsetSize(OnDay(w.z, more, d), Members(more[|acc|..]));
      } else {
        assert OnDay(w.z, more, d) == OnDay(w.z, acc, d);
      }
    }
    SubsetSize(LocalDays(w.z, more), LocalDays(w.z, acc) + {day});
  }

  lemma ExtendedStarts(w: Walk, offset: nat, acc: seq<int>, more: seq<int>, n: int)
    requires ValidWalk(w) && Extends(w, w.today + offset, acc, more, n) && StartsSoFar(w, offset, acc)
    ensures StartsSoFar(w, offset + 1, more)
  {
    ExtendedMembers(w, w.today + offset, acc, more, n);
    forall t | t in more
      ensures IsStart(w, t) && t <= w.horizon && w.today <= LocalDay(w.z, t) < w.today + offset + 1
    {
      if t in acc {
        assert IsStart(w, t);
      }
    }
  }

  lemma DayStep(w: Walk, offset: nat, openDays: nat, acc: seq<int>)
    requires ValidWalk(w) && SoundStarts(w) && OpenSpansValid(w) && WalkedSoFar(w, offset, openDays, acc)
    requires openDays < w.daysAhead && |acc| < MAX_SLOTS
    ensures var day := w.today + offset;
      WalkedSoFar(w, offset + 1, openDays + 1, WalkDay(w, day, w.open(day), acc, 0).0)
  {
    hide WalkDay, IsStart, OnDay, LocalDays, DaysWithinCap, Sorting.Distinct, SoundStarts;
    var day := w.today + offset;
    DayExtends(w, day, w.open(day), acc, 0);
    var (more, n) := WalkDay(w, day, w.open(day), acc, 0);
    NewDay(w, offset, acc);
    ExtendedStarts(w, offset, acc, more, n);
    ExtendedDays(w, day, acc, more, n);
  }

  lemma NewDay(w: Walk, offset: nat, acc: seq<int>)
    requires ValidWalk(w) && StartsSoFar(w, offset, acc)
    ensures w.today + offset !in LocalDays(w.z, acc)
  {
  }

  lemma {:induction false} WalkKeeps(w: Walk, offset: nat, openDays: nat, acc: seq<int>)
    requires ValidWalk(w) && SoundStarts(w) && OpenSpansValid(w)
    requires WalkedSoFar(w, offset, openDays, acc) && offset <= MAX_WALK_DAYS
    ensures WalkedSoFar(w, MAX_WALK_DAYS, w.daysAhead, WalkDays(w, offset, openDays, acc))
    decreases MAX_WALK_DAYS - offset
  {
    if offset < MAX_WALK_DAYS && openDays < w.daysAhead && |acc| < MAX_SLOTS {
      var day := w.today + offset;
      if w.open(day) == [] {
        WalkKeeps(w, offset + 1, openDays, acc);
      } else {
        DayStep(w, offset, openDays, acc);
        WalkKeeps(w, offset + 1, openDays + 1, WalkDay(w, day, w.open(day), acc, 0).0);
      }
    }
  }

  lemma CollectedShape(w: Walk)
    requires ValidWalk(w) && SoundStarts(w) && OpenSpansValid(w)
    ensures WalkedSoFar(w, MAX_WALK_DAYS, w.daysAhead, Collected(w))
  {
    WalkKeeps(w, 0, 0, []);
  }

  lemma EarlierIsOrder()
    ensures Sorting.IsOrder(Earlier())
  {
  }

  /** The list offered: strictly in order, every instant a start of its own date's open hours and inside
      the booking window, at most 128 of them, 32 on a day and on `daysAhead` days. The collecting loop
      itself may overshoot 128, but by less than one day. */
  lemma TimesShape(w: Walk)
    requires ValidWalk(w) && SoundStarts(w) && OpenSpansValid(w)
    ensures |Collected(w)| < MAX_SLOTS + MAX_PER_DAY
    ensures var r := Times(w);
      && |r| <= MAX_SLOTS
      && (forall i, j :: 0 <= i < j < |r| ==> r[i] < r[j])
      && (forall t :: t in r ==>
            && t in Collected(w) && IsStart(w, t) && t <= w.horizon
            && w.today <= LocalDay(w.z, t) < w.today + MAX_WALK_DAYS)
      && (forall day :: |OnDay(w.z, r, day)| <= MAX_PER_DAY)
      && |LocalDays(w.z, r)| <= w.daysAhead
  {
    CollectedShape(w);
    var all := Collected(w);
    var sorted := Sorting.Sort(Earlier(), all);
    var r := Times(w);
    EarlierIsOrder();
    Sorting.SortSorts(Earlier(), all);
    Sorting.SortKeepsDistinct(Earlier(), all);
    Sorting.SortKeepsMembers(Earlier(), all);
    forall i, j | 0 <= i < j < |r|
      ensures r[i] < r[j]
    {
      assert Earlier()(sorted[i], sorted[j]) && sorted[i] != sorted[j];
    }
    assert forall t :: t in r ==> t in sorted;
    forall day
      ensures |OnDay(w.z, r, day)| <= MAX_PER_DAY
    {
      SubsetSize(OnDay(w.z, r, day), OnDay(w.z, all, day));
    }
    SubsetSize(LocalDays(w.z, r), LocalDays(w.z, all));
  }

  // ----- nothing open is passed over

  lemma {:induction false} SpanPrefix(w: Walk, day: int, m: int, to: int, acc: seq<int>, inDay: int)
    requires ValidWalk(w)
    ensures acc <= WalkSpan(w, day, m, to, acc, inDay).0
    ensures inDay <= WalkSpan(w, day, m, to, acc, inDay).1
    ensures inDay >= MAX_PER_DAY ==> WalkSpan(w, day, m, to, acc, inDay) == (acc, inDay)
    decreases if m < to then to - m else 0
  {
    if m < to && inDay < MAX_PER_DAY {
      var t := w.start(day, m);
      if t.None? || t.value in acc {
        SpanPrefix(w, day, m + w.slot, to, acc, inDay);
      } else if t.value <= w.horizon {
        SpanPrefix(w, day, m + w.slot, to, acc + [t.value], inDay + 1);
      }
    }
  }

  /** Stepping from `m` by the slot length arrives at `n`. */
  ghost predicate Reaches(slot: int, m: int, n: int)
    requires slot > 0
    decreases if m < n then n - m else 0
  {
    m == n || (m < n && Reaches(slot, m + slot, n))
  }

  lemma {:induction false} GridReached(slot: int, m: int, n: int)
    requires slot > 0 && m <= n && (n - m) % slot == 0
    ensures Reaches(slot, m, n)
    decreases n - m
  {
    if m < n {
      var q := (n - m) / slot;
      assert n - m == slot * q;
      assert q >= 1;
      MulMonotone(slot, 1, q);
      assert n - (m + slot) == slot * (q - 1);
      MultipleRemainder(slot, q - 1);
      GridReached(slot, m + slot, n);
    }
  }

  /** Later wall times of `day` start at later instants. */
  ghost predicate StartsInOrder(w: Walk, day: int) {
    forall m, n :: 0 <= m < n < DAY_MINUTES && w.start(day, m).Some? && w.start(day, n).Some? ==>
      w.start(day, m).value < w.start(day, n).value
  }

  lemma OneChangeInOrder(w: Walk, day: int)
    requires w.start == Starts(w.z)
    requires RealZone(w.z) && AtMostOneChange(w.z, (day - 1) * DAY_MINUTES, (day + 2) * DAY_MINUTES)
    ensures StartsInOrder(w, day)
  {
    forall m, n | 0 <= m < n < DAY_MINUTES && w.start(day, m).Some? && w.start(day, n).Some?
      ensures w.start(day, m).value < w.start(day, n).value
    {
      StartsAscend(w.z, day, m, n);
    }
  }

  lemma SpanTakes(w: Walk, day: int, n: int, to: int, acc: seq<int>, inDay: int)
    requires ValidWalk(w) && n < to && inDay < MAX_PER_DAY
    requires w.start(day, n).Some? && w.start(day, n).value <= w.horizon
    ensures w.start(day, n).value in WalkSpan(w, day, n, to, acc, inDay).0
  {
    var t := w.start(day, n).value;
    if t in acc {
      SpanPrefix(w, day, n, to, acc, inDay);
      PrefixMembers(acc, WalkSpan(w, day, n, to, acc, inDay).0);
    } else {
      SpanPrefix(w, day, n + w.slot, to, acc + [t], inDay + 1);
      PrefixMembers(acc + [t], WalkSpan(w, day, n + w.slot, to, acc + [t], inDay + 1).0);
      assert t in acc + [t];
    }
  }

  /** The early `break` at the horizon loses nothing: later wall times are later instants. */
  lemma {:induction false} SpanCollects(w: Walk, day: int, m: int, n: int, to: int, acc: seq<int>, inDay: int)
    requires ValidWalk(w) && 0 <= m <= n < to <= DAY_MINUTES
    requires Reaches(w.slot, m, n)
    requires StartsInOrder(w, day)
    requires w.start(day, n).Some? && w.start(day, n).value <= w.horizon
    ensures var r := WalkSpan(w, day, m, to, acc, inDay);
      w.start(day, n).value in r.0 || r.1 >= MAX_PER_DAY
    decreases DAY_MINUTES - m
  {
    if inDay < MAX_PER_DAY {
      if m == n {
        SpanTakes(w, day, n, to, acc, inDay);
      } else {
        var t := w.start(day, m);
        if t.None? || t.value in acc {
          SpanCollects(w, day, m + w.slot, n, to, acc, inDay);
        } else {
          assert t.value < w.start(day, n).value;
          SpanCollects(w, day, m + w.slot, n, to, acc + [t.value], inDay + 1);
        }
      }
    }
  }

  lemma {:induction false} DayPrefix(w: Walk, day: int, spans: seq<Span>, acc: seq<int>, inDay: int)
    requires ValidWalk(w)
    ensures acc <= WalkDay(w, day, spans, acc, inDay).0
    ensures inDay <= WalkDay(w, day, spans, acc, inDay).1
  {
    if spans != [] {
      SpanPrefix(w, day, spans[0].from, spans[0].to, acc, inDay);
      var r := WalkSpan(w, day, spans[0].from, spans[0].to, acc, inDay);
      DayPrefix(w, day, spans[1..], r.0, r.1);
    }
  }

  lemma {:induction false} DayCollects(w: Walk, day: int, spans: seq<Span>, s: Span, n: int, acc: seq<int>, inDay: int)
    requires ValidWalk(w) && s in spans && OnGrid(s, w.slot, n)
    requires forall x :: x in spans ==> ValidSpan(x)
    requires StartsInOrder(w, day)
    requires w.start(day, n).Some? && w.start(day, n).value <= w.horizon
    ensures var r := WalkDay(w, day, spans, acc, inDay);
      w.start(day, n).value in r.0 || r.1 >= MAX_PER_DAY
  {
    var r := WalkSpan(w, day, spans[0].from, spans[0].to, acc, inDay);
    if spans[0] == s {
      GridReached(w.slot, s.from, n);
      SpanCollects(w, day, s.from, n, s.to, acc, inDay);
      DayPrefix(w, day, spans[1..], r.0, r.1);
    } else {
      DayCollects(w, day, spans[1..], s, n, r.0, r.1);
    }
  }

  lemma {:induction false} WalkPrefix(w: Walk, offset: nat, openDays: nat, acc: seq<int>)
    requires ValidWalk(w)
    ensures acc <= WalkDays(w, offset, openDays, acc)
    decreases MAX_WALK_DAYS - offset
  {
    if offset < MAX_WALK_DAYS && openDays < w.daysAhead && |acc| < MAX_SLOTS {
      var day := w.today + offset;
      if w.open(day) == [] {
        WalkPrefix(w, offset + 1, openDays, acc);
      } else {
        DayPrefix(w, day, w.open(day), acc, 0);
        WalkPrefix(w, offset + 1, openDays + 1, WalkDay(w, day, w.open(day), acc, 0).0);
      }
    }
  }

  /** Open days among today and the `k` days from `offset` on. */
  function OpenDaysFrom(w: Walk, offset: nat, k: nat): nat
    requires offset <= k
    decreases k - offset
  {
    if offset == k then 0
    else (if w.open(w.today + offset) == [] then 0 else 1) + OpenDaysFrom(w, offset + 1, k)
  }

  /** A start the walk owes the list: an existing wall time of the grid of an open day in reach. */
  ghost predicate Owed(w: Walk, k: nat, s: Span, n: int)
    requires ValidWalk(w)
  {
    var day := w.today + k;
    && k < MAX_WALK_DAYS && s in w.open(day) && OnGrid(s, w.slot, n)
    && w.start(day, n).Some? && w.start(day, n).value <= w.horizon
    && StartsInOrder(w, day)
  }

  lemma {:induction false} WalkCollects(w: Walk, offset: nat, openDays: nat, acc: seq<int>, k: nat, s: Span, n: int)
    requires ValidWalk(w) && SoundStarts(w) && OpenSpansValid(w)
    requires WalkedSoFar(w, offset, openDays, acc) && offset <= k
    requires Owed(w, k, s, n) && openDays + OpenDaysFrom(w, offset, k) < w.daysAhead
    ensures var r := WalkDays(w, offset, openDays, acc);
      var day := w.today + k;
      w.start(day, n).value in r || |OnDay(w.z, r, day)| == MAX_PER_DAY || |r| >= MAX_SLOTS
    decreases MAX_WALK_DAYS - offset
  {
    var day := w.today + offset;
    if |acc| < MAX_SLOTS {
      if w.open(day) == [] {
        WalkCollects(w, offset + 1, openDays, acc, k, s, n);
      } else if offset < k {
        DayStep(w, offset, openDays, acc);
        WalkCollects(w, offset + 1, openDays + 1, WalkDay(w, day, w.open(day), acc, 0).0, k, s, n);
      } else {
        DayOwed(w, offset, openDays, acc, s, n);
      }
    }
  }

  lemma DayOwed(w: Walk, offset: nat, openDays: nat, acc: seq<int>, s: Span, n: int)
    requires ValidWalk(w) && SoundStarts(w) && OpenSpansValid(w)
    requires WalkedSoFar(w, offset, openDays, acc)
    requires Owed(w, offset, s, n) && openDays < w.daysAhead && |acc| < MAX_SLOTS
    ensures var r := WalkDays(w, offset, openDays, acc);
      var day := w.today + offset;
      w.start(day, n).value in r || |OnDay(w.z, r, day)| == MAX_PER_DAY
  {
    hide OnDay, LocalDays, WalkSpan, WalkDay, IsStart, Sorting.Distinct;
    var day := w.today + offset;
    var (more, inDay) := WalkDay(w, day, w.open(day), acc, 0);
    DayCollects(w, day, w.open(day), s, n, acc, 0);
    DayExtends(w, day, w.open(day), acc, 0);
    DayStep(w, offset, openDays, acc);
    WalkPrefix(w, offset + 1, openDays + 1, more);
    WalkKeeps(w, offset + 1, openDays + 1, more);
    var r := WalkDays(w, offset + 1, openDays + 1, more);
    PrefixMembers(more, r);
    if w.start(day, n).value !in more {
      FullDay(w.z, acc, more, day, inDay);
      CapReached(w.z, more, r, day);
    }
  }

  lemma CapReached(z: Zone, more: seq<int>, r: seq<int>, day: int)
    requires forall t :: t in more ==> t in r
    requires |OnDay(z, more, day)| >= MAX_PER_DAY && DaysWithinCap(z, r)
    ensures |OnDay(z, r, day)| == MAX_PER_DAY
  {
    SubsetSize(OnDay(z, more, day), OnDay(z, r, day));
  }

  lemma FullDay(z: Zone, acc: seq<int>, more: seq<int>, day: int, n: int)
    requires acc <= more && |more| == |acc| + n && Sorting.Distinct(more)
    requires forall i :: |acc| <= i < |more| ==> LocalDay(z, more[i]) == day
    ensures |OnDay(z, more, day)| >= n
  {
    var added := more[|acc|..];
    DistinctMembers(added);
    assert Members(added) <= OnDay(z, more, day);
    SubsetSize(Members(added), OnDay(z, more, day));
  }

  lemma {:induction false} DistinctMembers(s: seq<int>)
    requires Sorting.Distinct(s)
    ensures |Members(s)| == |s|
  {
    if s != [] {
      var front, last := s[..|s| - 1], s[|s| - 1];
      DistinctMembers(front);
      assert Members(s) == Members(front) + {last};
      assert last !in front;
    }
  }

  /** Nothing open is passed over: in a zone with at most one change around that day, a wall time of the grid that
      exists, on one of the first `daysAhead` open days and inside the window, is offered, unless its day
      already collected its 32 or the list already has its 128. */
  lemma NothingOpenIsPassedOver(w: Walk, k: nat, s: Span, n: int)
    requires ValidWalk(w) && w.start == Starts(w.z) && OpenSpansValid(w) && RealZone(w.z)
    requires AtMostOneChange(w.z, (w.today + k - 1) * DAY_MINUTES, (w.today + k + 2) * DAY_MINUTES)
    requires k < MAX_WALK_DAYS && s in w.open(w.today + k) && OnGrid(s, w.slot, n)
    requires OpenDaysFrom(w, 0, k) < w.daysAhead
    requires w.start(w.today + k, n).Some? && w.start(w.today + k, n).value <= w.horizon
    ensures var day := w.today + k;
      || w.start(day, n).value in Times(w)
      || |OnDay(w.z, Collected(w), day)| == MAX_PER_DAY
      || |Times(w)| == MAX_SLOTS
  {
    hide WalkDays, OnDay, OnGrid, SoundStarts, StartsInOrder, OpenSpansValid, WalkedSoFar, RealZone, AtMostOneChange,
      OpenDaysFrom, FirstSlots;
    ZoneStartsSound(w);
    OneChangeInOrder(w, w.today + k);
    NothingWalked(w);
    WalkCollects(w, 0, 0, [], k, s, n);
    CollectedOffered(w, w.start(w.today + k, n).value);
  }

  lemma NothingWalked(w: Walk)
    requires ValidWalk(w)
    ensures WalkedSoFar(w, 0, 0, [])
  {
  }

  /** What is collected is offered, unless the list is full. */
  lemma CollectedOffered(w: Walk, t: int)
    requires ValidWalk(w)
    ensures t in Collected(w) ==> t in Times(w) || |Times(w)| == MAX_SLOTS
    ensures |Collected(w)| >= MAX_SLOTS ==> |Times(w)| == MAX_SLOTS
  {
    hide Collected;
    Sorting.SortKeepsMembers(Earlier(), Collected(w));
  }
}
