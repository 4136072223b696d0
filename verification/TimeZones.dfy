/** Wall-clock time in a zone, and the instants a wall time names
    (shared/callbackSlots.ts). Instants are milliseconds since the epoch. */
module TimeZones {
  import opened Options
  import opened CivilCalendar

  const MINUTE := 60_000
  const DAY_MINUTES := 1440

  /** The zone database's answer: the offset in minutes east of UTC, by UTC minute. */
  type Zone = int -> int

  /** Offsets stay below a day, so `±hh:mm` can print them. */
  ghost predicate RealZone(z: Zone) {
    forall u :: -DAY_MINUTES < z(u) < DAY_MINUTES
  }

  datatype Parts = Parts(y: int, mo: int, d: int, h: int, min: int, dow: int)

  predicate ValidParts(p: Parts) {
    ValidDate(CivilDate(p.y, p.mo, p.d)) && 0 <= p.h < 24 && 0 <= p.min < 60
  }

  /** The minute the zone's clock shows at `t`, counted from its own 1 January 1970. */
  function WallMinute(z: Zone, t: int): int {
    t / MINUTE + z(t / MINUTE)
  }

  function LocalDay(z: Zone, t: int): int {
    WallMinute(z, t) / DAY_MINUTES
  }

  function LocalMinute(z: Zone, t: int): (m: int)
    ensures 0 <= m < DAY_MINUTES
  {
    WallMinute(z, t) % DAY_MINUTES
  }

  function PartsInTz(z: Zone, t: int): (p: Parts)
    ensures ValidParts(p)
  {
    var c := DateOfDay(LocalDay(z, t));
    var m := LocalMinute(z, t);
    Parts(c.y, c.mo, c.d, m / 60, m % 60, DayOfWeek(LocalDay(z, t)))
  }

  /** Date.UTC(y, mo - 1, d, h, min, 0). */
  function DateUtc(y: int, mo: int, d: int, h: int, min: int): int
    requires 1 <= mo <= 12
  {
    (DayNumber(y, mo, d) * DAY_MINUTES + h * 60 + min) * MINUTE
  }

  /** What the zone shows at `t`, read back as if it were UTC. */
  method ShownUtc(z: Zone, t: int) returns (ms: int)
    ensures ms == WallMinute(z, t) * MINUTE
  {
    var p := PartsInTz(z, t);
    DayOfDate(LocalDay(z, t));
    ms := DateUtc(p.y, p.mo, p.d, p.h, p.min);
  }

  /** The wall minute that (y, mo, d, h, min) names. */
  function WallOf(y: int, mo: int, d: int, h: int, min: int): int
    requires 1 <= mo <= 12
  {
    DayNumber(y, mo, d) * DAY_MINUTES + h * 60 + min
  }

  /** The estimate: as if the zone's offset at the guess were the one at the answer. */
  method TzWallToUtc(y: int, mo: int, d: int, h: int, min: int, z: Zone) returns (t: int)
    requires 1 <= mo <= 12
    ensures var w := WallOf(y, mo, d, h, min); t == (w - z(w)) * MINUTE
  {
    var guess := DateUtc(y, mo, d, h, min);
    var observedUtcGuess := ShownUtc(z, guess);
    var targetUtcGuess := DateUtc(y, mo, d, h, min);
    var diffMs := targetUtcGuess - observedUtcGuess;
    t := guess + diffMs;
  }

  /** The search for the UTC minute that shows wall minute `w`: each pass
      corrects the estimate `u` by what the zone shows there. */
  function Refine(z: Zone, w: int, u: int, passes: nat): Option<int>
    decreases passes
  {
    if passes == 0 then None
    else if u + z(u) == w then Some(u)
    else Refine(z, w, w - z(u), passes - 1)
  }

  function MinuteOfWall(z: Zone, w: int): Option<int> {
    Refine(z, w, w - z(w), 3)
  }

  function InMilliseconds(u: Option<int>): Option<int> {
    if u.Some? then Some(u.value * MINUTE) else None
  }

  /** The answer is the first of three estimates that shows what was asked: the offset at the wall time read as UTC, the
      offset there, and the offset at that. */
  lemma ThreeEstimates(z: Zone, w: int)
    ensures var first := w - z(w);
      var second := w - z(first);
      var third := w - z(second);
      MinuteOfWall(z, w) ==
        if first + z(first) == w then Some(first)
        else if second + z(second) == w then Some(second)
        else if third + z(third) == w then Some(third)
        else None
  {
    var first := w - z(w);
    var second := w - z(first);
    assert Refine(z, w, first, 3) == if first + z(first) == w then Some(first) else Refine(z, w, second, 2);
    assert Refine(z, w, second, 2) ==
      if second + z(second) == w then Some(second) else Refine(z, w, w - z(second), 1);
  }

  lemma DateUtcOfWall(y: int, mo: int, d: int, h: int, min: int)
    requires 1 <= mo <= 12
    ensures DateUtc(y, mo, d, h, min) == WallOf(y, mo, d, h, min) * MINUTE
  {
    hide DayNumber;
  }

  lemma ShownAt(z: Zone, u: int)
    ensures WallMinute(z, u * MINUTE) == u + z(u)
  {
    assert u * MINUTE / MINUTE == u;
  }

  method WallInstant(y: int, mo: int, d: int, h: int, min: int, z: Zone) returns (r: Option<int>)
    requires 1 <= mo <= 12
    ensures r == InMilliseconds(MinuteOfWall(z, WallOf(y, mo, d, h, min)))
  {
    hide DayNumber, PartsInTz, WallOf, DateUtc, WallMinute;
    DateUtcOfWall(y, mo, d, h, min);
    var target := DateUtc(y, mo, d, h, min);
    ghost var w := WallOf(y, mo, d, h, min);
    var t := TzWallToUtc(y, mo, d, h, min, z);
    ghost var u := w - z(w);
    var pass := 0;
    while pass < 3
      invariant 0 <= pass <= 3 && t == u * MINUTE
      invariant Refine(z, w, u, 3 - pass) == MinuteOfWall(z, w)
    {
      ShownAt(z, u);
      var shown := ShownUtc(z, t);
      var diff := target - shown;
      if diff == 0 {
        return Some(t);
      }
      t := t + diff;
      u := w - z(u);
      pass := pass + 1;
    }
    r := None;
  }

  /** The instant the zone's clock shows minute `m` of day `day`, as the slot walk asks for it. */
  function StartOf(z: Zone, day: int, m: int): Option<int> {
    InMilliseconds(MinuteOfWall(z, day * DAY_MINUTES + m))
  }

  // ----- soundness: what is returned shows what was asked

  lemma {:induction false} RefineSound(z: Zone, w: int, u: int, passes: nat)
    ensures var r := Refine(z, w, u, passes); r.Some? ==> r.value + z(r.value) == w
    decreases passes
  {
    if passes > 0 && u + z(u) != w {
      RefineSound(z, w, w - z(u), passes - 1);
    }
  }

  /** In any zone, however its offsets move: the start found for minute `m`
      of `day` is a whole minute, falls on `day` and shows minute `m`. */
  lemma StartSound(z: Zone, day: int, m: int)
    requires 0 <= m < DAY_MINUTES
    ensures var r := StartOf(z, day, m);
      r.Some? ==> (r.value % MINUTE == 0 && LocalDay(z, r.value) == day && LocalMinute(z, r.value) == m)
  {
    var w := day * DAY_MINUTES + m;
    RefineSound(z, w, w - z(w), 3);
  }

  lemma PartsShown(z: Zone, t: int, day: int, m: int)
    requires LocalDay(z, t) == day && LocalMinute(z, t) == m
    ensures var c := DateOfDay(day); PartsInTz(z, t) == Parts(c.y, c.mo, c.d, m / 60, m % 60, DayOfWeek(day))
  {
  }

  /** The same, in dates: the parts the zone shows are the parts asked for. */
  lemma WallInstantSound(z: Zone, c: CivilDate, h: int, min: int, t: int)
    requires ValidDate(c) && 0 <= h < 24 && 0 <= min < 60
    requires InMilliseconds(MinuteOfWall(z, WallOf(c.y, c.mo, c.d, h, min))) == Some(t)
    ensures var p := PartsInTz(z, t); p.y == c.y && p.mo == c.mo && p.d == c.d && p.h == h && p.min == min
  {
    hide DayNumber, DateOfDay, Refine, DaysInMonth, DayOfWeek, PartsInTz, LocalDay, LocalMinute;
    var day := DayNumber(c.y, c.mo, c.d);
    StartSound(z, day, h * 60 + min);
    DateOfDayNumber(c);
    PartsShown(z, t, day, h * 60 + min);
  }

  // ----- completeness, for zones that change offset at most once in reach

  ghost predicate ChangesAt(z: Zone, lo: int, hi: int, change: int, before: int, after: int) {
    forall u :: lo <= u < hi ==> z(u) == if u < change then before else after
  }

  /** The zone changes its offset at most once between the UTC minutes `lo` and `hi`. */
  ghost predicate AtMostOneChange(z: Zone, lo: int, hi: int) {
    exists change, before, after :: ChangesAt(z, lo, hi, change, before, after)
  }

  /** The wall minute `w` is reached by some instant: no daylight-saving gap skips it. */
  ghost predicate Exists(z: Zone, w: int) {
    exists u :: u + z(u) == w
  }

  /** With one change in reach, which answer is found is decided by which
      side of the change the wall time itself lies on. */
  lemma OneChangeSearch(z: Zone, w: int, change: int, before: int, after: int)
    requires RealZone(z)
    requires ChangesAt(z, w - DAY_MINUTES, w + DAY_MINUTES, change, before, after)
    ensures var r := MinuteOfWall(z, w);
      && (r.None? <==> w - before >= change && w - after < change)
      && (r.Some? ==>
            r.value == if w - before < change && (w < change || w - after < change) then w - before else w - after)
  {
    var s0 := w - z(w);
    var s1 := w - z(s0);
    var s2 := w - z(s1);
    assert Refine(z, w, s0, 3) == if s0 + z(s0) == w then Some(s0) else Refine(z, w, s1, 2);
    assert Refine(z, w, s1, 2) == if s1 + z(s1) == w then Some(s1) else Refine(z, w, s2, 1);
    assert Refine(z, w, s2, 1) == if s2 + z(s2) == w then Some(s2) else Refine(z, w, w - z(s2), 0);
  }

  /** Under one change an instant shows `w` exactly when `w` lies before the gap or past it. */
  lemma ExistsUnderOneChange(z: Zone, w: int, change: int, before: int, after: int)
    requires RealZone(z)
    requires ChangesAt(z, w - DAY_MINUTES, w + DAY_MINUTES, change, before, after)
    ensures Exists(z, w) <==> w - before < change || w - after >= change
  {
    assert -DAY_MINUTES < z(w) < DAY_MINUTES;
    assert -DAY_MINUTES < z(w + DAY_MINUTES - 1) < DAY_MINUTES;
    assert -DAY_MINUTES < z(w - DAY_MINUTES) < DAY_MINUTES;
    if Exists(z, w) {
      var u :| u + z(u) == w;
    } else {
      assert (w - before) + z(w - before) != w;
      assert (w - after) + z(w - after) != w;
    }
  }

  /** The source's claim about daylight saving: exact for every wall time that
      exists, null exactly for those a gap skips. */
  lemma StartComplete(z: Zone, day: int, m: int)
    requires RealZone(z) && 0 <= m < DAY_MINUTES
    requires AtMostOneChange(z, (day - 1) * DAY_MINUTES, (day + 2) * DAY_MINUTES)
    ensures StartOf(z, day, m).None? <==> !Exists(z, day * DAY_MINUTES + m)
  {
    var w := day * DAY_MINUTES + m;
    var change, before, after :| ChangesAt(z, (day - 1) * DAY_MINUTES, (day + 2) * DAY_MINUTES, change, before, after);
    assert ChangesAt(z, w - DAY_MINUTES, w + DAY_MINUTES, change, before, after);
    OneChangeSearch(z, w, change, before, after);
    ExistsUnderOneChange(z, w, change, before, after);
  }

  lemma OneChangeAscends(z: Zone, v: int, w: int, change: int, before: int, after: int)
    requires RealZone(z) && v < w
    requires ChangesAt(z, v - DAY_MINUTES, v + DAY_MINUTES, change, before, after)
    requires ChangesAt(z, w - DAY_MINUTES, w + DAY_MINUTES, change, before, after)
    requires MinuteOfWall(z, v).Some? && MinuteOfWall(z, w).Some?
    ensures MinuteOfWall(z, v).value < MinuteOfWall(z, w).value
  {
    OneChangeSearch(z, v, change, before, after);
    OneChangeSearch(z, w, change, before, after);
    RefineSound(z, v, v - z(v), 3);
    RefineSound(z, w, w - z(w), 3);
    var a, b := MinuteOfWall(z, v).value, MinuteOfWall(z, w).value;
    assert a == v - before || a == v - after;
    assert b == w - before || b == w - after;
  }

  /** Later wall times of a day start at later instants, also across a change in either direction. */
  lemma StartsAscend(z: Zone, day: int, m: int, n: int)
    requires RealZone(z) && 0 <= m < n < DAY_MINUTES
    requires AtMostOneChange(z, (day - 1) * DAY_MINUTES, (day + 2) * DAY_MINUTES)
    requires StartOf(z, day, m).Some? && StartOf(z, day, n).Some?
    ensures StartOf(z, day, m).value < StartOf(z, day, n).value
  {
    hide Refine;
    var v, w := day * DAY_MINUTES + m, day * DAY_MINUTES + n;
    var change, before, after :| ChangesAt(z, (day - 1) * DAY_MINUTES, (day + 2) * DAY_MINUTES, change, before, after);
    assert ChangesAt(z, v - DAY_MINUTES, v + DAY_MINUTES, change, before, after);
    assert ChangesAt(z, w - DAY_MINUTES, w + DAY_MINUTES, change, before, after);
    OneChangeAscends(z, v, w, change, before, after);
  }

  /** The third pass never decides: two estimates already find what the zone has. */
  lemma TwoPassesSuffice(z: Zone, day: int, m: int)
    requires RealZone(z) && 0 <= m < DAY_MINUTES
    requires AtMostOneChange(z, (day - 1) * DAY_MINUTES, (day + 2) * DAY_MINUTES)
    ensures var w := day * DAY_MINUTES + m; MinuteOfWall(z, w) == Refine(z, w, w - z(w), 2)
  {
    var w := day * DAY_MINUTES + m;
    var change, before, after :| ChangesAt(z, (day - 1) * DAY_MINUTES, (day + 2) * DAY_MINUTES, change, before, after);
    OneChangeSearch(z, w, change, before, after);
    var s1 := w - z(w - z(w));
    assert Refine(z, w, w - z(w), 3) == if w - z(w) + z(w - z(w)) == w then Some(w - z(w)) else Refine(z, w, s1, 2);
    assert Refine(z, w, w - z(w), 2) == if w - z(w) + z(w - z(w)) == w then Some(w - z(w)) else Refine(z, w, s1, 1);
    assert Refine(z, w, s1, 1) == if s1 + z(s1) == w then Some(s1) else Refine(z, w, w - z(s1), 0);
  }

  // ----- two changes in reach

  predicate IsOffset(n: int) {
    -DAY_MINUTES < n < DAY_MINUTES
  }

  /** Two changes between `lo` and `hi`: the offset is `a`, from `first` on `b`, from `second` on `c`. */
  ghost predicate ChangesTwice(z: Zone, lo: int, hi: int, first: int, second: int, a: int, b: int, c: int) {
    && first < second && IsOffset(a) && IsOffset(b) && IsOffset(c)
    && forall u :: lo <= u < hi ==> z(u) == if u < first then a else if u < second then b else c
  }

  /** The one instant that shows `w` lies under offset `b`, and the passes go to and fro between `a` and `c`. */
  predicate OnlyBetween(w: int, first: int, second: int, a: int, b: int, c: int) {
    first <= w - b < second && w - a >= second && w - c < first && !(first <= w < second)
  }

  /** It lies under `a`, and the passes go to and fro between `b` and `c`. */
  predicate OnlyBefore(w: int, first: int, second: int, a: int, b: int, c: int) {
    w - a < first && w - b >= second && first <= w - c < second && w >= first
  }

  /** It lies under `c`, and the passes go to and fro between `a` and `b`. */
  predicate OnlyAfter(w: int, first: int, second: int, a: int, b: int, c: int) {
    w - c >= second && first <= w - a < second && w - b < first && w < second
  }

  predicate Missed(w: int, first: int, second: int, a: int, b: int, c: int) {
    || OnlyBetween(w, first, second, a, b, c)
    || OnlyBefore(w, first, second, a, b, c)
    || OnlyAfter(w, first, second, a, b, c)
  }

  lemma ExistsUnderTwoChanges(z: Zone, w: int, first: int, second: int, a: int, b: int, c: int)
    requires RealZone(z)
    requires ChangesTwice(z, w - DAY_MINUTES, w + DAY_MINUTES, first, second, a, b, c)
    ensures Exists(z, w) ==> w - a < first || first <= w - b < second || w - c >= second
    ensures w - a < first || first <= w - b < second || w - c >= second ==> Exists(z, w)
  {
    if Exists(z, w) {
      var u :| u + z(u) == w;
    } else {
      assert (w - a) + z(w - a) != w && (w - b) + z(w - b) != w && (w - c) + z(w - c) != w;
    }
  }

  lemma TwoChangesSearch(z: Zone, w: int, first: int, second: int, a: int, b: int, c: int)
    requires ChangesTwice(z, w - DAY_MINUTES, w + DAY_MINUTES, first, second, a, b, c)
    ensures MinuteOfWall(z, w).None? && (w - a < first || first <= w - b < second || w - c >= second)
        <==> Missed(w, first, second, a, b, c)
  {
  }

  /** With two changes in reach, exactly which existing wall times the search misses. */
  lemma TwoChangesMissExactly(z: Zone, w: int, first: int, second: int, a: int, b: int, c: int)
    requires RealZone(z)
    requires ChangesTwice(z, w - DAY_MINUTES, w + DAY_MINUTES, first, second, a, b, c)
    ensures Exists(z, w) && MinuteOfWall(z, w).None? <==> Missed(w, first, second, a, b, c)
  {
    hide Exists, MinuteOfWall, Missed, ChangesTwice;
    ExistsUnderTwoChanges(z, w, first, second, a, b, c);
    TwoChangesSearch(z, w, first, second, a, b, c);
  }

  /** Two hours gained in two steps an hour apart. */
  function TwoStepZone(): Zone {
    (u: int) => if u < -90 then 0 else if u < -30 then 60 else 120
  }

  /** There an instant shows midnight, and the search answers null. */
  lemma TwoChangesHideATime()
    ensures RealZone(TwoStepZone()) && ChangesTwice(TwoStepZone(), -DAY_MINUTES, DAY_MINUTES, -90, -30, 0, 60, 120)
    ensures Exists(TwoStepZone(), 0) && MinuteOfWall(TwoStepZone(), 0).None?
  {
    assert OnlyBetween(0, -90, -30, 0, 60, 120);
    TwoChangesMissExactly(TwoStepZone(), 0, -90, -30, 0, 60, 120);
  }
}
