/** The report's balance movements: ledger days summed by month, currency and kind
    (shared/simpleBillingAdmin.ts, bucketRevenue). */
module RevenueLedger {
  import opened Text
  import opened RevenueMonths
  import opened Revenue
  import Sorting

  datatype LedgerDay = LedgerDay(day: int, currency: string, kind: string, count: int, credit: int, debit: int)

  datatype LedgerRow = LedgerRow(month: int, currency: string, kind: string, count: int, credit: int, debit: int)

  predicate LedgerKept(p: Plan, l: LedgerDay) {
    p.calendar(l.day) in p.months
  }

  predicate InLedgerRow(p: Plan, l: LedgerDay, month: int, currency: string, kind: string) {
    LedgerKept(p, l) && p.calendar(l.day) == month && UpperCode(l.currency) == currency && l.kind == kind
  }

  function AddLedgerDay(r: LedgerRow, l: LedgerDay): LedgerRow {
    r.(count := r.count + l.count, credit := r.credit + l.credit, debit := r.debit + l.debit)
  }

  /** One month, currency and kind: its own days alone. */
  function LedgerOf(p: Plan, days: seq<LedgerDay>, month: int, currency: string, kind: string): LedgerRow {
    if days == [] then LedgerRow(month, currency, kind, 0, 0, 0)
    else
      var l := days[|days| - 1];
      var r := LedgerOf(p, days[..|days| - 1], month, currency, kind);
      if InLedgerRow(p, l, month, currency, kind) then AddLedgerDay(r, l) else r
  }

  predicate HasDay(p: Plan, days: seq<LedgerDay>, month: int, currency: string, kind: string) {
    exists l | l in days :: InLedgerRow(p, l, month, currency, kind)
  }

  predicate IsRow(r: LedgerRow, month: int, currency: string, kind: string) {
    r.month == month && r.currency == currency && r.kind == kind
  }

  ghost predicate Listed(rows: seq<LedgerRow>, month: int, currency: string, kind: string) {
    exists i :: 0 <= i < |rows| && IsRow(rows[i], month, currency, kind)
  }

  ghost predicate OnePerKind(rows: seq<LedgerRow>) {
    forall i, j :: 0 <= i < j < |rows| ==> !IsRow(rows[i], rows[j].month, rows[j].currency, rows[j].kind)
  }

  /** One row for each month, currency and kind that has a kept day, and no other; each the sum of its days. */
  ghost predicate Tallies(rows: seq<LedgerRow>, p: Plan, days: seq<LedgerDay>) {
    && OnePerKind(rows)
    && (forall r :: r in rows ==> r == LedgerOf(p, days, r.month, r.currency, r.kind))
    && (forall m, c, k :: Listed(rows, m, c, k) <==> HasDay(p, days, m, c, k))
  }

  lemma LedgerStep(p: Plan, days: seq<LedgerDay>, l: LedgerDay, m: int, c: string, k: string)
    ensures LedgerOf(p, days + [l], m, c, k) ==
      if InLedgerRow(p, l, m, c, k) then AddLedgerDay(LedgerOf(p, days, m, c, k), l) else LedgerOf(p, days, m, c, k)
    ensures HasDay(p, days + [l], m, c, k) <==> HasDay(p, days, m, c, k) || InLedgerRow(p, l, m, c, k)
  {
    hide InLedgerRow;
    assert (days + [l])[..|days|] == days;
    assert l in days + [l];
    assert forall x :: x in days ==> x in days + [l];
  }

  lemma {:induction false} NoDayNothing(p: Plan, days: seq<LedgerDay>, m: int, c: string, k: string)
    requires !HasDay(p, days, m, c, k)
    ensures LedgerOf(p, days, m, c, k) == LedgerRow(m, c, k, 0, 0, 0)
  {
    hide InLedgerRow;
    if days != [] {
      var front, l := days[..|days| - 1], days[|days| - 1];
      assert l in days && days == front + [l];
      LedgerStep(p, front, l, m, c, k);
      NoDayNothing(p, front, m, c, k);
    }
  }

  /** Where the map has this row; the number of rows when it has none (`Map.get`). */
  function Find(rows: seq<LedgerRow>, m: int, c: string, k: string): (i: nat)
    ensures i <= |rows|
    ensures i < |rows| ==> IsRow(rows[i], m, c, k)
    ensures forall j :: 0 <= j < i ==> !IsRow(rows[j], m, c, k)
  {
    if rows == [] then 0
    else if IsRow(rows[0], m, c, k) then 0
    else 1 + Find(rows[1..], m, c, k)
  }

  /** `Map.set`: in place, or at the end. */
  function Put(rows: seq<LedgerRow>, i: nat, r: LedgerRow): seq<LedgerRow>
    requires i <= |rows|
  {
    if i < |rows| then rows[i := r] else rows + [r]
  }

  lemma SkippedLedgerDay(rows: seq<LedgerRow>, p: Plan, days: seq<LedgerDay>, l: LedgerDay)
    requires Tallies(rows, p, days) && !LedgerKept(p, l)
    ensures Tallies(rows, p, days + [l])
  {
    hide LedgerOf, HasDay, IsRow;
    forall m, c, k
      ensures LedgerOf(p, days + [l], m, c, k) == LedgerOf(p, days, m, c, k)
      ensures HasDay(p, days + [l], m, c, k) == HasDay(p, days, m, c, k)
    {
      LedgerStep(p, days, l, m, c, k);
    }
  }

  /** The row found or made is the sum of the days before. */
  lemma FoundRow(rows: seq<LedgerRow>, p: Plan, days: seq<LedgerDay>, m: int, c: string, k: string)
    requires Tallies(rows, p, days)
    ensures var i := Find(rows, m, c, k);
      LedgerOf(p, days, m, c, k) == if i < |rows| then rows[i] else LedgerRow(m, c, k, 0, 0, 0)
  {
    var i := Find(rows, m, c, k);
    if i < |rows| {
      assert rows[i] in rows;
    } else {
      assert !Listed(rows, m, c, k);
      NoDayNothing(p, days, m, c, k);
    }
  }

  lemma PutListed(rows: seq<LedgerRow>, r: LedgerRow)
    requires OnePerKind(rows)
    ensures var i := Find(rows, r.month, r.currency, r.kind);
      && OnePerKind(Put(rows, i, r)) && r in Put(rows, i, r)
      && (forall x :: x in Put(rows, i, r) ==> x == r || (x in rows && !IsRow(x, r.month, r.currency, r.kind)))
      && (forall m, c, k :: Listed(Put(rows, i, r), m, c, k) <==> Listed(rows, m, c, k) || IsRow(r, m, c, k))
  {
    var i := Find(rows, r.month, r.currency, r.kind);
    var after := Put(rows, i, r);
    assert after[i] == r;
    forall m, c, k
      ensures Listed(after, m, c, k) <==> Listed(rows, m, c, k) || IsRow(r, m, c, k)
    {
      if Listed(rows, m, c, k) {
        var j :| 0 <= j < |rows| && IsRow(rows[j], m, c, k);
        assert IsRow(after[j], m, c, k);
      }
      if IsRow(r, m, c, k) {
        assert IsRow(after[i], m, c, k);
      }
    }
  }

  lemma TalliedDay(rows: seq<LedgerRow>, p: Plan, days: seq<LedgerDay>, l: LedgerDay)
    requires Tallies(rows, p, days) && LedgerKept(p, l)
    ensures var m, c, k := p.calendar(l.day), UpperCode(l.currency), l.kind;
      var i := Find(rows, m, c, k);
      var row := if i < |rows| then rows[i] else LedgerRow(m, c, k, 0, 0, 0);
      Tallies(Put(rows, i, AddLedgerDay(row, l)), p, days + [l])
  {
    hide LedgerOf, HasDay, Listed, OnePerKind, UpperCode;
    var m, c, k := p.calendar(l.day), UpperCode(l.currency), l.kind;
    FoundRow(rows, p, days, m, c, k);
    var row := AddLedgerDay(LedgerOf(p, days, m, c, k), l);
    LedgerNamed(p, days, m, c, k);
    PutListed(rows, row);
    forall m', c', k'
      ensures LedgerOf(p, days + [l], m', c', k') ==
        if m' == m && c' == c && k' == k then row else LedgerOf(p, days, m', c', k')
      ensures HasDay(p, days + [l], m', c', k') <==> HasDay(p, days, m', c', k') || (m' == m && c' == c && k' == k)
    {
      LedgerStep(p, days, l, m', c', k');
    }
  }

  lemma {:induction false} LedgerNamed(p: Plan, days: seq<LedgerDay>, m: int, c: string, k: string)
    ensures IsRow(LedgerOf(p, days, m, c, k), m, c, k)
  {
    hide InLedgerRow;
    if days != [] {
      LedgerNamed(p, days[..|days| - 1], m, c, k);
    }
  }

  // ----- what the rows add up

  function LedgerTotal(days: seq<LedgerDay>, pick: LedgerDay -> bool, amount: LedgerDay -> int): int {
    if days == [] then 0
    else
      var l := days[|days| - 1];
      LedgerTotal(days[..|days| - 1], pick, amount) + if pick(l) then amount(l) else 0
  }

  /** The movements of one month, currency and kind. */
  function LedgerPicks(p: Plan, month: int, currency: string, kind: string): LedgerDay -> bool {
    (l: LedgerDay) =>
      && p.calendar(l.day) in p.months && p.calendar(l.day) == month
      && UpperCode(l.currency) == currency && l.kind == kind
  }

  function Counts(): LedgerDay -> int { (l: LedgerDay) => l.count }
  function Credits(): LedgerDay -> int { (l: LedgerDay) => l.credit }
  function Debits(): LedgerDay -> int { (l: LedgerDay) => l.debit }

  /** Each figure of a ledger row is the sum over its own movements: what came in apart from what went out. */
  lemma {:induction false} LedgerIsSumOfDays(p: Plan, days: seq<LedgerDay>, month: int, currency: string, kind: string)
    ensures var pick, r := LedgerPicks(p, month, currency, kind), LedgerOf(p, days, month, currency, kind);
      && r.month == month && r.currency == currency && r.kind == kind
      && r.count == LedgerTotal(days, pick, Counts())
      && r.credit == LedgerTotal(days, pick, Credits())
      && r.debit == LedgerTotal(days, pick, Debits())
  {
    if days != [] {
      hide UpperCode;
      LedgerIsSumOfDays(p, days[..|days| - 1], month, currency, kind);
    }
  }

  /** The rows are the sums of their movements, one row for each month, currency and kind that has any. */
  ghost predicate AddsUp(rows: seq<LedgerRow>, p: Plan, days: seq<LedgerDay>) {
    && (forall i, j :: 0 <= i < j < |rows| ==>
          rows[i].month != rows[j].month || rows[i].currency != rows[j].currency || rows[i].kind != rows[j].kind)
    && (forall r :: r in rows ==> var pick := LedgerPicks(p, r.month, r.currency, r.kind);
          && (exists l :: l in days && pick(l))
          && r.count == LedgerTotal(days, pick, Counts())
          && r.credit == LedgerTotal(days, pick, Credits()) && r.debit == LedgerTotal(days, pick, Debits()))
    && (forall l :: l in days && p.calendar(l.day) in p.months ==>
          exists r ::
            r in rows && r.month == p.calendar(l.day) && r.currency == UpperCode(l.currency) && r.kind == l.kind)
  }

  lemma TalliesAddUp(rows: seq<LedgerRow>, p: Plan, days: seq<LedgerDay>)
    requires Tallies(rows, p, days)
    ensures AddsUp(rows, p, days)
  {
    hide LedgerOf, LedgerTotal, UpperCode;
    forall r | r in rows
      ensures var pick := LedgerPicks(p, r.month, r.currency, r.kind);
        && (exists l :: l in days && pick(l))
        && r.count == LedgerTotal(days, pick, Counts())
        && r.credit == LedgerTotal(days, pick, Credits()) && r.debit == LedgerTotal(days, pick, Debits())
    {
      LedgerIsSumOfDays(p, days, r.month, r.currency, r.kind);
      var i :| 0 <= i < |rows| && rows[i] == r;
      assert Listed(rows, r.month, r.currency, r.kind);
      var l :| l in days && InLedgerRow(p, l, r.month, r.currency, r.kind);
      assert LedgerPicks(p, r.month, r.currency, r.kind)(l);
    }
    forall l | l in days && p.calendar(l.day) in p.months
      ensures exists r ::
        r in rows && r.month == p.calendar(l.day) && r.currency == UpperCode(l.currency) && r.kind == l.kind
    {
      assert InLedgerRow(p, l, p.calendar(l.day), UpperCode(l.currency), l.kind);
      assert HasDay(p, days, p.calendar(l.day), UpperCode(l.currency), l.kind);
      var i :| 0 <= i < |rows| && IsRow(rows[i], p.calendar(l.day), UpperCode(l.currency), l.kind);
      assert rows[i] in rows;
    }
  }

  // ----- the loop

  function KeptLedgerCurrencies(p: Plan, days: seq<LedgerDay>): seq<string> {
    if days == [] then []
    else
      var l := days[|days| - 1];
      KeptLedgerCurrencies(p, days[..|days| - 1]) + if LedgerKept(p, l) then [UpperCode(l.currency)] else []
  }

  method CollectLedger(p: Plan, days: seq<LedgerDay>) returns (rows: seq<LedgerRow>, currencies: seq<string>)
    ensures Tallies(rows, p, days) && AddsUp(rows, p, days)
    ensures currencies == KeptLedgerCurrencies(p, days)
  {
    hide Tallies, UpperCode, AddsUp;
    rows, currencies := [], [];
    NoLedger(p);
    for i := 0 to |days|
      invariant Tallies(rows, p, days[..i])
      invariant currencies == KeptLedgerCurrencies(p, days[..i])
    {
      var l := days[i];
      assert days[..i + 1] == days[..i] + [l] && days[..i + 1][..i] == days[..i];
      if !LedgerKept(p, l) {
        SkippedLedgerDay(rows, p, days[..i], l);
        continue;
      }
      TalliedDay(rows, p, days[..i], l);
      var m, c, k := p.calendar(l.day), UpperCode(l.currency), l.kind;
      currencies := currencies + [c];
      var at := Find(rows, m, c, k);
      var row := if at < |rows| then rows[at] else LedgerRow(m, c, k, 0, 0, 0);
      rows := Put(rows, at, AddLedgerDay(row, l));
    }
    assert days[..|days|] == days;
    TalliesAddUp(rows, p, days);
  }

  lemma NoLedger(p: Plan)
    ensures Tallies([], p, [])
  {
  }

  // ----- the order of the rows

  /** `indexOf`: -1 for what is not there, as a blank currency. */
  function IndexOf<T(==)>(s: seq<T>, x: T): int {
    if x !in s then -1 else if s[0] == x then 0 else 1 + IndexOf(s[1..], x)
  }

  /** By month, then by the currency's place, then by kind as `kindLe` compares kinds. */
  predicate Before(months: seq<int>, currencies: seq<string>, kindLe: (string, string) -> bool,
                   a: LedgerRow, b: LedgerRow)
  {
    var m, n := IndexOf(months, a.month), IndexOf(months, b.month);
    var c, d := IndexOf(currencies, a.currency), IndexOf(currencies, b.currency);
    m < n || (m == n && (c < d || (c == d && kindLe(a.kind, b.kind))))
  }

  function LedgerOrder(months: seq<int>, currencies: seq<string>, kindLe: (string, string) -> bool)
    : (LedgerRow, LedgerRow) -> bool
  {
    (a, b) => Before(months, currencies, kindLe, a, b)
  }

  lemma LedgerOrderIsOrder(months: seq<int>, currencies: seq<string>, kindLe: (string, string) -> bool)
    requires Sorting.IsOrder(kindLe)
    ensures Sorting.IsOrder(LedgerOrder(months, currencies, kindLe))
  {
    hide IndexOf;
  }

  /** Sorting the tallied rows keeps them tallied. */
  lemma SortedTallies(rows: seq<LedgerRow>, p: Plan, days: seq<LedgerDay>, le: (LedgerRow, LedgerRow) -> bool)
    requires Tallies(rows, p, days)
    ensures Tallies(Sorting.Sort(le, rows), p, days)
  {
    hide LedgerOf, HasDay;
    var sorted := Sorting.Sort(le, rows);
    Sorting.SortKeepsMembers(le, rows);
    Sorting.SortKeepsDistinct(le, rows);
    forall i, j | 0 <= i < j < |sorted|
      ensures !IsRow(sorted[i], sorted[j].month, sorted[j].currency, sorted[j].kind)
    {
      assert sorted[i] in sorted && sorted[j] in sorted;
    }
    forall m, c, k
      ensures Listed(sorted, m, c, k) <==> Listed(rows, m, c, k)
    {
      if Listed(rows, m, c, k) {
        var i :| 0 <= i < |rows| && IsRow(rows[i], m, c, k);
        assert rows[i] in sorted;
        var j :| 0 <= j < |sorted| && sorted[j] == rows[i];
      }
      if Listed(sorted, m, c, k) {
        var j :| 0 <= j < |sorted| && IsRow(sorted[j], m, c, k);
        assert sorted[j] in rows;
        var i :| 0 <= i < |rows| && rows[i] == sorted[j];
      }
    }
  }
}
