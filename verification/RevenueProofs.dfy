/** What a revenue report's figures mean: they are sums of the kept days, they agree with one another,
    and they do not depend on the order the days came in (shared/simpleBillingAdmin.ts). */
module RevenueProofs {
  import opened Text
  import opened RevenueMonths
  import opened Revenue

  // ----- a row is the sum of its days

  function Total(days: seq<DayRow>, pick: DayRow -> bool, amount: DayRow -> int): int {
    if days == [] then 0
    else
      var d := days[|days| - 1];
      Total(days[..|days| - 1], pick, amount) + if pick(d) then amount(d) else 0
  }

  /** The days of one month and currency, of one kind: those in the months kept, test gateways only if asked for. */
  function Picks(p: Plan, month: int, currency: string, metric: Metric): DayRow -> bool {
    (d: DayRow) =>
      && p.calendar(d.day) in p.months && p.calendar(d.day) == month
      && (!p.isTest(d.provider) || p.includeTest)
      && UpperCode(d.currency) == currency && d.metric == metric
  }

  function CountOf(): DayRow -> int { (d: DayRow) => d.count }
  function GrossOf(): DayRow -> int { (d: DayRow) => d.gross }
  function TaxOf(): DayRow -> int { (d: DayRow) => d.tax }
  function NetOf(): DayRow -> int { (d: DayRow) => d.net }

  /** The figures `pick` of the payments and of the refunds give. */
  function SumsBy(days: seq<DayRow>, payments: DayRow -> bool, refunds: DayRow -> bool): Sums {
    Sums(Total(days, payments, CountOf()), Total(days, payments, GrossOf()),
         Total(days, payments, TaxOf()), Total(days, payments, NetOf()),
         Total(days, refunds, CountOf()), Total(days, refunds, GrossOf()),
         Total(days, refunds, TaxOf()), Total(days, refunds, NetOf()),
         Total(days, payments, NetOf()) - Total(days, refunds, NetOf()))
  }

  /** Every figure of a row is the sum over the kept days of its month and currency; net after refunds too. */
  lemma {:induction false} RowIsSumOfDays(p: Plan, days: seq<DayRow>, month: int, currency: string)
    ensures RowOf(p, days, month, currency).sums
         == SumsBy(days, Picks(p, month, currency, Payment), Picks(p, month, currency, Refund))
  {
    if days != [] {
      hide UpperCode;
      RowIsSumOfDays(p, days[..|days| - 1], month, currency);
    }
  }

  // ----- the splits add up to the row

  ghost function SumBy<V>(m: map<string, V>, f: V -> int): int
    decreases |m|
  {
    if m.Keys == {} then 0
    else
      var k :| k in m.Keys;
      SmallerMap(m, k);
      f(m[k]) + SumBy(m - {k}, f)
  }

  lemma SmallerMap<V>(m: map<string, V>, k: string)
    requires k in m
    ensures |m - {k}| < |m|
  {
    assert (m - {k}).Keys == m.Keys - {k};
    assert |(m - {k}).Keys| == |m.Keys| - 1;
  }

  lemma {:induction false} SumWithout<V>(m: map<string, V>, k: string, f: V -> int)
    requires k in m
    ensures SumBy(m, f) == f(m[k]) + SumBy(m - {k}, f)
    decreases |m|
  {
    assert m.Keys != {};
    var j :| j in m.Keys && SumBy(m, f) == f(m[j]) + SumBy(m - {j}, f);
    if j != k {
      hide SumBy;
      SmallerMap(m, j);
      SmallerMap(m, k);
      SumWithout(m - {j}, k, f);
      SumWithout(m - {k}, j, f);
      assert m - {j} - {k} == m - {k} - {j};
    }
  }

  lemma SumUpdate<V>(m: map<string, V>, k: string, v: V, f: V -> int)
    ensures SumBy(m[k := v], f) == SumBy(m, f) + f(v) - if k in m then f(m[k]) else 0
  {
    SumWithout(m[k := v], k, f);
    assert m[k := v] - {k} == m - {k};
    if k in m {
      SumWithout(m, k, f);
    } else {
      assert m - {k} == m;
    }
  }

  function SplitCount(): Split -> int { (s: Split) => s.count }
  function SplitGross(): Split -> int { (s: Split) => s.gross }
  function SplitTax(): Split -> int { (s: Split) => s.tax }
  function SplitNet(): Split -> int { (s: Split) => s.net }
  function ProviderCount(): ProviderSplit -> int { (s: ProviderSplit) => s.count }
  function ProviderGross(): ProviderSplit -> int { (s: ProviderSplit) => s.gross }
  function ProviderNet(): ProviderSplit -> int { (s: ProviderSplit) => s.net }
  function SourceCount(): SourceSplit -> int { (s: SourceSplit) => s.count }
  function SourceGross(): SourceSplit -> int { (s: SourceSplit) => s.gross }
  function SourceNet(): SourceSplit -> int { (s: SourceSplit) => s.net }

  ghost predicate PurposesAddUp(r: Row) {
    && SumBy(r.byPurpose, SplitCount()) == r.sums.payments && SumBy(r.byPurpose, SplitGross()) == r.sums.gross
    && SumBy(r.byPurpose, SplitTax()) == r.sums.tax && SumBy(r.byPurpose, SplitNet()) == r.sums.net
  }

  ghost predicate ProvidersAddUp(r: Row) {
    && SumBy(r.byProvider, ProviderCount()) == r.sums.payments
    && SumBy(r.byProvider, ProviderGross()) == r.sums.gross
    && SumBy(r.byProvider, ProviderNet()) == r.sums.net
  }

  ghost predicate SourcesAddUp(r: Row) {
    && SumBy(r.bySource, SourceCount()) == r.sums.payments
    && SumBy(r.bySource, SourceGross()) == r.sums.gross
    && SumBy(r.bySource, SourceNet()) == r.sums.net
  }

  lemma AddPurpose(r: Row, d: DayRow, test: bool)
    requires PurposesAddUp(r)
    ensures PurposesAddUp(AddDay(r, d, test))
  {
    hide SumBy;
    if d.metric.Payment? {
      var v := AddSplit(r.byPurpose, d)[d.purpose];
      SumUpdate(r.byPurpose, d.purpose, v, SplitCount());
      SumUpdate(r.byPurpose, d.purpose, v, SplitGross());
      SumUpdate(r.byPurpose, d.purpose, v, SplitTax());
      SumUpdate(r.byPurpose, d.purpose, v, SplitNet());
    }
  }

  lemma AddProviderDay(r: Row, d: DayRow, test: bool)
    requires ProvidersAddUp(r)
    ensures ProvidersAddUp(AddDay(r, d, test))
  {
    hide SumBy;
    if d.metric.Payment? {
      var v := AddProvider(r.byProvider, d, test)[d.provider];
      SumUpdate(r.byProvider, d.provider, v, ProviderCount());
      SumUpdate(r.byProvider, d.provider, v, ProviderGross());
      SumUpdate(r.byProvider, d.provider, v, ProviderNet());
    }
  }

  lemma AddSourceDay(r: Row, d: DayRow, test: bool)
    requires SourcesAddUp(r)
    ensures SourcesAddUp(AddDay(r, d, test))
  {
    hide SumBy;
    if d.metric.Payment? {
      var v := AddSource(r.bySource, d)[d.source];
      SumUpdate(r.bySource, d.source, v, SourceCount());
      SumUpdate(r.bySource, d.source, v, SourceGross());
      SumUpdate(r.bySource, d.source, v, SourceNet());
    }
  }

  /** The three splits of a row each add up to its payments. */
  lemma {:induction false} SplitsAddUp(p: Plan, days: seq<DayRow>, month: int, currency: string)
    ensures var r := RowOf(p, days, month, currency); PurposesAddUp(r) && ProvidersAddUp(r) && SourcesAddUp(r)
  {
    if days != [] {
      hide PurposesAddUp, ProvidersAddUp, SourcesAddUp, AddDay, InRow;
      var r := RowOf(p, days[..|days| - 1], month, currency);
      var d := days[|days| - 1];
      SplitsAddUp(p, days[..|days| - 1], month, currency);
      AddPurpose(r, d, p.isTest(d.provider));
      AddProviderDay(r, d, p.isTest(d.provider));
      AddSourceDay(r, d, p.isTest(d.provider));
    }
  }

  function PicksPurpose(p: Plan, month: int, currency: string, purpose: string): DayRow -> bool {
    (d: DayRow) =>
      && p.calendar(d.day) in p.months && p.calendar(d.day) == month
      && (!p.isTest(d.provider) || p.includeTest)
      && UpperCode(d.currency) == currency && d.metric == Payment && d.purpose == purpose
  }

  /** What `pick` selects, as one split. */
  function SplitBy(days: seq<DayRow>, pick: DayRow -> bool): Split {
    Split(Total(days, pick, CountOf()), Total(days, pick, GrossOf()),
          Total(days, pick, TaxOf()), Total(days, pick, NetOf()))
  }

  predicate AnyPicked(days: seq<DayRow>, pick: DayRow -> bool) {
    exists i :: 0 <= i < |days| && pick(days[i])
  }

  lemma SplitByStep(days: seq<DayRow>, d: DayRow, pick: DayRow -> bool)
    ensures var was := SplitBy(days, pick);
      SplitBy(days + [d], pick) ==
        if pick(d) then Split(was.count + d.count, was.gross + d.gross, was.tax + d.tax, was.net + d.net) else was
    ensures AnyPicked(days + [d], pick) <==> AnyPicked(days, pick) || pick(d)
  {
    assert (days + [d])[..|days|] == days;
    if AnyPicked(days, pick) {
      var i :| 0 <= i < |days| && pick(days[i]);
      assert pick((days + [d])[i]);
    }
    if pick(d) {
      assert pick((days + [d])[|days|]);
    }
  }

  lemma NothingSplit(days: seq<DayRow>, pick: DayRow -> bool)
    requires !AnyPicked(days, pick)
    ensures SplitBy(days, pick) == Split(0, 0, 0, 0)
  {
    forall d | d in days
      ensures !pick(d)
    {
      var i :| 0 <= i < |days| && days[i] == d;
    }
    NothingPicked(days, pick, CountOf());
    NothingPicked(days, pick, GrossOf());
    NothingPicked(days, pick, TaxOf());
    NothingPicked(days, pick, NetOf());
  }

  /** Each purpose's part is the sum over its own payments, and a purpose without one is absent. */
  lemma {:induction false} PurposeIsSumOfDays(p: Plan, days: seq<DayRow>, month: int, currency: string, purpose: string)
    ensures var m := RowOf(p, days, month, currency).byPurpose;
      var pick := PicksPurpose(p, month, currency, purpose);
      && (purpose in m <==> AnyPicked(days, pick))
      && (purpose in m ==> m[purpose] == SplitBy(days, pick))
  {
    hide SplitBy, AnyPicked, UpperCode;
    var pick := PicksPurpose(p, month, currency, purpose);
    if days == [] {
      assert !AnyPicked([], pick) by { NonePicked(pick); }
    } else {
      var front, d := days[..|days| - 1], days[|days| - 1];
      assert days == front + [d];
      PurposeIsSumOfDays(p, front, month, currency, purpose);
      SplitByStep(front, d, pick);
      RowStep(p, front, d, month, currency);
      if !AnyPicked(front, pick) {
        NothingSplit(front, pick);
      }
    }
  }

  function PicksProvider(p: Plan, month: int, currency: string, provider: string): DayRow -> bool {
    (d: DayRow) =>
      && p.calendar(d.day) in p.months && p.calendar(d.day) == month
      && (!p.isTest(d.provider) || p.includeTest)
      && UpperCode(d.currency) == currency && d.metric == Payment && d.provider == provider
  }

  /** The same by provider, each marked as the test gateway it is or is not. */
  lemma {:induction false} ProviderIsSumOfDays(p: Plan, days: seq<DayRow>, month: int, currency: string,
                                               provider: string)
    ensures var m := RowOf(p, days, month, currency).byProvider;
      var pick := PicksProvider(p, month, currency, provider);
      var s := SplitBy(days, pick);
      && (provider in m <==> AnyPicked(days, pick))
      && (provider in m ==> m[provider] == ProviderSplit(s.count, s.gross, s.net, p.isTest(provider)))
  {
    hide SplitBy, AnyPicked, UpperCode;
    var pick := PicksProvider(p, month, currency, provider);
    if days == [] {
      assert !AnyPicked([], pick) by { NonePicked(pick); }
    } else {
      var front, d := days[..|days| - 1], days[|days| - 1];
      assert days == front + [d];
      ProviderIsSumOfDays(p, front, month, currency, provider);
      SplitByStep(front, d, pick);
      RowStep(p, front, d, month, currency);
      if !AnyPicked(front, pick) {
        NothingSplit(front, pick);
      }
    }
  }

  function PicksSource(p: Plan, month: int, currency: string, source: string): DayRow -> bool {
    (d: DayRow) =>
      && p.calendar(d.day) in p.months && p.calendar(d.day) == month
      && (!p.isTest(d.provider) || p.includeTest)
      && UpperCode(d.currency) == currency && d.metric == Payment && d.source == source
  }

  /** The same by source. */
  lemma {:induction false} SourceIsSumOfDays(p: Plan, days: seq<DayRow>, month: int, currency: string, source: string)
    ensures var m := RowOf(p, days, month, currency).bySource;
      var pick := PicksSource(p, month, currency, source);
      var s := SplitBy(days, pick);
      && (source in m <==> AnyPicked(days, pick))
      && (source in m ==> m[source] == SourceSplit(s.count, s.gross, s.net))
  {
    hide SplitBy, AnyPicked, UpperCode;
    var pick := PicksSource(p, month, currency, source);
    if days == [] {
      assert !AnyPicked([], pick) by { NonePicked(pick); }
    } else {
      var front, d := days[..|days| - 1], days[|days| - 1];
      assert days == front + [d];
      SourceIsSumOfDays(p, front, month, currency, source);
      SplitByStep(front, d, pick);
      RowStep(p, front, d, month, currency);
      if !AnyPicked(front, pick) {
        NothingSplit(front, pick);
      }
    }
  }

  lemma NonePicked(pick: DayRow -> bool)
    ensures !AnyPicked([], pick)
  {
  }

  lemma {:induction false} NothingPicked(days: seq<DayRow>, pick: DayRow -> bool, amount: DayRow -> int)
    requires forall d :: d in days ==> !pick(d)
    ensures Total(days, pick, amount) == 0
  {
    if days != [] {
      NothingPicked(days[..|days| - 1], pick, amount);
      assert !pick(days[|days| - 1]);
    }
  }

  // ----- the order of the days does not matter

  lemma SplitsCommute(m: map<string, Split>, d: DayRow, e: DayRow)
    ensures AddSplit(AddSplit(m, d), e) == AddSplit(AddSplit(m, e), d)
  {
  }

  lemma ProvidersCommute(m: map<string, ProviderSplit>, d: DayRow, e: DayRow, isTest: string -> bool)
    ensures AddProvider(AddProvider(m, d, isTest(d.provider)), e, isTest(e.provider))
         == AddProvider(AddProvider(m, e, isTest(e.provider)), d, isTest(d.provider))
  {
  }

  lemma SourcesCommute(m: map<string, SourceSplit>, d: DayRow, e: DayRow)
    ensures AddSource(AddSource(m, d), e) == AddSource(AddSource(m, e), d)
  {
  }

  lemma SumsCommute(s: Sums, d: DayRow, e: DayRow)
    requires s.netAfterRefunds == s.net - s.refundNet
    ensures AddToSums(AddToSums(s, d), e) == AddToSums(AddToSums(s, e), d)
  {
  }

  lemma {:induction false} NetConsistent(p: Plan, days: seq<DayRow>, month: int, currency: string)
    ensures var s := RowOf(p, days, month, currency).sums; s.netAfterRefunds == s.net - s.refundNet
  {
    if days != [] {
      hide InRow, AddSplit, AddProvider, AddSource;
      NetConsistent(p, days[..|days| - 1], month, currency);
    }
  }

  lemma DaysCommute(r: Row, d: DayRow, e: DayRow, isTest: string -> bool)
    requires r.sums.netAfterRefunds == r.sums.net - r.sums.refundNet
    ensures AddDay(AddDay(r, d, isTest(d.provider)), e, isTest(e.provider))
         == AddDay(AddDay(r, e, isTest(e.provider)), d, isTest(d.provider))
  {
    hide AddSplit, AddProvider, AddSource, AddToSums;
    SumsCommute(r.sums, d, e);
    SplitsCommute(r.byPurpose, d, e);
    ProvidersCommute(r.byProvider, d, e, isTest);
    SourcesCommute(r.bySource, d, e);
  }

  lemma {:induction false} MoveToEnd(p: Plan, a: seq<DayRow>, d: DayRow, b: seq<DayRow>, month: int, currency: string)
    ensures RowOf(p, a + [d] + b, month, currency) == RowOf(p, a + b + [d], month, currency)
  {
    hide RowOf, AddDay, InRow;
    if b == [] {
      assert a + [d] + b == a + b + [d];
    } else {
      var front, e := b[..|b| - 1], b[|b| - 1];
      assert a + [d] + b == a + [d] + front + [e];
      assert a + b + [d] == (a + front) + [e] + [d];
      MoveToEnd(p, a, d, front, month, currency);
      RowStep(p, a + [d] + front, e, month, currency);
      RowStep(p, a + front, d, month, currency);
      RowStep(p, a + front + [d], e, month, currency);
      RowStep(p, a + front, e, month, currency);
      RowStep(p, a + front + [e], d, month, currency);
      NetConsistent(p, a + front, month, currency);
      DaysCommute(RowOf(p, a + front, month, currency), d, e, p.isTest);
    }
  }

  lemma TakeOut(front: seq<DayRow>, d: DayRow, b: seq<DayRow>) returns (i: nat)
    requires multiset(front + [d]) == multiset(b)
    ensures i < |b| && b == b[..i] + [d] + b[i + 1..] && multiset(front) == multiset(b[..i] + b[i + 1..])
  {
    assert multiset(front + [d]) == multiset(front) + multiset{d};
    assert d in multiset(b);
    i :| 0 <= i < |b| && b[i] == d;
    assert b == b[..i] + [d] + b[i + 1..];
    assert multiset(front) == multiset(b) - multiset{d};
    assert multiset(b[..i] + b[i + 1..]) == multiset(b) - multiset{d};
  }

  lemma SameLength(a: seq<DayRow>, b: seq<DayRow>)
    requires multiset(a) == multiset(b)
    ensures |a| == |b|
  {
    assert |multiset(a)| == |a| && |multiset(b)| == |b|;
  }

  /** The same days in another order give the same row, splits and all. */
  lemma {:induction false} OrderDoesNotMatter(p: Plan, a: seq<DayRow>, b: seq<DayRow>, month: int, currency: string)
    requires multiset(a) == multiset(b)
    ensures RowOf(p, a, month, currency) == RowOf(p, b, month, currency)
  {
    hide RowOf, InRow, AddDay;
    SameLength(a, b);
    if a != [] {
      var front, d := a[..|a| - 1], a[|a| - 1];
      assert a == front + [d];
      var i := TakeOut(front, d, b);
      var left, right := b[..i], b[i + 1..];
      OrderDoesNotMatter(p, front, left + right, month, currency);
      MoveToEnd(p, left, d, right, month, currency);
      RowStep(p, front, d, month, currency);
      RowStep(p, left + right, d, month, currency);
    } else {
      assert b == [];
    }
  }

  // ----- totals

  function PicksMonths(p: Plan, n: nat, currency: string, metric: Metric): DayRow -> bool
    requires n <= |p.months|
  {
    (d: DayRow) =>
      && p.calendar(d.day) in p.months && p.calendar(d.day) in p.months[..n]
      && (!p.isTest(d.provider) || p.includeTest)
      && UpperCode(d.currency) == currency && d.metric == metric
  }

  lemma {:induction false} TotalSplits(days: seq<DayRow>, pick: DayRow -> bool, some: DayRow -> bool,
                                       rest: DayRow -> bool,
                                      amount: DayRow -> int)
    requires forall d :: pick(d) <==> some(d) || rest(d)
    requires forall d :: !(some(d) && rest(d))
    ensures Total(days, pick, amount) == Total(days, some, amount) + Total(days, rest, amount)
  {
    if days != [] {
      TotalSplits(days[..|days| - 1], pick, some, rest, amount);
    }
  }

  lemma SumsSplit(p: Plan, days: seq<DayRow>, currency: string, n: nat, metric: Metric, amount: DayRow -> int)
    requires n < |p.months| && p.months[n] !in p.months[..n]
    ensures Total(days, PicksMonths(p, n + 1, currency, metric), amount)
         == Total(days, PicksMonths(p, n, currency, metric), amount)
          + Total(days, Picks(p, p.months[n], currency, metric), amount)
  {
    assert p.months[..n + 1] == p.months[..n] + [p.months[n]];
    assert p.months[n] in p.months;
    TotalSplits(days, PicksMonths(p, n + 1, currency, metric), PicksMonths(p, n, currency, metric),
                Picks(p, p.months[n], currency, metric), amount);
  }

  lemma NothingInNoMonths(p: Plan, days: seq<DayRow>, currency: string, metric: Metric)
    ensures var pick := PicksMonths(p, 0, currency, metric);
      && Total(days, pick, CountOf()) == Total(days, pick, GrossOf()) == 0
      && Total(days, pick, TaxOf()) == Total(days, pick, NetOf()) == 0
  {
    hide Total, Kept, UpperCode;
    var pick := PicksMonths(p, 0, currency, metric);
    NothingPicked(days, pick, CountOf());
    NothingPicked(days, pick, GrossOf());
    NothingPicked(days, pick, TaxOf());
    NothingPicked(days, pick, NetOf());
  }

  lemma SplitsSplit(p: Plan, days: seq<DayRow>, currency: string, n: nat, metric: Metric)
    requires n < |p.months| && p.months[n] !in p.months[..n]
    ensures var all, some := PicksMonths(p, n + 1, currency, metric), PicksMonths(p, n, currency, metric);
      var last := Picks(p, p.months[n], currency, metric);
      && Total(days, all, CountOf()) == Total(days, some, CountOf()) + Total(days, last, CountOf())
      && Total(days, all, GrossOf()) == Total(days, some, GrossOf()) + Total(days, last, GrossOf())
      && Total(days, all, TaxOf()) == Total(days, some, TaxOf()) + Total(days, last, TaxOf())
      && Total(days, all, NetOf()) == Total(days, some, NetOf()) + Total(days, last, NetOf())
  {
    hide Total, PicksMonths, Picks;
    SumsSplit(p, days, currency, n, metric, CountOf());
    SumsSplit(p, days, currency, n, metric, GrossOf());
    SumsSplit(p, days, currency, n, metric, TaxOf());
    SumsSplit(p, days, currency, n, metric, NetOf());
  }

  /** A currency's total over the first `n` months is the sum over all its kept days of those months. */
  lemma {:induction false} TotalIsSumOfDays(p: Plan, days: seq<DayRow>, currency: string, n: nat)
    requires n <= |p.months|
    requires forall i, j :: 0 <= i < j < |p.months| ==> p.months[i] != p.months[j]
    ensures TotalOf(p, days, currency, n)
         == SumsBy(days, PicksMonths(p, n, currency, Payment), PicksMonths(p, n, currency, Refund))
  {
    hide RowOf, Total, UpperCode, Kept, PicksMonths, Picks;
    if n == 0 {
      NothingInNoMonths(p, days, currency, Payment);
      NothingInNoMonths(p, days, currency, Refund);
    } else {
      TotalIsSumOfDays(p, days, currency, n - 1);
      RowIsSumOfDays(p, days, p.months[n - 1], currency);
      SplitsSplit(p, days, currency, n - 1, Payment);
      SplitsSplit(p, days, currency, n - 1, Refund);
    }
  }

  // ----- every kept day is in a row that is shown

  ghost predicate EachOnce(listed: seq<string>) {
    (forall i, j :: 0 <= i < j < |listed| ==> listed[i] != listed[j]) && forall c :: c in listed ==> c != []
  }

  lemma AddedCurrency(currencies: seq<string>, c: string)
    requires EachOnce(currencies)
    ensures var r := AddCurrency(currencies, c);
      EachOnce(r) && currencies <= r
      && forall x :: x in r <==> x in currencies || (x == UpperCode(c) && c != [])
  {
    hide UpperCode;
  }

  /** `x` is the code of one of these currencies, and not blank. */
  ghost predicate Named(x: string, more: seq<string>) {
    exists i :: 0 <= i < |more| && UpperCode(more[i]) == x && more[i] != []
  }

  lemma NamedStep(x: string, more: seq<string>, m: string)
    ensures Named(x, more + [m]) <==> Named(x, more) || (UpperCode(m) == x && m != [])
  {
    hide UpperCode;
    if Named(x, more) {
      var i :| 0 <= i < |more| && UpperCode(more[i]) == x && more[i] != [];
      assert (more + [m])[i] == more[i];
    }
    assert (more + [m])[|more|] == m;
  }

  lemma {:induction false} AddedCurrencies(currencies: seq<string>, more: seq<string>)
    requires EachOnce(currencies)
    ensures var r := AddCurrencies(currencies, more);
      EachOnce(r) && currencies <= r && forall x :: x in r <==> x in currencies || Named(x, more)
  {
    if more != [] {
      hide UpperCode, EachOnce, AddCurrency, Named;
      var front, last := more[..|more| - 1], more[|more| - 1];
      AddedCurrencies(currencies, front);
      AddedCurrency(AddCurrencies(currencies, front), last);
      assert more == front + [last];
      forall x
        ensures Named(x, more) <==> Named(x, front) || (UpperCode(last) == x && last != [])
      {
        NamedStep(x, front, last);
      }
    }
  }

  /** Currencies are listed in the order their codes are first named. */
  ghost predicate FirstSeen(listed: seq<string>, all: seq<string>) {
    forall i, j :: 0 <= i < j < |listed| ==> NamedEarlier(listed[i], listed[j], all)
  }

  ghost predicate NamedEarlier(c: string, d: string, all: seq<string>) {
    exists k :: 0 <= k < |all| && UpperCode(all[k]) == c && forall q :: 0 <= q <= k ==> UpperCode(all[q]) != d
  }

  lemma StillEarlier(c: string, d: string, all: seq<string>, x: string)
    requires NamedEarlier(c, d, all)
    ensures NamedEarlier(c, d, all + [x])
  {
    hide UpperCode;
    var k :| 0 <= k < |all| && UpperCode(all[k]) == c && forall q :: 0 <= q <= k ==> UpperCode(all[q]) != d;
    assert forall q :: 0 <= q <= k ==> (all + [x])[q] == all[q];
  }

  lemma NewIsLater(listed: seq<string>, all: seq<string>, x: string, c: string)
    requires c in listed && UpperCode(x) !in listed
    requires forall y :: y in listed <==> Named(y, all)
    requires UpperCode(x) != []
    ensures NamedEarlier(c, UpperCode(x), all + [x])
  {
    hide UpperCode;
    var k :| 0 <= k < |all| && UpperCode(all[k]) == c && all[k] != [];
    assert (all + [x])[k] == all[k];
    assert !Named(UpperCode(x), all);
    forall q | 0 <= q <= k
      ensures UpperCode((all + [x])[q]) != UpperCode(x)
    {
      assert (all + [x])[q] == all[q];
      BlankCode(all[q]);
    }
  }

  lemma BlankCode(x: string)
    ensures UpperCode(x) == [] <==> x == []
  {
  }

  lemma {:induction false} ListedFirstSeen(all: seq<string>)
    ensures FirstSeen(AddCurrencies([], all), all)
  {
    if all != [] {
      hide UpperCode, NamedEarlier, Named, EachOnce;
      var front, x := all[..|all| - 1], all[|all| - 1];
      ListedFirstSeen(front);
      NothingListed();
      AddedCurrencies([], front);
      BlankCode(x);
      var listed := AddCurrencies([], front);
      assert all == front + [x];
      forall i, j | 0 <= i < j < |AddCurrencies([], all)|
        ensures NamedEarlier(AddCurrencies([], all)[i], AddCurrencies([], all)[j], all)
      {
        if j < |listed| {
          StillEarlier(listed[i], listed[j], front, x);
        } else {
          NewIsLater(listed, front, x, listed[i]);
        }
      }
    }
  }

  lemma NothingListed()
    ensures EachOnce([])
  {
  }

  lemma {:induction false} AddedTogether(currencies: seq<string>, a: seq<string>, b: seq<string>)
    ensures AddCurrencies(AddCurrencies(currencies, a), b) == AddCurrencies(currencies, a + b)
  {
    hide AddCurrency;
    if b == [] {
      assert a + b == a;
    } else {
      AddedTogether(currencies, a, b[..|b| - 1]);
      assert (a + b)[..|a + b| - 1] == a + b[..|b| - 1];
    }
  }

  lemma {:induction false} KeptListed(p: Plan, days: seq<DayRow>, d: DayRow)
    requires d in days && Kept(p, d)
    ensures UpperCode(d.currency) in KeptCurrencies(p, days)
  {
    var front, last := days[..|days| - 1], days[|days| - 1];
    assert days == front + [last];
    if d != last {
      KeptListed(p, front, d);
    }
  }

  /** Every kept day whose currency is not blank is in a row the report shows: its currency is listed, once. */
  lemma KeptDayIsShown(p: Plan, days: seq<DayRow>, currencies: seq<string>, more: seq<string>, d: DayRow)
    requires d in days && Kept(p, d) && d.currency != []
    ensures var listed := AddCurrencies(AddCurrencies(AddCurrencies([], currencies), KeptCurrencies(p, days)), more);
      EachOnce(listed) && UpperCode(d.currency) in listed
  {
    hide Kept;
    var given := AddCurrencies([], currencies);
    var withDays := AddCurrencies(given, KeptCurrencies(p, days));
    AddedCurrencies([], currencies);
    AddedCurrencies(given, KeptCurrencies(p, days));
    AddedCurrencies(withDays, more);
    KeptListed(p, days, d);
    UpperTwice(d.currency);
  }

  lemma {:induction false} RowNamed(p: Plan, days: seq<DayRow>, month: int, currency: string)
    ensures var row := RowOf(p, days, month, currency); row.month == month && row.currency == currency
  {
    if days != [] {
      hide InRow, AddSplit, AddProvider, AddSource, AddToSums;
      RowNamed(p, days[..|days| - 1], month, currency);
    }
  }

  lemma {:induction false} RowAt(p: Plan, days: seq<DayRow>, listed: seq<string>, i: nat, j: nat)
    requires i < |listed| && j < |p.months|
    ensures i * |p.months| + j < |AllRows(p, days, listed)|
    ensures AllRows(p, days, listed)[i * |p.months| + j] == RowOf(p, days, p.months[j], listed[i])
  {
    hide RowOf;
    var front, n := listed[..|listed| - 1], |p.months|;
    RowsShown(p, days, front);
    if i < |front| {
      RowAt(p, days, front, i, j);
    }
  }

  /** The rows shown, in order: currency by currency, its months from the oldest on. */
  lemma RowShownAt(p: Plan, days: seq<DayRow>, listed: seq<string>, i: nat, j: nat)
    requires i < |listed| && j < |p.months|
    ensures |AllRows(p, days, listed)| == |listed| * |p.months|
    ensures i * |p.months| + j < |AllRows(p, days, listed)|
    ensures var row := AllRows(p, days, listed)[i * |p.months| + j];
      row == RowOf(p, days, p.months[j], listed[i]) && row.month == p.months[j] && row.currency == listed[i]
  {
    hide RowOf, AllRows;
    RowsShown(p, days, listed);
    RowAt(p, days, listed, i, j);
    RowNamed(p, days, p.months[j], listed[i]);
  }

  lemma {:induction false} RowsShown(p: Plan, days: seq<DayRow>, listed: seq<string>)
    ensures |AllRows(p, days, listed)| == |listed| * |p.months|
  {
    if listed != [] {
      RowsShown(p, days, listed[..|listed| - 1]);
      assert |listed| * |p.months| == (|listed| - 1) * |p.months| + |p.months|;
    }
  }
}
