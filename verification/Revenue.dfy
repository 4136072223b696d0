/** Monthly revenue: daily rows bucketed by month and currency (shared/simpleBillingAdmin.ts, bucketRevenue). */
module Revenue {
  import opened Text
  import opened RevenueMonths

  datatype Metric = Payment | Refund

  datatype DayRow = DayRow(day: int, metric: Metric, currency: string, provider: string, source: string,
                           purpose: string, count: int, gross: int, tax: int, net: int)

  datatype Sums = Sums(payments: int, gross: int, tax: int, net: int, refunds: int, refundGross: int,
                       refundTax: int, refundNet: int, netAfterRefunds: int)

  datatype Split = Split(count: int, gross: int, tax: int, net: int)
  datatype ProviderSplit = ProviderSplit(count: int, gross: int, net: int, isTest: bool)
  datatype SourceSplit = SourceSplit(count: int, gross: int, net: int)

  datatype Row = Row(month: int, currency: string, sums: Sums, byPurpose: map<string, Split>,
                     byProvider: map<string, ProviderSplit>, bySource: map<string, SourceSplit>)

  /** What the report was asked for: the months kept, and whether test gateways count. */
  datatype Plan = Plan(calendar: Calendar, months: seq<int>, includeTest: bool, isTest: string -> bool)

  predicate Kept(p: Plan, d: DayRow) {
    p.calendar(d.day) in p.months && (p.isTest(d.provider) ==> p.includeTest)
  }

  /** The row a day adds to. */
  predicate InRow(p: Plan, d: DayRow, month: int, currency: string) {
    Kept(p, d) && p.calendar(d.day) == month && UpperCode(d.currency) == currency
  }

  const NO_SUMS := Sums(0, 0, 0, 0, 0, 0, 0, 0, 0)

  function EmptyRow(month: int, currency: string): Row {
    Row(month, currency, NO_SUMS, map[], map[], map[])
  }

  function AddSplit(m: map<string, Split>, d: DayRow): map<string, Split> {
    var s := if d.purpose in m then m[d.purpose] else Split(0, 0, 0, 0);
    m[d.purpose := Split(s.count + d.count, s.gross + d.gross, s.tax + d.tax, s.net + d.net)]
  }

  function AddProvider(m: map<string, ProviderSplit>, d: DayRow, test: bool): map<string, ProviderSplit> {
    var s := if d.provider in m then m[d.provider] else ProviderSplit(0, 0, 0, test);
    m[d.provider := ProviderSplit(s.count + d.count, s.gross + d.gross, s.net + d.net, s.isTest)]
  }

  function AddSource(m: map<string, SourceSplit>, d: DayRow): map<string, SourceSplit> {
    var s := if d.source in m then m[d.source] else SourceSplit(0, 0, 0);
    m[d.source := SourceSplit(s.count + d.count, s.gross + d.gross, s.net + d.net)]
  }

  function AddToSums(s: Sums, d: DayRow): Sums {
    if d.metric.Payment? then
      s.(payments := s.payments + d.count, gross := s.gross + d.gross, tax := s.tax + d.tax, net := s.net + d.net,
         netAfterRefunds := s.net + d.net - s.refundNet)
    else
      s.(refunds := s.refunds + d.count, refundGross := s.refundGross + d.gross, refundTax := s.refundTax + d.tax,
         refundNet := s.refundNet + d.net, netAfterRefunds := s.net - (s.refundNet + d.net))
  }

  function AddDay(r: Row, d: DayRow, test: bool): Row {
    var sums := AddToSums(r.sums, d);
    if d.metric.Payment? then
      r.(sums := sums, byPurpose := AddSplit(r.byPurpose, d), byProvider := AddProvider(r.byProvider, d, test),
         bySource := AddSource(r.bySource, d))
    else r.(sums := sums)
  }

  /** The row of one month and currency: its own days alone, in any order. */
  function RowOf(p: Plan, days: seq<DayRow>, month: int, currency: string): Row {
    if days == [] then EmptyRow(month, currency)
    else
      var d := days[|days| - 1];
      var r := RowOf(p, days[..|days| - 1], month, currency);
      if InRow(p, d, month, currency) then AddDay(r, d, p.isTest(d.provider)) else r
  }

  /** Currencies as listed: upper case, not blank, each once. */
  function AddCurrency(currencies: seq<string>, c: string): seq<string> {
    var code := UpperCode(c);
    if code != [] && code !in currencies then currencies + [code] else currencies
  }

  function AddCurrencies(currencies: seq<string>, more: seq<string>): seq<string> {
    if more == [] then currencies else AddCurrency(AddCurrencies(currencies, more[..|more| - 1]), more[|more| - 1])
  }

  function KeptCurrencies(p: Plan, days: seq<DayRow>): seq<string> {
    if days == [] then []
    else
      var d := days[|days| - 1];
      KeptCurrencies(p, days[..|days| - 1]) + if Kept(p, d) then [UpperCode(d.currency)] else []
  }

  function AddSums(into: Sums, from: Sums): Sums {
    Sums(into.payments + from.payments, into.gross + from.gross, into.tax + from.tax, into.net + from.net,
         into.refunds + from.refunds, into.refundGross + from.refundGross, into.refundTax + from.refundTax,
         into.refundNet + from.refundNet, into.net + from.net - (into.refundNet + from.refundNet))
  }

  /** A currency's total over the first `n` of the months. */
  function TotalOf(p: Plan, days: seq<DayRow>, currency: string, n: nat): Sums
    requires n <= |p.months|
  {
    if n == 0 then NO_SUMS
    else AddSums(TotalOf(p, days, currency, n - 1), RowOf(p, days, p.months[n - 1], currency).sums)
  }

  /** A currency's rows for the first `n` of the months, in their order. */
  function MonthRows(p: Plan, days: seq<DayRow>, currency: string, n: nat): (r: seq<Row>)
    requires n <= |p.months|
    ensures |r| == n && forall j :: 0 <= j < n ==> r[j] == RowOf(p, days, p.months[j], currency)
  {
    if n == 0 then []
    else MonthRows(p, days, currency, n - 1) + [RowOf(p, days, p.months[n - 1], currency)]
  }

  /** One row per currency and month, zeros included. */
  function AllRows(p: Plan, days: seq<DayRow>, listed: seq<string>): seq<Row> {
    if listed == [] then []
    else AllRows(p, days, listed[..|listed| - 1]) + MonthRows(p, days, listed[|listed| - 1], |p.months|)
  }

  type RowId = (int, string)

  /** The rows collected so far are those of the days so far, and a row not yet made has no day. */
  ghost predicate Collected(rows: map<RowId, Row>, p: Plan, days: seq<DayRow>) {
    && (forall id :: id in rows ==> rows[id] == RowOf(p, days, id.0, id.1))
    && (forall id: RowId :: id !in rows ==> RowOf(p, days, id.0, id.1) == EmptyRow(id.0, id.1))
  }

  lemma RowStep(p: Plan, days: seq<DayRow>, d: DayRow, month: int, currency: string)
    ensures RowOf(p, days + [d], month, currency) ==
      if InRow(p, d, month, currency) then AddDay(RowOf(p, days, month, currency), d, p.isTest(d.provider))
      else RowOf(p, days, month, currency)
  {
    assert (days + [d])[..|days|] == days;
  }

  lemma SkippedDay(rows: map<RowId, Row>, p: Plan, days: seq<DayRow>, d: DayRow)
    requires Collected(rows, p, days) && !Kept(p, d)
    ensures Collected(rows, p, days + [d])
  {
    hide RowOf;
    forall id: RowId
      ensures RowOf(p, days + [d], id.0, id.1) == RowOf(p, days, id.0, id.1)
    {
      RowStep(p, days, d, id.0, id.1);
    }
  }

  lemma CollectedDay(rows: map<RowId, Row>, p: Plan, days: seq<DayRow>, d: DayRow)
    requires Collected(rows, p, days) && Kept(p, d)
    ensures var id: RowId := (p.calendar(d.day), UpperCode(d.currency));
      var row := if id in rows then rows[id] else EmptyRow(id.0, id.1);
      Collected(rows[id := AddDay(row, d, p.isTest(d.provider))], p, days + [d])
  {
    hide RowOf, AddDay, UpperCode;
    forall id: RowId
      ensures RowOf(p, days + [d], id.0, id.1) ==
        if id == (p.calendar(d.day), UpperCode(d.currency))
        then AddDay(RowOf(p, days, id.0, id.1), d, p.isTest(d.provider)) else RowOf(p, days, id.0, id.1)
    {
      RowStep(p, days, d, id.0, id.1);
    }
  }

  /** The row object a day is added to, field by field as the loop does it. */
  method AddDayTo(row: Row, d: DayRow, test: bool) returns (r: Row)
    ensures r == AddDay(row, d, test)
  {
    var s := row.sums;
    r := row;
    if d.metric.Payment? {
      s := s.(payments := s.payments + d.count);
      s := s.(gross := s.gross + d.gross);
      s := s.(tax := s.tax + d.tax);
      s := s.(net := s.net + d.net);
      r := r.(byPurpose := AddSplit(r.byPurpose, d));
      r := r.(byProvider := AddProvider(r.byProvider, d, test));
      r := r.(bySource := AddSource(r.bySource, d));
    } else {
      s := s.(refunds := s.refunds + d.count);
      s := s.(refundGross := s.refundGross + d.gross);
      s := s.(refundTax := s.refundTax + d.tax);
      s := s.(refundNet := s.refundNet + d.net);
    }
    s := s.(netAfterRefunds := s.net - s.refundNet);
    r := r.(sums := s);
  }

  /** `more` are the currencies of the kept ledger rows and of the liability rows, which are listed after the days'. */
  method BucketRevenue(p: Plan, days: seq<DayRow>, currencies: seq<string>, more: seq<string>)
    returns (listed: seq<string>, outRows: seq<Row>, totals: map<string, Sums>)
    ensures listed == AddCurrencies(AddCurrencies(AddCurrencies([], currencies), KeptCurrencies(p, days)), more)
    ensures outRows == AllRows(p, days, listed)
    ensures totals == map c | c in listed :: TotalOf(p, days, c, |p.months|)
  {
    hide RowOf, AddCurrency, TotalOf, AddDay, UpperCode, Kept;
    listed := AddCurrencies([], currencies);
    ghost var given := listed;
    var rows: map<RowId, Row> := map[];
    NoDays(p);
    for i := 0 to |days|
      invariant Collected(rows, p, days[..i])
      invariant listed == AddCurrencies(given, KeptCurrencies(p, days[..i]))
    {
      var d := days[i];
      assert days[..i + 1] == days[..i] + [d];
      assert days[..i + 1][..i] == days[..i];
      KeptStep(p, days[..i], d);
      if !Kept(p, d) {
        SkippedDay(rows, p, days[..i], d);
        continue;
      }
      CollectedDay(rows, p, days[..i], d);
      var id: RowId := (p.calendar(d.day), UpperCode(d.currency));
      AddedStep(given, KeptCurrencies(p, days[..i]), id.1);
      listed := AddCurrency(listed, id.1);
      var row := if id in rows then rows[id] else EmptyRow(id.0, id.1);
      var added := AddDayTo(row, d, p.isTest(d.provider));
      rows := rows[id := added];
    }
    assert days[..|days|] == days;
    var current := listed;
    for k := 0 to |more|
      invariant listed == AddCurrencies(current, more[..k])
    {
      assert more[..k + 1][..k] == more[..k];
      listed := AddCurrency(listed, more[k]);
    }
    assert more[..|more|] == more;
    outRows, totals := Report(p, days, rows, listed);
  }

  method Report(p: Plan, ghost days: seq<DayRow>, rows: map<RowId, Row>, listed: seq<string>)
    returns (outRows: seq<Row>, totals: map<string, Sums>)
    requires Collected(rows, p, days)
    ensures outRows == AllRows(p, days, listed)
    ensures totals == map c | c in listed :: TotalOf(p, days, c, |p.months|)
  {
    hide RowOf;
    outRows, totals := [], map[];
    for i := 0 to |listed|
      invariant outRows == AllRows(p, days, listed[..i])
      invariant totals == map c | c in listed[..i] :: TotalOf(p, days, c, |p.months|)
    {
      assert listed[..i + 1] == listed[..i] + [listed[i]];
      assert listed[..i + 1][..i] == listed[..i];
      var some, total := MonthsOf(p, days, rows, listed[i]);
      outRows := outRows + some;
      totals := totals[listed[i] := total];
    }
    assert listed[..|listed|] == listed;
  }

  method MonthsOf(p: Plan, ghost days: seq<DayRow>, rows: map<RowId, Row>, currency: string)
    returns (some: seq<Row>, total: Sums)
    requires Collected(rows, p, days)
    ensures some == MonthRows(p, days, currency, |p.months|) && total == TotalOf(p, days, currency, |p.months|)
  {
    hide RowOf;
    some, total := [], NO_SUMS;
    for j := 0 to |p.months|
      invariant some == MonthRows(p, days, currency, j) && total == TotalOf(p, days, currency, j)
    {
      var id: RowId := (p.months[j], currency);
      var row := if id in rows then rows[id] else EmptyRow(id.0, id.1);
      total := AddSums(total, row.sums);
      some := some + [row];
    }
  }

  lemma NoDays(p: Plan)
    ensures Collected(map[], p, [])
  {
  }

  lemma KeptStep(p: Plan, days: seq<DayRow>, d: DayRow)
    ensures KeptCurrencies(p, days + [d])
         == if Kept(p, d) then KeptCurrencies(p, days) + [UpperCode(d.currency)] else KeptCurrencies(p, days)
  {
    assert (days + [d])[..|days|] == days;
    assert KeptCurrencies(p, days) + [] == KeptCurrencies(p, days);
  }

  lemma AddedStep(currencies: seq<string>, more: seq<string>, c: string)
    ensures AddCurrencies(currencies, more + [c]) == AddCurrency(AddCurrencies(currencies, more), c)
  {
    assert (more + [c])[..|more|] == more;
  }
}
