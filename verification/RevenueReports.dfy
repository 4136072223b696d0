/** The whole report: the months it keeps, its rows, totals and ledger (shared/simpleBillingAdmin.ts, bucketRevenue). */
module RevenueReports {
  import opened Text
  import opened RevenueMonths
  import opened Revenue
  import opened RevenueProofs
  import opened RevenueLedger
  import Sorting

  /** What is asked for. `kindLe` is localeCompare on ledger kinds. */
  datatype Request = Request(today: int, months: nat, calendar: Calendar, includeTest: bool, isTest: string -> bool,
                             kindLe: (string, string) -> bool)

  datatype Report = Report(months: seq<int>, currencies: seq<string>, rows: seq<Row>, totals: map<string, Sums>,
                           ledger: seq<LedgerRow>)

  function PlanOf(q: Request, months: seq<int>): Plan {
    Plan(q.calendar, months, q.includeTest, q.isTest)
  }

  /** A currency's figures over the days of the last `months` months, test gateways left out unless asked for. */
  function SumsOf(q: Request, days: seq<DayRow>, currency: string): Sums {
    SumsBy(days, PicksWindow(q, currency, Payment), PicksWindow(q, currency, Refund))
  }

  predicate InWindow(q: Request, d: DayRow) {
    && q.calendar(q.today) - q.months < q.calendar(d.day) <= q.calendar(q.today)
    && (q.isTest(d.provider) ==> q.includeTest)
  }

  function PicksWindow(q: Request, currency: string, metric: Metric): DayRow -> bool {
    (d: DayRow) => InWindow(q, d) && UpperCode(d.currency) == currency && d.metric == metric
  }

  /** A currency some day in the window, some ledger movement in it or some other row of the report names. */
  ghost predicate Mentioned(q: Request, days: seq<DayRow>, ledgerDays: seq<LedgerDay>, named: seq<string>, c: string) {
    c != []
    && (|| (exists x :: x in named && UpperCode(x) == c)
        || (exists d :: d in days && InWindow(q, d) && UpperCode(d.currency) == c)
        || (exists l :: l in ledgerDays && MonthInWindow(q, l.day) && UpperCode(l.currency) == c))
  }

  predicate MonthInWindow(q: Request, day: int) {
    q.calendar(q.today) - q.months < q.calendar(day) <= q.calendar(q.today)
  }

  /** Ledger rows stand by month, then by the place of their currency, a blank one first, then by kind. */
  ghost predicate StandsBefore(currencies: seq<string>, kindLe: (string, string) -> bool, a: LedgerRow, b: LedgerRow) {
    || a.month < b.month
    || (a.month == b.month && a.currency == b.currency && kindLe(a.kind, b.kind))
    || (a.month == b.month && a.currency == [] != b.currency)
    || (a.month == b.month
        && exists i, j :: 0 <= i < j < |currencies| && currencies[i] == a.currency && currencies[j] == b.currency)
  }

  /** The report keeps the last `months` months ending with today's. Each listed currency has one row a month, oldest
      first, and a total that is the sum over its days in those months; every day whose currency is not blank counts in
      a listed currency; the ledger has one sum for each month, currency and kind with a day, in order. */
  method BucketReport(q: Request, days: seq<DayRow>, ledgerDays: seq<LedgerDay>, liability: seq<string>,
                      currencies: seq<string>)
    returns (r: Report)
    requires RealCalendar(q.calendar) && Sorting.IsOrder(q.kindLe)
    ensures |r.months| == q.months
    ensures forall k :: 0 <= k < q.months ==> r.months[k] == q.calendar(q.today) - (q.months - 1 - k)
    ensures EachOnce(r.currencies) && forall c :: c in r.totals <==> c in r.currencies
    ensures r.rows == AllRows(PlanOf(q, r.months), days, r.currencies)
    ensures forall c :: c in r.currencies ==> r.totals[c] == SumsOf(q, days, c)
    ensures forall d :: d in days && InWindow(q, d) && d.currency != [] ==> UpperCode(d.currency) in r.currencies
    ensures forall c :: c in r.currencies <==> Mentioned(q, days, ledgerDays, currencies + liability, c)
    ensures FirstSeen(r.currencies, currencies + KeptCurrencies(PlanOf(q, r.months), days)
                                    + KeptLedgerCurrencies(PlanOf(q, r.months), ledgerDays) + liability)
    ensures AddsUp(r.ledger, PlanOf(q, r.months), ledgerDays)
    ensures forall i, j :: 0 <= i < j < |r.ledger| ==> StandsBefore(r.currencies, q.kindLe, r.ledger[i], r.ledger[j])
  {
    hide RealCalendar, AllRows, TotalOf, SumsBy, Tallies, AddCurrencies, Sorting.SortedBy, Sorting.IsOrder, EachOnce,
      AddsUp, FirstSeen, Mentioned, StandsBefore, LedgerOrder;
    var months := MonthKeysEnding(q.today, q.months, q.calendar);
    var p := PlanOf(q, months);
    var ledger, ledgerCurrencies := CollectLedger(p, ledgerDays);
    var listed, rows, totals := BucketRevenue(p, days, currencies, ledgerCurrencies + liability);
    var order := LedgerOrder(months, listed, q.kindLe);
    LedgerOrderIsOrder(months, listed, q.kindLe);
    Sorting.SortSorts(order, ledger);
    SortedTallies(ledger, p, ledgerDays, order);
    TalliesAddUp(Sorting.Sort(order, ledger), p, ledgerDays);
    r := Report(months, listed, rows, totals, Sorting.Sort(order, ledger));
    ListedOnce(p, days, currencies, ledgerCurrencies + liability);
    ListedAsMentioned(q, months, days, ledgerDays, currencies, liability);
    LedgerStands(q, months, listed, r.ledger, days, ledgerDays, currencies + liability);
    forall c | c in listed
      ensures totals[c] == SumsOf(q, days, c)
    {
      WindowTotal(q, months, days, c);
    }
    forall d | d in days && InWindow(q, d) && d.currency != []
      ensures UpperCode(d.currency) in listed
    {
      InWindowIsKept(q, months, d);
      KeptDayIsShown(p, days, currencies, ledgerCurrencies + liability, d);
    }
  }

  /** The months kept are those of the window. */
  lemma InWindowIsKept(q: Request, months: seq<int>, d: DayRow)
    requires |months| == q.months
    requires forall k :: 0 <= k < q.months ==> months[k] == q.calendar(q.today) - (q.months - 1 - k)
    ensures InWindow(q, d) <==> Kept(PlanOf(q, months), d)
  {
    var m := q.calendar(d.day);
    var k := m - q.calendar(q.today) + q.months - 1;
    if 0 <= k < q.months {
      assert months[k] == m;
    }
  }

  lemma WindowTotal(q: Request, months: seq<int>, days: seq<DayRow>, currency: string)
    requires |months| == q.months
    requires forall k :: 0 <= k < q.months ==> months[k] == q.calendar(q.today) - (q.months - 1 - k)
    ensures TotalOf(PlanOf(q, months), days, currency, |months|) == SumsOf(q, days, currency)
  {
    var p := PlanOf(q, months);
    TotalIsSumOfDays(p, days, currency, |months|);
    assert months[..|months|] == months;
    forall metric: Metric, d: DayRow
      ensures PicksMonths(p, |months|, currency, metric)(d) == PicksWindow(q, currency, metric)(d)
    {
      InWindowIsKept(q, months, d);
    }
    SameSums(days, PicksMonths(p, |months|, currency, Payment), PicksWindow(q, currency, Payment),
             PicksMonths(p, |months|, currency, Refund), PicksWindow(q, currency, Refund));
  }

  lemma {:induction false} SameTotal(days: seq<DayRow>, pick: DayRow -> bool, other: DayRow -> bool,
                                     amount: DayRow -> int)
    requires forall d :: pick(d) == other(d)
    ensures Total(days, pick, amount) == Total(days, other, amount)
  {
    if days != [] {
      SameTotal(days[..|days| - 1], pick, other, amount);
    }
  }

  lemma SameSums(days: seq<DayRow>, payments: DayRow -> bool, payments': DayRow -> bool,
                 refunds: DayRow -> bool, refunds': DayRow -> bool)
    requires forall d :: payments(d) == payments'(d)
    requires forall d :: refunds(d) == refunds'(d)
    ensures SumsBy(days, payments, refunds) == SumsBy(days, payments', refunds')
  {
    hide Total;
    SameTotal(days, payments, payments', CountOf());
    SameTotal(days, payments, payments', GrossOf());
    SameTotal(days, payments, payments', TaxOf());
    SameTotal(days, payments, payments', NetOf());
    SameTotal(days, refunds, refunds', CountOf());
    SameTotal(days, refunds, refunds', GrossOf());
    SameTotal(days, refunds, refunds', TaxOf());
    SameTotal(days, refunds, refunds', NetOf());
  }

  lemma ListedOnce(p: Plan, days: seq<DayRow>, currencies: seq<string>, more: seq<string>)
    ensures EachOnce(AddCurrencies(AddCurrencies(AddCurrencies([], currencies), KeptCurrencies(p, days)), more))
  {
    hide AddCurrencies;
    AddedCurrencies([], currencies);
    AddedCurrencies(AddCurrencies([], currencies), KeptCurrencies(p, days));
    AddedCurrencies(AddCurrencies(AddCurrencies([], currencies), KeptCurrencies(p, days)), more);
  }

  lemma {:induction false} KeptCodes(p: Plan, days: seq<DayRow>, c: string)
    ensures c in KeptCurrencies(p, days) <==> exists d :: d in days && Kept(p, d) && UpperCode(d.currency) == c
  {
    hide UpperCode, Kept;
    if days != [] {
      var front, last := days[..|days| - 1], days[|days| - 1];
      KeptCodes(p, front, c);
      assert days == front + [last];
    }
  }

  lemma {:induction false} KeptLedgerCodes(p: Plan, days: seq<LedgerDay>, c: string)
    ensures c in KeptLedgerCurrencies(p, days)
        <==> exists l :: l in days && LedgerKept(p, l) && UpperCode(l.currency) == c
  {
    hide UpperCode, LedgerKept;
    if days != [] {
      var front, last := days[..|days| - 1], days[|days| - 1];
      KeptLedgerCodes(p, front, c);
      assert days == front + [last];
    }
  }

  lemma NamedCode(x: string, more: seq<string>)
    ensures Named(x, more) <==> x != [] && exists m :: m in more && UpperCode(m) == x
  {
    if Named(x, more) {
      var i :| 0 <= i < |more| && UpperCode(more[i]) == x && more[i] != [];
      assert more[i] in more;
    }
    if x != [] && exists m :: m in more && UpperCode(m) == x {
      var m :| m in more && UpperCode(m) == x;
      var i :| 0 <= i < |more| && more[i] == m;
    }
  }

  lemma NamedDay(p: Plan, days: seq<DayRow>, c: string)
    ensures Named(c, KeptCurrencies(p, days))
        <==> c != [] && exists d :: d in days && Kept(p, d) && UpperCode(d.currency) == c
  {
    hide Kept, UpperCode, Named;
    NamedCode(c, KeptCurrencies(p, days));
    forall m
      ensures m in KeptCurrencies(p, days) ==> UpperCode(m) == m
    {
      KeptCodes(p, days, m);
      if d :| d in days && Kept(p, d) && UpperCode(d.currency) == m {
        UpperTwice(d.currency);
      }
    }
    KeptCodes(p, days, c);
  }

  lemma NamedLedgerDay(p: Plan, days: seq<LedgerDay>, c: string)
    ensures Named(c, KeptLedgerCurrencies(p, days))
        <==> c != [] && exists l :: l in days && LedgerKept(p, l) && UpperCode(l.currency) == c
  {
    hide LedgerKept, UpperCode, Named;
    NamedCode(c, KeptLedgerCurrencies(p, days));
    forall m
      ensures m in KeptLedgerCurrencies(p, days) ==> UpperCode(m) == m
    {
      KeptLedgerCodes(p, days, m);
      if l :| l in days && LedgerKept(p, l) && UpperCode(l.currency) == m {
        UpperTwice(l.currency);
      }
    }
    KeptLedgerCodes(p, days, c);
  }

  lemma NamedInEither(c: string, a: seq<string>, b: seq<string>)
    ensures Named(c, a + b) <==> Named(c, a) || Named(c, b)
  {
    hide UpperCode, Named;
    NamedCode(c, a);
    NamedCode(c, b);
    NamedCode(c, a + b);
  }

  ghost predicate LastMonths(q: Request, months: seq<int>) {
    |months| == q.months && forall k :: 0 <= k < q.months ==> months[k] == q.calendar(q.today) - (q.months - 1 - k)
  }

  lemma LedgerInWindow(q: Request, months: seq<int>, l: LedgerDay)
    requires LastMonths(q, months)
    ensures LedgerKept(PlanOf(q, months), l) <==> MonthInWindow(q, l.day)
  {
    var k := q.calendar(l.day) - q.calendar(q.today) + q.months - 1;
    if 0 <= k < q.months {
      assert months[k] == q.calendar(l.day);
    }
  }

  lemma MentionedIs(q: Request, months: seq<int>, days: seq<DayRow>, ledgerDays: seq<LedgerDay>, named: seq<string>,
                    c: string)
    requires LastMonths(q, months)
    ensures var p := PlanOf(q, months);
      Mentioned(q, days, ledgerDays, named, c) <==>
        Named(c, named) || Named(c, KeptCurrencies(p, days)) || Named(c, KeptLedgerCurrencies(p, ledgerDays))
  {
    hide UpperCode, Named, KeptCurrencies, KeptLedgerCurrencies, InWindow, MonthInWindow, Kept, LedgerKept;
    var p := PlanOf(q, months);
    NamedCode(c, named);
    NamedDay(p, days, c);
    NamedLedgerDay(p, ledgerDays, c);
    forall d: DayRow
      ensures InWindow(q, d) <==> Kept(p, d)
    {
      InWindowIsKept(q, months, d);
    }
    forall l: LedgerDay
      ensures LedgerKept(p, l) <==> MonthInWindow(q, l.day)
    {
      LedgerInWindow(q, months, l);
    }
  }

  lemma ListedAsMentioned(q: Request, months: seq<int>, days: seq<DayRow>, ledgerDays: seq<LedgerDay>,
                          currencies: seq<string>, liability: seq<string>)
    requires LastMonths(q, months)
    ensures var p := PlanOf(q, months);
      var listed := AddCurrencies(AddCurrencies(AddCurrencies([], currencies), KeptCurrencies(p, days)),
                                  KeptLedgerCurrencies(p, ledgerDays) + liability);
      && (forall c :: c in listed <==> Mentioned(q, days, ledgerDays, currencies + liability, c))
      && FirstSeen(listed, currencies + KeptCurrencies(p, days) + KeptLedgerCurrencies(p, ledgerDays) + liability)
  {
    hide AddCurrencies, KeptCurrencies, KeptLedgerCurrencies, Named, Mentioned, FirstSeen, EachOnce, LastMonths;
    var p := PlanOf(q, months);
    var kept, moved := KeptCurrencies(p, days), KeptLedgerCurrencies(p, ledgerDays);
    AddedTogether([], currencies, kept);
    AddedTogether([], currencies + kept, moved + liability);
    assert currencies + kept + (moved + liability) == currencies + kept + moved + liability;
    var all := currencies + kept + moved + liability;
    ListedFirstSeen(all);
    NothingListed();
    AddedCurrencies([], all);
    forall c
      ensures Named(c, all) <==> Mentioned(q, days, ledgerDays, currencies + liability, c)
    {
      NamedInEither(c, currencies, kept);
      NamedInEither(c, currencies + kept, moved);
      NamedInEither(c, currencies + kept + moved, liability);
      NamedInEither(c, currencies, liability);
      MentionedIs(q, months, days, ledgerDays, currencies + liability, c);
    }
  }

  lemma {:induction false} IndexIs<T>(s: seq<T>, x: T)
    ensures if x in s then 0 <= IndexOf(s, x) < |s| && s[IndexOf(s, x)] == x else IndexOf(s, x) == -1
  {
    if x in s && s[0] != x {
      IndexIs(s[1..], x);
    }
  }

  lemma OrderStands(q: Request, months: seq<int>, currencies: seq<string>, a: LedgerRow, b: LedgerRow)
    requires LastMonths(q, months) && Before(months, currencies, q.kindLe, a, b)
    requires a.month in months && b.month in months
    requires a.currency != [] ==> a.currency in currencies
    requires b.currency != [] ==> b.currency in currencies
    requires [] !in currencies
    ensures StandsBefore(currencies, q.kindLe, a, b)
  {
    hide IndexOf;
    IndexIs(months, a.month);
    IndexIs(months, b.month);
    IndexIs(currencies, a.currency);
    IndexIs(currencies, b.currency);
  }

  /** A row's month is kept, and its currency is listed unless it is blank. */
  lemma RowPlaced(q: Request, months: seq<int>, ledgerDays: seq<LedgerDay>, days: seq<DayRow>, named: seq<string>,
                  rows: seq<LedgerRow>, r: LedgerRow)
    requires LastMonths(q, months) && AddsUp(rows, PlanOf(q, months), ledgerDays) && r in rows
    ensures r.month in months && (r.currency != [] ==> Mentioned(q, days, ledgerDays, named, r.currency))
  {
    hide UpperCode, LedgerTotal, LastMonths;
    var l :| l in ledgerDays && LedgerPicks(PlanOf(q, months), r.month, r.currency, r.kind)(l);
    LedgerInWindow(q, months, l);
    assert MonthInWindow(q, l.day);
  }

  lemma LedgerStands(q: Request, months: seq<int>, currencies: seq<string>, ledger: seq<LedgerRow>,
                     days: seq<DayRow>, ledgerDays: seq<LedgerDay>, named: seq<string>)
    requires LastMonths(q, months) && AddsUp(ledger, PlanOf(q, months), ledgerDays) && EachOnce(currencies)
    requires forall c :: c in currencies <==> Mentioned(q, days, ledgerDays, named, c)
    requires Sorting.SortedBy(LedgerOrder(months, currencies, q.kindLe), ledger)
    ensures forall i, j :: 0 <= i < j < |ledger| ==> StandsBefore(currencies, q.kindLe, ledger[i], ledger[j])
  {
    hide AddsUp, Mentioned, LastMonths, StandsBefore, Before;
    forall i, j | 0 <= i < j < |ledger|
      ensures StandsBefore(currencies, q.kindLe, ledger[i], ledger[j])
    {
      var a, b := ledger[i], ledger[j];
      assert LedgerOrder(months, currencies, q.kindLe)(a, b);
      RowPlaced(q, months, ledgerDays, days, named, ledger, a);
      RowPlaced(q, months, ledgerDays, days, named, ledger, b);
      OrderStands(q, months, currencies, a, b);
    }
  }
}
