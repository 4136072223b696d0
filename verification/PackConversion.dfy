/** The AI wallet counts in one currency; packs are sold and balances shown in others. Exact arithmetic. */
module PackConversion {

  /** Minor units in a major one: the Rial is kept whole. */
  function MinorPerMajor(irr: bool): (r: real)
    ensures r >= 1.0
  {
    if irr then 1.0 else 100.0
  }

  const EPSILON: real := 0.000000001

  /** Math.round: halves upwards. */
  function Round(x: real): int {
    (x + 0.5).Floor
  }

  /** What a credit adds to the wallet, at `rate` wallet units per major unit. */
  function CreditToWallet(credit: int, rate: real, irr: bool): int {
    Round(credit as real / MinorPerMajor(irr) * rate)
  }

  /** The wallet in minor units, rounded down. */
  function WalletToMinor(wallet: real, rate: real, irr: bool): int
    requires rate > 0.0
  {
    var value := (wallet * MinorPerMajor(irr) / rate + EPSILON).Floor;
    if value > 0 then value else 0
  }

  /** A credit is worth this many wallet units: its major units times the rate, to the nearest, halves upwards. */
  lemma CreditMeans(credit: int, rate: real, irr: bool, units: int)
    ensures CreditToWallet(credit, rate, irr) == units <==>
      units as real - 0.5 <= credit as real / (if irr then 1.0 else 100.0) * rate < units as real + 0.5
  {
    var x := credit as real / (if irr then 1.0 else 100.0) * rate;
    assert CreditToWallet(credit, rate, irr) == (x + 0.5).Floor;
  }

  lemma WholeUnits(x: real, minor: int)
    ensures (if (x + EPSILON).Floor > 0 then (x + EPSILON).Floor else 0) == minor <==>
      && minor >= 0 && x < minor as real + 1.0 - 0.000000001
      && (minor > 0 ==> minor as real - 0.000000001 <= x)
  {
  }

  lemma MinorUnits(irr: bool)
    ensures MinorPerMajor(irr) == if irr then 1.0 else 100.0
  {
  }

  /** A wallet shows this many minor units: as many as it is worth, a billionth short counting as whole; none when it is
      worth less than one. */
  lemma WalletMeans(wallet: real, rate: real, irr: bool, minor: int)
    requires rate > 0.0
    ensures WalletToMinor(wallet, rate, irr) == minor <==>
      && minor >= 0
      && wallet * (if irr then 1.0 else 100.0) / rate < minor as real + 1.0 - 0.000000001
      && (minor > 0 ==> minor as real - 0.000000001 <= wallet * (if irr then 1.0 else 100.0) / rate)
  {
    hide MinorPerMajor;
    MinorUnits(irr);
    WholeUnits(wallet * MinorPerMajor(irr) / rate, minor);
  }

  lemma TimesKeepsOrder(a: real, b: real, c: real)
    requires c > 0.0 && a <= b
    ensures a * c <= b * c && (a < b ==> a * c < b * c)
  {
    assert (b - a) * c >= 0.0;
    assert a < b ==> (b - a) * c > 0.0;
  }

  lemma QuotientBounds(a: real, b: real, e: real)
    requires e > 0.0
    ensures a < b * e <==> a / e < b
  {
    var q := a / e;
    assert q * e == a;
    if q < b {
      TimesKeepsOrder(q, b, e);
    } else {
      TimesKeepsOrder(b, q, e);
    }
  }

  lemma DivideMonotone(a: real, b: real, d: real)
    requires d > 0.0 && a <= b
    ensures a / d <= b / d
  {
  }

  /** More in the wallet never shows as less. */
  lemma WalletMonotone(a: real, b: real, rate: real, irr: bool)
    requires rate > 0.0 && a <= b
    ensures WalletToMinor(a, rate, irr) <= WalletToMinor(b, rate, irr)
  {
    var e := MinorPerMajor(irr);
    assert a * e <= b * e;
    DivideMonotone(a * e, b * e, rate);
  }

  /** The exact value of `credit` in the wallet, before it is rounded. */
  function Exact(credit: int, rate: real, irr: bool): real {
    credit as real / MinorPerMajor(irr) * rate
  }

  /** How many minor units a wallet amount is worth. */
  function Worth(wallet: real, rate: real, irr: bool): real
    requires rate > 0.0
  {
    wallet * MinorPerMajor(irr) / rate
  }

  lemma WorthOfExact(credit: int, rate: real, irr: bool)
    requires rate > 0.0
    ensures Worth(Exact(credit, rate, irr), rate, irr) == credit as real
  {
    var e := MinorPerMajor(irr);
    var q := credit as real / e;
    assert q * e == credit as real;
    assert Exact(credit, rate, irr) * e == (q * e) * rate;
    assert ((q * e) * rate) / rate == q * e;
  }

  lemma WorthOfDifference(x: real, d: real, rate: real, irr: bool)
    requires rate > 0.0
    ensures Worth(x + d, rate, irr) == Worth(x, rate, irr) + d * MinorPerMajor(irr) / rate
  {
    var e := MinorPerMajor(irr);
    assert (x + d) * e == x * e + d * e;
    assert (x * e + d * e) / rate == x * e / rate + d * e / rate;
  }

  /** What a credit shows as, once it is in the wallet. */
  function Shown(credit: int, rate: real, irr: bool): int
    requires rate > 0.0
  {
    WalletToMinor(CreditToWallet(credit, rate, irr) as real, rate, irr)
  }

  /** Rounding moves the wallet by at most half a unit, and what that half is worth is what the page can be off by. */
  lemma RoundingError(credit: int, rate: real, irr: bool) returns (d: real)
    requires rate > 0.0
    ensures -0.5 < d <= 0.5
    ensures CreditToWallet(credit, rate, irr) as real == Exact(credit, rate, irr) + d
    ensures Worth(CreditToWallet(credit, rate, irr) as real, rate, irr)
         == credit as real + d * MinorPerMajor(irr) / rate
  {
    hide MinorPerMajor;
    var x := Exact(credit, rate, irr);
    d := CreditToWallet(credit, rate, irr) as real - x;
    WorthOfExact(credit, rate, irr);
    WorthOfDifference(x, d, rate, irr);
  }

  /** Above half a wallet unit per minor unit (the epsilon counted in), a pack's credit shown back is the credit or
      one minor unit less: never more, and the credit itself exactly when rounding to whole wallet units lost no more
      than the epsilon of a minor unit. */
  lemma ShownCredit(credit: int, rate: real, irr: bool)
    requires credit >= 1 && 2.0 * rate * (1.0 - EPSILON) > MinorPerMajor(irr)
    ensures rate > 0.0
    ensures Shown(credit, rate, irr) == credit || Shown(credit, rate, irr) == credit - 1
    ensures Shown(credit, rate, irr) == credit <==>
      credit as real - Worth(CreditToWallet(credit, rate, irr) as real, rate, irr) <= EPSILON
  {
    hide CreditToWallet;
    var d := RoundingError(credit, rate, irr);
    LessThanWhole(d, MinorPerMajor(irr), rate);
  }

  lemma LessThanWhole(d: real, e: real, rate: real)
    requires -0.5 < d <= 0.5 && 0.0 < e < 2.0 * rate * (1.0 - EPSILON)
    ensures -1.0 + EPSILON < d * e / rate < 1.0 - EPSILON
  {
    var q := e / rate;
    assert q * rate == e;
    QuotientBounds(e, 2.0 * (1.0 - EPSILON), rate);
    assert q > 0.0;
    assert d * e / rate == d * q;
    assert d * q <= 0.5 * q && d * q >= -0.5 * q;
  }

  // ----- and below it

  function Ceil(x: real): int {
    -((-x).Floor)
  }

  /** Half a wallet unit per minor unit or less; the epsilon reaches half its own width further. */
  predicate Coarse(rate: real, irr: bool) {
    rate * (2.0 - EPSILON) <= MinorPerMajor(irr)
  }

  /** The credit that goes wrong: 1 from half a wallet unit per minor unit on, else the even number 2k whose k is the
      first with k(e - 2r) at least r(1 - epsilon). */
  function Telltale(rate: real, irr: bool): int
    requires 0.0 < rate && Coarse(rate, irr)
  {
    if 2.0 * rate >= MinorPerMajor(irr) then 1
    else 2 * Ceil(rate * (1.0 - EPSILON) / (MinorPerMajor(irr) - 2.0 * rate))
  }

  /** `k` lies just past `n / g`. */
  lemma CeilOfQuotient(n: real, g: real)
    requires n > 0.0 && g > 0.0
    ensures var k := Ceil(n / g); k >= 1 && (k as real - 1.0) * g < n <= k as real * g
  {
    var q := n / g;
    var k := Ceil(q);
    assert q * g == n;
    assert q > 0.0;
    assert k as real - 1.0 < q <= k as real;
    TimesKeepsOrder(k as real - 1.0, q, g);
    TimesKeepsOrder(q, k as real, g);
  }

  /** Where the wallet ends up: `x` is the credit's exact worth 2kr/e, seen from below k by `k(e - 2r)/e`. */
  lemma EvenCreditExact(k: int, rate: real, irr: bool)
    ensures var e := MinorPerMajor(irr);
      Exact(2 * k, rate, irr) == k as real - k as real * (e - 2.0 * rate) / e
  {
    var e := MinorPerMajor(irr);
    var q := (2 * k) as real / e;
    assert q * e == 2.0 * k as real;
    assert k as real * (e - 2.0 * rate) == k as real * e - q * e * rate;
    assert (k as real * e - q * e * rate) / e == k as real - q * rate;
  }

  /** A wallet of `k` shows at least 2k + 1, */
  lemma EvenCreditAbove(k: int, rate: real, irr: bool)
    requires k >= 1 && rate > 0.0 && rate * (1.0 - EPSILON) <= k as real * (MinorPerMajor(irr) - 2.0 * rate)
    ensures WalletToMinor(k as real, rate, irr) >= 2 * k + 1
  {
    var e, n := MinorPerMajor(irr), k as real;
    assert n * (e - 2.0 * rate) == n * e - 2.0 * n * rate;
    QuotientBounds(n * e, 2.0 * n + 1.0 - EPSILON, rate);
  }

  /** and one of `k - 1` at most 2k - 2. */
  lemma EvenCreditBelow(k: int, rate: real, irr: bool)
    requires k >= 1 && rate > 0.0 && (k as real - 1.0) * (MinorPerMajor(irr) - 2.0 * rate) < rate * (1.0 - EPSILON)
    ensures WalletToMinor(k as real - 1.0, rate, irr) <= 2 * k - 2
  {
    var e, n := MinorPerMajor(irr), k as real - 1.0;
    assert n * (e - 2.0 * rate) == n * e - 2.0 * n * rate;
    QuotientBounds(n * e, 2.0 * n + 1.0 - EPSILON, rate);
  }

  /** The rounded wallet is `k` or `k - 1`. */
  lemma EvenCreditWallet(k: int, rate: real, irr: bool)
    requires k >= 1 && rate > 0.0 && 2.0 * rate < MinorPerMajor(irr)
    requires var g := MinorPerMajor(irr) - 2.0 * rate;
      (k as real - 1.0) * g < rate * (1.0 - EPSILON) <= k as real * g
    ensures CreditToWallet(2 * k, rate, irr) == k || CreditToWallet(2 * k, rate, irr) == k - 1
  {
    var e := MinorPerMajor(irr);
    var h := k as real * (e - 2.0 * rate);
    EvenCreditExact(k, rate, irr);
    assert 0.0 < h < e;
    QuotientBounds(h, 1.0, e);
    QuotientBounds(h, 0.0, e);
    assert Exact(2 * k, rate, irr) == k as real - h / e;
  }

  /** At a coarse rate that credit shows as more than itself or as at least two less. */
  lemma CoarseRateMisshows(rate: real, irr: bool)
    requires 0.0 < rate && Coarse(rate, irr)
    ensures var credit := Telltale(rate, irr);
      credit >= 1 && (Shown(credit, rate, irr) > credit || Shown(credit, rate, irr) <= credit - 2)
  {
    hide CreditToWallet, WalletToMinor;
    var e := MinorPerMajor(irr);
    if 2.0 * rate >= e {
      HalfRateShowsDouble(rate, irr);
    } else {
      var k := Ceil(rate * (1.0 - EPSILON) / (e - 2.0 * rate));
      CeilOfQuotient(rate * (1.0 - EPSILON), e - 2.0 * rate);
      EvenCreditAbove(k, rate, irr);
      EvenCreditBelow(k, rate, irr);
      EvenCreditWallet(k, rate, irr);
    }
  }

  /** At half, a credit of one minor unit shows as two: more than was bought. */
  lemma HalfRateShowsDouble(rate: real, irr: bool)
    requires 2.0 * rate >= MinorPerMajor(irr) && Coarse(rate, irr)
    ensures CreditToWallet(1, rate, irr) == 1 && WalletToMinor(1.0, rate, irr) == 2
  {
    var e := MinorPerMajor(irr);
    assert 1.0 / e * rate == rate / e;
    QuotientBounds(rate, 0.5, e);
    QuotientBounds(rate, 1.0, e);
    QuotientBounds(e, 2.0 - EPSILON, rate);
    QuotientBounds(e, 2.5, rate);
  }

  /** In Rial at half a Rial's wallet unit: one is bought, two are shown. */
  lemma HalfRateExample()
    ensures CreditToWallet(1, 0.5, true) == 1 && WalletToMinor(1.0, 0.5, true) == 2
  {
    HalfRateShowsDouble(0.5, true);
  }

  /** Every credit shows as itself or one less at the rates above half a wallet unit per minor unit, and at no coarse
      rate. */
  lemma CreditsShownIff(rate: real, irr: bool)
    requires rate > 0.0
    requires Coarse(rate, irr) || 2.0 * rate * (1.0 - EPSILON) > MinorPerMajor(irr)
    ensures !Coarse(rate, irr) <==>
      forall credit :: credit >= 1 ==> Shown(credit, rate, irr) == credit || Shown(credit, rate, irr) == credit - 1
  {
    hide Shown;
    if Coarse(rate, irr) {
      CoarseRateMisshows(rate, irr);
      var credit := Telltale(rate, irr);
      assert credit >= 1 && !(Shown(credit, rate, irr) == credit || Shown(credit, rate, irr) == credit - 1);
    } else {
      forall credit | credit >= 1
        ensures Shown(credit, rate, irr) == credit || Shown(credit, rate, irr) == credit - 1
      {
        ShownCredit(credit, rate, irr);
      }
    }
  }

  /** When a minor unit is worth a whole number of wallet units, nothing is lost. */
  lemma WholeRateExact(credit: int, unit: int, irr: bool)
    requires credit >= 1 && unit >= 1
    ensures var rate := unit as real * MinorPerMajor(irr);
      rate > 0.0 && CreditToWallet(credit, rate, irr) == credit * unit
      && WalletToMinor(CreditToWallet(credit, rate, irr) as real, rate, irr) == credit
  {
    var e := MinorPerMajor(irr);
    var rate := unit as real * e;
    RateAtLeast(unit, e);
    ExactWhole(credit, unit, irr);
    assert Round((credit * unit) as real) == credit * unit;
    WorthOfExact(credit, rate, irr);
    ShownCredit(credit, rate, irr);
  }

  lemma RateAtLeast(unit: int, e: real)
    requires unit >= 1 && e >= 1.0
    ensures unit as real * e >= e
  {
    assert (unit as real - 1.0) * e >= 0.0;
  }

  lemma ExactWhole(credit: int, unit: int, irr: bool)
    ensures Exact(credit, unit as real * MinorPerMajor(irr), irr) == (credit * unit) as real
  {
    var e := MinorPerMajor(irr);
    var q := credit as real / e;
    assert q * e == credit as real;
    assert q * (unit as real * e) == (q * e) * unit as real;
  }
}
