/** The checksum of an Iranian IBAN (shared/cardTransfer.ts; ISO 13616, the MOD 97-10 system of ISO/IEC 7064). */
module Iban {
  import opened Text

  predicate IsCapital(c: char) {
    'A' <= c <= 'Z'
  }

  predicate IbanText(s: string) {
    forall i :: 0 <= i < |s| ==> IsCapital(s[i]) || IsDigit(s[i])
  }

  /** A letter becomes its two-digit number (A is 10), a digit stays. */
  function Chunk(c: char): (r: seq<int>)
    requires IsCapital(c) || IsDigit(c)
    ensures forall i :: 0 <= i < |r| ==> 0 <= r[i] <= 9
  {
    if IsCapital(c) then
      var n := c as int - 55;
      [n / 10, n % 10]
    else [DigitValue(c)]
  }

  lemma ChunkIs(c: char)
    requires IsCapital(c)
    ensures |Chunk(c)| == 2 && 10 * Chunk(c)[0] + Chunk(c)[1] == 10 + (c - 'A') as int
  {
  }

  function Expand(s: string): (r: seq<int>)
    requires IbanText(s)
    ensures forall i :: 0 <= i < |r| ==> 0 <= r[i] <= 9
  {
    if s == [] then [] else Expand(s[..|s| - 1]) + Chunk(s[|s| - 1])
  }

  /** The number the digits spell. */
  function Value(ds: seq<int>): int {
    if ds == [] then 0 else 10 * Value(ds[..|ds| - 1]) + ds[|ds| - 1]
  }

  /** The check digits and the country moved to the end. */
  function Moved(iban: string): string
    requires |iban| >= 4
  {
    iban[4..] + iban[..4]
  }

  predicate ChecksumHolds(iban: string)
    requires |iban| >= 4 && IbanText(iban)
  {
    Value(Expand(Moved(iban))) % 97 == 1
  }

  lemma RemainderStep(v: int, d: int)
    ensures (v % 97 * 10 + d) % 97 == (10 * v + d) % 97
  {
    assert 10 * v + d == 97 * (10 * (v / 97)) + (v % 97 * 10 + d);
  }

  lemma ValueAppend(ds: seq<int>, d: int)
    ensures Value(ds + [d]) == 10 * Value(ds) + d
  {
    assert (ds + [d])[..|ds|] == ds;
  }

  method Feed(remainder: int, chunk: seq<int>, ghost fed: seq<int>) returns (r: int)
    requires remainder == Value(fed) % 97
    ensures r == Value(fed + chunk) % 97
  {
    r := remainder;
    assert fed + chunk[..0] == fed;
    for j := 0 to |chunk|
      invariant r == Value(fed + chunk[..j]) % 97
    {
      assert fed + chunk[..j + 1] == fed + chunk[..j] + [chunk[j]];
      ValueAppend(fed + chunk[..j], chunk[j]);
      RemainderStep(Value(fed + chunk[..j]), chunk[j]);
      r := (r * 10 + chunk[j]) % 97;
    }
    assert chunk[..|chunk|] == chunk;
  }

  /** The digits fed one at a time, keeping only the remainder, give the remainder of the whole number. */
  method IbanChecksumValid(iban: string) returns (valid: bool)
    requires |iban| >= 4 && IbanText(iban)
    ensures valid == ChecksumHolds(iban)
  {
    hide Value, Chunk;
    var moved := iban[4..] + iban[..4];
    var remainder := 0;
    EmptyValue();
    for k := 0 to |moved|
      invariant remainder == Value(Expand(moved[..k])) % 97
    {
      assert moved[..k + 1][..k] == moved[..k];
      remainder := Feed(remainder, Chunk(moved[k]), Expand(moved[..k]));
    }
    assert moved[..|moved|] == moved;
    valid := remainder == 1;
  }

  lemma EmptyValue()
    ensures Value([]) == 0
  {
  }

  // ----- what one digit weighs

  function Pow10(k: nat): int {
    if k == 0 then 1 else 10 * Pow10(k - 1)
  }

  lemma {:induction false} ValueReplace(ds: seq<int>, i: nat, d: int)
    requires i < |ds|
    ensures Value(ds[i := d]) == Value(ds) + (d - ds[i]) * Pow10(|ds| - 1 - i)
  {
    var front := ds[..|ds| - 1];
    if i < |front| {
      ValueReplace(front, i, d);
      assert ds[i := d][..|ds| - 1] == front[i := d];
      assert Pow10(|ds| - 1 - i) == 10 * Pow10(|front| - 1 - i);
    } else {
      assert ds[i := d][..|ds| - 1] == front;
      assert Pow10(0) == 1;
    }
  }

  /** The inverse of 1 to 10 modulo 97. */
  function Inverse(a: int): (r: int)
    requires 1 <= a <= 10
    ensures (a * r) % 97 == 1
  {
    if a == 1 then 1 else if a == 2 then 49 else if a == 3 then 65 else if a == 4 then 73 else if a == 5 then 39
    else if a == 6 then 81 else if a == 7 then 14 else if a == 8 then 85 else if a == 9 then 54 else 68
  }

  lemma InverseUndoes(a: int, b: int, r: int)
    requires (a * r) % 97 == 1 && (a * b) % 97 == 0
    ensures b % 97 == 0
  {
    var c, k := a * r / 97, a * b / 97;
    calc {
      b;
      (97 * c + 1) * b - 97 * (c * b);
      a * r * b - 97 * (c * b);
      r * (a * b) - 97 * (c * b);
      r * (97 * k) - 97 * (c * b);
      97 * (r * k - c * b);
    }
  }

  /** A small factor makes no multiple of 97. */
  lemma SmallFactor(a: int, b: int)
    requires 1 <= a <= 10 && b % 97 != 0
    ensures (a * b) % 97 != 0
  {
    if (a * b) % 97 == 0 {
      InverseUndoes(a, b, Inverse(a));
      assert false;
    }
  }

  lemma {:induction false} PowTimes(k: nat, b: int)
    requires b % 97 != 0
    ensures (Pow10(k) * b) % 97 != 0
  {
    if k > 0 {
      PowTimes(k - 1, b);
      SmallFactor(10, Pow10(k - 1) * b);
      assert Pow10(k) * b == 10 * (Pow10(k - 1) * b);
    } else {
      assert Pow10(0) * b == b;
    }
  }

  function PowMod(k: nat): (r: int)
    ensures 0 <= r < 97
  {
    if k == 0 then 1 else (10 * PowMod(k - 1)) % 97
  }

  lemma {:induction false} PowModIs(k: nat)
    ensures Pow10(k) % 97 == PowMod(k)
  {
    if k > 0 {
      PowModIs(k - 1);
      RemainderStep(Pow10(k - 1), 0);
    }
  }

  /** The powers of ten modulo 97, up to the weight of an IBAN's first digit. */
  function Residue(k: nat): int
    requires k <= 27
  {
    [1, 10, 3, 30, 9, 90, 27, 76, 81, 34, 49, 5, 50, 15,
     53, 45, 62, 38, 89, 17, 73, 51, 25, 56, 75, 71, 31, 19][k]
  }

  lemma ResidueStep(k: nat)
    requires k < 27
    ensures (10 * Residue(k)) % 97 == Residue(k + 1)
  {
  }

  lemma {:induction false} Residues(k: nat)
    requires k <= 27
    ensures PowMod(k) == Residue(k)
  {
    hide Residue;
    if k > 0 {
      Residues(k - 1);
      ResidueStep(k - 1);
    } else {
      assert Residue(0) == 1 by { FirstResidue(); }
    }
  }

  lemma FirstResidue()
    ensures Residue(0) == 1
  {
  }

  /** Ten comes back to 1 modulo 97 only after more than 27 steps: all weights of an IBAN differ. */
  lemma PowersApart(m: nat)
    requires 1 <= m <= 27
    ensures PowMod(m) != 1
  {
    Residues(m);
  }

  lemma {:induction false} PowSum(a: nat, b: nat)
    ensures Pow10(a + b) == Pow10(a) * Pow10(b)
  {
    if a > 0 {
      PowSum(a - 1, b);
    }
  }

  lemma Factored(a: int, b: int)
    ensures a * (b - 1) == a * b - a
  {
  }

  lemma WeightsDiffer(x: nat, y: nat)
    requires y < x <= 27
    ensures (Pow10(x) - Pow10(y)) % 97 != 0
  {
    hide Pow10, PowMod;
    PowSum(y, x - y);
    PowModIs(x - y);
    PowersApart(x - y);
    OneLess(Pow10(x - y));
    PowTimes(y, Pow10(x - y) - 1);
    Factored(Pow10(y), Pow10(x - y));
  }

  lemma OneLess(a: int)
    requires a % 97 != 1
    ensures (a - 1) % 97 != 0
  {
  }

  lemma Multiples(a: int, b: int)
    requires a % 97 == b % 97
    ensures (a - b) % 97 == 0
  {
  }

  lemma Negated(x: int)
    requires x % 97 != 0
    ensures (-x) % 97 != 0
  {
  }

  lemma DigitGap(d: int, b: int)
    requires -9 <= d <= 9 && d != 0 && b % 97 != 0
    ensures (d * b) % 97 != 0
  {
    if d > 0 {
      SmallFactor(d, b);
    } else {
      SmallFactor(-d, b);
      Negated((-d) * b);
      assert d * b == -((-d) * b);
    }
  }

  lemma DigitsReplaced(ds: seq<int>, i: nat, d: int)
    requires i < |ds| && 0 <= ds[i] <= 9 && 0 <= d <= 9 && d != ds[i]
    ensures Value(ds[i := d]) % 97 != Value(ds) % 97
  {
    var k := |ds| - 1 - i;
    ValueReplace(ds, i, d);
    PowTimes(k, 1);
    DigitGap(d - ds[i], Pow10(k));
    if Value(ds[i := d]) % 97 == Value(ds) % 97 {
      Multiples(Value(ds[i := d]), Value(ds));
      assert false;
    }
  }

  function Exchanged<T>(s: seq<T>, i: nat, j: nat): seq<T>
    requires i < |s| && j < |s|
  {
    s[i := s[j]][j := s[i]]
  }

  lemma ExchangedEitherWay<T>(s: seq<T>, i: nat, j: nat)
    requires i < |s| && j < |s|
    ensures Exchanged(s, i, j) == Exchanged(s, j, i)
  {
  }

  lemma SwapDifference(a: int, b: int, p: int, q: int)
    ensures (b - a) * p + (a - b) * q == (b - a) * (p - q)
  {
  }

  lemma DigitsSwapped(ds: seq<int>, i: nat, j: nat)
    requires i < j < |ds| <= 28 && 0 <= ds[i] <= 9 && 0 <= ds[j] <= 9 && ds[i] != ds[j]
    ensures Value(Exchanged(ds, i, j)) % 97 != Value(ds) % 97
  {
    hide Value, Pow10;
    var p, q := Pow10(|ds| - 1 - i), Pow10(|ds| - 1 - j);
    var t := ds[i := ds[j]];
    ValueReplace(ds, i, ds[j]);
    ValueReplace(t, j, ds[i]);
    WeightsDiffer(|ds| - 1 - i, |ds| - 1 - j);
    DigitGap(ds[j] - ds[i], p - q);
    SwapDifference(ds[i], ds[j], p, q);
    var swapped := Value(t[j := ds[i]]);
    assert swapped - Value(ds) == (ds[j] - ds[i]) * (p - q);
    if swapped % 97 == Value(ds) % 97 {
      Multiples(swapped, Value(ds));
      assert false;
    }
  }

  // ----- the Iranian IBAN: IR and 24 digits

  predicate ValidDigits(digits: string) {
    |digits| == 24 && AllDigits(digits) && ChecksumHolds("IR" + digits)
  }

  function Values(s: string): (r: seq<int>)
    requires AllDigits(s)
    ensures |r| == |s| && forall i :: 0 <= i < |s| ==> r[i] == DigitValue(s[i])
  {
    if s == [] then [] else Values(s[..|s| - 1]) + [DigitValue(s[|s| - 1])]
  }

  lemma {:induction false} ExpandAppend(a: string, b: string)
    requires IbanText(a) && IbanText(b)
    ensures Expand(a + b) == Expand(a) + Expand(b)
  {
    if b == [] {
      assert a + b == a;
    } else {
      hide Chunk;
      ExpandAppend(a, b[..|b| - 1]);
      assert (a + b)[..|a + b| - 1] == a + b[..|b| - 1];
    }
  }

  lemma {:induction false} ExpandDigits(s: string)
    requires AllDigits(s)
    ensures Expand(s) == Values(s)
  {
    if s != [] {
      ExpandDigits(s[..|s| - 1]);
    }
  }

  /** The 28 digits summed: the account, then IR as 18 27, then the check digits. */
  function Expanded(digits: string): (r: seq<int>)
    requires |digits| == 24 && AllDigits(digits)
    ensures |r| == 28
  {
    Values(digits[2..]) + [1, 8, 2, 7] + Values(digits[..2])
  }

  lemma ExpandedIban(digits: string)
    requires |digits| == 24 && AllDigits(digits)
    ensures Expand(Moved("IR" + digits)) == Expanded(digits)
  {
    var moved := Moved("IR" + digits);
    assert moved == digits[2..] + ("IR" + digits[..2]);
    ExpandAppend(digits[2..], "IR" + digits[..2]);
    ExpandAppend("IR", digits[..2]);
    ExpandDigits(digits[2..]);
    ExpandDigits(digits[..2]);
    assert "IR"[..1] == "I" && "I"[..0] == "";
    assert Expand("I") == Expand("I"[..0]) + Chunk('I');
    assert Expand("IR") == Expand("IR"[..1]) + Chunk('R');
    assert Chunk('I') == [1, 8] && Chunk('R') == [2, 7];
  }

  /** Where a digit of the number stands among the 28. */
  function Place(i: nat): nat
    requires i < 24
  {
    if i < 2 then 26 + i else i - 2
  }

  lemma ExpandedReplace(digits: string, i: nat, c: char)
    requires |digits| == 24 && AllDigits(digits) && i < 24 && IsDigit(c)
    ensures Expanded(digits)[Place(i)] == DigitValue(digits[i])
    ensures AllDigits(digits[i := c]) && Expanded(digits[i := c]) == Expanded(digits)[Place(i) := DigitValue(c)]
  {
    var changed := digits[i := c];
    forall k | 0 <= k < 28
      ensures Expanded(changed)[k] == Expanded(digits)[Place(i) := DigitValue(c)][k]
    {
    }
  }

  lemma ValidExpanded(digits: string)
    requires |digits| == 24 && AllDigits(digits)
    ensures ValidDigits(digits) <==> Value(Expanded(digits)) % 97 == 1
  {
    hide Value, Expanded, Expand;
    ExpandedIban(digits);
  }

  /** No single wrong digit passes, account or check digits. */
  lemma SingleErrorCaught(digits: string, i: nat, c: char)
    requires ValidDigits(digits) && i < 24 && IsDigit(c) && c != digits[i]
    ensures !ValidDigits(digits[i := c])
  {
    hide Value, ChecksumHolds;
    ValidExpanded(digits);
    ExpandedReplace(digits, i, c);
    ValidExpanded(digits[i := c]);
    DigitsReplaced(Expanded(digits), Place(i), DigitValue(c));
  }

  lemma ExpandedSwap(digits: string, i: nat, j: nat)
    requires |digits| == 24 && AllDigits(digits) && i < 24 && j < 24 && i != j
    ensures var swapped := Exchanged(digits, i, j);
      AllDigits(swapped) && Expanded(swapped) == Exchanged(Expanded(digits), Place(i), Place(j))
  {
    hide Expanded;
    var t := digits[i := digits[j]];
    ExpandedReplace(digits, i, digits[j]);
    ExpandedReplace(digits, j, digits[i]);
    ExpandedReplace(t, j, digits[i]);
  }

  /** No two digits exchanged pass, however far apart and also across the rotation. */
  lemma SwapCaught(digits: string, i: nat, j: nat)
    requires ValidDigits(digits) && i < 24 && j < 24 && digits[i] != digits[j]
    ensures !ValidDigits(Exchanged(digits, i, j))
  {
    hide Value, ChecksumHolds, Expanded;
    var ds := Expanded(digits);
    var p, q := Place(i), Place(j);
    ValidExpanded(digits);
    ExpandedReplace(digits, i, digits[i]);
    ExpandedReplace(digits, j, digits[j]);
    ExpandedSwap(digits, i, j);
    ValidExpanded(Exchanged(digits, i, j));
    if p < q {
      DigitsSwapped(ds, p, q);
    } else {
      DigitsSwapped(ds, q, p);
      ExchangedEitherWay(ds, p, q);
    }
  }

  lemma {:induction false} NumberOfValues(s: string)
    requires AllDigits(s)
    ensures Value(Values(s)) == Number(s)
  {
    if s != [] {
      NumberOfValues(s[..|s| - 1]);
      ValueAppend(Values(s[..|s| - 1]), DigitValue(s[|s| - 1]));
    }
  }

  lemma ExpandedAsText(digits: string)
    requires |digits| == 24 && AllDigits(digits)
    ensures AllDigits(digits[2..] + "1827" + digits[..2])
    ensures Expanded(digits) == Values(digits[2..] + "1827" + digits[..2])
  {
    var text := digits[2..] + "1827" + digits[..2];
    forall k | 0 <= k < 28
      ensures Expanded(digits)[k] == Values(text)[k]
    {
    }
  }

  /** The account, 1827 for the country and the check digits, written as one number, leave 1 when divided by 97. */
  lemma ValidLeavesOne(digits: string)
    ensures ValidDigits(digits) <==>
      && |digits| == 24 && AllDigits(digits)
      && AllDigits(digits[2..] + "1827" + digits[..2]) && Number(digits[2..] + "1827" + digits[..2]) % 97 == 1
  {
    hide Value, Expanded, ChecksumHolds, Number;
    if |digits| == 24 && AllDigits(digits) {
      ValidExpanded(digits);
      ExpandedAsText(digits);
      NumberOfValues(digits[2..] + "1827" + digits[..2]);
    }
  }
}
