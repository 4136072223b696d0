/** The Luhn checksum of a card number (shared/cardTransfer.ts; ISO/IEC 7812-1 Annex B). */
module Luhn {
  import opened Text

  function Weighed(d: int, doubled: bool): int {
    if !doubled then d else if 2 * d > 9 then 2 * d - 9 else 2 * d
  }

  /** From the right, every second digit doubled; `doubled` says whether the last one is. */
  function LuhnSum(s: string, doubled: bool): int
    requires AllDigits(s)
  {
    if s == [] then 0
    else Weighed(DigitValue(s[|s| - 1]), doubled) + LuhnSum(s[..|s| - 1], !doubled)
  }

  predicate Valid(s: string) {
    12 <= |s| <= 19 && AllDigits(s) && LuhnSum(s, false) % 10 == 0
  }

  method LuhnValid(digits: string) returns (valid: bool)
    ensures valid == Valid(digits)
  {
    if !(12 <= |digits| <= 19 && AllDigits(digits)) {
      return false;
    }
    var sum := 0;
    assert digits[..|digits|] == digits;
    for i := 0 to |digits|
      invariant sum + LuhnSum(digits[..|digits| - i], i % 2 == 1) == LuhnSum(digits, false)
    {
      var rest := digits[..|digits| - i];
      assert rest[..|rest| - 1] == digits[..|digits| - (i + 1)];
      var d := DigitValue(digits[|digits| - 1 - i]);
      if i % 2 == 1 {
        d := d * 2;
        if d > 9 {
          d := d - 9;
        }
      }
      sum := sum + d;
    }
    valid := sum % 10 == 0;
  }

  /** Whether the digit at `i` is a doubled one. */
  predicate DoubledAt(s: string, i: nat, doubled: bool)
    requires i < |s|
  {
    ((|s| - 1 - i) % 2 == 1) != doubled
  }

  lemma {:induction false} Replace(s: string, i: nat, c: char, doubled: bool)
    requires AllDigits(s) && i < |s| && IsDigit(c)
    ensures AllDigits(s[i := c])
    ensures LuhnSum(s[i := c], doubled) - LuhnSum(s, doubled)
         == Weighed(DigitValue(c), DoubledAt(s, i, doubled)) - Weighed(DigitValue(s[i]), DoubledAt(s, i, doubled))
  {
    var front := s[..|s| - 1];
    if i < |front| {
      Replace(front, i, c, !doubled);
      assert s[i := c][..|s| - 1] == front[i := c];
    } else {
      assert s[i := c][..|s| - 1] == front;
    }
  }

  /** No single wrong digit passes. */
  lemma SingleErrorCaught(s: string, i: nat, c: char)
    requires Valid(s) && i < |s| && IsDigit(c) && c != s[i]
    ensures !Valid(s[i := c])
  {
    hide LuhnSum, Weighed, DoubledAt;
    Replace(s, i, c, false);
    SameRemainder(LuhnSum(s, false), LuhnSum(s[i := c], false));
    WeighedDiffers(DigitValue(c), DigitValue(s[i]), DoubledAt(s, i, false));
  }

  function Swapped(s: string, i: nat, j: nat): string
    requires i < |s| && j < |s|
  {
    s[i := s[j]][j := s[i]]
  }

  lemma SwapWeighs(a: int, b: int, first: bool)
    requires 0 <= a <= 9 && 0 <= b <= 9
    ensures (Weighed(b, first) - Weighed(a, first) + Weighed(a, !first) - Weighed(b, !first)) % 10 == 0
        <==> a == b || (a == 0 && b == 9) || (a == 9 && b == 0)
  {
  }

  lemma WeighedDiffers(a: int, b: int, doubled: bool)
    requires 0 <= a <= 9 && 0 <= b <= 9 && a != b
    ensures (Weighed(a, doubled) - Weighed(b, doubled)) % 10 != 0
  {
  }

  lemma SameRemainder(x: int, y: int)
    requires x % 10 == 0
    ensures y % 10 == 0 <==> (y - x) % 10 == 0
  {
  }

  lemma SwapSum(s: string, i: nat)
    requires AllDigits(s) && i + 1 < |s|
    ensures AllDigits(Swapped(s, i, i + 1))
    ensures var a, b, first := DigitValue(s[i]), DigitValue(s[i + 1]), DoubledAt(s, i, false);
      LuhnSum(Swapped(s, i, i + 1), false) - LuhnSum(s, false)
        == Weighed(b, first) - Weighed(a, first) + Weighed(a, !first) - Weighed(b, !first)
  {
    hide LuhnSum, Weighed;
    var t := s[i := s[i + 1]];
    Replace(s, i, s[i + 1], false);
    Replace(t, i + 1, s[i], false);
    assert DoubledAt(t, i + 1, false) == !DoubledAt(s, i, false);
  }

  /** Two neighbours exchanged pass only when nothing changed or they are 0 and 9. */
  lemma AdjacentSwapCaught(s: string, i: nat)
    requires Valid(s) && i + 1 < |s|
    ensures Valid(Swapped(s, i, i + 1)) <==>
      s[i] == s[i + 1] || (s[i] == '0' && s[i + 1] == '9') || (s[i] == '9' && s[i + 1] == '0')
  {
    hide LuhnSum, Weighed, DoubledAt;
    SwapSum(s, i);
    SwapWeighs(DigitValue(s[i]), DigitValue(s[i + 1]), DoubledAt(s, i, false));
    SameRemainder(LuhnSum(s, false), LuhnSum(Swapped(s, i, i + 1), false));
  }

  /** The one digit that completes a number. */
  function CheckDigit(s: string): (c: char)
    requires AllDigits(s)
    ensures IsDigit(c)
  {
    Digit((10 - LuhnSum(s, true) % 10) % 10)
  }

  lemma OneCompletion(s: string, c: char)
    requires AllDigits(s) && 11 <= |s| <= 18 && IsDigit(c)
    ensures Valid(s + [c]) <==> c == CheckDigit(s)
  {
    assert (s + [c])[..|s|] == s;
    assert DigitValue(c) == DigitValue(CheckDigit(s)) ==> c == CheckDigit(s);
  }

  // ----- the same checksum from the left

  /** What digit `i` adds: itself, or every second one from the right the digits of its double. */
  function Adds(s: string, i: nat, doubled: bool): int
    requires AllDigits(s) && i < |s|
  {
    var d := DigitValue(s[i]);
    if ((|s| - 1 - i) % 2 == 1) != doubled then 2 * d / 10 + 2 * d % 10 else d
  }

  function AddedUp(s: string, n: nat, doubled: bool): int
    requires AllDigits(s) && n <= |s|
  {
    if n == 0 then 0 else AddedUp(s, n - 1, doubled) + Adds(s, n - 1, doubled)
  }

  lemma {:induction false} FrontAdds(s: string, n: nat, doubled: bool)
    requires AllDigits(s) && n < |s|
    ensures AddedUp(s[..|s| - 1], n, !doubled) == AddedUp(s, n, doubled)
  {
    if n > 0 {
      FrontAdds(s, n - 1, doubled);
    }
  }

  lemma {:induction false} SumAddedUp(s: string, doubled: bool)
    requires AllDigits(s)
    ensures LuhnSum(s, doubled) == AddedUp(s, |s|, doubled)
  {
    if s != [] {
      SumAddedUp(s[..|s| - 1], !doubled);
      FrontAdds(s, |s| - 1, doubled);
    }
  }

  /** Twelve to nineteen digits whose sum, every second one from the right doubled and its digits added, ends in 0. */
  lemma ValidAddsUp(s: string)
    ensures Valid(s) <==> 12 <= |s| <= 19 && AllDigits(s) && AddedUp(s, |s|, false) % 10 == 0
  {
    hide AddedUp, LuhnSum;
    if AllDigits(s) {
      SumAddedUp(s, false);
    }
  }
}
