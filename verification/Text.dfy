/** The string operations of the source, on strings as sequences of code points. */
module Text {

  /** JavaScript white space and line terminators: what `trim` and `\s` mean. */
  predicate IsSpace(c: char) {
    var n := c as int;
    || 0x09 <= n <= 0x0D || n == 0x20 || n == 0xA0 || n == 0x1680
    || 0x2000 <= n <= 0x200A || n == 0x2028 || n == 0x2029 || n == 0x202F
    || n == 0x205F || n == 0x3000 || n == 0xFEFF
  }

  function TrimStart(s: string): (r: string)
    ensures |r| <= |s| && r == s[|s| - |r|..]
    ensures r != [] ==> !IsSpace(r[0])
    ensures forall i :: 0 <= i < |s| - |r| ==> IsSpace(s[i])
  {
    if s != [] && IsSpace(s[0]) then TrimStart(s[1..]) else s
  }

  function TrimEnd(s: string): (r: string)
    ensures |r| <= |s| && r == s[..|r|]
    ensures r != [] ==> !IsSpace(r[|r| - 1])
    ensures forall i :: |r| <= i < |s| ==> IsSpace(s[i])
  {
    if s != [] && IsSpace(s[|s| - 1]) then TrimEnd(s[..|s| - 1]) else s
  }

  function Trim(s: string): (r: string)
    ensures |r| <= |s|
    ensures r != [] ==> !IsSpace(r[0]) && !IsSpace(r[|r| - 1])
    ensures forall c :: c in r ==> c in s
  {
    var t := TrimStart(s);
    assert TrimEnd(t) != [] ==> TrimEnd(t)[0] == t[0];
    TrimEnd(t)
  }

  ghost predicate Blank(s: string) {
    forall c :: c in s ==> IsSpace(c)
  }

  lemma TrimBlank(s: string)
    ensures Trim(s) == [] <==> Blank(s)
  {
    var t := TrimStart(s);
    if t == [] {
      assert forall i :: 0 <= i < |s| ==> IsSpace(s[i]);
    } else {
      assert t[0] in s;
    }
  }

  lemma TrimTidy(s: string)
    requires s != [] ==> !IsSpace(s[0]) && !IsSpace(s[|s| - 1])
    ensures Trim(s) == s
  {
  }

  lemma TrimTwice(s: string)
    ensures Trim(Trim(s)) == Trim(s)
  {
    TrimTidy(Trim(s));
  }

  predicate IsDigit(c: char) {
    '0' <= c <= '9'
  }

  predicate AllDigits(s: string) {
    forall i :: 0 <= i < |s| ==> IsDigit(s[i])
  }

  function DigitValue(c: char): (v: int)
    requires IsDigit(c)
    ensures 0 <= v <= 9
  {
    c as int - '0' as int
  }

  function Digit(v: int): (c: char)
    requires 0 <= v <= 9
    ensures IsDigit(c) && DigitValue(c) == v
  {
    (v + '0' as int) as char
  }

  /** `padStart(2, '0')` of a number below one hundred. */
  function TwoDigits(n: int): (s: string)
    requires 0 <= n < 100
    ensures |s| == 2 && AllDigits(s)
  {
    [Digit(n / 10), Digit(n % 10)]
  }

  /** `padStart(4, '0')` of a number below ten thousand. */
  function FourDigits(n: int): (s: string)
    requires 0 <= n < 10000
    ensures |s| == 4 && AllDigits(s)
  {
    TwoDigits(n / 100) + TwoDigits(n % 100)
  }

  function Number(s: string): (n: nat)
    requires AllDigits(s)
  {
    if s == [] then 0 else 10 * Number(s[..|s| - 1]) + DigitValue(s[|s| - 1])
  }

  lemma NumberOfTwo(s: string)
    requires |s| == 2 && AllDigits(s)
    ensures Number(s) == 10 * DigitValue(s[0]) + DigitValue(s[1])
  {
    assert s[..1][..0] == [];
    assert Number(s[..1]) == 10 * Number(s[..1][..0]) + DigitValue(s[..1][0]);
  }

  lemma TwoDigitsRead(n: int)
    requires 0 <= n < 100
    ensures Number(TwoDigits(n)) == n
  {
    NumberOfTwo(TwoDigits(n));
  }

  lemma {:induction false} NumberOfConcat(a: string, s: string)
    requires AllDigits(a) && |s| == 2 && AllDigits(s)
    ensures AllDigits(a + s) && Number(a + s) == 100 * Number(a) + Number(s)
  {
    NumberOfTwo(s);
    assert (a + s)[..|a| + 1] == a + s[..1];
    assert (a + s[..1])[..|a|] == a;
  }

  lemma FourDigitsRead(n: int)
    requires 0 <= n < 10000
    ensures Number(FourDigits(n)) == n
  {
    TwoDigitsRead(n / 100);
    TwoDigitsRead(n % 100);
    NumberOfConcat(TwoDigits(n / 100), TwoDigits(n % 100));
  }

  /** `length`: UTF-16 code units, two for a character beyond the basic plane. */
  function Units(s: string): (n: nat)
    ensures |s| <= n <= 2 * |s|
  {
    if s == [] then 0 else Units(s[..|s| - 1]) + if s[|s| - 1] as int < 0x10000 then 1 else 2
  }

  function UpperLetter(c: char): char {
    if 'a' <= c <= 'z' then (c as int - 32) as char else c
  }

  /** toUpperCase of a currency code. */
  function UpperCode(s: string): (r: string)
    ensures |r| == |s|
  {
    if s == [] then [] else UpperCode(s[..|s| - 1]) + [UpperLetter(s[|s| - 1])]
  }

  lemma {:induction false} UpperTwice(s: string)
    ensures UpperCode(UpperCode(s)) == UpperCode(s)
  {
    if s != [] {
      UpperTwice(s[..|s| - 1]);
    }
  }

  function LowerLetter(c: char): char {
    if 'A' <= c <= 'Z' then (c as int + 32) as char else c
  }

  /** toLowerCase; only the letters A to Z have a lower case here. */
  function Lower(s: string): (r: string)
    ensures |r| == |s|
  {
    if s == [] then [] else Lower(s[..|s| - 1]) + [LowerLetter(s[|s| - 1])]
  }

  lemma {:induction false} LowerKeeps(s: string)
    requires forall i :: 0 <= i < |s| ==> !('A' <= s[i] <= 'Z')
    ensures Lower(s) == s
  {
    if s != [] {
      LowerKeeps(s[..|s| - 1]);
    }
  }

  // ----- replace(/\s+/g, ' ').trim()

  function Collapse(s: string): (r: string)
    ensures |r| <= |s|
    decreases |s|
  {
    if s == [] then []
    else if IsSpace(s[0]) then [' '] + Collapse(TrimStart(s))
    else [s[0]] + Collapse(s[1..])
  }

  function Tidy(s: string): (r: string)
    ensures |r| <= |s|
  {
    Trim(Collapse(s))
  }

  /** White space only as single spaces. */
  predicate SingleSpaced(s: string) {
    && (forall i :: 0 <= i < |s| && IsSpace(s[i]) ==> s[i] == ' ')
    && (forall i :: 0 < i < |s| ==> !(IsSpace(s[i - 1]) && IsSpace(s[i])))
  }

  predicate IsTidy(s: string) {
    SingleSpaced(s) && (s != [] ==> !IsSpace(s[0]) && !IsSpace(s[|s| - 1]))
  }

  lemma {:induction false} CollapseSingle(s: string)
    ensures SingleSpaced(Collapse(s))
    ensures s != [] && !IsSpace(s[0]) ==> Collapse(s) != [] && Collapse(s)[0] == s[0]
    decreases |s|
  {
    hide IsSpace;
    if s != [] {
      if IsSpace(s[0]) {
        assert IsSpace(' ') by { SpaceIsSpace(); }
        var t := TrimStart(s);
        CollapseSingle(t);
        if t == [] {
          assert Collapse(t) == [];
        }
      } else {
        CollapseSingle(s[1..]);
      }
    }
  }

  lemma SpaceIsSpace()
    ensures IsSpace(' ')
  {
  }

  lemma TrimIsSlice(s: string) returns (i: nat, j: nat)
    ensures i <= j <= |s| && Trim(s) == s[i..j]
  {
    hide IsSpace, TrimStart, TrimEnd;
    var t := TrimStart(s);
    i := |s| - |t|;
    j := i + |Trim(s)|;
    assert t == s[i..];
    assert Trim(s) == t[..|Trim(s)|];
    assert s[i..][..j - i] == s[i..j];
  }

  lemma SliceSingle(s: string, i: nat, j: nat)
    requires SingleSpaced(s) && i <= j <= |s|
    ensures SingleSpaced(s[i..j])
  {
    hide IsSpace;
    forall k | 0 < k < j - i
      ensures !(IsSpace(s[i..j][k - 1]) && IsSpace(s[i..j][k]))
    {
      assert s[i..j][k - 1] == s[i + k - 1] && s[i..j][k] == s[i + k];
    }
  }

  /** What comes out is tidy, */
  lemma TidyIsTidy(s: string)
    ensures IsTidy(Tidy(s))
  {
    hide IsSpace, Collapse, SingleSpaced;
    CollapseSingle(s);
    var i, j := TrimIsSlice(Collapse(s));
    SliceSingle(Collapse(s), i, j);
  }

  lemma {:induction false} CollapseTidy(s: string)
    requires SingleSpaced(s)
    ensures Collapse(s) == s
    decreases |s|
  {
    hide IsSpace, TrimStart;
    if s != [] {
      assert s == [s[0]] + s[1..];
      SliceSingle(s, 1, |s|);
      assert s[1..|s|] == s[1..];
      CollapseTidy(s[1..]);
      if IsSpace(s[0]) {
        OneSpace(s);
      }
    }
  }

  lemma OneSpace(s: string)
    requires s != [] && IsSpace(s[0]) && (|s| > 1 ==> !IsSpace(s[1]))
    ensures TrimStart(s) == s[1..]
  {
    hide IsSpace;
    assert TrimStart(s) == TrimStart(s[1..]);
  }

  /** and what is tidy stays as it is: cleaning twice is cleaning once. */
  lemma TidyKeeps(s: string)
    requires IsTidy(s)
    ensures Tidy(s) == s
  {
    CollapseTidy(s);
    TrimTidy(s);
  }
}
