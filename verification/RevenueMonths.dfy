/** The months a revenue report shows, and how far back it must read
    (shared/simpleBillingAdmin.ts). Days are numbered; a calendar numbers months. */
module RevenueMonths {

  /** The month each day belongs to: the Jalali or the Gregorian calendar, numbered without gaps. */
  type Calendar = int -> int

  /** Months follow one another, and none has more than 31 days. */
  ghost predicate RealCalendar(c: Calendar) {
    (forall d :: c(d) <= c(d + 1) <= c(d) + 1) && (forall d :: c(d) < c(d + 31))
  }

  function RevenueWindowDays(months: nat): nat {
    (months + 1) * 31
  }

  lemma {:induction false} MonthsBack(c: Calendar, day: int, n: nat)
    requires RealCalendar(c)
    ensures c(day - 31 * n) <= c(day) - n
  {
    if n > 0 {
      MonthsBack(c, day, n - 1);
      var d := day - 31 * n;
      assert c(d) < c(d + 31);
      assert d + 31 == day - 31 * (n - 1);
    }
  }

  lemma {:induction false} MonthsAscend(c: Calendar, a: int, b: int)
    requires RealCalendar(c) && a <= b
    ensures c(a) <= c(b)
    decreases b - a
  {
    if a < b {
      assert c(b - 1) <= c(b - 1 + 1);
      MonthsAscend(c, a, b - 1);
    }
  }

  /** Exactly `months` consecutive months, oldest first, the last one today's. */
  method MonthKeysEnding(today: int, months: nat, c: Calendar) returns (keys: seq<int>)
    requires RealCalendar(c)
    ensures |keys| == months
    ensures forall k :: 0 <= k < months ==> keys[k] == c(today) - (months - 1 - k)
  {
    var back: seq<int> := [];
    var i := 0;
    ghost var last := today;
    while i <= RevenueWindowDays(months) && |back| < months
      invariant 0 <= i <= RevenueWindowDays(months) + 1 && |back| <= months
      invariant forall k :: 0 <= k < |back| ==> back[k] == c(today) - k
      invariant i == 0 <==> back == []
      invariant i > 0 ==> last == today - i + 1 && (|back| == c(today) - c(last) + 1 || |back| == months)
      decreases RevenueWindowDays(months) + 1 - i
    {
      var key := c(today - i);
      assert i == 0 ==> today - i == today;
      assert i > 0 ==> last == (today - i) + 1;
      assert c(today - i) <= c((today - i) + 1) <= c(today - i) + 1;
      last := today - i;
      if |back| == 0 || back[|back| - 1] != key {
        back := back + [key];
      }
      i := i + 1;
    }
    MonthsBack(c, today, months + 1);
    assert i > RevenueWindowDays(months) ==> last == today - 31 * (months + 1);
    assert |back| == months;
    keys := seq(months, k requires 0 <= k < months => back[months - 1 - k]);
  }

  /** Every day up to today of a month the report shows lies inside the window it reads, whatever the calendar;
      in fact the last `months * 31` days hold them all. */
  lemma WindowHoldsEveryMonth(c: Calendar, today: int, months: nat, keys: seq<int>, day: int)
    requires RealCalendar(c) && |keys| == months
    requires forall k :: 0 <= k < months ==> keys[k] == c(today) - (months - 1 - k)
    requires day <= today && c(day) in keys
    ensures today - day < months * 31 && RevenueWindowDays(months) == months * 31 + 31
  {
    if today - day >= months * 31 {
      MonthsBack(c, today, months);
      MonthsAscend(c, day, today - 31 * months);
      assert false;
    }
  }
}
