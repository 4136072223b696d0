/** Message reactions: a reader's summary of the stored rows, and the optimistic
    toggle that must agree with it (shared/messageReactions.ts). */
module Reactions {
  import opened Options
  import Sorting

  /** JavaScript strings as their UTF-16 code units, which `<` compares. */
  type Emoji = seq<int>

  const HEART: Emoji := [0x2764, 0xFE0F]
  const THUMBS_UP: Emoji := [0xD83D, 0xDC4D]
  const JOY: Emoji := [0xD83D, 0xDE02]
  const WOW: Emoji := [0xD83D, 0xDE2E]
  const SAD: Emoji := [0xD83D, 0xDE22]
  const THANKS: Emoji := [0xD83D, 0xDE4F]

  /** A stored row; one without a message id or an emoji string is malformed. */
  datatype Row = Malformed | Row(message: string, emoji: Emoji, actorType: string, actorId: Option<string>)

  datatype Viewer = Visitor | Operator(userId: string)

  datatype Summary = Summary(emoji: Emoji, count: int, visitor: bool, mine: bool)

  // ----- display order

  function EmojiRank(e: Emoji): int {
    if e == HEART then 0 else if e == THUMBS_UP then 1 else if e == JOY then 2
    else if e == WOW then 3 else if e == SAD then 4 else if e == THANKS then 5 else 6
  }

  predicate UnitsLe(a: Emoji, b: Emoji) {
    if a == [] then true
    else if b == [] then false
    else a[0] < b[0] || (a[0] == b[0] && UnitsLe(a[1..], b[1..]))
  }

  predicate Precedes(a: Emoji, b: Emoji) {
    EmojiRank(a) < EmojiRank(b) || (EmojiRank(a) == EmojiRank(b) && UnitsLe(a, b))
  }

  lemma {:induction false} UnitsTotal(a: Emoji, b: Emoji)
    ensures UnitsLe(a, b) || UnitsLe(b, a)
    ensures UnitsLe(a, b) && UnitsLe(b, a) ==> a == b
  {
    if a != [] && b != [] {
      UnitsTotal(a[1..], b[1..]);
      assert a == [a[0]] + a[1..] && b == [b[0]] + b[1..];
    }
  }

  lemma {:induction false} UnitsTransitive(a: Emoji, b: Emoji, c: Emoji)
    requires UnitsLe(a, b) && UnitsLe(b, c)
    ensures UnitsLe(a, c)
  {
    if a != [] && b != [] && c != [] && a[0] == b[0] == c[0] {
      UnitsTransitive(a[1..], b[1..], c[1..]);
    }
  }

  /** The display order is total, and only an emoji itself ties with it. */
  lemma PrecedesTotal(a: Emoji, b: Emoji)
    ensures Precedes(a, b) || Precedes(b, a)
    ensures Precedes(a, b) && Precedes(b, a) ==> a == b
  {
    hide EmojiRank;
    UnitsTotal(a, b);
  }

  lemma PrecedesTransitive(a: Emoji, b: Emoji, c: Emoji)
    requires Precedes(a, b) && Precedes(b, c)
    ensures Precedes(a, c)
  {
    hide EmojiRank;
    if EmojiRank(a) == EmojiRank(b) == EmojiRank(c) {
      UnitsTransitive(a, b, c);
    }
  }

  function DisplayOrder(): (Summary, Summary) -> bool {
    (a: Summary, b: Summary) => Precedes(a.emoji, b.emoji)
  }

  lemma DisplayOrderIsOrder()
    ensures Sorting.IsOrder(DisplayOrder())
  {
    hide Precedes;
    var le := DisplayOrder();
    forall a: Summary, b: Summary
      ensures le(a, b) || le(b, a)
    {
      PrecedesTotal(a.emoji, b.emoji);
    }
    forall a: Summary, b: Summary, c: Summary | le(a, b) && le(b, c)
      ensures le(a, c)
    {
      PrecedesTransitive(a.emoji, b.emoji, c.emoji);
    }
  }

  function Ordered(list: seq<Summary>): seq<Summary> {
    Sorting.Sort(DisplayOrder(), list)
  }

  /** The allow-list's emojis in its order, then all others by their code units. */
  ghost predicate Earlier(a: Emoji, b: Emoji) {
    var list := [[0x2764, 0xFE0F], [0xD83D, 0xDC4D], [0xD83D, 0xDE02], [0xD83D, 0xDE2E], [0xD83D, 0xDE22],
        [0xD83D, 0xDE4F]];
    if a in list then b !in list || exists i, j :: 0 <= i < j < |list| && list[i] == a && list[j] == b
    else b !in list && (a < b || exists k :: 0 <= k < |a| && k < |b| && a[..k] == b[..k] && a[k] < b[k])
  }

  lemma {:induction false} UnitsDiffer(a: Emoji, b: Emoji)
    requires UnitsLe(a, b) && a != b
    ensures a < b || exists k :: 0 <= k < |a| && k < |b| && a[..k] == b[..k] && a[k] < b[k]
  {
    if a == [] {
      assert a < b;
    } else if a[0] == b[0] {
      assert a == [a[0]] + a[1..] && b == [b[0]] + b[1..];
      UnitsDiffer(a[1..], b[1..]);
      if !(a[1..] < b[1..]) {
        var k :| 0 <= k < |a[1..]| && k < |b[1..]| && a[1..][..k] == b[1..][..k] && a[1..][k] < b[1..][k];
        assert a[..k + 1] == [a[0]] + a[1..][..k] && b[..k + 1] == [b[0]] + b[1..][..k];
      }
    } else {
      assert a[..0] == b[..0];
    }
  }

  lemma RankIsPlace(e: Emoji)
    ensures var list := [HEART, THUMBS_UP, JOY, WOW, SAD, THANKS];
      if EmojiRank(e) < 6 then EmojiRank(e) >= 0 && list[EmojiRank(e)] == e else EmojiRank(e) == 6 && e !in list
  {
  }

  lemma PrecedesEarlier(a: Emoji, b: Emoji)
    requires Precedes(a, b) && a != b
    ensures Earlier(a, b)
  {
    hide EmojiRank;
    RankIsPlace(a);
    RankIsPlace(b);
    var list := [HEART, THUMBS_UP, JOY, WOW, SAD, THANKS];
    if EmojiRank(a) < 6 {
      assert list[EmojiRank(a)] == a;
    } else {
      UnitsDiffer(a, b);
    }
  }

  // ----- what a summary says about the rows

  predicate On(r: Row, message: string, e: Emoji) {
    r.Row? && r.message == message && r.emoji == e && e != []
  }

  /** The reader gave it: the visitor reading as the visitor, an operator as themselves. */
  predicate Mine(r: Row, viewer: Viewer) {
    r.Row? && match viewer
              case Visitor => r.actorType == "visitor"
              case Operator(userId) => r.actorType == "operator" && r.actorId == Some(userId)
  }

  function EntryOf(rows: seq<Row>, message: string, e: Emoji, viewer: Viewer): Summary {
    if rows == [] then Summary(e, 0, false, false)
    else
      var s := EntryOf(rows[..|rows| - 1], message, e, viewer);
      var r := rows[|rows| - 1];
      if On(r, message, e) then
        Summary(e, s.count + 1, s.visitor || r.actorType == "visitor", s.mine || Mine(r, viewer))
      else s
  }

  /** In order and without repeats. */
  ghost predicate Displayed(list: seq<Summary>) {
    forall i, j :: 0 <= i < j < |list| ==>
      Precedes(list[i].emoji, list[j].emoji) && list[i].emoji != list[j].emoji
  }

  ghost predicate Lists(list: seq<Summary>, e: Emoji) {
    exists i :: 0 <= i < |list| && list[i].emoji == e
  }

  /** Each emoji somebody gave the message is listed, as the rows have it for this reader; no other is. */
  ghost predicate Accounts(list: seq<Summary>, rows: seq<Row>, message: string, viewer: Viewer) {
    && (forall i :: 0 <= i < |list| ==> list[i] == EntryOf(rows, message, list[i].emoji, viewer) && list[i].count > 0)
    && (forall e :: EntryOf(rows, message, e, viewer).count > 0 ==> Lists(list, e))
  }

  /** `list` is the summary of one message's rows for one reader. */
  ghost predicate IsSummary(list: seq<Summary>, rows: seq<Row>, message: string, viewer: Viewer) {
    Displayed(list) && Accounts(list, rows, message, viewer)
  }

  lemma {:induction false} EntryFacts(rows: seq<Row>, message: string, e: Emoji, viewer: Viewer)
    ensures var s := EntryOf(rows, message, e, viewer);
      && s.emoji == e && s.count >= 0
      && (s.count == 0 <==> forall r :: r in rows ==> !On(r, message, e))
      && (s.mine <==> exists r :: r in rows && On(r, message, e) && Mine(r, viewer))
      && (s.visitor <==> exists r :: r in rows && On(r, message, e) && r.actorType == "visitor")
  {
    if rows != [] {
      EntryFacts(rows[..|rows| - 1], message, e, viewer);
      assert rows == rows[..|rows| - 1] + [rows[|rows| - 1]];
    }
  }

  /** The rows that give the message this emoji. */
  function Given(rows: seq<Row>, message: string, e: Emoji): set<int> {
    set i | 0 <= i < |rows| && rows[i].Row? && rows[i].message == message && rows[i].emoji == e
  }

  lemma {:induction false} EntryCounts(rows: seq<Row>, message: string, e: Emoji, viewer: Viewer)
    requires e != []
    ensures EntryOf(rows, message, e, viewer).count == |Given(rows, message, e)|
  {
    if rows != [] {
      var n := |rows| - 1;
      EntryCounts(rows[..n], message, e, viewer);
      assert Given(rows, message, e) == Given(rows[..n], message, e) + if On(rows[n], message, e) then {n} else {};
    }
  }

  /** What an entry tells the reader, in the rows' own fields: how many gave it, whether the visitor did, and whether
      the reader did, an operator by their own id. */
  ghost predicate Tells(s: Summary, rows: seq<Row>, message: string, viewer: Viewer) {
    && s.emoji != [] && s.count == |Given(rows, message, s.emoji)|
    && (s.visitor <==> exists i :: i in Given(rows, message, s.emoji) && rows[i].actorType == "visitor")
    && (viewer.Visitor? ==>
          (s.mine <==> exists i :: i in Given(rows, message, s.emoji) && rows[i].actorType == "visitor"))
    && (viewer.Operator? ==>
          (s.mine <==> exists i :: i in Given(rows, message, s.emoji)
                                && rows[i].actorType == "operator" && rows[i].actorId == Some(viewer.userId)))
  }

  lemma EntryTells(rows: seq<Row>, message: string, e: Emoji, viewer: Viewer)
    requires EntryOf(rows, message, e, viewer).count > 0
    ensures Tells(EntryOf(rows, message, e, viewer), rows, message, viewer)
  {
    hide EntryOf;
    EntryFacts(rows, message, e, viewer);
    assert e != [];
    EntryCounts(rows, message, e, viewer);
    var s, given := EntryOf(rows, message, e, viewer), Given(rows, message, e);
    forall i | i in given
      ensures rows[i] in rows && On(rows[i], message, e)
    {
    }
    forall r | r in rows && On(r, message, e)
      ensures exists i :: i in given && rows[i] == r
    {
      var i :| 0 <= i < |rows| && rows[i] == r;
      assert i in given;
    }
  }

  /** Another operator's reaction never makes an entry the reader's own, nor takes one away. */
  lemma AnotherOperator(rows: seq<Row>, message: string, e: Emoji, userId: string, other: string, f: Emoji)
    requires other != userId
    ensures var given := Row(message, e, "operator", Some(other));
      EntryOf(rows + [given], message, f, Operator(userId)).mine == EntryOf(rows, message, f, Operator(userId)).mine
  {
    EntryStep(rows, Row(message, e, "operator", Some(other)), message, f, Operator(userId));
  }

  // ----- one summary only

  lemma {:induction false} SummaryUnique(a: seq<Summary>, b: seq<Summary>, rows: seq<Row>, message: string,
                                         viewer: Viewer)
    requires IsSummary(a, rows, message, viewer) && IsSummary(b, rows, message, viewer)
    ensures a == b
  {
    hide EntryOf, Precedes;
    SameEmojis(a, b, rows, message, viewer);
    SameEmojis(b, a, rows, message, viewer);
    SameDisplay(a, b);
    forall i | 0 <= i < |a|
      ensures a[i] == b[i]
    {
      assert a[i] == EntryOf(rows, message, a[i].emoji, viewer);
    }
  }

  lemma SameEmojis(a: seq<Summary>, b: seq<Summary>, rows: seq<Row>, message: string, viewer: Viewer)
    requires IsSummary(a, rows, message, viewer) && IsSummary(b, rows, message, viewer)
    ensures forall e :: Lists(a, e) ==> Lists(b, e)
  {
    hide EntryOf, Precedes;
    forall e | Lists(a, e)
      ensures Lists(b, e)
    {
      var i :| 0 <= i < |a| && a[i].emoji == e;
      assert EntryOf(rows, message, e, viewer).count > 0;
    }
  }

  lemma ListsFirst(a: seq<Summary>)
    requires a != []
    ensures Lists(a, a[0].emoji)
  {
  }

  lemma {:induction false} SameDisplay(a: seq<Summary>, b: seq<Summary>)
    requires Displayed(a) && Displayed(b)
    requires forall e :: Lists(a, e) <==> Lists(b, e)
    ensures |a| == |b| && forall i :: 0 <= i < |a| ==> a[i].emoji == b[i].emoji
  {
    hide Precedes;
    if a == [] {
      if b != [] {
        ListsFirst(b);
        assert false;
      }
    } else {
      assert Lists(a, a[0].emoji);
      SameFirst(a, b);
      forall e
        ensures Lists(a[1..], e) <==> Lists(b[1..], e)
      {
        TailLists(a, e);
        TailLists(b, e);
      }
      SameDisplay(a[1..], b[1..]);
      assert forall i :: 0 < i < |a| ==> a[i] == a[1..][i - 1] && b[i] == b[1..][i - 1];
    }
  }

  lemma SameFirst(a: seq<Summary>, b: seq<Summary>)
    requires Displayed(a) && Displayed(b) && a != [] && b != []
    requires Lists(a, b[0].emoji) && Lists(b, a[0].emoji)
    ensures a[0].emoji == b[0].emoji
  {
    hide Precedes;
    PrecedesTotal(a[0].emoji, b[0].emoji);
  }

  lemma TailLists(a: seq<Summary>, e: Emoji)
    requires Displayed(a) && a != []
    ensures Lists(a[1..], e) <==> Lists(a, e) && e != a[0].emoji
  {
    hide Precedes;
    if Lists(a[1..], e) {
      var i :| 0 <= i < |a[1..]| && a[1..][i].emoji == e;
      assert a[i + 1].emoji == e;
    }
    if Lists(a, e) && e != a[0].emoji {
      var i :| 0 <= i < |a| && a[i].emoji == e;
      assert a[1..][i - 1].emoji == e;
    }
  }

  // ----- summarizeReactions

  ghost predicate NoRepeats(list: seq<Summary>) {
    forall i, j :: 0 <= i < j < |list| ==> list[i].emoji != list[j].emoji
  }

  lemma OrderedSummary(kinds: seq<Summary>, rows: seq<Row>, message: string, viewer: Viewer)
    requires NoRepeats(kinds) && Accounts(kinds, rows, message, viewer)
    ensures IsSummary(Ordered(kinds), rows, message, viewer)
  {
    hide EntryOf, Precedes;
    var list := Ordered(kinds);
    DisplayOrderIsOrder();
    Sorting.SortSorts(DisplayOrder(), kinds);
    Sorting.SortKeepsMembers(DisplayOrder(), kinds);
    Sorting.SortKeepsDistinct(DisplayOrder(), kinds);
    forall i | 0 <= i < |list|
      ensures list[i] == EntryOf(rows, message, list[i].emoji, viewer) && list[i].count > 0
    {
      assert list[i] in kinds;
    }
    forall i, j | 0 <= i < j < |list|
      ensures Precedes(list[i].emoji, list[j].emoji) && list[i].emoji != list[j].emoji
    {
      assert DisplayOrder()(list[i], list[j]);
      assert list[i] != list[j];
    }
    forall e | EntryOf(rows, message, e, viewer).count > 0
      ensures Lists(list, e)
    {
      assert Lists(kinds, e);
      var i :| 0 <= i < |kinds| && kinds[i].emoji == e;
      assert kinds[i] in list;
    }
  }

  function Bump(s: Summary, r: Row, viewer: Viewer): Summary
    requires r.Row?
  {
    Summary(s.emoji, s.count + 1, s.visitor || r.actorType == "visitor", s.mine || Mine(r, viewer))
  }

  /** Where the list has this emoji; its length when it does not (`find`, `Map.get`). */
  function Find(list: seq<Summary>, e: Emoji): (i: nat)
    ensures i <= |list|
    ensures i < |list| ==> list[i].emoji == e
    ensures forall j :: 0 <= j < i ==> list[j].emoji != e
  {
    if list == [] then 0 else if list[0].emoji == e then 0 else 1 + Find(list[1..], e)
  }

  /** The message's kinds after one more of its rows. */
  function Counted(kinds: seq<Summary>, r: Row, viewer: Viewer): seq<Summary>
    requires r.Row?
  {
    var i := Find(kinds, r.emoji);
    if i < |kinds| then kinds[i := Bump(kinds[i], r, viewer)]
    else kinds + [Bump(Summary(r.emoji, 0, false, false), r, viewer)]
  }

  lemma EntryStep(rows: seq<Row>, r: Row, message: string, e: Emoji, viewer: Viewer)
    ensures EntryOf(rows + [r], message, e, viewer) ==
      if On(r, message, e) then Bump(EntryOf(rows, message, e, viewer), r, viewer)
      else EntryOf(rows, message, e, viewer)
  {
    assert (rows + [r])[..|rows|] == rows;
    EntryFacts(rows, message, e, viewer);
  }

  lemma NotListed(kinds: seq<Summary>, rows: seq<Row>, message: string, e: Emoji, viewer: Viewer)
    requires Accounts(kinds, rows, message, viewer) && Find(kinds, e) == |kinds|
    ensures EntryOf(rows, message, e, viewer) == Summary(e, 0, false, false)
  {
    EntryFacts(rows, message, e, viewer);
    assert !Lists(kinds, e);
    assert forall r :: r in rows ==> !On(r, message, e);
  }

  lemma CountedAccounts(kinds: seq<Summary>, rows: seq<Row>, r: Row, message: string, viewer: Viewer)
    requires NoRepeats(kinds) && Accounts(kinds, rows, message, viewer)
    requires r.Row? && r.message == message && r.emoji != []
    ensures NoRepeats(Counted(kinds, r, viewer)) && Accounts(Counted(kinds, r, viewer), rows + [r], message, viewer)
  {
    hide EntryOf, Precedes;
    var kinds' := Counted(kinds, r, viewer);
    var i := Find(kinds, r.emoji);
    if i == |kinds| {
      NotListed(kinds, rows, message, r.emoji, viewer);
    }
    forall j | 0 <= j < |kinds'|
      ensures kinds'[j] == EntryOf(rows + [r], message, kinds'[j].emoji, viewer) && kinds'[j].count > 0
    {
      EntryStep(rows, r, message, kinds'[j].emoji, viewer);
      if j < |kinds| && j != i {
        assert kinds'[j] == kinds[j];
      }
    }
    forall e | EntryOf(rows + [r], message, e, viewer).count > 0
      ensures Lists(kinds', e)
    {
      EntryStep(rows, r, message, e, viewer);
      if e == r.emoji {
        assert kinds'[i].emoji == e;
      } else {
        assert Lists(kinds, e);
        var j :| 0 <= j < |kinds| && kinds[j].emoji == e;
        assert kinds'[j].emoji == e;
      }
    }
  }

  lemma OtherAccounts(kinds: seq<Summary>, rows: seq<Row>, r: Row, message: string, viewer: Viewer)
    requires Accounts(kinds, rows, message, viewer)
    requires !r.Row? || r.message != message || r.emoji == []
    ensures Accounts(kinds, rows + [r], message, viewer)
  {
    hide EntryOf;
    forall e
      ensures EntryOf(rows + [r], message, e, viewer) == EntryOf(rows, message, e, viewer)
    {
      EntryStep(rows, r, message, e, viewer);
    }
  }

  predicate HasRow(rows: seq<Row>, message: string) {
    exists i :: 0 <= i < |rows| && rows[i].Row? && rows[i].message == message && rows[i].emoji != []
  }

  lemma NoRowNoEntry(rows: seq<Row>, message: string, viewer: Viewer)
    requires !HasRow(rows, message)
    ensures IsSummary([], rows, message, viewer)
  {
    forall e
      ensures EntryOf(rows, message, e, viewer).count == 0
    {
      EntryFacts(rows, message, e, viewer);
    }
  }

  /** The maps of the loop: per message its kinds, in the order they were first seen. */
  ghost predicate Tallied(byMessage: map<string, seq<Summary>>, rows: seq<Row>, viewer: Viewer) {
    forall m ::
      && (m in byMessage <==> HasRow(rows, m))
      && (m in byMessage ==> NoRepeats(byMessage[m]) && Accounts(byMessage[m], rows, m, viewer))
  }

  lemma TallyStep(byMessage: map<string, seq<Summary>>, rows: seq<Row>, r: Row, viewer: Viewer)
    requires Tallied(byMessage, rows, viewer)
    ensures var next := rows + [r];
      if !r.Row? || r.emoji == [] then Tallied(byMessage, next, viewer)
      else
        var kinds := if r.message in byMessage then byMessage[r.message] else [];
        Tallied(byMessage[r.message := Counted(kinds, r, viewer)], next, viewer)
  {
    hide Accounts, NoRepeats, Counted;
    var next := rows + [r];
    var counts := r.Row? && r.emoji != [];
    forall m
      ensures HasRow(next, m) <==> HasRow(rows, m) || (counts && r.message == m)
    {
      HasRowStep(rows, r, m);
    }
    forall m | m in byMessage && !(counts && r.message == m)
      ensures Accounts(byMessage[m], next, m, viewer)
    {
      OtherAccounts(byMessage[m], rows, r, m, viewer);
    }
    if counts {
      var kinds := if r.message in byMessage then byMessage[r.message] else [];
      if r.message !in byMessage {
        NoKinds(rows, r.message, viewer);
      }
      CountedAccounts(kinds, rows, r, r.message, viewer);
    }
  }

  lemma NoKinds(rows: seq<Row>, message: string, viewer: Viewer)
    requires !HasRow(rows, message)
    ensures NoRepeats([]) && Accounts([], rows, message, viewer)
  {
    NoRowNoEntry(rows, message, viewer);
  }

  lemma HasRowStep(rows: seq<Row>, r: Row, m: string)
    ensures HasRow(rows + [r], m) <==> HasRow(rows, m) || (r.Row? && r.emoji != [] && r.message == m)
  {
    var next := rows + [r];
    if HasRow(rows, m) {
      var i :| 0 <= i < |rows| && rows[i].Row? && rows[i].message == m && rows[i].emoji != [];
      assert next[i] == rows[i];
    }
    if r.Row? && r.emoji != [] && r.message == m {
      assert next[|rows|] == r;
    }
  }

  /** `list` tells the reader what the rows say of the message: each emoji given, once, in display order. */
  ghost predicate Reads(list: seq<Summary>, rows: seq<Row>, message: string, viewer: Viewer) {
    && (forall i :: 0 <= i < |list| ==> Tells(list[i], rows, message, viewer))
    && (forall i, j :: 0 <= i < j < |list| ==> Earlier(list[i].emoji, list[j].emoji))
    && (forall r :: r in rows && r.Row? && r.message == message && r.emoji != [] ==> Lists(list, r.emoji))
  }

  lemma SummaryReads(list: seq<Summary>, rows: seq<Row>, message: string, viewer: Viewer)
    requires IsSummary(list, rows, message, viewer)
    ensures Reads(list, rows, message, viewer)
  {
    hide EntryOf, Precedes, Earlier, Tells, Lists;
    forall i | 0 <= i < |list|
      ensures Tells(list[i], rows, message, viewer)
    {
      assert list[i] == EntryOf(rows, message, list[i].emoji, viewer);
      EntryTells(rows, message, list[i].emoji, viewer);
    }
    forall i, j | 0 <= i < j < |list|
      ensures Earlier(list[i].emoji, list[j].emoji)
    {
      PrecedesEarlier(list[i].emoji, list[j].emoji);
    }
    forall r | r in rows && r.Row? && r.message == message && r.emoji != []
      ensures Lists(list, r.emoji)
    {
      EntryFacts(rows, message, r.emoji, viewer);
      assert On(r, message, r.emoji);
    }
  }

  lemma SummariesRead(out: map<string, seq<Summary>>, rows: seq<Row>, viewer: Viewer)
    requires forall m :: m in out ==> IsSummary(out[m], rows, m, viewer)
    ensures forall m :: m in out ==> Reads(out[m], rows, m, viewer)
  {
    hide IsSummary, Reads;
    forall m | m in out
      ensures Reads(out[m], rows, m, viewer)
    {
      SummaryReads(out[m], rows, m, viewer);
    }
  }

  /** A message is in the answer exactly when it has a row, with its summary for this reader. */
  method SummarizeReactions(rows: seq<Row>, viewer: Viewer) returns (out: map<string, seq<Summary>>)
    ensures forall m :: m in out <==> HasRow(rows, m)
    ensures forall m :: m in out ==> IsSummary(out[m], rows, m, viewer)
    ensures forall m :: m in out ==> Reads(out[m], rows, m, viewer)
  {
    hide Accounts, NoRepeats, HasRow, IsSummary, Reads;
    var byMessage: map<string, seq<Summary>> := map[];
    EmptyTally(viewer);
    for i := 0 to |rows|
      invariant Tallied(byMessage, rows[..i], viewer)
    {
      var row := rows[i];
      assert rows[..i + 1] == rows[..i] + [row];
      TallyStep(byMessage, rows[..i], row, viewer);
      if !row.Row? || row.emoji == [] {
        continue;
      }
      var kinds := if row.message in byMessage then byMessage[row.message] else [];
      ghost var counted := Counted(kinds, row, viewer);
      var at := Find(kinds, row.emoji);
      if at == |kinds| {
        kinds := kinds + [Summary(row.emoji, 0, false, false)];
      }
      var entry := kinds[at];
      entry := entry.(count := entry.count + 1);
      var byVisitor := row.actorType == "visitor";
      if byVisitor {
        entry := entry.(visitor := true);
      }
      if if viewer.Visitor? then byVisitor else row.actorType == "operator" && row.actorId == Some(viewer.userId) {
        entry := entry.(mine := true);
      }
      kinds := kinds[at := entry];
      assert kinds == counted;
      byMessage := byMessage[row.message := kinds];
    }
    assert rows[..|rows|] == rows;
    out := map m | m in byMessage :: Ordered(byMessage[m]);
    forall m | m in out
      ensures IsSummary(out[m], rows, m, viewer)
    {
      OrderedSummary(byMessage[m], rows, m, viewer);
    }
    SummariesRead(out, rows, viewer);
  }

  lemma EmptyTally(viewer: Viewer)
    ensures Tallied(map[], [], viewer)
  {
  }
}
