/** The optimistic toggle refines writing the row and summarising again
    (shared/messageReactions.ts, applyReactionToggle). */
module ReactionToggles {
  import opened Options
  import opened Reactions

  // ----- the toggle on a list

  function Positive(list: seq<Summary>): (r: seq<Summary>)
    ensures |r| <= |list|
  {
    if list == [] then []
    else Positive(list[..|list| - 1]) + if list[|list| - 1].count > 0 then [list[|list| - 1]] else []
  }

  function Toggled(list: seq<Summary>, e: Emoji, on: bool, byVisitor: bool): seq<Summary> {
    var i := Find(list, e);
    if on then
      if i == |list| then Ordered(list + [Summary(e, 1, byVisitor, true)])
      else if list[i].mine then list
      else list[i := Summary(e, list[i].count + 1, list[i].visitor || byVisitor, true)]
    else if i == |list| || !list[i].mine then list
    else Positive(list[i := Summary(e, list[i].count - 1, list[i].visitor && !byVisitor, false)])
  }

  /** The entry is edited in place on a copy of the list; a missing list is an empty one. */
  method ApplyReactionToggle(list: Option<seq<Summary>>, e: Emoji, on: bool, byVisitor: bool) returns (r: seq<Summary>)
    ensures r == Toggled(if list.Some? then list.value else [], e, on, byVisitor)
  {
    var current := if list.Some? then list.value else [];
    var i := Find(current, e);
    if on {
      if i < |current| && current[i].mine {
        return current;
      }
      if i < |current| {
        var entry := current[i].(count := current[i].count + 1, mine := true);
        if byVisitor {
          entry := entry.(visitor := true);
        }
        return current[i := entry];
      }
      return Ordered(current + [Summary(e, 1, byVisitor, true)]);
    }
    if i == |current| || !current[i].mine {
      return current;
    }
    var entry := current[i].(count := current[i].count - 1, mine := false);
    if byVisitor {
      entry := entry.(visitor := false);
    }
    r := Positive(current[i := entry]);
  }

  // ----- the write the toggle stands for

  function MineCount(rows: seq<Row>, message: string, e: Emoji, viewer: Viewer): nat {
    if rows == [] then 0
    else
      var r := rows[|rows| - 1];
      MineCount(rows[..|rows| - 1], message, e, viewer) + if On(r, message, e) && Mine(r, viewer) then 1 else 0
  }

  function Unset(rows: seq<Row>, message: string, e: Emoji, viewer: Viewer): seq<Row> {
    if rows == [] then []
    else
      var r := rows[|rows| - 1];
      Unset(rows[..|rows| - 1], message, e, viewer) + if On(r, message, e) && Mine(r, viewer) then [] else [r]
  }

  /** The reader's own row; a visitor's row may carry any id. */
  function OwnRow(message: string, e: Emoji, viewer: Viewer, visitorId: Option<string>): Row {
    match viewer
    case Visitor => Row(message, e, "visitor", visitorId)
    case Operator(userId) => Row(message, e, "operator", Some(userId))
  }

  /** A write sets or unsets the reader's row, so repeating it changes nothing. */
  function Write(rows: seq<Row>, message: string, e: Emoji, on: bool, viewer: Viewer,
                 visitorId: Option<string>): seq<Row> {
    if !on then Unset(rows, message, e, viewer)
    else if MineCount(rows, message, e, viewer) > 0 then rows
    else rows + [OwnRow(message, e, viewer, visitorId)]
  }

  /** At most one row of the reader per emoji of the message: one visitor side, one row per operator. */
  ghost predicate OneEach(rows: seq<Row>, message: string, viewer: Viewer) {
    forall e :: MineCount(rows, message, e, viewer) <= 1
  }

  lemma MineStep(rows: seq<Row>, r: Row, message: string, e: Emoji, viewer: Viewer)
    ensures MineCount(rows + [r], message, e, viewer)
         == MineCount(rows, message, e, viewer) + if On(r, message, e) && Mine(r, viewer) then 1 else 0
  {
    assert (rows + [r])[..|rows|] == rows;
  }

  lemma {:induction false} MineEntry(rows: seq<Row>, message: string, e: Emoji, viewer: Viewer)
    ensures EntryOf(rows, message, e, viewer).mine <==> MineCount(rows, message, e, viewer) > 0
    ensures MineCount(rows, message, e, viewer) <= EntryOf(rows, message, e, viewer).count
  {
    if rows != [] {
      MineEntry(rows[..|rows| - 1], message, e, viewer);
    }
  }

  lemma UnsetStep(rows: seq<Row>, r: Row, message: string, e: Emoji, viewer: Viewer)
    ensures Unset(rows + [r], message, e, viewer)
         == if On(r, message, e) && Mine(r, viewer) then Unset(rows, message, e, viewer)
            else Unset(rows, message, e, viewer) + [r]
  {
    assert (rows + [r])[..|rows|] == rows;
    assert Unset(rows, message, e, viewer) + [] == Unset(rows, message, e, viewer);
  }

  lemma OnOne(r: Row, message: string, e: Emoji, f: Emoji)
    ensures On(r, message, e) && On(r, message, f) ==> e == f
    ensures On(r, message, e) ==> r.Row?
  {
  }

  lemma NoRowsUnset(message: string, e: Emoji, viewer: Viewer, f: Emoji)
    ensures Unset([], message, e, viewer) == [] && MineCount([], message, f, viewer) == 0
  {
  }

  lemma UnsetMineStep(front: seq<Row>, r: Row, message: string, e: Emoji, viewer: Viewer, f: Emoji)
    requires MineCount(Unset(front, message, e, viewer), message, f, viewer)
          == if f == e then 0 else MineCount(front, message, f, viewer)
    ensures MineCount(Unset(front + [r], message, e, viewer), message, f, viewer)
         == if f == e then 0 else MineCount(front + [r], message, f, viewer)
  {
    OnOne(r, message, e, f);
    hide On, Mine, MineCount, Unset;
    MineStep(Unset(front, message, e, viewer), r, message, f, viewer);
    MineStep(front, r, message, f, viewer);
    UnsetStep(front, r, message, e, viewer);
  }

  lemma {:induction false} UnsetMine(rows: seq<Row>, message: string, e: Emoji, viewer: Viewer, f: Emoji)
    ensures MineCount(Unset(rows, message, e, viewer), message, f, viewer)
         == if f == e then 0 else MineCount(rows, message, f, viewer)
  {
    if rows == [] {
      NoRowsUnset(message, e, viewer, f);
    } else {
      hide On, Mine, MineCount, Unset;
      var front, r := rows[..|rows| - 1], rows[|rows| - 1];
      assert rows == front + [r];
      UnsetMine(front, message, e, viewer, f);
      UnsetMineStep(front, r, message, e, viewer, f);
    }
  }

  /** What unsetting leaves of an emoji's entry. */
  ghost predicate EntryUnset(rows: seq<Row>, message: string, e: Emoji, viewer: Viewer, f: Emoji) {
    var was := EntryOf(rows, message, f, viewer);
    EntryOf(Unset(rows, message, e, viewer), message, f, viewer) ==
      if f == e then
        Summary(e, was.count - MineCount(rows, message, e, viewer), was.visitor && !viewer.Visitor?, false)
      else was
  }

  lemma NoEntryUnset(message: string, e: Emoji, viewer: Viewer, f: Emoji)
    ensures EntryUnset([], message, e, viewer, f)
  {
  }

  lemma EntryUnsetStep(front: seq<Row>, r: Row, message: string, e: Emoji, viewer: Viewer, f: Emoji)
    requires EntryUnset(front, message, e, viewer, f)
    ensures EntryUnset(front + [r], message, e, viewer, f)
  {
    hide On, EntryOf, MineCount, Unset;
    OnOne(r, message, e, f);
    EntryStep(Unset(front, message, e, viewer), r, message, f, viewer);
    EntryStep(front, r, message, f, viewer);
    MineStep(front, r, message, e, viewer);
    UnsetStep(front, r, message, e, viewer);
  }

  lemma {:induction false} UnsetEntry(rows: seq<Row>, message: string, e: Emoji, viewer: Viewer, f: Emoji)
    ensures EntryUnset(rows, message, e, viewer, f)
  {
    hide EntryUnset;
    if rows == [] {
      NoEntryUnset(message, e, viewer, f);
    } else {
      UnsetEntry(rows[..|rows| - 1], message, e, viewer, f);
      EntryUnsetStep(rows[..|rows| - 1], rows[|rows| - 1], message, e, viewer, f);
      assert rows == rows[..|rows| - 1] + [rows[|rows| - 1]];
    }
  }

  lemma WriteKeepsOneEach(rows: seq<Row>, message: string, e: Emoji, on: bool, viewer: Viewer,
                          visitorId: Option<string>)
    requires OneEach(rows, message, viewer)
    ensures OneEach(Write(rows, message, e, on, viewer, visitorId), message, viewer)
  {
    forall f
      ensures MineCount(Write(rows, message, e, on, viewer, visitorId), message, f, viewer) <= 1
    {
      if on {
        MineStep(rows, OwnRow(message, e, viewer, visitorId), message, f, viewer);
      } else {
        UnsetMine(rows, message, e, viewer, f);
      }
    }
  }

  /** What the write leaves of each emoji's entry. */
  lemma WrittenEntry(rows: seq<Row>, message: string, e: Emoji, on: bool, viewer: Viewer, visitorId: Option<string>,
                     f: Emoji)
    requires OneEach(rows, message, viewer) && e != []
    ensures var was := EntryOf(rows, message, f, viewer);
      EntryOf(Write(rows, message, e, on, viewer, visitorId), message, f, viewer) ==
        if f != e || was.mine == on then was
        else if on then Summary(e, was.count + 1, was.visitor || viewer.Visitor?, true)
        else Summary(e, was.count - 1, was.visitor && !viewer.Visitor?, false)
  {
    NamedEntry(rows, message, f, viewer);
    MineEntry(rows, message, e, viewer);
    assert MineCount(rows, message, e, viewer) <= 1;
    if on {
      OwnRowIsMine(message, e, viewer, visitorId, f);
      hide On, Mine, MineCount, EntryOf, OwnRow;
      EntryStep(rows, OwnRow(message, e, viewer, visitorId), message, f, viewer);
    } else {
      hide On, Mine, MineCount, EntryOf, Unset;
      UnsetEntry(rows, message, e, viewer, f);
      VisitorNotMine(rows, message, e, viewer);
    }
  }

  lemma NamedEntry(rows: seq<Row>, message: string, e: Emoji, viewer: Viewer)
    ensures EntryOf(rows, message, e, viewer).emoji == e
  {
    EntryFacts(rows, message, e, viewer);
  }

  lemma OwnRowIsMine(message: string, e: Emoji, viewer: Viewer, visitorId: Option<string>, f: Emoji)
    requires e != []
    ensures var own := OwnRow(message, e, viewer, visitorId);
      && own.Row? && Mine(own, viewer)
      && (On(own, message, f) <==> f == e)
      && (own.actorType == "visitor" <==> viewer.Visitor?)
  {
  }

  lemma VisitorNotMine(rows: seq<Row>, message: string, e: Emoji, viewer: Viewer)
    ensures viewer.Visitor? ==> EntryOf(rows, message, e, viewer).mine == EntryOf(rows, message, e, viewer).visitor
  {
    EntryFacts(rows, message, e, viewer);
  }

  lemma {:induction false} UnsetElsewhere(rows: seq<Row>, message: string, e: Emoji, viewer: Viewer,
                                          other: string, f: Emoji, reader: Viewer)
    requires other != message || f != e
    ensures EntryOf(Unset(rows, message, e, viewer), other, f, reader) == EntryOf(rows, other, f, reader)
  {
    hide EntryOf, Unset, Mine;
    if rows == [] {
      assert Unset(rows, message, e, viewer) == [] by { NoRowsUnset(message, e, viewer, e); }
    } else {
      var front, r := rows[..|rows| - 1], rows[|rows| - 1];
      assert rows == front + [r];
      UnsetElsewhere(front, message, e, viewer, other, f, reader);
      EntryStep(Unset(front, message, e, viewer), r, other, f, reader);
      EntryStep(front, r, other, f, reader);
      UnsetStep(front, r, message, e, viewer);
    }
  }

  lemma {:induction false} UnsetNotMine(rows: seq<Row>, message: string, e: Emoji, viewer: Viewer, reader: Viewer)
    requires reader != viewer
    ensures EntryOf(Unset(rows, message, e, viewer), message, e, reader).mine == EntryOf(rows, message, e, reader).mine
  {
    hide EntryOf, Unset;
    if rows == [] {
      assert Unset(rows, message, e, viewer) == [] by { NoRowsUnset(message, e, viewer, e); }
    } else {
      var front, r := rows[..|rows| - 1], rows[|rows| - 1];
      assert rows == front + [r];
      UnsetNotMine(front, message, e, viewer, reader);
      EntryStep(Unset(front, message, e, viewer), r, message, e, reader);
      EntryStep(front, r, message, e, reader);
      UnsetStep(front, r, message, e, viewer);
    }
  }

  /** A write touches nothing but its own reaction: the entries of other messages and emojis stay as every reader sees
      them, and no other reader's own reaction of this emoji comes or goes. */
  lemma WriteLeavesOthers(rows: seq<Row>, message: string, e: Emoji, on: bool, viewer: Viewer,
                          visitorId: Option<string>, other: string, f: Emoji, reader: Viewer)
    ensures var after := Write(rows, message, e, on, viewer, visitorId);
      && (other != message || f != e ==> EntryOf(after, other, f, reader) == EntryOf(rows, other, f, reader))
      && (reader != viewer ==> EntryOf(after, message, e, reader).mine == EntryOf(rows, message, e, reader).mine)
  {
    hide EntryOf, Unset;
    if on {
      EntryStep(rows, OwnRow(message, e, viewer, visitorId), other, f, reader);
      EntryStep(rows, OwnRow(message, e, viewer, visitorId), message, e, reader);
    } else {
      if other != message || f != e {
        UnsetElsewhere(rows, message, e, viewer, other, f, reader);
      }
      if reader != viewer {
        UnsetNotMine(rows, message, e, viewer, reader);
      }
    }
  }

  // ----- the toggle keeps summaries

  /** `rows'` are the rows after one emoji's entry changed to `now`. */
  ghost predicate Changed(rows: seq<Row>, rows': seq<Row>, message: string, viewer: Viewer, now: Summary) {
    forall f :: EntryOf(rows', message, f, viewer)
             == if f == now.emoji then now else EntryOf(rows, message, f, viewer)
  }

  lemma EditedSummary(list: seq<Summary>, rows: seq<Row>, rows': seq<Row>, message: string, viewer: Viewer, i: nat,
                      now: Summary)
    requires IsSummary(list, rows, message, viewer) && Changed(rows, rows', message, viewer, now)
    requires i < |list| && list[i].emoji == now.emoji && now.count > 0
    ensures IsSummary(list[i := now], rows', message, viewer)
  {
    hide EntryOf, Precedes;
    var edited := list[i := now];
    assert forall j :: 0 <= j < |list| ==> edited[j].emoji == list[j].emoji;
    forall f | EntryOf(rows', message, f, viewer).count > 0
      ensures Lists(edited, f)
    {
      if f == now.emoji {
        assert edited[i].emoji == f;
      } else {
        assert Lists(list, f);
        var j :| 0 <= j < |list| && list[j].emoji == f;
        assert edited[j].emoji == f;
      }
    }
  }

  lemma AddedSummary(list: seq<Summary>, rows: seq<Row>, rows': seq<Row>, message: string, viewer: Viewer, now: Summary)
    requires IsSummary(list, rows, message, viewer) && Changed(rows, rows', message, viewer, now)
    requires !Lists(list, now.emoji) && now.count > 0
    ensures IsSummary(Ordered(list + [now]), rows', message, viewer)
  {
    hide EntryOf, Precedes;
    var added := list + [now];
    assert forall j :: 0 <= j < |list| ==> added[j] == list[j] && list[j].emoji != now.emoji;
    forall f | EntryOf(rows', message, f, viewer).count > 0
      ensures Lists(added, f)
    {
      if f == now.emoji {
        assert added[|list|].emoji == f;
      } else {
        assert Lists(list, f);
        var j :| 0 <= j < |list| && list[j].emoji == f;
        assert added[j].emoji == f;
      }
    }
    OrderedSummary(added, rows', message, viewer);
  }

  lemma {:induction false} PositiveAll(list: seq<Summary>)
    requires forall i :: 0 <= i < |list| ==> list[i].count > 0
    ensures Positive(list) == list
  {
    if list != [] {
      PositiveAll(list[..|list| - 1]);
    }
  }

  lemma {:induction false} PositiveDrops(list: seq<Summary>, i: nat)
    requires i < |list| && list[i].count <= 0
    requires forall j :: 0 <= j < |list| && j != i ==> list[j].count > 0
    ensures Positive(list) == list[..i] + list[i + 1..]
  {
    if i == |list| - 1 {
      PositiveAll(list[..i]);
    } else {
      PositiveDrops(list[..|list| - 1], i);
      assert list[..|list| - 1][i + 1..] + [list[|list| - 1]] == list[i + 1..];
      assert list[..|list| - 1][..i] == list[..i];
    }
  }

  lemma RemovedDisplay(list: seq<Summary>, i: nat)
    requires Displayed(list) && i < |list|
    ensures var left := list[..i] + list[i + 1..];
      Displayed(left) && forall f :: Lists(left, f) <==> Lists(list, f) && f != list[i].emoji
  {
    hide Precedes;
    var left := list[..i] + list[i + 1..];
    assert forall j :: 0 <= j < |left| ==> left[j] == list[if j < i then j else j + 1];
    forall f
      ensures Lists(left, f) <==> Lists(list, f) && f != list[i].emoji
    {
      if Lists(left, f) {
        var j :| 0 <= j < |left| && left[j].emoji == f;
        assert list[if j < i then j else j + 1].emoji == f;
      }
      if Lists(list, f) && f != list[i].emoji {
        var j :| 0 <= j < |list| && list[j].emoji == f;
        assert left[if j < i then j else j - 1].emoji == f;
      }
    }
  }

  lemma RemovedSummary(list: seq<Summary>, rows: seq<Row>, rows': seq<Row>, message: string, viewer: Viewer, i: nat,
                       now: Summary)
    requires IsSummary(list, rows, message, viewer) && Changed(rows, rows', message, viewer, now)
    requires i < |list| && list[i].emoji == now.emoji && now.count == 0
    ensures IsSummary(list[..i] + list[i + 1..], rows', message, viewer)
  {
    hide EntryOf, Precedes, Displayed, Lists;
    RemovedDisplay(list, i);
    var left := list[..i] + list[i + 1..];
    forall j | 0 <= j < |left|
      ensures left[j] == EntryOf(rows', message, left[j].emoji, viewer) && left[j].count > 0
    {
      var k := if j < i then j else j + 1;
      assert left[j] == list[k];
      OtherEmoji(list, i, k);
    }
  }

  lemma OtherEmoji(list: seq<Summary>, i: nat, k: nat)
    requires Displayed(list) && i < |list| && k < |list| && i != k
    ensures list[i].emoji != list[k].emoji
  {
    hide Precedes;
  }

  lemma SameRowsSummary(list: seq<Summary>, rows: seq<Row>, rows': seq<Row>, message: string, viewer: Viewer)
    requires IsSummary(list, rows, message, viewer)
    requires forall f :: EntryOf(rows', message, f, viewer) == EntryOf(rows, message, f, viewer)
    ensures IsSummary(list, rows', message, viewer)
  {
    hide EntryOf, Precedes;
  }

  lemma ListedEntry(list: seq<Summary>, rows: seq<Row>, message: string, viewer: Viewer, e: Emoji)
    requires IsSummary(list, rows, message, viewer)
    ensures var i := Find(list, e);
      if i < |list| then list[i] == EntryOf(rows, message, e, viewer)
      else EntryOf(rows, message, e, viewer) == Summary(e, 0, false, false) && !Lists(list, e)
  {
    hide EntryOf, Precedes;
    if Find(list, e) == |list| {
      NotListed(list, rows, message, e, viewer);
    }
  }

  /** The toggle that changes the reader's entry to `now`. */
  lemma ToggleChanged(list: seq<Summary>, rows: seq<Row>, rows': seq<Row>, message: string, e: Emoji, on: bool,
                      viewer: Viewer, now: Summary)
    requires IsSummary(list, rows, message, viewer) && Changed(rows, rows', message, viewer, now)
    requires var was := EntryOf(rows, message, e, viewer);
      && was.mine != on && now.emoji == e && was.count >= 0
      && (if on then now == Summary(e, was.count + 1, was.visitor || viewer.Visitor?, true)
          else now == Summary(e, was.count - 1, was.visitor && !viewer.Visitor?, false) && now.count >= 0)
    ensures IsSummary(Toggled(list, e, on, viewer.Visitor?), rows', message, viewer)
  {
    hide EntryOf, Precedes, IsSummary, Changed;
    ListedEntry(list, rows, message, viewer, e);
    var i := Find(list, e);
    if i == |list| {
      AddedSummary(list, rows, rows', message, viewer, now);
    } else if now.count > 0 {
      EditedSummary(list, rows, rows', message, viewer, i, now);
      if !on {
        EditedPositive(list, rows, message, viewer, i, now);
      }
    } else {
      EditedDrops(list, rows, message, viewer, i, now);
      RemovedSummary(list, rows, rows', message, viewer, i, now);
    }
  }

  /** One toggle: the edited list is the summary of the written rows. */
  lemma ToggleRefinesWrite(list: seq<Summary>, rows: seq<Row>, message: string, e: Emoji, on: bool, viewer: Viewer,
                           visitorId: Option<string>)
    requires IsSummary(list, rows, message, viewer) && OneEach(rows, message, viewer) && e != []
    ensures var rows' := Write(rows, message, e, on, viewer, visitorId);
      IsSummary(Toggled(list, e, on, viewer.Visitor?), rows', message, viewer)
  {
    hide EntryOf, Precedes, Write, OneEach, IsSummary, Toggled;
    var rows' := Write(rows, message, e, on, viewer, visitorId);
    var was, now := EntryOf(rows, message, e, viewer), EntryOf(rows', message, e, viewer);
    forall f
      ensures EntryOf(rows', message, f, viewer) ==
        if f != e || was.mine == on then EntryOf(rows, message, f, viewer)
        else if on then Summary(e, was.count + 1, was.visitor || viewer.Visitor?, true)
        else Summary(e, was.count - 1, was.visitor && !viewer.Visitor?, false)
    {
      WrittenEntry(rows, message, e, on, viewer, visitorId, f);
    }
    ListedEntry(list, rows, message, viewer, e);
    EntryFacts(rows, message, e, viewer);
    if was.mine == on {
      SameRowsSummary(list, rows, rows', message, viewer);
      AlreadySo(list, e, on, viewer.Visitor?);
    } else {
      EntryFacts(rows', message, e, viewer);
      ToggleChanged(list, rows, rows', message, e, on, viewer, now);
    }
  }

  lemma EditedPositive(list: seq<Summary>, rows: seq<Row>, message: string, viewer: Viewer, i: nat, now: Summary)
    requires IsSummary(list, rows, message, viewer) && i < |list| && now.count > 0
    ensures Positive(list[i := now]) == list[i := now]
  {
    hide EntryOf, Precedes;
    PositiveAll(list[i := now]);
  }

  lemma EditedDrops(list: seq<Summary>, rows: seq<Row>, message: string, viewer: Viewer, i: nat, now: Summary)
    requires IsSummary(list, rows, message, viewer) && i < |list| && now.count <= 0
    ensures Positive(list[i := now]) == list[..i] + list[i + 1..]
  {
    hide EntryOf, Precedes;
    PositiveDrops(list[i := now], i);
  }

  // ----- runs of toggles

  datatype Toggle = Toggle(emoji: Emoji, on: bool)

  function ToggleAll(list: seq<Summary>, toggles: seq<Toggle>, byVisitor: bool): seq<Summary> {
    if toggles == [] then list
    else
      var t := toggles[|toggles| - 1];
      Toggled(ToggleAll(list, toggles[..|toggles| - 1], byVisitor), t.emoji, t.on, byVisitor)
  }

  function WriteAll(rows: seq<Row>, message: string, toggles: seq<Toggle>, viewer: Viewer,
                    visitorId: Option<string>): seq<Row> {
    if toggles == [] then rows
    else
      var t := toggles[|toggles| - 1];
      var before := WriteAll(rows, message, toggles[..|toggles| - 1], viewer, visitorId);
      Write(before, message, t.emoji, t.on, viewer, visitorId)
  }

  lemma {:induction false} TogglesRefineWrites(list: seq<Summary>, rows: seq<Row>, message: string,
                                               toggles: seq<Toggle>, viewer: Viewer, visitorId: Option<string>)
    requires IsSummary(list, rows, message, viewer) && OneEach(rows, message, viewer)
    requires forall t :: t in toggles ==> t.emoji != []
    ensures var rows' := WriteAll(rows, message, toggles, viewer, visitorId);
      OneEach(rows', message, viewer) && IsSummary(ToggleAll(list, toggles, viewer.Visitor?), rows', message, viewer)
  {
    hide OneEach, IsSummary, Toggled, Write;
    if toggles != [] {
      var t := toggles[|toggles| - 1];
      TogglesRefineWrites(list, rows, message, toggles[..|toggles| - 1], viewer, visitorId);
      var rows' := WriteAll(rows, message, toggles[..|toggles| - 1], viewer, visitorId);
      assert t in toggles;
      WriteKeepsOneEach(rows', message, t.emoji, t.on, viewer, visitorId);
      ToggleRefinesWrite(ToggleAll(list, toggles[..|toggles| - 1], viewer.Visitor?), rows', message, t.emoji, t.on,
                         viewer, visitorId);
    }
  }

  /** The optimistic screen after any taps, retries among them, is the list the server's rows will summarise to,
      order included. */
  lemma OptimisticScreen(before: seq<Summary>, after: seq<Summary>, rows: seq<Row>, message: string,
                         toggles: seq<Toggle>, viewer: Viewer, visitorId: Option<string>)
    requires IsSummary(before, rows, message, viewer) && OneEach(rows, message, viewer)
    requires forall t :: t in toggles ==> t.emoji != []
    requires IsSummary(after, WriteAll(rows, message, toggles, viewer, visitorId), message, viewer)
    ensures ToggleAll(before, toggles, viewer.Visitor?) == after
  {
    hide OneEach, IsSummary, ToggleAll, WriteAll;
    TogglesRefineWrites(before, rows, message, toggles, viewer, visitorId);
    SummaryUnique(ToggleAll(before, toggles, viewer.Visitor?), after, WriteAll(rows, message, toggles, viewer,
        visitorId),
                  message, viewer);
  }

  lemma {:induction false} NoneToUnset(rows: seq<Row>, message: string, e: Emoji, viewer: Viewer)
    requires MineCount(rows, message, e, viewer) == 0
    ensures Unset(rows, message, e, viewer) == rows
  {
    hide On, Mine;
    if rows != [] {
      NoneToUnset(rows[..|rows| - 1], message, e, viewer);
    }
  }

  /** The server's side of a retry: the same write again leaves the rows as they are, whatever they were. */
  lemma WriteTwice(rows: seq<Row>, message: string, e: Emoji, on: bool, viewer: Viewer, visitorId: Option<string>)
    requires e != []
    ensures var once := Write(rows, message, e, on, viewer, visitorId);
      Write(once, message, e, on, viewer, visitorId) == once
  {
    hide On, Mine, MineCount, Unset, OwnRow;
    if on {
      var own := OwnRow(message, e, viewer, visitorId);
      OwnRowIsMine(message, e, viewer, visitorId, e);
      MineStep(rows, own, message, e, viewer);
    } else {
      UnsetMine(rows, message, e, viewer, e);
      NoneToUnset(Unset(rows, message, e, viewer), message, e, viewer);
    }
  }

  /** A retry is harmless: the same write again leaves the rows and the screen as they were. */
  lemma RetryChangesNothing(list: seq<Summary>, rows: seq<Row>, message: string, e: Emoji, on: bool, viewer: Viewer,
                            visitorId: Option<string>)
    requires IsSummary(list, rows, message, viewer) && OneEach(rows, message, viewer) && e != []
    ensures var once := Toggled(list, e, on, viewer.Visitor?);
      Toggled(once, e, on, viewer.Visitor?) == once
    ensures var written := Write(rows, message, e, on, viewer, visitorId);
      Write(written, message, e, on, viewer, visitorId) == written
  {
    hide OneEach, IsSummary, Toggled, Write, EntryOf;
    var once := Toggled(list, e, on, viewer.Visitor?);
    var rows1 := Write(rows, message, e, on, viewer, visitorId);
    WriteTwice(rows, message, e, on, viewer, visitorId);
    ToggleRefinesWrite(list, rows, message, e, on, viewer, visitorId);
    WriteKeepsOneEach(rows, message, e, on, viewer, visitorId);
    WrittenEntry(rows, message, e, on, viewer, visitorId, e);
    ListedEntry(once, rows1, message, viewer, e);
    AlreadySo(once, e, on, viewer.Visitor?);
  }

  lemma AlreadySo(list: seq<Summary>, e: Emoji, on: bool, byVisitor: bool)
    requires var i := Find(list, e); if i < |list| then list[i].mine == on else !on
    ensures Toggled(list, e, on, byVisitor) == list
  {
  }
}
