/** Template names and options as they are stored and sent: which values are valid, and what a
    lenient or a strict reader makes of them (shared/chatTemplateCatalog.ts). */
module TemplateOptions {
  import opened Options
  import opened Text
  import opened Editions

  datatype TemplateId = DefaultKit | T1 | T2 | Intl | T1Intl | T2Intl

  datatype OptionKey = NavStyle | NavMode | TopicChips | AskExamples | PrechatMode | Csat | TranscriptEmail
    | LogoDirection

  /** A property name, by what it names where the readers look for it. */
  datatype Key =
    | DefaultKey | ItemsKey | EnabledKey | OrderKey | NameKey | OptionsKey | LabelKey | IconKey
    | InLocale(locale: Locale) | OfTemplate(id: TemplateId) | OfOption(option: OptionKey) | OtherKey(name: string)

  /** A value of any type; undefined reads as null does. `Fraction` is a number that is not an integer. */
  datatype Json =
    | Null | Bool(b: bool) | Whole(n: int) | Fraction | Str(s: string)
    | Arr(items: seq<Json>) | Obj(fields: map<Key, Json>)

  /** The properties of a plain object, none for anything else. */
  function Fields(v: Json): map<Key, Json> {
    if v.Obj? then v.fields else map[]
  }

  function Get(fields: map<Key, Json>, k: Key): Json {
    if k in fields then fields[k] else Null
  }

  // ----- typed text

  const LOCALES: seq<Locale> := [Fa, En, Tr]

  function NameMax(): nat { 40 }

  /** Control characters and the bidi embeddings, overrides and isolates. */
  predicate Strips(c: char) {
    var n := c as int;
    n < 0x20 || 0x7f <= n <= 0x9f || 0x202a <= n <= 0x202e || 0x2066 <= n <= 0x2069
  }

  function Stripped(s: string): (r: string)
    ensures |r| == |s|
  {
    if s == [] then [] else Stripped(s[..|s| - 1]) + [if Strips(s[|s| - 1]) then ' ' else s[|s| - 1]]
  }

  function CleanText(v: Json): string {
    if v.Str? then Tidy(Stripped(v.s)) else []
  }

  method CleanTemplateText(value: Json) returns (text: string)
    ensures text == CleanText(value)
  {
    if !value.Str? {
      return [];
    }
    var out := [];
    for i := 0 to |value.s|
      invariant out == Stripped(value.s[..i])
    {
      assert value.s[..i + 1][..i] == value.s[..i];
      out := out + [if Strips(value.s[i]) then ' ' else value.s[i]];
    }
    assert value.s[..|value.s|] == value.s;
    text := Tidy(out);
  }

  ghost predicate NoneStrips(s: string) {
    forall i :: 0 <= i < |s| ==> !Strips(s[i])
  }

  lemma SpaceStays()
    ensures !Strips(' ')
  {
  }

  lemma {:induction false} StrippedClean(s: string)
    ensures NoneStrips(Stripped(s))
    ensures NoneStrips(s) ==> Stripped(s) == s
  {
    hide Strips;
    if s != [] {
      SpaceStays();
      StrippedClean(s[..|s| - 1]);
      assert s == s[..|s| - 1] + [s[|s| - 1]];
    }
  }

  lemma {:induction false} CollapseMembers(s: string)
    ensures forall c :: c in Collapse(s) ==> c == ' ' || c in s
    decreases |s|
  {
    hide IsSpace;
    if s != [] {
      if IsSpace(s[0]) {
        CollapseMembers(TrimStart(s));
      } else {
        CollapseMembers(s[1..]);
      }
    }
  }

  /** Cleaned text: tidy, and nothing left to strip. */
  ghost predicate IsClean(s: string) {
    IsTidy(s) && NoneStrips(s)
  }

  lemma CleanTextIsClean(v: Json)
    ensures IsClean(CleanText(v))
  {
    hide Strips, IsSpace, IsTidy, Collapse, Trim;
    if v.Str? {
      var s := Stripped(v.s);
      StrippedClean(v.s);
      SpaceStays();
      CollapseMembers(s);
      TidyIsTidy(s);
      forall i | 0 <= i < |Tidy(s)|
        ensures !Strips(Tidy(s)[i])
      {
        assert Tidy(s)[i] in Collapse(s);
      }
    } else {
      EmptyClean();
    }
  }

  lemma EmptyClean()
    ensures IsClean([])
  {
  }

  lemma CleanStays(s: string)
    requires IsClean(s)
    ensures CleanText(Str(s)) == s
  {
    hide Strips, IsSpace, IsTidy, Collapse, Trim, Tidy;
    StrippedClean(s);
    TidyKeeps(s);
  }

  /** Cleaning what was cleaned changes nothing. */
  lemma CleanTwice(v: Json)
    ensures CleanText(Str(CleanText(v))) == CleanText(v)
  {
    CleanTextIsClean(v);
    CleanStays(CleanText(v));
  }

  // ----- stored names

  function Cut(s: string): (r: string)
    ensures |r| <= NameMax()
  {
    if |s| <= NameMax() then s else s[..NameMax()]
  }

  /** A stored name, cleaned and cut. */
  function NameRead(v: Json): string {
    Cut(CleanText(v))
  }

  /** The cut falls just after a space. */
  predicate CutAfterSpace(v: Json) {
    |CleanText(v)| > NameMax() && IsSpace(CleanText(v)[NameMax() - 1])
  }

  lemma CutClean(s: string)
    requires IsClean(s)
    ensures NoneStrips(Cut(s)) && SingleSpaced(Cut(s)) && (Cut(s) != [] ==> !IsSpace(Cut(s)[0]))
  {
    hide Strips, IsSpace;
    if |s| > NameMax() {
      SliceSingle(s, 0, NameMax());
      assert s[0..NameMax()] == Cut(s);
    }
  }

  /** What a second reading makes of a cut name: itself, less the space the cut left at its end. */
  lemma CutRead(s: string)
    requires NoneStrips(s) && SingleSpaced(s) && s != [] && !IsSpace(s[0])
    ensures CleanText(Str(s)) == if IsSpace(s[|s| - 1]) then s[..|s| - 1] else s
  {
    hide Strips, IsSpace, Collapse;
    StrippedClean(s);
    CollapseTidy(s);
    assert Collapse(s) == s;
    if IsSpace(s[|s| - 1]) {
      var t := s[..|s| - 1];
      assert t != [];
      assert !IsSpace(t[|t| - 1]);
      assert TrimStart(s) == s;
      assert TrimEnd(s) == TrimEnd(t) == t;
    } else {
      TrimTidy(s);
    }
  }

  /** Reading a name that was read gives it back exactly when the cut did not fall just after a space;
      a name is never lost. */
  lemma NameReadTwice(v: Json)
    ensures NameRead(Str(NameRead(v))) == NameRead(v) <==> !CutAfterSpace(v)
    ensures CutAfterSpace(v) ==> NameRead(Str(NameRead(v))) == NameRead(v)[..NameMax() - 1]
    ensures NameRead(Str(NameRead(v))) == [] <==> NameRead(v) == []
  {
    hide Strips, IsSpace, IsTidy, CleanText;
    var c := CleanText(v);
    CleanTextIsClean(v);
    CutClean(c);
    if c == [] {
      CleanStays([]);
    } else {
      CutRead(Cut(c));
      if |c| <= NameMax() {
        CleanStays(c);
      }
    }
  }

  /** Thirty-nine letters, a space and a last letter: read once, the name ends in a space; read again, it does not. */
  lemma NameCutExample()
    ensures var stored := Str(seq(39, i => 'a') + [' ', 'b']);
      |NameRead(stored)| == 40 && |NameRead(Str(NameRead(stored)))| == 39 && CutAfterSpace(stored)
  {
    var s := seq(39, i => 'a') + [' ', 'b'];
    assert IsClean(s);
    CleanStays(s);
    NameReadTwice(Str(s));
  }

  /** The names stored under `v`, by language; a language without one is left out. */
  function NamesIn(v: Json): map<Locale, string> {
    map l | l in {Fa, En, Tr} && NameRead(Get(Fields(v), InLocale(l))) != [] :: NameRead(Get(Fields(v), InLocale(l)))
  }

  method ReadNames(raw: Json) returns (out: map<Locale, string>)
    ensures out == NamesIn(raw)
  {
    hide NameRead, CleanText;
    out := map[];
    if !raw.Obj? {
      NoNames(raw);
      return;
    }
    for i := 0 to 3
      invariant forall l :: l in out <==> l in LOCALES[..i] && NameRead(Get(raw.fields, InLocale(l))) != []
      invariant forall l :: l in out ==> out[l] == NameRead(Get(raw.fields, InLocale(l)))
    {
      var given := Get(raw.fields, InLocale(LOCALES[i]));
      var name := CleanText(given);
      CutKeeps(name);
      Unfold(given);
      if name != [] {
        out := out[LOCALES[i] := Cut(name)];
      }
      assert LOCALES[..i + 1] == LOCALES[..i] + [LOCALES[i]];
    }
    assert LOCALES[..3] == [Fa, En, Tr];
  }

  lemma Unfold(v: Json)
    ensures NameRead(v) == Cut(CleanText(v))
  {
  }

  lemma CutKeeps(s: string)
    ensures Cut(s) == [] <==> s == []
  {
  }

  lemma NoNames(raw: Json)
    requires !raw.Obj?
    ensures NamesIn(raw) == map[]
  {
    assert forall l: Locale :: Get(Fields(raw), InLocale(l)) == Null;
  }

  // ----- options

  datatype Topic = Topic(text: string, icon: string)

  datatype OptionValue = Choice(s: string) | Switch(on: bool) | Topics(topics: seq<Topic>)
    | Questions(questions: seq<string>)

  const TOPICS_MAX := 4
  const TOPIC_LABEL_MAX := 24
  const ASK_EXAMPLES_MAX := 2
  const ASK_EXAMPLE_MAX := 60

  /** The values of an option that is one of a list, its default first. */
  function Choices(key: OptionKey): seq<string> {
    match key
    case NavStyle => ["vb", "va", "vc", "vd"]
    case NavMode => ["active", "both", "icon", "text", "none"]
    case PrechatMode => ["card", "steps"]
    case LogoDirection => ["thread", "open"]
    case _ => []
  }

  predicate IsIcon(s: string) {
    s in ["truck", "return", "ruler", "card", "box", "chat", "help", "gift", "clock", "tag"]
  }

  /** Far too long even before it is cleaned. */
  predicate RawTooLong(v: Json, max: nat) {
    v.Str? && Units(v.s) > max * 4
  }

  /** What one element of a list option comes to. */
  datatype Row<T> = Refused | Skipped | Taken(value: T)

  function TopicRow(item: Json): Row<Topic> {
    if !item.Obj? || RawTooLong(Get(item.fields, LabelKey), TOPIC_LABEL_MAX) then Refused
    else
      var text := CleanText(Get(item.fields, LabelKey));
      var icon := Get(item.fields, IconKey);
      if text == [] then Skipped
      else if |text| > TOPIC_LABEL_MAX || !icon.Str? || !IsIcon(icon.s) then Refused
      else Taken(Topic(text, icon.s))
  }

  function QuestionRow(item: Json): Row<string> {
    if !item.Str? || RawTooLong(item, ASK_EXAMPLE_MAX) then Refused
    else
      var text := CleanText(item);
      if text == [] then Skipped else if |text| > ASK_EXAMPLE_MAX then Refused else Taken(text)
  }

  /** The elements taken, in order; None when one is refused. */
  function Rows<T>(row: Json -> Row<T>, items: seq<Json>): (r: Option<seq<T>>)
    ensures r.Some? ==> |r.value| <= |items|
  {
    if items == [] then Some([])
    else
      var before := Rows(row, items[..|items| - 1]);
      if before.None? then None
      else match row(items[|items| - 1])
           case Refused => None
           case Skipped => before
           case Taken(x) => Some(before.value + [x])
  }

  lemma {:induction false} RefusedRows<T>(row: Json -> Row<T>, items: seq<Json>, i: nat)
    requires i <= |items| && Rows(row, items[..i]).None?
    ensures Rows(row, items).None?
  {
    if i < |items| {
      assert items[..|items| - 1][..i] == items[..i];
      RefusedRows(row, items[..|items| - 1], i);
    } else {
      assert items[..i] == items;
    }
  }

  method ReadRows<T>(row: Json -> Row<T>, items: seq<Json>) returns (out: Option<seq<T>>)
    ensures out == Rows(row, items)
  {
    var taken: seq<T> := [];
    for i := 0 to |items|
      invariant Rows(row, items[..i]) == Some(taken)
    {
      assert items[..i + 1][..i] == items[..i];
      match row(items[i]) {
        case Refused =>
          RefusedRows(row, items, i + 1);
          return None;
        case Skipped =>
        case Taken(x) => taken := taken + [x];
      }
    }
    assert items[..|items|] == items;
    out := Some(taken);
  }

  /** An option's value, cleaned; None when it is not valid. */
  function Checked(key: OptionKey, v: Json): Option<OptionValue> {
    match key
    case TopicChips =>
      if !v.Arr? || |v.items| > TOPICS_MAX then None
      else
        var rows := Rows(TopicRow, v.items);
        if rows.None? then None else Some(Topics(rows.value))
    case AskExamples =>
      if !v.Arr? || |v.items| > ASK_EXAMPLES_MAX then None
      else
        var rows := Rows(QuestionRow, v.items);
        if rows.None? then None else Some(Questions(rows.value))
    case Csat => if v.Bool? then Some(Switch(v.b)) else None
    case TranscriptEmail => if v.Bool? then Some(Switch(v.b)) else None
    case _ => if v.Str? && v.s in Choices(key) then Some(Choice(v.s)) else None
  }

  method CheckOption(key: OptionKey, v: Json) returns (r: Option<OptionValue>)
    ensures r == Checked(key, v)
  {
    hide Choices, TopicRow, QuestionRow;
    match key {
      case TopicChips =>
        if !v.Arr? || |v.items| > TOPICS_MAX {
          return None;
        }
        var rows := ReadRows(TopicRow, v.items);
        r := if rows.None? then None else Some(Topics(rows.value));
      case AskExamples =>
        if !v.Arr? || |v.items| > ASK_EXAMPLES_MAX {
          return None;
        }
        var rows := ReadRows(QuestionRow, v.items);
        r := if rows.None? then None else Some(Questions(rows.value));
      case Csat => r := if v.Bool? then Some(Switch(v.b)) else None;
      case TranscriptEmail => r := if v.Bool? then Some(Switch(v.b)) else None;
      case _ => r := if v.Str? && v.s in Choices(key) then Some(Choice(v.s)) else None;
    }
  }

  // ----- a value as it is stored

  function TopicJson(t: Topic): Json {
    Obj(map[LabelKey := Str(t.text), IconKey := Str(t.icon)])
  }

  function ValueJson(v: OptionValue): Json {
    match v
    case Choice(s) => Str(s)
    case Switch(on) => Bool(on)
    case Topics(topics) => Arr(seq(|topics|, i requires 0 <= i < |topics| => TopicJson(topics[i])))
    case Questions(qs) => Arr(seq(|qs|, i requires 0 <= i < |qs| => Str(qs[i])))
  }

  /** A value of an option that reads back as itself. */
  predicate Settled(key: OptionKey, v: OptionValue) {
    Checked(key, ValueJson(v)) == Some(v)
  }

  lemma TopicSettled(item: Json)
    ensures TopicRow(item).Taken? ==> TopicRow(TopicJson(TopicRow(item).value)) == TopicRow(item)
  {
    hide IsIcon, CleanText, Units;
    if item.Obj? {
      CleanTwice(Get(item.fields, LabelKey));
    }
  }

  lemma QuestionSettled(item: Json)
    ensures QuestionRow(item).Taken? ==> QuestionRow(Str(QuestionRow(item).value)) == QuestionRow(item)
  {
    hide CleanText, Units;
    CleanTwice(item);
  }

  /** Elements that are each taken as they are, all taken. */
  lemma {:induction false} AllTaken<T>(row: Json -> Row<T>, items: seq<Json>, out: seq<T>)
    requires |items| == |out|
    requires forall i :: 0 <= i < |items| ==> row(items[i]) == Taken(out[i])
    ensures Rows(row, items) == Some(out)
  {
    if items != [] {
      AllTaken(row, items[..|items| - 1], out[..|out| - 1]);
      assert out == out[..|out| - 1] + [out[|out| - 1]];
    }
  }

  lemma {:induction false} TakenFrom<T>(row: Json -> Row<T>, items: seq<Json>)
    requires Rows(row, items).Some?
    ensures forall x :: x in Rows(row, items).value ==> exists i :: 0 <= i < |items| && row(items[i]) == Taken(x)
  {
    if items != [] {
      var front := items[..|items| - 1];
      TakenFrom(row, front);
      forall x | x in Rows(row, items).value
        ensures exists i :: 0 <= i < |items| && row(items[i]) == Taken(x)
      {
        if x in Rows(row, front).value {
          var i :| 0 <= i < |front| && row(front[i]) == Taken(x);
          assert row(items[i]) == Taken(x);
        } else {
          assert row(items[|items| - 1]) == Taken(x);
        }
      }
    }
  }

  lemma TopicsSettled(items: seq<Json>)
    requires |items| <= TOPICS_MAX && Rows(TopicRow, items).Some?
    ensures Settled(TopicChips, Topics(Rows(TopicRow, items).value))
  {
    hide TopicRow, TopicJson;
    var topics := Rows(TopicRow, items).value;
    TakenFrom(TopicRow, items);
    var stored := seq(|topics|, i requires 0 <= i < |topics| => TopicJson(topics[i]));
    forall i | 0 <= i < |topics|
      ensures TopicRow(stored[i]) == Taken(topics[i])
    {
      assert topics[i] in topics;
      var k :| 0 <= k < |items| && TopicRow(items[k]) == Taken(topics[i]);
      TopicSettled(items[k]);
    }
    AllTaken(TopicRow, stored, topics);
  }

  lemma QuestionsSettled(items: seq<Json>)
    requires |items| <= ASK_EXAMPLES_MAX && Rows(QuestionRow, items).Some?
    ensures Settled(AskExamples, Questions(Rows(QuestionRow, items).value))
  {
    hide QuestionRow;
    var qs := Rows(QuestionRow, items).value;
    TakenFrom(QuestionRow, items);
    var stored := seq(|qs|, i requires 0 <= i < |qs| => Str(qs[i]));
    forall i | 0 <= i < |qs|
      ensures QuestionRow(stored[i]) == Taken(qs[i])
    {
      assert qs[i] in qs;
      var k :| 0 <= k < |items| && QuestionRow(items[k]) == Taken(qs[i]);
      QuestionSettled(items[k]);
    }
    AllTaken(QuestionRow, stored, qs);
  }

  /** Whatever a value is cleaned to is valid and cleans to itself. */
  lemma CheckedTwice(key: OptionKey, v: Json)
    requires Checked(key, v).Some?
    ensures Settled(key, Checked(key, v).value)
  {
    hide Choices, TopicRow, QuestionRow;
    match key
    case TopicChips => TopicsSettled(v.items);
    case AskExamples => QuestionsSettled(v.items);
    case _ =>
  }

  /** Stored options, read leniently: an invalid value is left out. */
  function OptionsIn(v: Json, keys: set<OptionKey>): map<OptionKey, OptionValue> {
    map k | k in keys && OfOption(k) in Fields(v) && Checked(k, Fields(v)[OfOption(k)]).Some?
      :: Checked(k, Fields(v)[OfOption(k)]).value
  }

  function Members<T(!new)>(s: seq<T>): (r: set<T>)
    ensures forall x :: x in r <==> x in s
  {
    set x | x in s
  }

  method ReadTemplateOptions(raw: Json, keys: seq<OptionKey>) returns (out: map<OptionKey, OptionValue>)
    ensures out == OptionsIn(raw, Members(keys))
  {
    hide Checked;
    out := map[];
    if !raw.Obj? {
      return;
    }
    for i := 0 to |keys|
      invariant out == OptionsIn(raw, Members(keys[..i]))
    {
      assert keys[..i + 1] == keys[..i] + [keys[i]];
      if OfOption(keys[i]) in raw.fields {
        var checked := CheckOption(keys[i], raw.fields[OfOption(keys[i])]);
        if checked.Some? {
          out := out[keys[i] := checked.value];
        }
      }
    }
    assert keys[..|keys|] == keys;
  }

  /** A known key with a value that is not valid. */
  predicate Invalid(v: Json, k: OptionKey) {
    OfOption(k) in Fields(v) && Checked(k, Fields(v)[OfOption(k)]).None?
  }

  /** A request's options are accepted: absent, or an object whose known keys are all valid. */
  ghost predicate OptionsAccepted(v: Json, keys: set<OptionKey>) {
    v == Null || (v.Obj? && forall k :: k in keys ==> !Invalid(v, k))
  }

  datatype OptionsInput = Accepted(value: map<OptionKey, OptionValue>) | InvalidOption(key: Option<OptionKey>)

  /** Options from a request, strictly: accepted, they are what a lenient reader reads; else the first bad key is
      named. */
  method CleanTemplateOptionsInput(input: Json, keys: seq<OptionKey>) returns (r: OptionsInput)
    ensures r.Accepted? <==> OptionsAccepted(input, Members(keys))
    ensures r.Accepted? ==> r.value == OptionsIn(input, Members(keys))
    ensures r.InvalidOption? && input.Obj? ==>
      exists i :: 0 <= i < |keys| && r.key == Some(keys[i]) && Invalid(input, keys[i])
          && forall j :: 0 <= j < i ==> !Invalid(input, keys[j])
    ensures r.InvalidOption? && !input.Obj? ==> r.key == None
  {
    hide Checked;
    if input == Null {
      return Accepted(map[]);
    }
    if !input.Obj? {
      return InvalidOption(None);
    }
    var out := map[];
    for i := 0 to |keys|
      invariant out == OptionsIn(input, Members(keys[..i]))
      invariant forall j :: 0 <= j < i ==> !Invalid(input, keys[j])
    {
      assert keys[..i + 1] == keys[..i] + [keys[i]];
      if OfOption(keys[i]) in input.fields {
        var checked := CheckOption(keys[i], input.fields[OfOption(keys[i])]);
        if checked.None? {
          assert Invalid(input, keys[i]);
          assert keys[i] in Members(keys);
          return InvalidOption(Some(keys[i]));
        }
        out := out[keys[i] := checked.value];
      }
    }
    assert keys[..|keys|] == keys;
    r := Accepted(out);
  }

  ghost predicate AllSettled(opts: map<OptionKey, OptionValue>, keys: set<OptionKey>) {
    forall k :: k in opts ==> k in keys && Settled(k, opts[k])
  }

  lemma OptionsSettled(v: Json, keys: set<OptionKey>)
    ensures AllSettled(OptionsIn(v, keys), keys)
  {
    hide Checked, Settled;
    forall k | k in OptionsIn(v, keys)
      ensures Settled(k, OptionsIn(v, keys)[k])
    {
      CheckedTwice(k, Fields(v)[OfOption(k)]);
    }
  }

  function OptionsJson(opts: map<OptionKey, OptionValue>): Json {
    Obj(map k | k in OptionFields(opts) :: ValueJson(opts[k.option]))
  }

  function OptionFields(opts: map<OptionKey, OptionValue>): (r: set<Key>)
    ensures forall k :: k in r <==> k.OfOption? && k.option in opts
  {
    set k | k in opts.Keys :: OfOption(k)
  }

  /** Options stored after cleaning read back as they are. */
  lemma OptionsReadBack(opts: map<OptionKey, OptionValue>, keys: set<OptionKey>)
    requires AllSettled(opts, keys)
    ensures OptionsIn(OptionsJson(opts), keys) == opts
  {
    hide Checked, ValueJson, OptionFields;
    var read := OptionsIn(OptionsJson(opts), keys);
    var fields := OptionsJson(opts).fields;
    forall k
      ensures k in read <==> k in opts
      ensures k in opts ==> read[k] == opts[k]
    {
      assert OfOption(k) in fields <==> k in opts;
      if k in opts {
        assert fields[OfOption(k)] == ValueJson(opts[k]);
        assert Settled(k, opts[k]);
      }
    }
  }
}
