/** The template catalog in the terms of what is typed and stored: texts, values and ids as they are spelled
    (shared/chatTemplateCatalog.ts, shared/widgetTemplates.ts). */
module TemplateMeaning {
  import opened Options
  import opened Text
  import opened TextWords
  import opened Sorting
  import opened Editions
  import opened TemplateOptions
  import opened TemplateCatalog
  import opened TemplateSaves
  import opened TemplateSaveProofs

  // ----- texts

  /** Control characters and the marks that turn the writing direction read as spaces. */
  lemma {:induction false} StrippedAt(s: string, i: nat)
    requires i < |s|
    ensures var c := s[i];
      Stripped(s)[i] ==
        if c < '\U{0020}' || '\U{007F}' <= c <= '\U{009F}' || '\U{202A}' <= c <= '\U{202E}'
           || '\U{2066}' <= c <= '\U{2069}'
        then ' ' else c
  {
    if i < |s| - 1 {
      StrippedAt(s[..|s| - 1], i);
    }
  }

  /** A typed text is its words, one space between them; a stored name, the first forty characters of that. */
  lemma TypedText(s: string)
    ensures CleanText(Str(s)) == Joined(Words(Stripped(s)))
    ensures var name, text := NameRead(Str(s)), Joined(Words(Stripped(s)));
      if |text| <= 40 then name == text else |name| == 40 && name == text[..40]
  {
    TidyJoinsWords(Stripped(s));
  }

  // ----- options

  function ChoicesOf(key: OptionKey): seq<string> {
    match key
    case NavStyle => ["vb", "va", "vc", "vd"]
    case NavMode => ["active", "both", "icon", "text", "none"]
    case PrechatMode => ["card", "steps"]
    case LogoDirection => ["thread", "open"]
    case TopicChips => []
    case AskExamples => []
    case Csat => []
    case TranscriptEmail => []
  }

  /** The cleaned label of a chip, the cleaned question of an example. */
  function RowText(key: OptionKey, item: Json): string {
    if key == TopicChips then CleanText(Get(Fields(item), LabelKey)) else CleanText(item)
  }

  /** A chip is an object whose label is not far too long, and unless it is blank short enough and with a known icon; an
      example a text likewise. */
  predicate RowGood(key: OptionKey, item: Json) {
    if key == TopicChips then
      && item.Obj?
      && (Get(item.fields, LabelKey).Str? ==> Units(Get(item.fields, LabelKey).s) <= 96)
      && (RowText(key, item) != [] ==>
            && |RowText(key, item)| <= 24
            && Get(item.fields, IconKey).Str?
            && Get(item.fields, IconKey).s in
                 ["truck", "return", "ruler", "card", "box", "chat", "help", "gift", "clock", "tag"])
    else item.Str? && Units(item.s) <= 240 && |RowText(key, item)| <= 60
  }

  /** The rows before `n` that are not blank. */
  function Filled(key: OptionKey, items: seq<Json>, n: nat): set<int>
    requires n <= |items|
  {
    set i | 0 <= i < n && RowText(key, items[i]) != []
  }

  /** A row's text, and a chip's icon. */
  function RowShown(key: OptionKey, item: Json): Topic {
    var icon := Get(Fields(item), IconKey);
    Topic(RowText(key, item), if key == TopicChips && icon.Str? then icon.s else [])
  }

  /** All rows are good, and `shown` are those that are not blank, in order. */
  ghost predicate RowsTaken(key: OptionKey, items: seq<Json>, shown: seq<Topic>) {
    && (forall i :: 0 <= i < |items| ==> RowGood(key, items[i]))
    && |shown| == |Filled(key, items, |items|)|
    && forall i :: 0 <= i < |items| && RowText(key, items[i]) != [] ==>
         |Filled(key, items, i)| < |shown| && shown[|Filled(key, items, i)|] == RowShown(key, items[i])
  }

  lemma FilledStep(key: OptionKey, items: seq<Json>, n: nat)
    requires n < |items|
    ensures |Filled(key, items, n + 1)| == |Filled(key, items, n)| + if RowText(key, items[n]) != [] then 1 else 0
    ensures Filled(key, items[..n], n) == Filled(key, items, n)
  {
    hide RowText;
    var before := Filled(key, items, n);
    assert Filled(key, items, n + 1) == before + if RowText(key, items[n]) != [] then {n} else {};
    assert n !in before;
  }

  lemma FilledSlice(key: OptionKey, items: seq<Json>, k: nat, n: nat)
    requires k <= n <= |items|
    ensures Filled(key, items[..n], k) == Filled(key, items, k)
  {
    hide RowText;
  }

  lemma FilledGrows(key: OptionKey, items: seq<Json>, k: nat, n: nat)
    requires k < n <= |items| && RowText(key, items[k]) != []
    ensures |Filled(key, items, k)| < |Filled(key, items, n)|
    decreases n - k
  {
    hide RowText, Filled;
    if n == k + 1 {
      FilledStep(key, items, k);
    } else {
      FilledGrows(key, items, k, n - 1);
      FilledStep(key, items, n - 1);
    }
  }

  /** One more good row: its text joins the others unless it is blank. */
  lemma RowsTakenStep(key: OptionKey, items: seq<Json>, shown: seq<Topic>)
    requires items != [] && RowsTaken(key, items[..|items| - 1], shown) && RowGood(key, items[|items| - 1])
    ensures var last := items[|items| - 1];
      RowsTaken(key, items, if RowText(key, last) == [] then shown else shown + [RowShown(key, last)])
  {
    hide RowText, RowShown, RowGood, Filled;
    var n := |items| - 1;
    FilledStep(key, items, n);
    forall i | 0 <= i < n
      ensures items[..n][i] == items[i] && Filled(key, items[..n], i) == Filled(key, items, i)
    {
      FilledSlice(key, items, i, n);
    }
  }

  /** Questions as rows without an icon. */
  function Asked(questions: seq<string>): (r: seq<Topic>)
    ensures |r| == |questions| && forall i :: 0 <= i < |questions| ==> r[i] == Topic(questions[i], [])
  {
    seq(|questions|, i requires 0 <= i < |questions| => Topic(questions[i], []))
  }

  lemma TopicRowIs(item: Json)
    ensures TopicRow(item).Refused? <==> !RowGood(TopicChips, item)
    ensures TopicRow(item).Skipped? <==> RowGood(TopicChips, item) && RowText(TopicChips, item) == []
    ensures TopicRow(item).Taken? ==>
      TopicRow(item).value == RowShown(TopicChips, item) && RowText(TopicChips, item) != []
  {
    hide CleanText, Units;
  }

  lemma QuestionRowIs(item: Json)
    ensures QuestionRow(item).Refused? <==> !RowGood(AskExamples, item)
    ensures QuestionRow(item).Skipped? <==> RowGood(AskExamples, item) && RowText(AskExamples, item) == []
    ensures QuestionRow(item).Taken? ==>
      Topic(QuestionRow(item).value, []) == RowShown(AskExamples, item) && RowText(AskExamples, item) != []
  {
    hide CleanText, Units;
  }

  ghost predicate AllGood(key: OptionKey, items: seq<Json>) {
    forall i :: 0 <= i < |items| ==> RowGood(key, items[i])
  }

  lemma AllGoodStep(key: OptionKey, items: seq<Json>)
    requires items != []
    ensures AllGood(key, items) <==> AllGood(key, items[..|items| - 1]) && RowGood(key, items[|items| - 1])
  {
    hide RowGood;
    var front := items[..|items| - 1];
    assert forall i :: 0 <= i < |front| ==> front[i] == items[i];
  }

  lemma RowsStep<T>(row: Json -> Row<T>, items: seq<Json>)
    requires items != []
    ensures var before, last := Rows(row, items[..|items| - 1]), row(items[|items| - 1]);
      Rows(row, items) ==
        if before.None? || last.Refused? then None
        else if last.Skipped? then before
        else Some(before.value + [last.value])
  {
  }

  lemma NoRows(key: OptionKey)
    ensures AllGood(key, []) && RowsTaken(key, [], [])
  {
    assert Filled(key, [], 0) == {};
  }

  ghost predicate QuestionsAre(items: seq<Json>) {
    var rows := Rows(QuestionRow, items);
    (rows.Some? <==> AllGood(AskExamples, items)) && (rows.Some? ==> RowsTaken(AskExamples, items, Asked(rows.value)))
  }

  lemma NoQuestions()
    ensures QuestionsAre([])
  {
    NoRows(AskExamples);
    assert Asked([]) == [];
  }

  lemma {:induction false} QuestionsTaken(items: seq<Json>)
    ensures QuestionsAre(items)
  {
    if items == [] {
      NoQuestions();
    } else {
      hide Rows, QuestionRow, RowGood, RowText, RowShown, RowsTaken, AllGood, Asked;
      var n := |items| - 1;
      QuestionsTaken(items[..n]);
      QuestionRowIs(items[n]);
      RowsStep(QuestionRow, items);
      AllGoodStep(AskExamples, items);
      if Rows(QuestionRow, items).Some? {
        var before := Rows(QuestionRow, items[..n]).value;
        RowsTakenStep(AskExamples, items, Asked(before));
        if QuestionRow(items[n]).Taken? {
          AskedMore(before, QuestionRow(items[n]).value);
        }
      }
    }
  }

  ghost predicate TopicsAre(items: seq<Json>) {
    var rows := Rows(TopicRow, items);
    (rows.Some? <==> AllGood(TopicChips, items)) && (rows.Some? ==> RowsTaken(TopicChips, items, rows.value))
  }

  lemma NoTopics()
    ensures TopicsAre([])
  {
    NoRows(TopicChips);
  }

  lemma AskedMore(questions: seq<string>, q: string)
    ensures Asked(questions + [q]) == Asked(questions) + [Topic(q, [])]
  {
  }

  lemma {:induction false} TopicsTaken(items: seq<Json>)
    ensures TopicsAre(items)
  {
    if items == [] {
      NoTopics();
    } else {
      hide Rows, TopicRow, RowGood, RowText, RowShown, RowsTaken, AllGood;
      var n := |items| - 1;
      TopicsTaken(items[..n]);
      TopicRowIs(items[n]);
      RowsStep(TopicRow, items);
      AllGoodStep(TopicChips, items);
      if Rows(TopicRow, items).Some? {
        var before := Rows(TopicRow, items[..n]).value;
        RowsTakenStep(TopicChips, items, before);
      }
    }
  }

  /** Exactly which values an option takes: one of its list, a yes or no, or rows that are all good. */
  lemma OptionTakes(key: OptionKey, v: Json)
    ensures Checked(key, v).Some? <==>
      match key
      case TopicChips => v.Arr? && |v.items| <= 4 && AllGood(key, v.items)
      case AskExamples => v.Arr? && |v.items| <= 2 && AllGood(key, v.items)
      case Csat => v.Bool?
      case TranscriptEmail => v.Bool?
      case _ => v.Str? && v.s in ChoicesOf(key)
  {
    hide TopicRow, QuestionRow, AllGood;
    if v.Arr? {
      TopicsTaken(v.items);
      QuestionsTaken(v.items);
    }
  }

  /** And what it makes of them. */
  lemma OptionMakes(key: OptionKey, v: Json)
    requires Checked(key, v).Some?
    ensures var x := Checked(key, v).value;
      match key
      case TopicChips => x.Topics? && v.Arr? && RowsTaken(key, v.items, x.topics)
      case AskExamples => x.Questions? && v.Arr? && RowsTaken(key, v.items, Asked(x.questions))
      case Csat => (v == Bool(true) && x == Switch(true)) || (v == Bool(false) && x == Switch(false))
      case TranscriptEmail => (v == Bool(true) && x == Switch(true)) || (v == Bool(false) && x == Switch(false))
      case _ => v.Str? && x == Choice(v.s)
  {
    hide TopicRow, QuestionRow, RowsTaken;
    if v.Arr? {
      TopicsTaken(v.items);
      QuestionsTaken(v.items);
    }
  }

  // ----- templates

  /** The rating belongs to every template, the transcript to all but the plain kits, and so on. */
  lemma KeysOfTemplates(id: TemplateId, key: OptionKey)
    ensures key in KeySet(id) <==>
      match key
      case Csat => true
      case TranscriptEmail => id != DefaultKit && id != Intl
      case TopicChips => id != DefaultKit && id != Intl
      case NavStyle => id == T1 || id == T1Intl
      case NavMode => id == T1 || id == T1Intl
      case PrechatMode => id == T1 || id == T1Intl
      case AskExamples => id == T2 || id == T2Intl
      case LogoDirection => id == T1Intl || id == T2Intl
  {
  }

  /** What a template wears when nobody has set anything. */
  lemma UntouchedOptions(site: Site, id: TemplateId, key: OptionKey)
    requires id in Offered(site.edition) && key in KeySet(id)
    ensures WidgetOptions(CatalogOf(site, Null), id, Null).Keys == KeySet(id)
    ensures WidgetOptions(CatalogOf(site, Null), id, Null)[key] ==
      match key
      case NavStyle => Choice("vb")
      case NavMode => Choice("active")
      case PrechatMode => Choice("card")
      case LogoDirection => Choice("thread")
      case TopicChips => Topics([])
      case AskExamples => Questions([])
      case Csat => Switch(true)
      case TranscriptEmail => Switch(false)
  {
    hide CatalogOf, WidgetOptions, Offered, KeySet, OptionsIn, ReadStored;
    WidgetOptionsLayered(site, Null, id, Null);
    NothingSet(id);
  }

  lemma NothingSet(id: TemplateId)
    ensures OptionsIn(Null, KeySet(id)) == map[] && ReadStored(Null, id).options == map[]
  {
    hide KeySet, NamesIn;
  }

  /** And what the catalog holds for it. */
  lemma UntouchedEntry(site: Site, id: TemplateId, key: OptionKey)
    requires id in Offered(site.edition) && key in KeySet(id)
    ensures var e := Find(CatalogOf(site, Null).entries, id);
      && e.Some? && e.value.names == map[] && e.value.options.Keys == KeySet(id)
      && e.value.options[key] ==
           match key
           case NavStyle => Choice("vb")
           case NavMode => Choice("active")
           case PrechatMode => Choice("card")
           case LogoDirection => Choice("thread")
           case TopicChips => Topics([])
           case AskExamples => Questions([])
           case Csat => Switch(true)
           case TranscriptEmail => Switch(true)
  {
    hide CatalogOf, Offered, KeySet, ReadStored, Find, ShownEntry, Defaults;
    CatalogShape(site, Null);
    ShownOptions(site, Null, id);
    NothingSet(id);
    NothingNamed(site, id);
    DefaultKeys(id);
    assert Defaults(id) + map[] == Defaults(id);
  }

  lemma NothingNamed(site: Site, id: TemplateId)
    ensures ShownEntry(site, Null, id).names == map[]
  {
    hide CatalogOf, KeySet, NameRead;
    NoNames(Null);
  }

  /** How an id is spelled, and the editions that offer it. */
  function Spelling(id: TemplateId): string {
    match id
    case DefaultKit => "default"
    case Intl => "intl"
    case T1 => "t1"
    case T1Intl => "t1-intl"
    case T2 => "t2"
    case T2Intl => "t2-intl"
  }

  predicate OfferedIn(e: Edition, id: TemplateId) {
    if e == Iran then id == DefaultKit || id == T1 || id == T2 else id == Intl || id == T1Intl || id == T2Intl
  }

  function Place(id: TemplateId): int {
    if id == DefaultKit || id == Intl then 0 else if id == T1 || id == T1Intl then 1 else 2
  }

  lemma PlaceIs(e: Edition, id: TemplateId)
    ensures Position(id) == Place(id) && (id in Offered(e) <==> OfferedIn(e, id)) && IdName(id) == Spelling(id)
    ensures id == EditionDefault(e) <==> OfferedIn(e, id) && Place(id) == 0
  {
  }

  /** An id names the offered template it spells, in any case and with white space around it; with the Iran kit the old
      name of the default too. */
  lemma IdNames(site: Site, s: string, id: TemplateId)
    ensures CanonicalId(site, Str(s)) == Some(id) <==>
      && OfferedIn(site.edition, id)
      && (SameButCase(Trim(s), Spelling(id)) || (site.iranKit && id == DefaultKit && SameButCase(Trim(s), "web-yar")))
  {
    hide Trim, Lower, SameButCase, Offered;
    PlaceIs(site.edition, id);
    var raw := Lookup(site.iranKit, NormalizeId(s));
    if raw.Some? {
      PlaceIs(site.edition, raw.value);
    }
    var t := Trim(s);
    WordRead(t, "default");
    WordRead(t, "web-yar");
    WordRead(t, "intl");
    WordRead(t, "t1");
    WordRead(t, "t2");
    WordRead(t, "t1-intl");
    WordRead(t, "t2-intl");
  }

  /** What an entry of the catalog is, in the stored row's own fields. */
  lemma EntryReads(site: Site, stored: Json, id: TemplateId)
    requires OfferedIn(site.edition, id)
    ensures var c := CatalogOf(site, stored);
      var item := Fields(Get(Fields(Get(Fields(stored), ItemsKey)), OfTemplate(id)));
      Find(c.entries, id).Some? &&
      var e := Find(c.entries, id).value;
      && (e.enabled <==> id == c.defaultId || Get(item, EnabledKey) == Bool(true)
                         || (!Get(item, EnabledKey).Bool? && Place(id) == 0))
      && (forall n :: Get(item, OrderKey) == Whole(n) && 0 <= n <= 99 ==> e.order == n)
      && ((forall n :: 0 <= n <= 99 ==> Get(item, OrderKey) != Whole(n)) ==> e.order == Place(id))
  {
    hide CatalogOf, Offered, Find, OptionsIn, NamesIn, Defaults;
    PlaceIs(site.edition, id);
    CatalogShape(site, stored);
  }

  /** The list stands by order, and within one order as the edition lists its templates. */
  lemma EntriesStand(site: Site, stored: Json, i: int, j: int)
    requires 0 <= i < j < |CatalogOf(site, stored).entries|
    ensures var es := CatalogOf(site, stored).entries;
      es[i].order < es[j].order || (es[i].order == es[j].order && Place(es[i].id) <= Place(es[j].id))
  {
    hide CatalogOf;
    MembersShown(site, stored);
    var es := CatalogOf(site, stored).entries;
    assert Before(es[i], es[j]);
    PlaceIs(site.edition, es[i].id);
    PlaceIs(site.edition, es[j].id);
  }

  /** The default is the stored one when that names an offered template that the row enables (or, saying nothing of it,
      the edition does), and otherwise the edition's first. */
  lemma DefaultReads(site: Site, stored: Json)
    ensures var id := CatalogOf(site, stored).defaultId;
      var named := Get(Fields(stored), DefaultKey);
      && OfferedIn(site.edition, id)
      && (Place(id) == 0 || (named.Str? && SameButCase(Trim(named.s), Spelling(id))))
      && forall other: TemplateId ::
           (OfferedIn(site.edition, other) && named.Str? && SameButCase(Trim(named.s), Spelling(other))
            && EnabledInRow(stored, other)) ==> id == other
  {
    hide CatalogOf, EntryOf, SameButCase, Trim, CanonicalId, Offered;
    CatalogShape(site, stored);
    var id := CatalogOf(site, stored).defaultId;
    var named := Get(Fields(stored), DefaultKey);
    PlaceIs(site.edition, id);
    if named.Str? {
      IdNames(site, named.s, id);
    } else {
      NoName(site, named);
    }
    forall other: TemplateId | OfferedIn(site.edition, other) && named.Str?
      && SameButCase(Trim(named.s), Spelling(other)) && EnabledInRow(stored, other)
      ensures id == other
    {
      IdNames(site, named.s, other);
      EnabledReads(site, stored, other);
    }
  }

  lemma NoName(site: Site, named: Json)
    requires !named.Str?
    ensures CanonicalId(site, named) == None
  {
  }

  /** The row enables the template, or says nothing of it and it is its edition's first. */
  predicate EnabledInRow(stored: Json, id: TemplateId) {
    var item := Fields(Get(Fields(Get(Fields(stored), ItemsKey)), OfTemplate(id)));
    Get(item, EnabledKey) == Bool(true) || (!Get(item, EnabledKey).Bool? && Place(id) == 0)
  }

  lemma EnabledReads(site: Site, stored: Json, id: TemplateId)
    requires OfferedIn(site.edition, id)
    ensures EntryOf(site, stored, id).enabled <==> EnabledInRow(stored, id)
  {
    hide OptionsIn, NamesIn, Defaults;
    PlaceIs(site.edition, id);
  }

  // ----- saves

  /** A body's id must be spelled as the offered template's own name. */
  lemma ExactlyNames(site: Site, name: string, id: TemplateId)
    ensures ExactId(site, name) == Some(id) <==>
      OfferedIn(site.edition, id) && SameButCase(Trim(name), Spelling(id))
  {
    hide Trim, Lower, SameButCase, CanonicalId, OfferedIn;
    IdNames(site, name, id);
    PlaceIs(site.edition, id);
    WordRead(Trim(name), "default");
    WordRead(Trim(name), "intl");
    WordRead(Trim(name), "t1");
    WordRead(Trim(name), "t2");
    WordRead(Trim(name), "t1-intl");
    WordRead(Trim(name), "t2-intl");
    var found := CanonicalId(site, Str(name));
    if found.Some? {
      IdNames(site, name, found.value);
      PlaceIs(site.edition, found.value);
    }
  }

  /** The name typed in a language: its words. */
  function Typed(t: Template, l: Locale): string {
    if l in t.names then Joined(Words(Stripped(t.names[l]))) else []
  }

  ghost predicate OrderFits(t: Template) {
    t.order.None? || exists n :: 0 <= n <= 99 && t.order == Some(Whole(n))
  }

  ghost predicate NamesFit(t: Template) {
    forall l: Locale :: |Typed(t, l)| <= 40
  }

  ghost predicate OptionsFit(id: TemplateId, t: Template) {
    t.options == Null
    || (t.options.Obj?
        && forall k :: k in KeySet(id) && OfOption(k) in t.options.fields ==>
             Checked(k, t.options.fields[OfOption(k)]).Some?)
  }

  lemma CleanNameIs(t: Template, l: Locale)
    ensures CleanName(t, l) == Typed(t, l)
  {
    hide CleanText, Words, Joined, Stripped;
    if l in t.names {
      TypedText(t.names[l]);
    }
  }

  /** What a body may ask of one template: an order from 0 to 99, names of at most 40 characters, valid options. */
  lemma TemplateFits(id: TemplateId, t: Template)
    ensures OrderOk(t) <==> OrderFits(t)
    ensures NamesOk(t) <==> NamesFit(t)
    ensures OptionsOk(id, t) <==> OptionsFit(id, t)
  {
    hide CleanName, Typed, Checked, Keys;
    forall l: Locale
      ensures CleanName(t, l) == Typed(t, l) && l in {Fa, En, Tr}
    {
      assert l.Fa? || l.En? || l.Tr?;
      CleanNameIs(t, l);
    }
    if OrderOk(t) && t.order.Some? {
      assert t.order == Some(Whole(t.order.value.n));
    }
  }

  /** The option asked for when it is valid, else the code's. */
  function AskedOption(t: Template, k: OptionKey): OptionValue {
    var given := Fields(t.options);
    if OfOption(k) in given && Checked(k, given[OfOption(k)]).Some? then Checked(k, given[OfOption(k)]).value
    else OptionDefault(k)
  }

  /** The templates of a body may be stored: each named as offered, once, and fitting. */
  ghost predicate BodyFits(site: Site, ts: seq<Template>) {
    && (forall i :: 0 <= i < |ts| ==>
          && ExactId(site, ts[i].id).Some? && OrderFits(ts[i]) && NamesFit(ts[i])
          && OptionsFit(ExactId(site, ts[i].id).value, ts[i]))
    && (forall i, j :: 0 <= i < j < |ts| ==> ExactId(site, ts[i].id) != ExactId(site, ts[j].id))
  }

  lemma TemplatesFit(site: Site, ts: seq<Template>)
    ensures TemplatesOk(site, ts) <==> BodyFits(site, ts)
  {
    hide ExactId, OrderFits, NamesFit, OptionsFit, OrderOk, NamesOk, OptionsOk;
    forall i | 0 <= i < |ts| && ExactId(site, ts[i].id).Some?
      ensures TemplateOk(ExactId(site, ts[i].id).value, ts[i]) <==>
        OrderFits(ts[i]) && NamesFit(ts[i]) && OptionsFit(ExactId(site, ts[i].id).value, ts[i])
    {
      TemplateFits(ExactId(site, ts[i].id).value, ts[i]);
    }
  }

  /** Enabled after the save: by the body's own template, else by the row as it was. */
  ghost predicate EnabledThen(site: Site, body: Body, previous: Json, id: TemplateId) {
    if exists t :: t in body.templates && ExactId(site, t.id) == Some(id)
    then exists t :: t in body.templates && ExactId(site, t.id) == Some(id) && t.enabled
    else EnabledInRow(previous, id)
  }

  lemma EnabledThenIs(site: Site, body: Body, previous: Json, id: TemplateId)
    requires OfferedIn(site.edition, id)
    ensures EnabledAfter(site, body, previous, id) <==> EnabledThen(site, body, previous, id)
  {
    hide ExactId, EntryOf, EnabledInRow;
    EnabledReads(site, previous, id);
    var ts := body.templates;
    NamedMembers(site, ts);
    if t :| t in ts && ExactId(site, t.id) == Some(id) {
      var i :| 0 <= i < |ts| && ts[i] == t;
    }
    if id in NamedIn(site, ts) {
      var i :| 0 <= i < |ts| && ExactId(site, ts[i].id) == Some(id);
      assert ts[i] in ts;
    }
  }

  /** A save is accepted exactly when its templates fit, and the default it asks for names an offered template that is
      enabled then. */
  lemma SaveTakes(site: Site, body: Body, previous: Json)
    ensures Save(site, body, previous).Saved? <==>
      && BodyFits(site, body.templates)
      && exists id :: CanonicalId(site, Str(body.defaultId)) == Some(id) && EnabledThen(site, body, previous, id)
  {
    hide Save, BodyFits, EnabledThen, EnabledAfter, TemplatesOk, CanonicalId;
    AcceptedIff(site, body, previous);
    TemplatesFit(site, body.templates);
    var id := CanonicalId(site, Str(body.defaultId));
    if id.Some? {
      PlaceIs(site.edition, id.value);
      EnabledThenIs(site, body, previous, id.value);
    }
  }

  /** The entry a template of an accepted body reads back as. */
  lemma RequestedReads(id: TemplateId, t: Template)
    requires OrderFits(t)
    ensures OrderOk(t)
    ensures var e := Requested(id, t);
      && e.id == id && e.enabled == t.enabled
      && (t.order.None? ==> e.order == Place(id)) && (t.order.Some? ==> t.order.value == Whole(e.order))
      && (forall l: Locale :: (l in e.names <==> Typed(t, l) != []) && (l in e.names ==> e.names[l] == Typed(t, l)))
      && e.options.Keys == KeySet(id)
      && (forall k :: k in KeySet(id) ==> e.options[k] == AskedOption(t, k))
  {
    hide CleanName, Typed, Checked, KeySet, OptionDefault;
    PlaceIs(Iran, id);
    DefaultKeys(id);
    TemplateFits(id, t);
    forall l: Locale
      ensures CleanName(t, l) == Typed(t, l) && l in {Fa, En, Tr}
    {
      assert l.Fa? || l.En? || l.Tr?;
      CleanNameIs(t, l);
    }
  }

  /** Template `k` of the body is the first that is wrong, and for this reason. */
  ghost predicate WrongAt(site: Site, ts: seq<Template>, k: nat, problem: Problem)
    requires k < |ts|
  {
    var named := ExactId(site, ts[k].id);
    && BodyFits(site, ts[..k])
    && match problem
       case TemplateNotOffered(name) => name == ts[k].id && named.None?
       case DuplicateTemplate(id) => named == Some(id) && exists j :: 0 <= j < k && ExactId(site, ts[j].id) == Some(id)
       case InvalidOrder(id) => named == Some(id) && !OrderFits(ts[k])
       case NameTooLong(id) => named == Some(id) && OrderFits(ts[k]) && !NamesFit(ts[k])
       case InvalidOptions(id) => named == Some(id) && NamesFit(ts[k]) && !OptionsFit(id, ts[k])
       case NoTemplateEnabled => false
       case DefaultNotEnabled => false
  }

  ghost predicate SomeWrong(site: Site, ts: seq<Template>, problem: Problem) {
    exists k :: 0 <= k < |ts| && WrongAt(site, ts, k, problem)
  }

  lemma StepProblem(site: Site, ts: seq<Template>, items: map<TemplateId, Item>, n: nat)
    requires n < |ts| && TemplatesOk(site, ts[..n])
    requires Step(site, ts[n], NamedIn(site, ts[..n]), items).Rejected?
    ensures WrongAt(site, ts, n, Step(site, ts[n], NamedIn(site, ts[..n]), items).problem)
  {
    hide ExactId, OrderFits, NamesFit, OptionsFit, TemplatesOk, BodyFits, OrderOk, NamesOk, OptionsOk, TemplateItem,
      NamedIn;
    var id := ExactId(site, ts[n].id);
    TemplatesFit(site, ts[..n]);
    NamedMembers(site, ts[..n]);
    if id.Some? {
      TemplateFits(id.value, ts[n]);
      if id.value in NamedIn(site, ts[..n]) {
        var j :| 0 <= j < n && ExactId(site, ts[..n][j].id) == Some(id.value);
        assert ts[j] == ts[..n][j];
      }
    }
  }

  lemma {:induction false} GatherProblem(site: Site, ts: seq<Template>, kept: map<TemplateId, Item>)
    requires Gather(site, ts, kept).Rejected?
    ensures SomeWrong(site, ts, Gather(site, ts, kept).problem)
  {
    hide Step, TemplatesOk, NamedIn, WrongAt;
    var n := |ts| - 1;
    if Gather(site, ts[..n], kept).Rejected? {
      GatherProblem(site, ts[..n], kept);
      var k :| 0 <= k < n && WrongAt(site, ts[..n], k, Gather(site, ts[..n], kept).problem);
      WrongAlso(site, ts, n, k, Gather(site, ts[..n], kept).problem);
    } else {
      GatherAccepts(site, ts[..n], kept);
      StepProblem(site, ts, Gather(site, ts[..n], kept).value, n);
    }
  }

  lemma WrongAlso(site: Site, ts: seq<Template>, n: nat, k: nat, problem: Problem)
    requires k < n <= |ts| && WrongAt(site, ts[..n], k, problem)
    ensures WrongAt(site, ts, k, problem)
  {
    hide ExactId, OrderFits, NamesFit, OptionsFit, BodyFits;
    assert ts[..n][..k] == ts[..k] && ts[..n][k] == ts[k];
    assert forall j :: 0 <= j < k ==> ts[..n][j] == ts[j];
  }

  /** A refusal is true: the first template that is wrong, and what is wrong with it; or, with none wrong, that no
      template would be enabled, or that the default asked for would not be. */
  lemma RefusalIsTrue(site: Site, body: Body, previous: Json)
    requires Save(site, body, previous).Rejected?
    ensures var problem := Save(site, body, previous).problem;
      var wanted := CanonicalId(site, Str(body.defaultId));
      if problem == NoTemplateEnabled || problem == DefaultNotEnabled then
        && BodyFits(site, body.templates)
        && (problem == NoTemplateEnabled <==>
              forall id :: OfferedIn(site.edition, id) ==> !EnabledThen(site, body, previous, id))
        && (wanted.None? || !EnabledThen(site, body, previous, wanted.value))
      else SomeWrong(site, body.templates, problem)
  {
    hide CanonicalId, Gather, Kept, EnabledAmong, EnabledAfter, TemplatesOk, Overlaid, SomeWrong, Offered, BodyFits,
      EnabledThen, OfferedIn;
    var kept := Kept(site, previous);
    if Gather(site, body.templates, kept).Rejected? {
      GatherProblem(site, body.templates, kept);
      SomeWrongIs(site, body.templates, Gather(site, body.templates, kept).problem);
    } else {
      GatherAccepts(site, body.templates, kept);
      GatherOverlays(site, body.templates, kept);
      TemplatesFit(site, body.templates);
      var items := Gather(site, body.templates, kept).value;
      forall id: TemplateId
        ensures id in Offered(site.edition) <==> OfferedIn(site.edition, id)
        ensures OfferedIn(site.edition, id) ==>
          (EnabledAmong(site.edition, items, id) <==> EnabledThen(site, body, previous, id))
      {
        PlaceIs(site.edition, id);
        if OfferedIn(site.edition, id) {
          EnabledItems(site, body, previous, items, id);
          EnabledThenIs(site, body, previous, id);
        }
      }
    }
  }

  lemma SomeWrongIs(site: Site, ts: seq<Template>, problem: Problem)
    requires SomeWrong(site, ts, problem)
    ensures problem != NoTemplateEnabled && problem != DefaultNotEnabled
  {
    hide ExactId, OrderFits, NamesFit, OptionsFit, BodyFits;
  }
}
