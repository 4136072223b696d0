/** An edition's catalog of chat widget templates, as it is read and as a save writes it
    (shared/chatTemplateCatalog.ts). */
module TemplateCatalog {
  import opened Options
  import opened Text
  import opened Sorting
  import opened TemplateOptions
  import opened Editions

  /** The edition, and whether the build ships the Iran kit (which knows a legacy id). */
  datatype Site = Site(edition: Edition, iranKit: bool)

  function Offered(e: Edition): seq<TemplateId> {
    match e
    case Iran => [DefaultKit, T1, T2]
    case International => [Intl, T1Intl, T2Intl]
  }

  function EditionDefault(e: Edition): TemplateId {
    if e == Iran then DefaultKit else Intl
  }

  function Position(id: TemplateId): nat {
    match id
    case DefaultKit => 0 case Intl => 0
    case T1 => 1 case T1Intl => 1
    case T2 => 2 case T2Intl => 2
  }

  function Keys(id: TemplateId): seq<OptionKey> {
    match id
    case DefaultKit => [Csat]
    case Intl => [Csat]
    case T1 => [NavStyle, NavMode, TopicChips, PrechatMode, Csat, TranscriptEmail]
    case T2 => [TopicChips, AskExamples, Csat, TranscriptEmail]
    case T1Intl => [LogoDirection, NavStyle, NavMode, TopicChips, PrechatMode, Csat, TranscriptEmail]
    case T2Intl => [LogoDirection, TopicChips, AskExamples, Csat, TranscriptEmail]
  }

  function KeySet(id: TemplateId): set<OptionKey> {
    Members(Keys(id))
  }

  function OptionDefault(key: OptionKey): OptionValue {
    match key
    case NavStyle => Choice("vb")
    case NavMode => Choice("active")
    case TopicChips => Topics([])
    case AskExamples => Questions([])
    case PrechatMode => Choice("card")
    case Csat => Switch(true)
    case TranscriptEmail => Switch(true)
    case LogoDirection => Choice("thread")
  }

  function Defaults(id: TemplateId): map<OptionKey, OptionValue> {
    map k | k in KeySet(id) :: OptionDefault(k)
  }

  // ----- ids

  function IdName(id: TemplateId): string {
    match id
    case DefaultKit => "default" case Intl => "intl"
    case T1 => "t1" case T1Intl => "t1-intl"
    case T2 => "t2" case T2Intl => "t2-intl"
  }

  function NormalizeId(s: string): string {
    Lower(Trim(s))
  }

  /** The template a normalised id names, a legacy id included. */
  function Lookup(iranKit: bool, raw: string): Option<TemplateId> {
    if raw == "default" || (iranKit && raw == "web-yar") then Some(DefaultKit)
    else if raw == "intl" then Some(Intl)
    else if raw == "t1" then Some(T1)
    else if raw == "t2" then Some(T2)
    else if raw == "t1-intl" then Some(T1Intl)
    else if raw == "t2-intl" then Some(T2Intl)
    else None
  }

  function CanonicalId(site: Site, requested: Json): (r: Option<TemplateId>)
    ensures r.Some? ==> r.value in Offered(site.edition)
  {
    if !requested.Str? then None
    else
      var id := Lookup(site.iranKit, NormalizeId(requested.s));
      if id.Some? && id.value in Offered(site.edition) then id else None
  }

  lemma NameNormal(id: TemplateId)
    ensures NormalizeId(IdName(id)) == IdName(id)
  {
    hide IsSpace;
    var s := IdName(id);
    assert forall i :: 0 <= i < |s| ==> s[i] == '-' || '0' <= s[i] <= '9' || 'a' <= s[i] <= 'z';
    assert !IsSpace(s[0]) && !IsSpace(s[|s| - 1]) by { IdLetters(); }
    TrimTidy(s);
    LowerKeeps(s);
  }

  lemma IdLetters()
    ensures forall c :: '0' <= c <= '9' || 'a' <= c <= 'z' ==> !IsSpace(c)
  {
  }

  /** An offered template's own name, as a save stores it, reads back as that template. */
  lemma NameReadsBack(site: Site, id: TemplateId)
    requires id in Offered(site.edition)
    ensures CanonicalId(site, Str(IdName(id))) == Some(id)
  {
    hide Trim, Lower, NormalizeId;
    NameNormal(id);
  }

  // ----- stored items

  datatype Item = Item(enabled: Option<bool>, order: Option<int>, names: map<Locale, string>, options: map<OptionKey,
                       OptionValue>)

  predicate IsOrderNumber(n: int) {
    0 <= n <= 99
  }

  function StoredItems(stored: Json): map<Key, Json> {
    Fields(Get(Fields(stored), ItemsKey))
  }

  function StoredItem(stored: Json, id: TemplateId): Json {
    Get(StoredItems(stored), OfTemplate(id))
  }

  /** A stored item, read leniently: whatever is not valid is left out. */
  function ReadItem(id: TemplateId, raw: Json): Item {
    var f := Fields(raw);
    var order := Get(f, OrderKey);
    Item(if Get(f, EnabledKey).Bool? then Some(Get(f, EnabledKey).b) else None,
         if order.Whole? && IsOrderNumber(order.n) then Some(order.n) else None,
         NamesIn(Get(f, NameKey)),
         OptionsIn(Get(f, OptionsKey), KeySet(id)))
  }

  function ReadStored(stored: Json, id: TemplateId): Item {
    ReadItem(id, StoredItem(stored, id))
  }

  // ----- reading the catalog

  datatype Entry = Entry(id: TemplateId, enabled: bool, order: int, names: map<Locale, string>,
                         options: map<OptionKey, OptionValue>)

  datatype Catalog = Catalog(site: Site, defaultId: TemplateId, entries: seq<Entry>)

  predicate EnabledIn(e: Edition, id: TemplateId, item: Item) {
    if item.enabled.Some? then item.enabled.value else id == EditionDefault(e)
  }

  function EntryFrom(e: Edition, id: TemplateId, item: Item): Entry {
    Entry(id, EnabledIn(e, id, item), if item.order.Some? then item.order.value else Position(id),
          item.names, Defaults(id) + item.options)
  }

  function EntryOf(site: Site, stored: Json, id: TemplateId): (e: Entry)
    ensures e.id == id
  {
    EntryFrom(site.edition, id, ReadStored(stored, id))
  }

  /** The Super Admin's order, then the edition's. */
  predicate Before(a: Entry, b: Entry) {
    a.order < b.order || (a.order == b.order && Position(a.id) <= Position(b.id))
  }

  function EntriesOf(site: Site, stored: Json, ids: seq<TemplateId>): (r: seq<Entry>)
    ensures |r| == |ids|
    ensures forall i :: 0 <= i < |ids| ==> r[i] == EntryOf(site, stored, ids[i])
  {
    seq(|ids|, i requires 0 <= i < |ids| => EntryOf(site, stored, ids[i]))
  }

  function Entries(site: Site, stored: Json): seq<Entry> {
    Sort(Before, EntriesOf(site, stored, Offered(site.edition)))
  }

  /** The first entry of `id`, as Array.prototype.find sees it. */
  function Find(entries: seq<Entry>, id: TemplateId): (r: Option<Entry>)
    ensures r.Some? ==> r.value in entries && r.value.id == id
    ensures r.None? ==> forall e :: e in entries ==> e.id != id
  {
    if entries == [] then None
    else if entries[0].id == id then Some(entries[0])
    else Find(entries[1..], id)
  }

  function Force(entries: seq<Entry>, id: TemplateId): (r: seq<Entry>)
    ensures |r| == |entries|
    ensures forall i :: 0 <= i < |entries| ==> r[i] == Forced(entries[i], id)
  {
    seq(|entries|, i requires 0 <= i < |entries| => Forced(entries[i], id))
  }

  function Forced(e: Entry, id: TemplateId): Entry {
    if e.id == id then e.(enabled := true) else e
  }

  /** The stored default, when it is an offered and enabled template. */
  function StoredDefault(site: Site, stored: Json): Option<TemplateId> {
    var wanted := CanonicalId(site, Get(Fields(stored), DefaultKey));
    if wanted.Some? && EntryOf(site, stored, wanted.value).enabled then wanted else None
  }

  function CatalogOf(site: Site, stored: Json): Catalog {
    var chosen := StoredDefault(site, stored);
    if chosen.Some? then Catalog(site, chosen.value, Entries(site, stored))
    else Catalog(site, EditionDefault(site.edition), Force(Entries(site, stored), EditionDefault(site.edition)))
  }

  // ----- what the entries are

  lemma BeforeIsOrder()
    ensures IsOrder(Before)
  {
    hide Position;
  }

  lemma OfferedDistinct(e: Edition)
    ensures Distinct(Offered(e)) && EditionDefault(e) in Offered(e)
    ensures forall i :: 0 <= i < |Offered(e)| ==> Position(Offered(e)[i]) == i
  {
  }

  ghost predicate OnePerId(entries: seq<Entry>) {
    forall i, j :: 0 <= i < j < |entries| ==> entries[i].id != entries[j].id
  }

  lemma EntriesAre(site: Site, stored: Json)
    ensures var es := Entries(site, stored);
      && SortedBy(Before, es) && OnePerId(es)
      && (forall e :: e in es <==> e.id in Offered(site.edition) && e == EntryOf(site, stored, e.id))
  {
    hide EntryOf, Offered, Before, Sort, IsOrder, SortedBy;
    var ids := Offered(site.edition);
    var unsorted := EntriesOf(site, stored, ids);
    BeforeIsOrder();
    SortSorts(Before, unsorted);
    OfferedDistinct(site.edition);
    forall e
      ensures e in unsorted <==> e.id in ids && e == EntryOf(site, stored, e.id)
    {
      if e.id in ids {
        var i :| 0 <= i < |ids| && ids[i] == e.id;
        assert unsorted[i] == EntryOf(site, stored, e.id);
      }
    }
    SortKeepsMembers(Before, unsorted);
    SortKeepsDistinct(Before, unsorted);
    var es := Entries(site, stored);
    forall i, j | 0 <= i < j < |es|
      ensures es[i].id != es[j].id
    {
      assert es[i] in es && es[j] in es;
    }
  }

  lemma {:induction false} FindOne(entries: seq<Entry>, e: Entry)
    requires OnePerId(entries) && e in entries
    ensures Find(entries, e.id) == Some(e)
  {
    if entries[0] == e {
    } else {
      var i :| 0 <= i < |entries| && entries[i] == e;
      assert entries[1..][i - 1] == e;
      FindOne(entries[1..], e);
    }
  }

  lemma EntryFound(site: Site, stored: Json, id: TemplateId)
    requires id in Offered(site.edition)
    ensures Find(Entries(site, stored), id) == Some(EntryOf(site, stored, id))
  {
    hide EntryOf, Entries, Offered;
    EntriesAre(site, stored);
    FindOne(Entries(site, stored), EntryOf(site, stored, id));
  }

  /** `ids` holds each of the edition's templates once, and nothing else. */
  ghost predicate IsOffer(e: Edition, ids: seq<TemplateId>) {
    Distinct(ids) && forall id :: id in ids <==> id in Offered(e)
  }

  function Ids(entries: seq<Entry>): (r: seq<TemplateId>)
    ensures |r| == |entries|
    ensures forall i :: 0 <= i < |entries| ==> r[i] == entries[i].id
  {
    seq(|entries|, i requires 0 <= i < |entries| => entries[i].id)
  }

  /** The stored row's own entry, enabled too when it is the default. */
  function ShownEntry(site: Site, stored: Json, id: TemplateId): Entry {
    var e := EntryOf(site, stored, id);
    e.(enabled := e.enabled || id == CatalogOf(site, stored).defaultId)
  }

  /** Forcing the default on changes that entry's flag and nothing else. */
  lemma ShownAt(site: Site, stored: Json)
    ensures var es, c := Entries(site, stored), CatalogOf(site, stored);
      |c.entries| == |es| && forall i :: 0 <= i < |es| ==> c.entries[i] == ShownEntry(site, stored, es[i].id)
  {
    hide EntryOf, Entries, Offered, CanonicalId;
    EntriesAre(site, stored);
    var es := Entries(site, stored);
    forall i | 0 <= i < |es|
      ensures CatalogOf(site, stored).entries[i] == ShownEntry(site, stored, es[i].id)
    {
      assert es[i] in es;
    }
  }

  lemma MembersShown(site: Site, stored: Json)
    ensures OnePerId(CatalogOf(site, stored).entries) && SortedBy(Before, CatalogOf(site, stored).entries)
    ensures forall e :: e in CatalogOf(site, stored).entries <==>
      e.id in Offered(site.edition) && e == ShownEntry(site, stored, e.id)
  {
    hide EntryOf, Entries, Offered, Position, CanonicalId, CatalogOf, EnabledIn, StoredDefault;
    EntriesAre(site, stored);
    ShownAt(site, stored);
    var es := Entries(site, stored);
    var c := CatalogOf(site, stored);
    assert forall i :: 0 <= i < |es| ==> es[i] in es;
    forall e
      ensures e in c.entries <==> e.id in Offered(site.edition) && e == ShownEntry(site, stored, e.id)
    {
      if e in c.entries {
        var i :| 0 <= i < |c.entries| && c.entries[i] == e;
        assert es[i] in es;
      } else if e.id in Offered(site.edition) {
        var raw := EntryOf(site, stored, e.id);
        assert raw in es;
        var i :| 0 <= i < |es| && es[i] == raw;
        assert c.entries[i] in c.entries;
      }
    }
  }

  /** Whatever is stored, the catalog lists each offered template once, in order; each is enabled as stored, the
      default in any case; and the default is the stored one unless that is disabled, unknown or not offered. */
  lemma CatalogShape(site: Site, stored: Json)
    ensures var c := CatalogOf(site, stored);
      && IsOffer(site.edition, Ids(c.entries)) && SortedBy(Before, c.entries)
      && (forall id :: id in Offered(site.edition) ==> Find(c.entries, id) == Some(ShownEntry(site, stored, id)))
      && c.defaultId in Offered(site.edition) && Find(c.entries, c.defaultId).value.enabled
      && (if StoredDefault(site, stored).Some? then c.defaultId == StoredDefault(site, stored).value
          else c.defaultId == EditionDefault(site.edition))
  {
    hide EntryOf, Entries, Offered, Before, CanonicalId, ShownEntry;
    var c := CatalogOf(site, stored);
    MembersShown(site, stored);
    OfferedDistinct(site.edition);
    assert forall id :: ShownEntry(site, stored, id).id == id by { ShownIds(site, stored); }
    forall id
      ensures id in Offered(site.edition) ==> Find(c.entries, id) == Some(ShownEntry(site, stored, id))
      ensures id in Ids(c.entries) <==> id in Offered(site.edition)
    {
      var e := ShownEntry(site, stored, id);
      if id in Offered(site.edition) {
        assert e in c.entries;
        FindOne(c.entries, e);
        var i :| 0 <= i < |c.entries| && c.entries[i] == e;
        assert Ids(c.entries)[i] == id;
      }
    }
    assert ShownEntry(site, stored, c.defaultId).enabled by { ShownDefault(site, stored); }
  }

  lemma ShownIds(site: Site, stored: Json)
    ensures forall id :: ShownEntry(site, stored, id).id == id
  {
    hide EntryOf, CatalogOf;
  }

  lemma ShownDefault(site: Site, stored: Json)
    ensures ShownEntry(site, stored, CatalogOf(site, stored).defaultId).enabled
  {
    hide EntryOf, CatalogOf;
  }

  method ResolveCatalog(site: Site, stored: Json) returns (c: Catalog)
    ensures c == CatalogOf(site, stored)
  {
    hide EntryOf, Offered, EditionDefault, Sort, CanonicalId, Before, Position;
    var entries := Sort(Before, EntriesOf(site, stored, Offered(site.edition)));
    var wanted := CanonicalId(site, Get(Fields(stored), DefaultKey));
    assert entries == Entries(site, stored);
    if wanted.Some? {
      EntryFound(site, stored, wanted.value);
      if Find(entries, wanted.value).value.enabled {
        return Catalog(site, wanted.value, entries);
      }
    }
    EntriesAre(site, stored);
    OfferedDistinct(site.edition);
    EntryFound(site, stored, EditionDefault(site.edition));
    var k := 0;
    while entries[k].id != EditionDefault(site.edition)
      invariant 0 <= k < |entries|
      invariant forall i :: 0 <= i < k ==> entries[i].id != EditionDefault(site.edition)
      decreases |entries| - k
    {
      k := k + 1;
    }
    ghost var before := entries;
    entries := entries[k := entries[k].(enabled := true)];
    assert entries == Force(before, EditionDefault(site.edition));
    c := Catalog(site, EditionDefault(site.edition), entries);
  }

  // ----- what a workspace wears

  function EnabledIds(entries: seq<Entry>): (r: seq<TemplateId>)
    ensures forall id :: id in r <==> exists e :: e in entries && e.enabled && e.id == id
  {
    if entries == [] then []
    else
      assert entries == [entries[0]] + entries[1..];
      (if entries[0].enabled then [entries[0].id] else []) + EnabledIds(entries[1..])
  }

  function Worn(c: Catalog, requested: Json, planAllowsChoice: bool): TemplateId {
    if !planAllowsChoice then c.defaultId
    else
      var id := CanonicalId(c.site, requested);
      if id.Some? && id.value in EnabledIds(c.entries) then id.value else c.defaultId
  }

  /** `choice` is the template asked for, and it is enabled. */
  predicate IsEnabledChoice(site: Site, stored: Json, requested: Json, choice: TemplateId) {
    CanonicalId(site, requested) == Some(choice) && ShownEntry(site, stored, choice).enabled
  }

  /** A workspace wears its choice while that is offered, enabled and its plan allows it, else the default;
      either way a template that is offered and enabled. */
  lemma WornIsEnabled(site: Site, stored: Json, requested: Json, plan: bool)
    ensures var c := CatalogOf(site, stored);
      var id := Worn(c, requested, plan);
      && Find(c.entries, id).Some? && Find(c.entries, id).value.enabled && id in Offered(site.edition)
      && (id != c.defaultId ==> plan && CanonicalId(site, requested) == Some(id))
      && (forall choice :: IsEnabledChoice(site, stored, requested, choice) && plan ==> id == choice)
  {
    hide EntryOf, Entries, Offered, Before, CanonicalId, ShownEntry, StoredDefault, Force;
    var c := CatalogOf(site, stored);
    CatalogShape(site, stored);
    var id := Worn(c, requested, plan);
    if id != c.defaultId {
      var e :| e in c.entries && e.enabled && e.id == id;
      MembersShown(site, stored);
      FindOne(c.entries, e);
    }
    var wanted := CanonicalId(site, requested);
    if plan && wanted.Some? && ShownEntry(site, stored, wanted.value).enabled {
      assert ShownEntry(site, stored, wanted.value) in c.entries;
      ShownIds(site, stored);
    }
  }

  // ----- the widget's options

  /** VISITOR_EMAIL_FEATURES_ENABLED. */
  predicate VisitorEmail() { false }

  function WidgetOptions(c: Catalog, id: TemplateId, workspace: Json): map<OptionKey, OptionValue> {
    var entry := Find(c.entries, id);
    var admin := if entry.Some? then OptionsIn(OptionsJson(entry.value.options), KeySet(id)) else map[];
    var merged := Defaults(id) + admin + OptionsIn(workspace, KeySet(id));
    if !VisitorEmail() && TranscriptEmail in KeySet(id) then merged[TranscriptEmail := Switch(false)] else merged
  }

  lemma DefaultsSettled(id: TemplateId)
    ensures AllSettled(Defaults(id), KeySet(id))
  {
    hide Keys;
    forall k: OptionKey
      ensures Settled(k, OptionDefault(k))
    {
      if k == TopicChips || k == AskExamples {
        assert ValueJson(OptionDefault(k)) == Arr([]);
      }
    }
  }

  /** The widget gets every option its template reads and no other: the workspace's when valid, else the Super
      Admin's when valid, else the code's; the transcript by email is off while visitor email is. */
  lemma WidgetOptionsLayered(site: Site, stored: Json, id: TemplateId, workspace: Json)
    requires id in Offered(site.edition)
    ensures var got := WidgetOptions(CatalogOf(site, stored), id, workspace);
      var own, admin := OptionsIn(workspace, KeySet(id)), ReadStored(stored, id).options;
      && got.Keys == KeySet(id)
      && forall k :: k in KeySet(id) ==>
           got[k] == (if k == TranscriptEmail then Switch(false)
                      else if k in own then own[k] else if k in admin then admin[k] else OptionDefault(k))
  {
    hide CatalogOf, Offered, KeySet, OptionsIn, OptionDefault, OptionsJson, ReadStored, ShownEntry, Defaults, Find,
      CanonicalId;
    CatalogShape(site, stored);
    ShownOptions(site, stored, id);
    OptionsAgain(stored, id);
    DefaultKeys(id);
    OptionKeysRead(workspace, KeySet(id));
  }

  lemma ShownOptions(site: Site, stored: Json, id: TemplateId)
    ensures ShownEntry(site, stored, id).options == Defaults(id) + ReadStored(stored, id).options
  {
    hide CatalogOf, ReadStored, Defaults;
  }

  lemma DefaultKeys(id: TemplateId)
    ensures Defaults(id).Keys == KeySet(id) && forall k :: k in KeySet(id) ==> Defaults(id)[k] == OptionDefault(k)
  {
    hide KeySet, OptionDefault;
  }

  lemma OptionKeysRead(v: Json, keys: set<OptionKey>)
    ensures OptionsIn(v, keys).Keys <= keys
  {
    hide Checked;
  }

  /** A template's options, the code's under the stored ones, read back as they are. */
  lemma OptionsAgain(stored: Json, id: TemplateId)
    ensures var options := Defaults(id) + ReadStored(stored, id).options;
      OptionsIn(OptionsJson(options), KeySet(id)) == options && ReadStored(stored, id).options.Keys <= KeySet(id)
  {
    hide Defaults, OptionsIn, OptionsJson, KeySet, Settled, NamesIn;
    var raw := Get(Fields(StoredItem(stored, id)), OptionsKey);
    DefaultsSettled(id);
    OptionsSettled(raw, KeySet(id));
    OptionsReadBack(Defaults(id) + OptionsIn(raw, KeySet(id)), KeySet(id));
  }
}
