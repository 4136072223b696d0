/** A save is strict, reads back as it was asked for, and keeps what it does not mention. */
module TemplateSaveProofs {
  import opened Options
  import opened Text
  import opened TemplateOptions
  import opened Editions
  import opened TemplateCatalog
  import opened TemplateSaves

  // ----- which bodies are accepted

  ghost predicate TemplatesOk(site: Site, ts: seq<Template>) {
    && (forall i :: 0 <= i < |ts| ==> ExactId(site, ts[i].id).Some? && TemplateOk(ExactId(site, ts[i].id).value, ts[i]))
    && (forall i, j :: 0 <= i < j < |ts| ==> ExactId(site, ts[i].id) != ExactId(site, ts[j].id))
  }

  lemma NamedMembers(site: Site, ts: seq<Template>)
    ensures forall id :: id in NamedIn(site, ts) <==> exists i :: 0 <= i < |ts| && ExactId(site, ts[i].id) == Some(id)
  {
    hide ExactId;
    forall id
      ensures id in NamedIn(site, ts) <==> exists i :: 0 <= i < |ts| && ExactId(site, ts[i].id) == Some(id)
    {
      if i :| 0 <= i < |ts| && ExactId(site, ts[i].id) == Some(id) {
        assert ts[i] in ts;
      }
    }
  }

  lemma {:induction false} GatherAccepts(site: Site, ts: seq<Template>, kept: map<TemplateId, Item>)
    ensures Gather(site, ts, kept).Saved? <==> TemplatesOk(site, ts)
  {
    hide ExactId, TemplateOk, NamedIn, TemplateItem, TemplateProblem;
    if ts != [] {
      var front, last := ts[..|ts| - 1], ts[|ts| - 1];
      GatherAccepts(site, front, kept);
      NamedMembers(site, front);
      assert forall i :: 0 <= i < |front| ==> ts[i] == front[i];
      if TemplatesOk(site, ts) {
        assert TemplatesOk(site, front);
        assert ts[|ts| - 1] == last;
      }
    }
  }

  /** What the gathered items are: the body's own, and otherwise what was kept. */
  ghost predicate Overlaid(site: Site, ts: seq<Template>, kept: map<TemplateId, Item>, items: map<TemplateId, Item>) {
    && (forall i :: 0 <= i < |ts| && ExactId(site, ts[i].id).Some? && OrderOk(ts[i]) ==>
          var id := ExactId(site, ts[i].id).value; id in items && items[id] == TemplateItem(id, ts[i]))
    && (forall id :: id !in NamedIn(site, ts) ==>
          (id in items <==> id in kept) && (id in kept ==> items[id] == kept[id]))
  }

  lemma OverlayStep(site: Site, ts: seq<Template>, kept: map<TemplateId, Item>, before: map<TemplateId, Item>,
                    id: TemplateId)
    requires ts != [] && Overlaid(site, ts[..|ts| - 1], kept, before)
    requires ExactId(site, ts[|ts| - 1].id) == Some(id) && id !in NamedIn(site, ts[..|ts| - 1]) && OrderOk(ts[|ts| - 1])
    ensures Overlaid(site, ts, kept, before[id := TemplateItem(id, ts[|ts| - 1])])
  {
    hide ExactId, NamedIn, TemplateItem, OrderOk;
    var front := ts[..|ts| - 1];
    NamedMembers(site, front);
    NamedMembers(site, ts);
    forall i | 0 <= i < |front|
      ensures ts[i] == front[i] && ExactId(site, ts[i].id) != Some(id)
    {
      assert ExactId(site, front[i].id) == Some(id) ==> id in NamedIn(site, front);
    }
    forall other | other !in NamedIn(site, ts)
      ensures other !in NamedIn(site, front) && other != id
    {
      assert ExactId(site, ts[|ts| - 1].id) == Some(id);
    }
  }

  lemma {:induction false} GatherOverlays(site: Site, ts: seq<Template>, kept: map<TemplateId, Item>)
    requires Gather(site, ts, kept).Saved?
    ensures Overlaid(site, ts, kept, Gather(site, ts, kept).value)
  {
    hide ExactId, NamedIn, TemplateItem, TemplateProblem, NamesOk, OptionsOk, OrderOk, Overlaid;
    if ts == [] {
      NothingOverlaid(site, kept);
    } else {
      GatherOverlays(site, ts[..|ts| - 1], kept);
      var id := ExactId(site, ts[|ts| - 1].id).value;
      assert TemplateOk(id, ts[|ts| - 1]);
      OverlayStep(site, ts, kept, Gather(site, ts[..|ts| - 1], kept).value, id);
    }
  }

  lemma NothingOverlaid(site: Site, kept: map<TemplateId, Item>)
    ensures Overlaid(site, [], kept, kept)
  {
  }

  /** The template the body names for `id`, if any. */
  ghost predicate Names(site: Site, ts: seq<Template>, t: Template, id: TemplateId) {
    t in ts && ExactId(site, t.id) == Some(id)
  }

  /** Whether `id` is enabled after the save: as the body says, or as stored. */
  ghost predicate EnabledAfter(site: Site, body: Body, previous: Json, id: TemplateId) {
    if id in NamedIn(site, body.templates) then exists t :: Names(site, body.templates, t, id) && t.enabled
    else EntryOf(site, previous, id).enabled
  }

  lemma EnabledItems(site: Site, body: Body, previous: Json, items: map<TemplateId, Item>, id: TemplateId)
    requires TemplatesOk(site, body.templates) && Overlaid(site, body.templates, Kept(site, previous), items)
    requires id in Offered(site.edition)
    ensures EnabledAmong(site.edition, items, id) <==> EnabledAfter(site, body, previous, id)
  {
    hide ExactId, NamedIn, NamesOk, OptionsOk, OrderOk, Offered, ReadItem, StoredItem, CleanNames, Defaults, Position,
      OptionsIn, EditionDefault;
    var ts := body.templates;
    NamedMembers(site, ts);
    if id in NamedIn(site, ts) {
      var i :| 0 <= i < |ts| && ExactId(site, ts[i].id) == Some(id);
      assert TemplateOk(id, ts[i]);
      assert items[id].enabled == Some(ts[i].enabled);
      assert Names(site, ts, ts[i], id);
      if t :| Names(site, ts, t, id) && t.enabled {
        var j :| 0 <= j < |ts| && ts[j] == t;
      }
    } else {
      assert id in items <==> StoredItem(previous, id).Obj?;
      if id !in items {
        NullItem(id, StoredItem(previous, id));
      }
    }
  }

  /** A save is accepted exactly when every template of the body is offered, under its own name, once, with a valid
      order, names and options, and the requested default is an offered template that ends up enabled. */
  lemma AcceptedIff(site: Site, body: Body, previous: Json)
    ensures Save(site, body, previous).Saved? <==>
      && TemplatesOk(site, body.templates)
      && CanonicalId(site, Str(body.defaultId)).Some?
      && EnabledAfter(site, body, previous, CanonicalId(site, Str(body.defaultId)).value)
  {
    hide CanonicalId, Gather, Kept, EnabledAmong, EnabledAfter, TemplatesOk, Overlaid;
    var kept := Kept(site, previous);
    GatherAccepts(site, body.templates, kept);
    var id := CanonicalId(site, Str(body.defaultId));
    if Gather(site, body.templates, kept).Saved? && id.Some? {
      GatherOverlays(site, body.templates, kept);
      EnabledItems(site, body, previous, Gather(site, body.templates, kept).value, id.value);
    }
  }

  // ----- stored items read back

  lemma NamesReadBack(names: map<Locale, string>)
    ensures NamesIn(NamesJson(names)) == map l | l in names && NameRead(Str(names[l])) != [] :: NameRead(Str(names[l]))
  {
    hide NameRead, NameFields;
    assert NameRead(Null) == [] by { NullName(); }
    var fields := NamesJson(names).fields;
    forall l: Locale
      ensures InLocale(l) in fields <==> l in names
      ensures l in names ==> fields[InLocale(l)] == Str(names[l])
      ensures l in {Fa, En, Tr}
    {
      assert l.Fa? || l.En? || l.Tr?;
    }
  }

  lemma NullName()
    ensures NameRead(Null) == []
  {
  }

  /** Names as a second reading leaves them: none is lost, and one that was cut after a space loses that space. */
  function NamesAgain(names: map<Locale, string>): map<Locale, string> {
    map l | l in names :: NameRead(Str(names[l]))
  }

  ghost predicate SomeCutAfterSpace(raw: Json) {
    exists l: Locale :: CutAfterSpace(Get(Fields(raw), InLocale(l)))
  }

  lemma ReadNamesAgain(raw: Json)
    ensures NamesIn(NamesJson(NamesIn(raw))) == NamesAgain(NamesIn(raw))
    ensures NamesAgain(NamesIn(raw)) == NamesIn(raw) <==> !SomeCutAfterSpace(raw)
  {
    hide NameRead, CutAfterSpace, NamesJson;
    var names := NamesIn(raw);
    NamesReadBack(names);
    forall l: Locale
      ensures l in names ==> NameRead(Str(names[l])) != []
      ensures l in names ==> (NameRead(Str(names[l])) == names[l] <==> !CutAfterSpace(Get(Fields(raw), InLocale(l))))
      ensures l !in names ==> !CutAfterSpace(Get(Fields(raw), InLocale(l)))
    {
      var v := Get(Fields(raw), InLocale(l));
      assert l.Fa? || l.En? || l.Tr?;
      NameReadTwice(v);
      if CutAfterSpace(v) {
        CutNotEmpty(v);
      }
    }
    if NamesAgain(names) == names {
      forall l: Locale
        ensures !CutAfterSpace(Get(Fields(raw), InLocale(l)))
      {
        assert l in names ==> NamesAgain(names)[l] == NameRead(Str(names[l]));
      }
    }
  }

  lemma CutNotEmpty(v: Json)
    requires CutAfterSpace(v)
    ensures NameRead(v) != []
  {
    hide CleanText, IsSpace;
  }

  lemma TypedNamesReadBack(t: Template)
    requires NamesOk(t)
    ensures NamesIn(NamesJson(CleanNames(t))) == CleanNames(t)
  {
    hide NameRead, CleanText, NamesJson;
    var names := CleanNames(t);
    NamesReadBack(names);
    forall l | l in names
      ensures NameRead(Str(names[l])) == names[l]
    {
      TypedNameKept(t, l);
    }
  }

  lemma TypedNameKept(t: Template, l: Locale)
    requires |CleanName(t, l)| <= NameMax()
    ensures NameRead(Str(CleanName(t, l))) == CleanName(t, l)
  {
    hide CleanText, IsClean;
    if l in t.names {
      CleanTwice(Str(t.names[l]));
    } else {
      EmptyClean();
      CleanStays([]);
    }
  }

  ghost predicate GoodItem(id: TemplateId, item: Item) {
    AllSettled(item.options, KeySet(id)) && (item.order.Some? ==> IsOrderNumber(item.order.value))
  }

  lemma ItemFieldsRead(item: Item)
    ensures var f := Fields(ItemJson(item));
      && Get(f, EnabledKey) == (if item.enabled.Some? then Bool(item.enabled.value) else Null)
      && Get(f, OrderKey) == (if item.order.Some? then Whole(item.order.value) else Null)
      && Get(f, NameKey) == (if item.names != map[] then NamesJson(item.names) else Null)
      && Get(f, OptionsKey) == (if item.options != map[] then OptionsJson(item.options) else Null)
  {
    hide NamesJson, OptionsJson;
  }

  lemma NothingRead(keys: set<OptionKey>)
    ensures NamesIn(Null) == map[] == NamesIn(NamesJson(map[])) && OptionsIn(Null, keys) == map[]
  {
    hide NameRead, Checked;
    NullName();
    assert forall l: Locale :: Get(Fields(Null), InLocale(l)) == Null;
    assert forall l: Locale :: Get(Fields(NamesJson(map[])), InLocale(l)) == Null;
  }

  lemma ItemReadBack(id: TemplateId, item: Item)
    requires GoodItem(id, item)
    ensures ReadItem(id, ItemJson(item)) == item.(names := NamesIn(NamesJson(item.names)))
  {
    hide ItemJson, NamesIn, NamesJson, OptionsIn, OptionsJson, AllSettled, Fields, KeySet;
    ItemFieldsRead(item);
    NothingRead(KeySet(id));
    OptionsReadBack(item.options, KeySet(id));
  }

  lemma ReadItemGood(id: TemplateId, raw: Json)
    ensures GoodItem(id, ReadItem(id, raw))
  {
    hide NamesIn, OptionsIn, AllSettled, KeySet;
    OptionsSettled(Get(Fields(raw), OptionsKey), KeySet(id));
  }

  function RawNames(stored: Json, id: TemplateId): Json {
    Get(Fields(StoredItem(stored, id)), NameKey)
  }

  /** An item as it was read, stored and read again. */
  lemma ReadItemAgain(id: TemplateId, previous: Json)
    ensures var item := ReadStored(previous, id);
      && ReadItem(id, ItemJson(item)) == item.(names := NamesAgain(item.names))
      && (ReadItem(id, ItemJson(item)) == item <==> !SomeCutAfterSpace(RawNames(previous, id)))
  {
    hide NamesIn, OptionsIn, NamesJson, NamesAgain, ItemJson, GoodItem, SomeCutAfterSpace, StoredItem;
    ReadItemGood(id, StoredItem(previous, id));
    ItemReadBack(id, ReadStored(previous, id));
    ReadNamesAgain(RawNames(previous, id));
  }

  lemma TypedItemReadBack(id: TemplateId, t: Template)
    requires TemplateOk(id, t)
    ensures ReadItem(id, ItemJson(TemplateItem(id, t))) == TemplateItem(id, t)
  {
    hide NamesIn, OptionsIn, NamesJson, ItemJson, AllSettled, KeySet, NamesOk, CleanNames, OptionsOk, ReadItem;
    OptionsSettled(t.options, KeySet(id));
    ItemReadBack(id, TemplateItem(id, t));
    TypedNamesReadBack(t);
  }

  // ----- the row a save stores, read

  lemma StoredRowItem(row: Stored, id: TemplateId)
    ensures StoredItem(StoredJson(row), id) == if id in row.items then ItemJson(row.items[id]) else Null
  {
    hide ItemJson, ItemFields;
  }

  lemma NullItem(id: TemplateId, raw: Json)
    requires !raw.Obj?
    ensures ReadItem(id, raw) == ReadItem(id, Null) == Item(None, None, map[], map[])
  {
    hide NamesIn, OptionsIn, KeySet;
    NothingRead(KeySet(id));
  }

  /** What a save stored under `id`: the body's template, else the item as it was, read once more. */
  lemma StoredRead(site: Site, body: Body, previous: Json, id: TemplateId)
    requires Save(site, body, previous).Saved? && id in Offered(site.edition)
    ensures var next := StoredJson(Save(site, body, previous).value);
      && (forall t :: Names(site, body.templates, t, id) ==> OrderOk(t) && ReadStored(next, id) == TemplateItem(id, t))
      && (id !in NamedIn(site, body.templates) ==>
            ReadStored(next, id) == ReadStored(previous, id).(names := NamesAgain(ReadStored(previous, id).names)))
  {
    hide ExactId, NamedIn, Gather, ReadItem, StoredItem, StoredJson, TemplateItem, NamesAgain, NamesOk, OptionsOk,
      OrderOk, Offered, ItemJson, CanonicalId, EnabledAmong;
    var ts := body.templates;
    var kept := Kept(site, previous);
    GatherAccepts(site, ts, kept);
    GatherOverlays(site, ts, kept);
    var row := Save(site, body, previous).value;
    assert row.items == Gather(site, ts, kept).value;
    StoredRowItem(row, id);
    forall t | Names(site, ts, t, id)
      ensures OrderOk(t) && ReadStored(StoredJson(row), id) == TemplateItem(id, t)
    {
      var i :| 0 <= i < |ts| && ts[i] == t;
      assert TemplateOk(id, ts[i]);
      TypedItemReadBack(id, t);
    }
    if id !in NamedIn(site, ts) {
      if id in kept {
        ReadItemAgain(id, previous);
      } else {
        NullItem(id, StoredItem(previous, id));
        NoNamesAgain();
      }
    }
  }

  lemma NoNamesAgain()
    ensures NamesAgain(map[]) == map[]
  {
  }

  /** The entry a template of the body asks for. */
  function Requested(id: TemplateId, t: Template): Entry
    requires OrderOk(t)
  {
    Entry(id, t.enabled, if t.order.Some? then t.order.value.n else Position(id), CleanNames(t),
          Defaults(id) + OptionsIn(t.options, KeySet(id)))
  }

  /** The entry as it was stored before, its names read once more. */
  function LeftAlone(site: Site, previous: Json, id: TemplateId): Entry {
    EntryOf(site, previous, id).(names := NamesAgain(ReadStored(previous, id).names))
  }

  /** An accepted save reads back with the requested default and, for each template of the body, the requested flag,
      order, names and options; an id the body leaves out reads as it was stored before. */
  lemma SaveReadsBack(site: Site, body: Body, previous: Json)
    requires Save(site, body, previous).Saved?
    ensures var c := CatalogOf(site, StoredJson(Save(site, body, previous).value));
      && Some(c.defaultId) == CanonicalId(site, Str(body.defaultId))
      && (forall t, id :: Names(site, body.templates, t, id) ==>
            OrderOk(t) && Find(c.entries, id) == Some(Requested(id, t)))
      && (forall id :: id in Offered(site.edition) && id !in NamedIn(site, body.templates) ==>
            Find(c.entries, id) == Some(LeftAlone(site, previous, id)))
  {
    hide ExactId, NamedIn, StoredJson, Offered, CatalogOf, Find, Save, Requested, LeftAlone, OrderOk, Names,
      CanonicalId, StoredDefault;
    var next := StoredJson(Save(site, body, previous).value);
    DefaultStored(site, body, previous);
    StoredDefaultShown(site, next);
    forall t, id | Names(site, body.templates, t, id)
      ensures OrderOk(t) && Find(CatalogOf(site, next).entries, id) == Some(Requested(id, t))
    {
      TypedShown(site, body, previous, t, id);
    }
    forall id | id in Offered(site.edition) && id !in NamedIn(site, body.templates)
      ensures Find(CatalogOf(site, next).entries, id) == Some(LeftAlone(site, previous, id))
    {
      LeftShown(site, body, previous, id);
    }
  }

  lemma TypedShown(site: Site, body: Body, previous: Json, t: Template, id: TemplateId)
    requires Save(site, body, previous).Saved? && Names(site, body.templates, t, id)
    ensures OrderOk(t)
    ensures Find(CatalogOf(site, StoredJson(Save(site, body, previous).value)).entries, id) == Some(Requested(id, t))
  {
    hide ExactId, NamedIn, StoredJson, Offered, CatalogOf, Find, Save, Requested, OrderOk, Names, StoredDefault,
      ReadStored, EntryOf, TemplateItem, NamesAgain;
    var next := StoredJson(Save(site, body, previous).value);
    DefaultStored(site, body, previous);
    NamedOffered(site, body.templates, t, id);
    StoredRead(site, body, previous, id);
    EntryTyped(site, next, id, t);
    FoundAsStored(site, next, id);
  }

  lemma LeftShown(site: Site, body: Body, previous: Json, id: TemplateId)
    requires Save(site, body, previous).Saved? && id in Offered(site.edition) && id !in NamedIn(site, body.templates)
    ensures Find(CatalogOf(site, StoredJson(Save(site, body, previous).value)).entries, id) == Some(LeftAlone(site,
        previous, id))
  {
    hide ExactId, NamedIn, StoredJson, Offered, CatalogOf, Find, Save, OrderOk, Names, StoredDefault, ReadStored,
      EntryOf, TemplateItem, NamesAgain;
    var next := StoredJson(Save(site, body, previous).value);
    DefaultStored(site, body, previous);
    StoredRead(site, body, previous, id);
    EntryLeft(site, previous, next, id);
    FoundAsStored(site, next, id);
  }

  lemma NamedOffered(site: Site, ts: seq<Template>, t: Template, id: TemplateId)
    requires Names(site, ts, t, id)
    ensures id in Offered(site.edition)
  {
    hide CanonicalId, IdName;
  }

  lemma StoredDefaultShown(site: Site, next: Json)
    requires StoredDefault(site, next).Some?
    ensures Some(CatalogOf(site, next).defaultId) == StoredDefault(site, next)
  {
    hide StoredDefault, Entries;
  }

  lemma FoundAsStored(site: Site, next: Json, id: TemplateId)
    requires StoredDefault(site, next).Some? && id in Offered(site.edition)
    ensures Find(CatalogOf(site, next).entries, id) == Some(EntryOf(site, next, id))
  {
    hide StoredDefault, Entries, EntryOf, Offered, Find;
    EntryFound(site, next, id);
  }

  lemma EntryTyped(site: Site, next: Json, id: TemplateId, t: Template)
    requires OrderOk(t) && ReadStored(next, id) == TemplateItem(id, t)
    ensures EntryOf(site, next, id) == Requested(id, t)
  {
    hide ReadStored, CleanNames, OptionsIn, Defaults, KeySet, Position;
  }

  lemma EntryLeft(site: Site, previous: Json, next: Json, id: TemplateId)
    requires ReadStored(next, id) == ReadStored(previous, id).(names := NamesAgain(ReadStored(previous, id).names))
    ensures EntryOf(site, next, id) == LeftAlone(site, previous, id)
  {
    hide ReadStored, NamesAgain, Defaults, Position;
  }

  /** The stored default is enabled, so nothing is forced on. */
  lemma DefaultStored(site: Site, body: Body, previous: Json)
    requires Save(site, body, previous).Saved?
    ensures var next := StoredJson(Save(site, body, previous).value);
      StoredDefault(site, next).Some? && StoredDefault(site, next) == CanonicalId(site, Str(body.defaultId))
  {
    hide ExactId, NamedIn, Gather, Kept, EntryOf, IdName, Lookup, NormalizeId, Offered, EnabledAfter, Names,
      CanonicalId;
    AcceptedIff(site, body, previous);
    var row := Save(site, body, previous).value;
    var id := row.defaultId;
    var next := StoredJson(row);
    assert Get(Fields(next), DefaultKey) == Str(IdName(id));
    NameReadsBack(site, id);
    AfterSaveEnabled(site, body, previous);
  }

  lemma AfterSaveEnabled(site: Site, body: Body, previous: Json)
    requires Save(site, body, previous).Saved?
    ensures var row := Save(site, body, previous).value;
      row.defaultId in Offered(site.edition) && EntryOf(site, StoredJson(row), row.defaultId).enabled
  {
    hide ExactId, NamedIn, ReadStored, StoredJson, NamesAgain, Offered, Save, CleanNames, Defaults, OptionsIn, KeySet,
      Position, CanonicalId;
    var row := Save(site, body, previous).value;
    AcceptedIff(site, body, previous);
    assert CanonicalId(site, Str(body.defaultId)) == Some(row.defaultId) by { SavedDefault(site, body, previous); }
    var id := row.defaultId;
    StoredRead(site, body, previous, id);
    if id in NamedIn(site, body.templates) {
      var t :| Names(site, body.templates, t, id) && t.enabled;
      EntryTyped(site, StoredJson(row), id, t);
    } else {
      EntryLeft(site, previous, StoredJson(row), id);
    }
  }

  lemma SavedDefault(site: Site, body: Body, previous: Json)
    requires Save(site, body, previous).Saved?
    ensures CanonicalId(site, Str(body.defaultId)) == Some(Save(site, body, previous).value.defaultId)
  {
    hide CanonicalId, Gather, Kept, EnabledAmong;
  }

  // ----- saving the same body again

  ghost predicate KeptNamesWhole(site: Site, body: Body, previous: Json) {
    forall id :: id in Offered(site.edition) && id !in NamedIn(site, body.templates) ==>
      !SomeCutAfterSpace(RawNames(previous, id))
  }

  lemma KeptAgain(site: Site, row: Stored)
    requires forall id :: id in row.items ==> id in Offered(site.edition)
    ensures Kept(site, StoredJson(row)) == map id | id in row.items :: ReadItem(id, ItemJson(row.items[id]))
  {
    hide ReadItem, ItemJson, Offered, StoredJson, StoredItem;
    forall id
      ensures StoredItem(StoredJson(row), id) == if id in row.items then ItemJson(row.items[id]) else Null
      ensures id in row.items ==> ItemJson(row.items[id]).Obj?
    {
      StoredRowItem(row, id);
      if id in row.items {
        ItemIsObject(row.items[id]);
      }
    }
  }

  lemma ItemIsObject(item: Item)
    ensures ItemJson(item).Obj?
  {
  }

  lemma SavedItems(site: Site, body: Body, previous: Json)
    requires Save(site, body, previous).Saved?
    ensures var row := Save(site, body, previous).value;
      && Gather(site, body.templates, Kept(site, previous)) == Saved(row.items)
      && Overlaid(site, body.templates, Kept(site, previous), row.items)
      && TemplatesOk(site, body.templates)
      && (forall id :: id in row.items ==> id in Offered(site.edition))
  {
    hide Gather, Overlaid, CanonicalId, TemplatesOk, EnabledAmong, Kept;
    GatherAccepts(site, body.templates, Kept(site, previous));
    GatherOverlays(site, body.templates, Kept(site, previous));
    ItemsOffered(site, body.templates, previous, Save(site, body, previous).value.items);
  }

  lemma ItemsOffered(site: Site, ts: seq<Template>, previous: Json, items: map<TemplateId, Item>)
    requires Overlaid(site, ts, Kept(site, previous), items)
    ensures forall id :: id in items ==> id in Offered(site.edition)
  {
    hide ExactId, NamedIn, TemplateItem, ReadStored, StoredItem, Offered;
    forall id | id in items
      ensures id in Offered(site.edition)
    {
      if id in NamedIn(site, ts) {
        NamedMembers(site, ts);
        var i :| 0 <= i < |ts| && ExactId(site, ts[i].id) == Some(id);
      }
    }
  }

  /** The items a second save of the same body stores. */
  lemma AgainItems(site: Site, body: Body, previous: Json)
    requires Save(site, body, previous).Saved?
    ensures var row := Save(site, body, previous).value;
      var again := Save(site, body, StoredJson(row));
      && again.Saved? && again.value.defaultId == row.defaultId && again.value.items.Keys == row.items.Keys
      && (forall id :: id in row.items ==>
            again.value.items[id] == (if id in NamedIn(site, body.templates) then row.items[id]
                                      else ReadItem(id, ItemJson(row.items[id]))))
  {
    hide Gather, CanonicalId, TemplatesOk, EnabledAmong, Kept, ReadItem, ItemJson, StoredJson, ExactId, NamedIn,
      Offered, EnabledAfter, Overlaid;
    var row := Save(site, body, previous).value;
    var next := StoredJson(row);
    SavedItems(site, body, previous);
    KeptAgain(site, row);
    AgainAccepted(site, body, previous);
    SavedDefault(site, body, previous);
    SavedDefault(site, body, next);
    SavedItems(site, body, next);
    SameOverlay(site, body.templates, Kept(site, previous), Kept(site, next), row.items, Save(site, body,
        next).value.items);
  }

  lemma SameOverlay(site: Site, ts: seq<Template>, k1: map<TemplateId, Item>, k2: map<TemplateId, Item>,
                    i1: map<TemplateId, Item>, i2: map<TemplateId, Item>)
    requires TemplatesOk(site, ts) && Overlaid(site, ts, k1, i1) && Overlaid(site, ts, k2, i2) && k2.Keys == i1.Keys
    ensures i2.Keys == i1.Keys
    ensures forall id :: id in i1 ==> i2[id] == if id in NamedIn(site, ts) then i1[id] else k2[id]
  {
    hide ExactId, NamedIn, TemplateItem, NamesOk, OptionsOk, OrderOk;
    NamedMembers(site, ts);
    forall id
      ensures id in i2 <==> id in i1
      ensures id in i1 ==> i2[id] == if id in NamedIn(site, ts) then i1[id] else k2[id]
    {
      if id in NamedIn(site, ts) {
        var i :| 0 <= i < |ts| && ExactId(site, ts[i].id) == Some(id);
        assert TemplateOk(id, ts[i]);
      }
    }
  }

  lemma AgainAccepted(site: Site, body: Body, previous: Json)
    requires Save(site, body, previous).Saved?
    ensures Save(site, body, StoredJson(Save(site, body, previous).value)).Saved?
  {
    hide ExactId, NamedIn, StoredJson, NamesAgain, Offered, Save, CanonicalId, TemplatesOk, EntryOf, ReadStored;
    AcceptedIff(site, body, previous);
    var next := StoredJson(Save(site, body, previous).value);
    AcceptedIff(site, body, next);
    var id := CanonicalId(site, Str(body.defaultId)).value;
    StoredRead(site, body, previous, id);
    if id !in NamedIn(site, body.templates) {
      EntryLeft(site, previous, next, id);
    }
  }

  /** Saving the same body on its own result stores the same row exactly when no kept name had been cut just after
      a space. */
  lemma ResaveIff(site: Site, body: Body, previous: Json)
    requires Save(site, body, previous).Saved?
    ensures var row := Save(site, body, previous).value;
      Save(site, body, StoredJson(row)) == Saved(row) <==> KeptNamesWhole(site, body, previous)
  {
    hide ExactId, NamedIn, StoredJson, Offered, Save, ReadItem, ItemJson, SomeCutAfterSpace, RawNames, Gather,
      TemplatesOk, StoredItem;
    var row := Save(site, body, previous).value;
    var again := Save(site, body, StoredJson(row));
    AgainItems(site, body, previous);
    SavedItems(site, body, previous);
    forall id | id in Offered(site.edition) && id !in NamedIn(site, body.templates)
      ensures SomeCutAfterSpace(RawNames(previous, id)) <==> id in row.items && again.value.items[id] != row.items[id]
    {
      ReadItemAgain(id, previous);
      if id !in row.items {
        assert !StoredItem(previous, id).Obj?;
        NothingCut(previous, id);
      }
    }
    assert again.value.items == row.items <==> forall id :: id in row.items ==> again.value.items[id] == row.items[id];
  }

  lemma NothingCut(stored: Json, id: TemplateId)
    requires !StoredItem(stored, id).Obj?
    ensures !SomeCutAfterSpace(RawNames(stored, id))
  {
    hide IsSpace, StoredItem;
    assert forall l: Locale :: Get(Fields(RawNames(stored, id)), InLocale(l)) == Null;
  }

  /** A row whose last template has a name of thirty-nine letters, a space and a letter. */
  function LongNamed(site: Site): Json {
    var names := Obj(map[InLocale(En) := Str(seq(39, i => 'a') + [' ', 'b'])]);
    Obj(map[ItemsKey := Obj(map[OfTemplate(Offered(site.edition)[2]) := Obj(map[NameKey := names])])])
  }

  function EmptyBody(site: Site): Body {
    Body(IdName(EditionDefault(site.edition)), [])
  }

  lemma LongNameCut(site: Site)
    ensures SomeCutAfterSpace(RawNames(LongNamed(site), Offered(site.edition)[2]))
  {
    hide CutAfterSpace;
    var name := Str(seq(39, i => 'a') + [' ', 'b']);
    NameCutExample();
    assert Get(Fields(RawNames(LongNamed(site), Offered(site.edition)[2])), InLocale(En)) == name;
  }

  lemma EmptyBodyAccepted(site: Site)
    ensures Save(site, EmptyBody(site), LongNamed(site)).Saved?
  {
    hide CanonicalId, IdName, Save, NamesIn, OptionsIn, Defaults, Position, ExactId;
    var id := EditionDefault(site.edition);
    NameReadsBack(site, id);
    assert StoredItem(LongNamed(site), id) == Null;
    NullItem(id, Null);
    AcceptedIff(site, EmptyBody(site), LongNamed(site));
  }

  /** There the empty body's save, saved again, stores something else. */
  lemma ResaveExample(site: Site)
    ensures var first := Save(site, EmptyBody(site), LongNamed(site));
      first.Saved? && Save(site, EmptyBody(site), StoredJson(first.value)) != first
  {
    hide LongNamed, SomeCutAfterSpace, Save, StoredJson, RawNames, ExactId, IdName;
    EmptyBodyAccepted(site);
    LongNameCut(site);
    ResaveIff(site, EmptyBody(site), LongNamed(site));
  }

  /** At the latest the third save of the same body changes nothing. */
  lemma SecondResaveSettles(site: Site, body: Body, previous: Json)
    requires Save(site, body, previous).Saved?
    ensures var again := Save(site, body, StoredJson(Save(site, body, previous).value));
      again.Saved? && Save(site, body, StoredJson(again.value)) == again
  {
    hide ExactId, NamedIn, StoredJson, Offered, Save, SomeCutAfterSpace, RawNames, ReadItem, ItemJson;
    var row := Save(site, body, previous).value;
    AgainItems(site, body, previous);
    SavedItems(site, body, previous);
    forall id
      ensures id in Offered(site.edition) && id !in NamedIn(site, body.templates) ==>
        !SomeCutAfterSpace(RawNames(StoredJson(row), id))
    {
      if id in Offered(site.edition) && id !in NamedIn(site, body.templates) {
        StoredNamesShort(site, previous, row, id);
      }
    }
    ResaveIff(site, body, StoredJson(row));
  }

  lemma StoredNamesShort(site: Site, previous: Json, row: Stored, id: TemplateId)
    requires id in row.items ==> row.items[id] == ReadStored(previous, id)
    ensures !SomeCutAfterSpace(RawNames(StoredJson(row), id))
  {
    hide ItemJson, StoredJson, StoredItem, NamesIn, NamesJson, OptionsIn, OptionsJson, CutAfterSpace, KeySet;
    StoredRowItem(row, id);
    if id in row.items {
      ItemFieldsRead(row.items[id]);
    }
    var names := ReadStored(previous, id).names;
    assert RawNames(StoredJson(row), id) in {Null, NamesJson(names)};
    forall l: Locale
      ensures !CutAfterSpace(Get(Fields(RawNames(StoredJson(row), id)), InLocale(l)))
    {
      ShortNames(RawNames(previous, id), l);
      ShortText([]);
    }
  }

  lemma ShortText(s: string)
    requires |s| <= NameMax()
    ensures !CutAfterSpace(Str(s)) && !CutAfterSpace(Null)
  {
    hide IsSpace;
  }

  lemma ShortNames(raw: Json, l: Locale)
    ensures !CutAfterSpace(Get(Fields(NamesJson(NamesIn(raw))), InLocale(l)))
  {
    hide CutAfterSpace, CleanText, NameFields;
    var names := NamesIn(raw);
    ShortText(if l in names then names[l] else []);
    assert InLocale(l) in NamesJson(names).fields <==> l in names;
  }
}
