/** The Super Admin's save of a catalog, and how it fits the readers (shared/chatTemplateCatalog.ts). */
module TemplateSaves {
  import opened Options
  import opened Text
  import opened TemplateOptions
  import opened Editions
  import opened TemplateCatalog

  /** One template of the body; a name absent or null is not in `names`. */
  datatype Template = Template(id: string, enabled: bool, order: Option<Json>, names: map<Locale, string>,
                               options: Json)

  datatype Body = Body(defaultId: string, templates: seq<Template>)

  datatype Problem =
    | TemplateNotOffered(name: string) | DuplicateTemplate(id: TemplateId) | NameTooLong(id: TemplateId)
    | InvalidOptions(id: TemplateId) | InvalidOrder(id: TemplateId) | NoTemplateEnabled | DefaultNotEnabled

  datatype Outcome<+T> = Saved(value: T) | Rejected(problem: Problem)

  /** The row a save stores. */
  datatype Stored = Stored(defaultId: TemplateId, items: map<TemplateId, Item>)

  // ----- the row as JSON

  function NameFields(names: map<Locale, string>): (r: set<Key>)
    ensures forall k :: k in r <==> k.InLocale? && k.locale in names
  {
    set l | l in names.Keys :: InLocale(l)
  }

  function NamesJson(names: map<Locale, string>): Json {
    Obj(map k | k in NameFields(names) :: Str(names[k.locale]))
  }

  /** A property that may be missing. */
  function Property(k: Key, present: bool, v: Json): map<Key, Json> {
    if present then map[k := v] else map[]
  }

  function ItemJson(item: Item): Json {
    Obj(Property(EnabledKey, item.enabled.Some?, if item.enabled.Some? then Bool(item.enabled.value) else Null)
        + Property(OrderKey, item.order.Some?, if item.order.Some? then Whole(item.order.value) else Null)
        + Property(NameKey, item.names != map[], NamesJson(item.names))
        + Property(OptionsKey, item.options != map[], OptionsJson(item.options)))
  }

  function ItemFields(items: map<TemplateId, Item>): (r: set<Key>)
    ensures forall k :: k in r <==> k.OfTemplate? && k.id in items
  {
    set id | id in items.Keys :: OfTemplate(id)
  }

  function ItemsJson(items: map<TemplateId, Item>): Json {
    Obj(map k | k in ItemFields(items) :: ItemJson(items[k.id]))
  }

  function StoredJson(row: Stored): Json {
    Obj(map[DefaultKey := Str(IdName(row.defaultId)), ItemsKey := ItemsJson(row.items)])
  }

  // ----- the save

  /** What is stored for each offered id, in its clean shape. */
  function Kept(site: Site, previous: Json): map<TemplateId, Item> {
    map id | id in Offered(site.edition) && StoredItem(previous, id).Obj? :: ReadStored(previous, id)
  }

  /** The id a body's template must carry: an offered one, by its own name. */
  function ExactId(site: Site, name: string): (r: Option<TemplateId>)
    ensures r.Some? ==> r.value in Offered(site.edition)
  {
    var id := CanonicalId(site, Str(name));
    if id.Some? && NormalizeId(name) == IdName(id.value) then id else None
  }

  function CleanName(t: Template, l: Locale): string {
    if l in t.names then CleanText(Str(t.names[l])) else []
  }

  function CleanNames(t: Template): map<Locale, string> {
    map l | l in {Fa, En, Tr} && CleanName(t, l) != [] :: CleanName(t, l)
  }

  predicate OrderOk(t: Template) {
    t.order.Some? ==> t.order.value.Whole? && IsOrderNumber(t.order.value.n)
  }

  predicate NamesOk(t: Template) {
    forall l | l in {Fa, En, Tr} :: |CleanName(t, l)| <= NameMax()
  }

  predicate OptionsOk(id: TemplateId, t: Template) {
    t.options == Null || (t.options.Obj? && forall k | k in KeySet(id) :: !Invalid(t.options, k))
  }

  predicate TemplateOk(id: TemplateId, t: Template) {
    OrderOk(t) && NamesOk(t) && OptionsOk(id, t)
  }

  /** A valid template of the body, as it is stored. */
  function TemplateItem(id: TemplateId, t: Template): Item
    requires OrderOk(t)
  {
    var order := if t.order.Some? then Some(t.order.value.n) else None;
    Item(Some(t.enabled), order, CleanNames(t), OptionsIn(t.options, KeySet(id)))
  }

  function TemplateProblem(id: TemplateId, t: Template): Problem {
    if !OrderOk(t) then InvalidOrder(id) else if !NamesOk(t) then NameTooLong(id) else InvalidOptions(id)
  }

  function ItemOutcome(id: TemplateId, t: Template): Outcome<Item> {
    if TemplateOk(id, t) then Saved(TemplateItem(id, t)) else Rejected(TemplateProblem(id, t))
  }

  function NamedIn(site: Site, ts: seq<Template>): set<TemplateId> {
    set t | t in ts && ExactId(site, t.id).Some? :: ExactId(site, t.id).value
  }

  /** One template of the body over the items so far; `named` are the ids already taken. */
  function Step(site: Site, t: Template, named: set<TemplateId>, items: map<TemplateId,
                Item>): Outcome<map<TemplateId, Item>> {
    var id := ExactId(site, t.id);
    if id.None? then Rejected(TemplateNotOffered(t.id))
    else if id.value in named then Rejected(DuplicateTemplate(id.value))
    else
      var item := ItemOutcome(id.value, t);
      if item.Rejected? then Rejected(item.problem) else Saved(items[id.value := item.value])
  }

  /** The stored items with the body's over them, template by template; the first problem stops it. */
  function Gather(site: Site, ts: seq<Template>, kept: map<TemplateId, Item>): Outcome<map<TemplateId, Item>> {
    if ts == [] then Saved(kept)
    else
      var before := Gather(site, ts[..|ts| - 1], kept);
      if before.Rejected? then before
      else Step(site, ts[|ts| - 1], NamedIn(site, ts[..|ts| - 1]), before.value)
  }

  predicate EnabledAmong(e: Edition, items: map<TemplateId, Item>, id: TemplateId) {
    id in Offered(e) && (if id in items then EnabledIn(e, id, items[id]) else id == EditionDefault(e))
  }

  function Finish(site: Site, defaultId: string, items: map<TemplateId, Item>): Outcome<Stored> {
    var id := CanonicalId(site, Str(defaultId));
    if forall t | t in Offered(site.edition) :: !EnabledAmong(site.edition, items, t) then Rejected(NoTemplateEnabled)
    else if id.None? || !EnabledAmong(site.edition, items, id.value) then Rejected(DefaultNotEnabled)
    else Saved(Stored(id.value, items))
  }

  function Save(site: Site, body: Body, previous: Json): Outcome<Stored> {
    var items := Gather(site, body.templates, Kept(site, previous));
    if items.Rejected? then Rejected(items.problem) else Finish(site, body.defaultId, items.value)
  }

  lemma {:induction false} RejectionStays(site: Site, ts: seq<Template>, kept: map<TemplateId, Item>, i: nat)
    requires i <= |ts| && Gather(site, ts[..i], kept).Rejected?
    ensures Gather(site, ts, kept) == Gather(site, ts[..i], kept)
  {
    hide Step, NamedIn;
    if i < |ts| {
      assert ts[..|ts| - 1][..i] == ts[..i];
      RejectionStays(site, ts[..|ts| - 1], kept, i);
    } else {
      assert ts[..i] == ts;
    }
  }

  lemma GatherStep(site: Site, ts: seq<Template>, kept: map<TemplateId, Item>, i: nat, items: map<TemplateId, Item>)
    requires i < |ts| && Gather(site, ts[..i], kept) == Saved(items)
    ensures Gather(site, ts[..i + 1], kept) == Step(site, ts[i], NamedIn(site, ts[..i]), items)
  {
    hide Step, NamedIn;
    assert ts[..i + 1][..i] == ts[..i];
  }

  lemma NamedStep(site: Site, ts: seq<Template>, i: nat)
    requires i < |ts| && ExactId(site, ts[i].id).Some?
    ensures NamedIn(site, ts[..i + 1]) == NamedIn(site, ts[..i]) + {ExactId(site, ts[i].id).value}
  {
    hide ExactId;
    assert ts[..i + 1] == ts[..i] + [ts[i]];
  }

  method KeepStored(site: Site, previous: Json) returns (items: map<TemplateId, Item>)
    ensures items == Kept(site, previous)
  {
    hide StoredItem, Offered, ReadStored;
    items := map[];
    var offered := Offered(site.edition);
    for i := 0 to |offered|
      invariant forall id :: id in items <==> id in offered[..i] && StoredItem(previous, id).Obj?
      invariant forall id :: id in items ==> items[id] == ReadStored(previous, id)
    {
      assert offered[..i + 1] == offered[..i] + [offered[i]];
      if StoredItem(previous, offered[i]).Obj? {
        items := items[offered[i] := ReadStored(previous, offered[i])];
      }
    }
    assert offered[..|offered|] == offered;
  }

  /** The body's names: cleaned, or None when one is too long. */
  method CleanTypedNames(t: Template) returns (r: Option<map<Locale, string>>)
    ensures r == if NamesOk(t) then Some(CleanNames(t)) else None
  {
    hide CleanName;
    var names := map[];
    for i := 0 to 3
      invariant forall l :: l in names <==> l in LOCALES[..i] && CleanName(t, l) != []
      invariant forall l :: l in names ==> names[l] == CleanName(t, l)
      invariant forall l :: l in LOCALES[..i] ==> |CleanName(t, l)| <= NameMax()
    {
      assert LOCALES[..i + 1] == LOCALES[..i] + [LOCALES[i]];
      var name := CleanName(t, LOCALES[i]);
      if |name| > NameMax() {
        assert !NamesOk(t) by { assert LOCALES[i] in {Fa, En, Tr}; }
        return None;
      }
      if name != [] {
        names := names[LOCALES[i] := name];
      }
    }
    assert LOCALES[..3] == [Fa, En, Tr] && [Fa, En, Tr][0] == Fa && [Fa, En, Tr][1] == En && [Fa, En, Tr][2] == Tr;
    assert names == CleanNames(t);
    r := Some(names);
  }

  method CleanTemplate(id: TemplateId, template: Template) returns (r: Outcome<Item>)
    ensures r == ItemOutcome(id, template)
  {
    hide CleanNames, NamesOk, OptionsIn, IsOrderNumber, Keys;
    if template.order.Some? && !(template.order.value.Whole? && IsOrderNumber(template.order.value.n)) {
      return Rejected(InvalidOrder(id));
    }
    var order := if template.order.Some? then Some(template.order.value.n) else None;
    var names := CleanTypedNames(template);
    if names.None? {
      return Rejected(NameTooLong(id));
    }
    var options := CleanTemplateOptionsInput(template.options, Keys(id));
    assert options.Accepted? <==> OptionsOk(id, template);
    if options.InvalidOption? {
      return Rejected(InvalidOptions(id));
    }
    r := Saved(Item(Some(template.enabled), order, names.value, options.value));
  }

  lemma NothingYet(site: Site, kept: map<TemplateId, Item>)
    ensures Gather(site, [], kept) == Saved(kept) && NamedIn(site, []) == {}
  {
  }

  method SaveCatalog(site: Site, body: Body, previous: Json) returns (r: Outcome<Stored>)
    ensures r == Save(site, body, previous)
  {
    hide Offered, ExactId, ItemOutcome, Finish, Kept, Gather, NamedIn;
    var items := KeepStored(site, previous);
    var seen: set<TemplateId> := {};
    ghost var kept := items;
    ghost var ts := body.templates;
    NothingYet(site, kept);
    for i := 0 to |body.templates|
      invariant Gather(site, ts[..i], kept) == Saved(items)
      invariant seen == NamedIn(site, ts[..i])
    {
      var template := body.templates[i];
      GatherStep(site, ts, kept, i, items);
      var id := ExactId(site, template.id);
      if id.None? {
        RejectionStays(site, ts, kept, i + 1);
        return Rejected(TemplateNotOffered(template.id));
      }
      if id.value in seen {
        RejectionStays(site, ts, kept, i + 1);
        return Rejected(DuplicateTemplate(id.value));
      }
      NamedStep(site, ts, i);
      seen := seen + {id.value};
      var item := CleanTemplate(id.value, template);
      if item.Rejected? {
        RejectionStays(site, ts, kept, i + 1);
        return Rejected(item.problem);
      }
      items := items[id.value := item.value];
    }
    assert ts[..|ts|] == ts;
    r := Finish(site, body.defaultId, items);
  }
}
