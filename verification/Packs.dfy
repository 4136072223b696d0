/** AI credit packs: what a save accepts, what is offered of it, and the conversion between a pack's
    credit and the AI wallet (shared/aiPacks.ts). */
module Packs {
  import opened Options
  import opened Text
  import opened Editions

  datatype Currency = IRR | USD | TRY

  /** A property name, by what it names where the readers look for it. */
  datatype Key =
    | IdKey | PriceKey | CreditKey | ActiveKey | LabelKey
    | InLocale(locale: Locale) | OfCurrency(currency: Currency) | OtherKey(name: string)

  /** A value of any type; undefined reads as null does but for `active`, where null is not a value. */
  datatype Value =
    | Undefined | Null | Bool(b: bool) | Whole(n: int) | Fraction | Str(s: string)
    | Arr(items: seq<Value>) | Obj(fields: map<Key, Value>)

  function Get(fields: map<Key, Value>, k: Key): Value {
    if k in fields then fields[k] else Undefined
  }

  predicate Missing(v: Value) {
    v == Undefined || v == Null
  }

  datatype Pack = Pack(id: string, price: int, credit: int, active: bool, labels: map<Locale, string>)

  datatype Reason = Invalid | Duplicate | TooMany | UnknownCurrency

  datatype Outcome<+T> = Valid(value: T) | Bad(reason: Reason)

  /** What a problem names: the whole body, a currency's key, a pack of a list, or a part of one. */
  datatype Part = IdPart | PricePart | CreditPart | ActivePart | LabelPart | LabelAt(key: Key)

  datatype Field = PacksField | KeyField(key: Key) | ItemField(c: Currency, i: nat)
    | PartField(c: Currency, i: nat, part: Part)

  const MAX_PER_CURRENCY := 8
  const MAX_CREDIT := 1_000_000_000_000
  const MAX_LABEL := 40
  const MAX_SAFE := 0x1F_FFFF_FFFF_FFFF

  function Currencies(e: Edition): seq<Currency> {
    if e == Iran then [IRR] else [USD, TRY]
  }

  /** The largest top-up of the currency. */
  function MaxPrice(c: Currency): (r: int)
    ensures 0 < r <= MAX_SAFE
  {
    match c case IRR => 10_000_000_000 case USD => 5_000_000 case TRY => 200_000_000
  }

  predicate IdStart(c: char) {
    'a' <= c <= 'z' || IsDigit(c)
  }

  predicate IsId(s: string) {
    && 1 <= |s| <= 24 && IdStart(s[0])
    && forall i :: 1 <= i < |s| ==> IdStart(s[i]) || s[i] == '_' || s[i] == '-'
  }

  predicate IsAmount(v: Value, max: int) {
    v.Whole? && 0 < v.n <= max && v.n <= MAX_SAFE
  }

  function TextOf(v: Value): string {
    if v.Str? then v.s else []
  }

  function IdOf(item: Value): string {
    TextOf(Get(Fields(item), IdKey))
  }

  function Fields(v: Value): map<Key, Value> {
    if v.Obj? then v.fields else map[]
  }

  function LabelText(v: Value): string {
    Trim(TextOf(v))
  }

  // ----- the save

  predicate LabelValid(k: Key, v: Value) {
    k.InLocale? && (Missing(v) || (v.Str? && Units(Trim(v.s)) <= MAX_LABEL))
  }

  function LabelsIn(fields: map<Key, Value>): map<Locale, string> {
    map l | l in {Fa, En, Tr} && LabelText(Get(fields, InLocale(l))) != [] :: LabelText(Get(fields, InLocale(l)))
  }

  /** A pack's labels: each trimmed, the empty ones dropped; None when one is not valid. */
  function LabelsOf(v: Value): Option<map<Locale, string>> {
    if Missing(v) then Some(map[])
    else if !v.Obj? then None
    else if forall k | k in v.fields :: LabelValid(k, v.fields[k]) then Some(LabelsIn(v.fields))
    else None
  }

  /** The object's keys are visited in any order: the outcome is the same, and a problem names a key that is not valid.
      */
  method CleanLabels(v: Value) returns (r: Option<map<Locale, string>>, bad: Option<Key>)
    ensures r == LabelsOf(v)
    ensures r.None? && v.Obj? ==> bad.Some? && bad.value in v.fields && !LabelValid(bad.value, v.fields[bad.value])
  {
    hide Trim, Units;
    if Missing(v) {
      return Some(map[]), None;
    }
    if !v.Obj? {
      return None, None;
    }
    var labels := map[];
    var keys := v.fields.Keys;
    while keys != {}
      invariant keys <= v.fields.Keys
      invariant forall k :: k in v.fields && k !in keys ==> LabelValid(k, v.fields[k])
      invariant forall l :: l in labels <==>
        InLocale(l) in v.fields && InLocale(l) !in keys && LabelText(v.fields[InLocale(l)]) != []
      invariant forall l :: l in labels ==> labels[l] == LabelText(v.fields[InLocale(l)])
      decreases |keys|
    {
      var k :| k in keys;
      keys := keys - {k};
      if !LabelValid(k, v.fields[k]) {
        return None, Some(k);
      }
      var text := LabelText(v.fields[k]);
      if text != [] {
        labels := labels[k.locale := text];
      }
    }
    AllLabels(v.fields, labels);
    r, bad := Some(labels), None;
  }

  lemma AllLabels(fields: map<Key, Value>, labels: map<Locale, string>)
    requires forall l :: l in labels <==> InLocale(l) in fields && LabelText(fields[InLocale(l)]) != []
    requires forall l :: l in labels ==> labels[l] == LabelText(fields[InLocale(l)])
    ensures labels == LabelsIn(fields)
  {
    NoLabel();
    hide LabelText;
    forall l: Locale
      ensures l in {Fa, En, Tr} && (l in labels <==> LabelText(Get(fields, InLocale(l))) != [])
    {
      assert l.Fa? || l.En? || l.Tr?;
    }
  }

  lemma NoLabel()
    ensures LabelText(Undefined) == []
  {
  }

  predicate ActiveValid(v: Value) {
    v == Undefined || v.Bool?
  }

  /** A pack on its own, normalised; None when it is not valid. */
  function PackOf(c: Currency, item: Value): Option<Pack> {
    if !item.Obj? then None
    else
      var f := item.fields;
      var id, price, credit := TextOf(Get(f, IdKey)), Get(f, PriceKey), Get(f, CreditKey);
      var active, labels := Get(f, ActiveKey), LabelsOf(Get(f, LabelKey));
      if !IsId(id) || !IsAmount(price, MaxPrice(c)) || (c == IRR && price.n % 10 != 0) || !IsAmount(credit, MAX_CREDIT)
         || !ActiveValid(active) || labels.None?
      then None
      else Some(Pack(id, price.n, credit.n, active != Bool(false), labels.value))
  }

  predicate Taken(packs: seq<Pack>, id: string) {
    exists p | p in packs :: p.id == id
  }

  /** An item after the packs before it. */
  function Next(c: Currency, packs: seq<Pack>, item: Value): Outcome<seq<Pack>> {
    if item.Obj? && IsId(IdOf(item)) && Taken(packs, IdOf(item)) then Bad(Duplicate)
    else
      var p := PackOf(c, item);
      if p.None? then Bad(Invalid) else Valid(packs + [p.value])
  }

  function ListOf(c: Currency, items: seq<Value>): Outcome<seq<Pack>> {
    if items == [] then Valid([])
    else
      var before := ListOf(c, items[..|items| - 1]);
      if before.Bad? then before else Next(c, before.value, items[|items| - 1])
  }

  function CurrencyPacks(c: Currency, v: Value): Outcome<seq<Pack>> {
    if Missing(v) then Valid([])
    else if !v.Arr? then Bad(Invalid)
    else if |v.items| > MAX_PER_CURRENCY then Bad(TooMany)
    else ListOf(c, v.items)
  }

  function AllPacks(fields: map<Key, Value>, cs: seq<Currency>): Outcome<map<Currency, seq<Pack>>> {
    if cs == [] then Valid(map[])
    else
      var c := cs[|cs| - 1];
      var before := AllPacks(fields, cs[..|cs| - 1]);
      if before.Bad? then before
      else
        var packs := CurrencyPacks(c, Get(fields, OfCurrency(c)));
        if packs.Bad? then Bad(packs.reason) else Valid(before.value[c := packs.value])
  }

  predicate KnownKey(e: Edition, k: Key) {
    k.OfCurrency? && k.currency in Currencies(e)
  }

  function Validate(e: Edition, raw: Value): Outcome<map<Currency, seq<Pack>>> {
    if !raw.Obj? then Bad(Invalid)
    else if exists k | k in raw.fields :: !KnownKey(e, k) then Bad(UnknownCurrency)
    else AllPacks(raw.fields, Currencies(e))
  }

  lemma {:induction false} BadListStays(c: Currency, items: seq<Value>, i: nat)
    requires i <= |items| && ListOf(c, items[..i]).Bad?
    ensures ListOf(c, items) == ListOf(c, items[..i])
  {
    hide Next;
    if i < |items| {
      assert items[..|items| - 1][..i] == items[..i];
      BadListStays(c, items[..|items| - 1], i);
    } else {
      assert items[..i] == items;
    }
  }

  /** The part of an object is wrong in itself. */
  predicate PartWrong(c: Currency, item: Value, part: Part) {
    var f := Fields(item);
    match part
    case IdPart => !IsId(IdOf(item))
    case PricePart => !IsAmount(Get(f, PriceKey), MaxPrice(c)) || (c == IRR && Get(f, PriceKey).n % 10 != 0)
    case CreditPart => !IsAmount(Get(f, CreditKey), MAX_CREDIT)
    case ActivePart => !ActiveValid(Get(f, ActiveKey))
    case LabelPart => !Missing(Get(f, LabelKey)) && !Get(f, LabelKey).Obj?
    case LabelAt(k) => var labels := Fields(Get(f, LabelKey)); k in labels && !LabelValid(k, labels[k])
  }

  /** A problem's part (None is the item itself) and reason, given the ids before. */
  predicate ItemWrong(c: Currency, item: Value, part: Option<Part>, reason: Reason, seen: set<string>) {
    if reason == Duplicate then part == Some(IdPart) && item.Obj? && IsId(IdOf(item)) && IdOf(item) in seen
    else reason == Invalid && (if part.None? then !item.Obj? else item.Obj? && PartWrong(c, item, part.value))
  }

  /** The item's outcome; the first thing wrong with it, in the order the parts are looked at. */
  method ValidateItem(c: Currency, item: Value, seen: set<string>) returns (r: Outcome<Pack>, part: Option<Part>)
    ensures r == if item.Obj? && IsId(IdOf(item)) && IdOf(item) in seen then Bad(Duplicate)
                 else if PackOf(c, item).None? then Bad(Invalid) else Valid(PackOf(c, item).value)
    ensures r.Bad? ==> ItemWrong(c, item, part, r.reason, seen)
  {
    hide IsId, LabelsOf, MaxPrice;
    part := None;
    if !item.Obj? {
      return Bad(Invalid), None;
    }
    var id := TextOf(Get(item.fields, IdKey));
    if !IsId(id) {
      return Bad(Invalid), Some(IdPart);
    }
    if id in seen {
      return Bad(Duplicate), Some(IdPart);
    }
    var price := Get(item.fields, PriceKey);
    if !IsAmount(price, MaxPrice(c)) || (c == IRR && price.n % 10 != 0) {
      return Bad(Invalid), Some(PricePart);
    }
    var credit := Get(item.fields, CreditKey);
    if !IsAmount(credit, MAX_CREDIT) {
      return Bad(Invalid), Some(CreditPart);
    }
    var active := Get(item.fields, ActiveKey);
    if !ActiveValid(active) {
      return Bad(Invalid), Some(ActivePart);
    }
    var given := Get(item.fields, LabelKey);
    var labels, bad := CleanLabels(given);
    if labels.None? {
      MissingLabels(given);
      return Bad(Invalid), Some(if bad.Some? && given.Obj? then LabelAt(bad.value) else LabelPart);
    }
    r := Valid(Pack(id, price.n, credit.n, active != Bool(false), labels.value));
  }

  lemma MissingLabels(v: Value)
    ensures LabelsOf(v).None? ==> !Missing(v)
  {
  }

  lemma PackIds(c: Currency, item: Value)
    ensures PackOf(c, item).Some? ==>
      item.Obj? && PackOf(c, item).value.id == IdOf(item) && IsId(PackOf(c, item).value.id)
  {
    hide IsId, LabelsOf, MaxPrice;
  }

  /** The first item that is wrong: all before it are packs, and it is wrong in the part named, or its id is that of
      an item before. */
  ghost predicate FirstWrong(c: Currency, items: seq<Value>, i: nat, part: Option<Part>, reason: Reason) {
    && i < |items| && ListOf(c, items[..i]).Valid?
    && exists seen :: ItemWrong(c, items[i], part, reason, seen)
                   && forall id :: id in seen ==> exists j :: 0 <= j < i && items[j].Obj? && IdOf(items[j]) == id
  }

  method ValidateList(c: Currency, items: seq<Value>) returns (r: Outcome<seq<Pack>>, i: nat, part: Option<Part>)
    ensures r == ListOf(c, items)
    ensures r.Bad? ==> FirstWrong(c, items, i, part, r.reason)
  {
    hide PackOf, IsId, PartWrong;
    var seen: set<string> := {};
    var packs: seq<Pack> := [];
    i, part := 0, None;
    while i < |items|
      invariant i <= |items| && ListOf(c, items[..i]) == Valid(packs)
      invariant forall id :: id in seen <==> Taken(packs, id)
      invariant forall id :: id in seen ==> exists j :: 0 <= j < i && items[j].Obj? && IdOf(items[j]) == id
    {
      var pack, wrong := ValidateItem(c, items[i], seen);
      assert items[..i + 1][..i] == items[..i];
      PackIds(c, items[i]);
      if pack.Bad? {
        BadListStays(c, items, i + 1);
        return Bad(pack.reason), i, wrong;
      }
      assert IdOf(items[i]) == pack.value.id;
      seen := seen + {pack.value.id};
      packs := packs + [pack.value];
      i := i + 1;
    }
    assert items[..|items|] == items;
    r := Valid(packs);
  }

  lemma {:induction false} BadCurrencyStays(fields: map<Key, Value>, cs: seq<Currency>, i: nat)
    requires i <= |cs| && AllPacks(fields, cs[..i]).Bad?
    ensures AllPacks(fields, cs) == AllPacks(fields, cs[..i])
  {
    hide CurrencyPacks;
    if i < |cs| {
      assert cs[..|cs| - 1][..i] == cs[..i];
      BadCurrencyStays(fields, cs[..|cs| - 1], i);
    } else {
      assert cs[..i] == cs;
    }
  }

  /** What a refusal names is really wrong, and for that reason. */
  ghost predicate Blames(e: Edition, raw: Value, field: Field, reason: Reason) {
    match field
    case PacksField => reason == Invalid && !raw.Obj?
    case KeyField(k) =>
      var v := Get(Fields(raw), k);
      || (reason == UnknownCurrency && k in Fields(raw) && !KnownKey(e, k))
      || (reason == Invalid && KnownKey(e, k) && !Missing(v) && !v.Arr?)
      || (reason == TooMany && KnownKey(e, k) && v.Arr? && |v.items| > MAX_PER_CURRENCY)
    case ItemField(c, i) =>
      var v := Get(Fields(raw), OfCurrency(c));
      c in Currencies(e) && v.Arr? && FirstWrong(c, v.items, i, None, reason)
    case PartField(c, i, part) =>
      var v := Get(Fields(raw), OfCurrency(c));
      c in Currencies(e) && v.Arr? && FirstWrong(c, v.items, i, Some(part), reason)
  }

  method ValidateAiPacks(e: Edition, raw: Value) returns (r: Outcome<map<Currency, seq<Pack>>>, field: Field)
    ensures r == Validate(e, raw)
    ensures r.Bad? ==> Blames(e, raw, field, r.reason)
  {
    hide ListOf, FirstWrong;
    field := PacksField;
    if !raw.Obj? {
      return Bad(Invalid), PacksField;
    }
    if exists k | k in raw.fields :: !KnownKey(e, k) {
      var k :| k in raw.fields && !KnownKey(e, k);
      return Bad(UnknownCurrency), KeyField(k);
    }
    var currencies := Currencies(e);
    var out := map[];
    for i := 0 to |currencies|
      invariant AllPacks(raw.fields, currencies[..i]) == Valid(out)
    {
      assert currencies[..i + 1][..i] == currencies[..i];
      var packs, wrong := ValidateCurrency(e, currencies[i], raw);
      if packs.Bad? {
        BadCurrencyStays(raw.fields, currencies, i + 1);
        return Bad(packs.reason), wrong;
      }
      out := out[currencies[i] := packs.value];
    }
    assert currencies[..|currencies|] == currencies;
    r := Valid(out);
  }

  method ValidateCurrency(e: Edition, c: Currency, raw: Value) returns (r: Outcome<seq<Pack>>, field: Field)
    requires raw.Obj? && c in Currencies(e)
    ensures r == CurrencyPacks(c, Get(raw.fields, OfCurrency(c)))
    ensures r.Bad? ==> Blames(e, raw, field, r.reason)
  {
    hide ListOf, FirstWrong;
    field := KeyField(OfCurrency(c));
    var list := Get(raw.fields, OfCurrency(c));
    if Missing(list) {
      return Valid([]), field;
    }
    if !list.Arr? {
      return Bad(Invalid), field;
    }
    if |list.items| > MAX_PER_CURRENCY {
      return Bad(TooMany), field;
    }
    var packs, i, part := ValidateList(c, list.items);
    r, field := packs, if part.None? then ItemField(c, i) else PartField(c, i, part.value);
  }

  // ----- what was saved, validated again

  function LabelFields(labels: map<Locale, string>): (r: set<Key>)
    ensures forall k :: k in r <==> k.InLocale? && k.locale in labels
  {
    set l | l in labels.Keys :: InLocale(l)
  }

  function LabelsJson(labels: map<Locale, string>): Value {
    Obj(map k | k in LabelFields(labels) :: Str(labels[k.locale]))
  }

  function PackJson(p: Pack): Value {
    var own := map[IdKey := Str(p.id), PriceKey := Whole(p.price), CreditKey := Whole(p.credit),
        ActiveKey := Bool(p.active)];
    Obj(if p.labels == map[] then own else own[LabelKey := LabelsJson(p.labels)])
  }

  function ListJson(packs: seq<Pack>): Value {
    Arr(seq(|packs|, i requires 0 <= i < |packs| => PackJson(packs[i])))
  }

  function CurrencyFields(all: map<Currency, seq<Pack>>): (r: set<Key>)
    ensures forall k :: k in r <==> k.OfCurrency? && k.currency in all
  {
    set c | c in all.Keys :: OfCurrency(c)
  }

  function PacksJson(all: map<Currency, seq<Pack>>): Value {
    Obj(map k | k in CurrencyFields(all) :: ListJson(all[k.currency]))
  }

  /** Labels as they are kept: not empty, trimmed, short enough. */
  ghost predicate CleanLabelSet(labels: map<Locale, string>) {
    forall l :: l in labels ==> labels[l] != [] && Trim(labels[l]) == labels[l] && Units(labels[l]) <= MAX_LABEL
  }

  lemma LabelsClean(v: Value)
    requires LabelsOf(v).Some?
    ensures CleanLabelSet(LabelsOf(v).value)
  {
    hide Trim, Units;
    if !Missing(v) {
      forall l | l in LabelsOf(v).value
        ensures Trim(LabelsOf(v).value[l]) == LabelsOf(v).value[l]
      {
        TrimTwice(v.fields[InLocale(l)].s);
      }
    }
  }

  lemma LabelFieldsRead(labels: map<Locale, string>)
    ensures LabelsJson(labels).Obj?
    ensures var fields := LabelsJson(labels).fields;
      && (forall k :: k in fields <==> k.InLocale? && k.locale in labels)
      && forall l :: l in labels ==> fields[InLocale(l)] == Str(labels[l])
  {
    hide LabelFields;
  }

  lemma LabelTextBack(labels: map<Locale, string>, l: Locale)
    requires CleanLabelSet(labels)
    ensures LabelText(Get(LabelsJson(labels).fields, InLocale(l))) == if l in labels then labels[l] else []
    ensures l in labels ==> labels[l] != []
  {
    hide Trim, Units, LabelsJson;
    LabelFieldsRead(labels);
    NoLabel();
  }

  lemma LabelsInBack(labels: map<Locale, string>)
    requires CleanLabelSet(labels)
    ensures LabelsIn(LabelsJson(labels).fields) == labels
  {
    hide LabelText, Get, LabelsJson, CleanLabelSet;
    LabelFieldsRead(labels);
    forall l: Locale
      ensures l in {Fa, En, Tr}
      ensures LabelText(Get(LabelsJson(labels).fields, InLocale(l))) == if l in labels then labels[l] else []
      ensures l in labels ==> labels[l] != []
    {
      assert l.Fa? || l.En? || l.Tr?;
      LabelTextBack(labels, l);
    }
  }

  lemma LabelsReadBack(labels: map<Locale, string>)
    requires CleanLabelSet(labels)
    ensures LabelsOf(LabelsJson(labels)) == Some(labels) && LabelsIn(LabelsJson(labels).fields) == labels
  {
    hide Trim, Units, LabelsJson, LabelsIn;
    LabelFieldsRead(labels);
    LabelsInBack(labels);
  }

  /** A pack that validates to itself. */
  ghost predicate Normal(c: Currency, p: Pack) {
    PackOf(c, PackJson(p)) == Some(p) && CleanLabelSet(p.labels)
  }

  lemma PackFields(p: Pack)
    ensures PackJson(p).Obj?
    ensures var f := PackJson(p).fields;
      && Get(f, IdKey) == Str(p.id) && Get(f, PriceKey) == Whole(p.price) && Get(f, CreditKey) == Whole(p.credit)
      && Get(f, ActiveKey) == Bool(p.active)
      && Get(f, LabelKey) == if p.labels == map[] then Undefined else LabelsJson(p.labels)
  {
    hide LabelsJson;
  }

  lemma PackNormal(c: Currency, item: Value)
    requires PackOf(c, item).Some?
    ensures Normal(c, PackOf(c, item).value)
  {
    hide IsId, LabelsOf, MaxPrice, CleanLabelSet, LabelsJson, PackJson, Get, LabelsIn;
    var p := PackOf(c, item).value;
    LabelsClean(Get(item.fields, LabelKey));
    LabelsReadBack(p.labels);
    PackFields(p);
    NoLabels();
  }

  lemma NoLabels()
    ensures LabelsOf(Undefined) == Some(map[])
  {
  }

  ghost predicate NormalList(c: Currency, packs: seq<Pack>) {
    && (forall i :: 0 <= i < |packs| ==> Normal(c, packs[i]))
    && (forall i, j :: 0 <= i < j < |packs| ==> packs[i].id != packs[j].id)
  }

  lemma {:induction false} ListNormal(c: Currency, items: seq<Value>)
    requires ListOf(c, items).Valid?
    ensures NormalList(c, ListOf(c, items).value) && |ListOf(c, items).value| == |items|
  {
    hide PackOf, Normal, IsId;
    if items != [] {
      var last := items[|items| - 1];
      ListNormal(c, items[..|items| - 1]);
      PackNormal(c, last);
      PackIds(c, last);
    }
  }

  lemma ListJsonAppend(packs: seq<Pack>, p: Pack)
    ensures ListJson(packs + [p]).items == ListJson(packs).items + [PackJson(p)]
  {
    hide PackJson;
  }

  lemma NormalNext(c: Currency, front: seq<Pack>, p: Pack)
    requires Normal(c, p) && forall q :: q in front ==> q.id != p.id
    ensures Next(c, front, PackJson(p)) == Valid(front + [p])
  {
    hide PackOf, PackJson, IsId, CleanLabelSet;
    PackIds(c, PackJson(p));
  }

  lemma NormalListStep(c: Currency, front: seq<Pack>, p: Pack)
    requires NormalList(c, front + [p]) && ListOf(c, ListJson(front).items) == Valid(front)
    ensures ListOf(c, ListJson(front + [p]).items) == Valid(front + [p])
  {
    assert Normal(c, (front + [p])[|front|]);
    assert forall i :: 0 <= i < |front| ==> (front + [p])[i] == front[i];
    NormalNext(c, front, p);
    ListJsonAppend(front, p);
    hide PackJson, ListJson, Next, Normal, NormalList;
    var items := ListJson(front).items;
    assert (items + [PackJson(p)])[..|items|] == items;
  }

  lemma NoPacks(c: Currency)
    ensures ListOf(c, ListJson([]).items) == Valid([])
  {
    assert ListJson([]).items == [];
  }

  lemma {:induction false} NormalListReadBack(c: Currency, packs: seq<Pack>)
    requires NormalList(c, packs)
    ensures ListOf(c, ListJson(packs).items) == Valid(packs)
  {
    hide ListOf, ListJson, Normal;
    if packs == [] {
      NoPacks(c);
    } else {
      var front, p := packs[..|packs| - 1], packs[|packs| - 1];
      NormalListReadBack(c, front);
      assert packs == front + [p];
      NormalListStep(c, front, p);
    }
  }
  lemma AllPacksStep(fields: map<Key, Value>, cs: seq<Currency>)
    requires cs != [] && AllPacks(fields, cs).Valid?
    ensures var front, last := cs[..|cs| - 1], cs[|cs| - 1];
      var packs := CurrencyPacks(last, Get(fields, OfCurrency(last)));
      && AllPacks(fields, front).Valid? && packs.Valid?
      && AllPacks(fields, cs).value == AllPacks(fields, front).value[last := packs.value]
  {
    hide CurrencyPacks, Get;
  }

  lemma {:induction false} AllPacksRead(fields: map<Key, Value>, cs: seq<Currency>)
    requires AllPacks(fields, cs).Valid?
    requires forall i, j :: 0 <= i < j < |cs| ==> cs[i] != cs[j]
    ensures forall c :: c in AllPacks(fields, cs).value <==> c in cs
    ensures forall c :: c in cs ==> CurrencyPacks(c, Get(fields, OfCurrency(c))) == Valid(AllPacks(fields, cs).value[c])
  {
    if cs != [] {
      AllPacksStep(fields, cs);
      hide CurrencyPacks, Get, AllPacks;
      var front, last := cs[..|cs| - 1], cs[|cs| - 1];
      AllPacksRead(fields, front);
      assert last !in front;
      assert forall c :: c in cs <==> c in front || c == last by { assert cs == front + [last]; }
    }
  }

  lemma {:induction false} AllPacksFrom(fields: map<Key, Value>, cs: seq<Currency>, all: map<Currency, seq<Pack>>)
    requires forall c :: c in cs ==> c in all && CurrencyPacks(c, Get(fields, OfCurrency(c))) == Valid(all[c])
    ensures AllPacks(fields, cs) == Valid(map c | c in cs :: all[c])
  {
    hide CurrencyPacks;
    if cs != [] {
      var front, last := cs[..|cs| - 1], cs[|cs| - 1];
      AllPacksFrom(fields, front, all);
      assert cs == front + [last];
      assert (map c | c in cs :: all[c]) == (map c | c in front :: all[c])[last := all[last]];
    }
  }

  /** Each currency's packs are those its own list comes to, at most eight, each normal, their ids all different. */
  lemma ValidPacks(e: Edition, raw: Value)
    requires Validate(e, raw).Valid?
    ensures var all := Validate(e, raw).value;
      && (forall c :: c in all <==> c in Currencies(e))
      && (forall c :: c in all ==> NormalList(c, all[c]) && |all[c]| <= MAX_PER_CURRENCY)
  {
    hide NormalList, ListOf, Currencies;
    CurrenciesDiffer(e);
    var all := Validate(e, raw).value;
    AllPacksRead(raw.fields, Currencies(e));
    forall c | c in all
      ensures NormalList(c, all[c]) && |all[c]| <= MAX_PER_CURRENCY
    {
      var v := Get(raw.fields, OfCurrency(c));
      assert CurrencyPacks(c, v) == Valid(all[c]);
      if Missing(v) {
        NothingNormal(c);
      } else {
        ListNormal(c, v.items);
      }
    }
  }

  lemma NothingNormal(c: Currency)
    ensures NormalList(c, [])
  {
  }

  lemma CurrenciesDiffer(e: Edition)
    ensures forall i, j :: 0 <= i < j < |Currencies(e)| ==> Currencies(e)[i] != Currencies(e)[j]
  {
  }

  /** What a save accepts, a second save of it accepts and leaves as it is. */
  lemma ValidateTwice(e: Edition, raw: Value)
    requires Validate(e, raw).Valid?
    ensures Validate(e, PacksJson(Validate(e, raw).value)) == Validate(e, raw)
  {
    hide NormalList, ListOf, Currencies, ListJson, AllPacks, CurrencyFields;
    var all := Validate(e, raw).value;
    ValidPacks(e, raw);
    var fields := PacksJson(all).fields;
    forall c | c in Currencies(e)
      ensures c in all && CurrencyPacks(c, Get(fields, OfCurrency(c))) == Valid(all[c])
    {
      NormalListReadBack(c, all[c]);
      assert OfCurrency(c) in fields;
      ListJsonItems(all[c]);
    }
    AllPacksFrom(fields, Currencies(e), all);
    assert (map c | c in Currencies(e) :: all[c]) == all;
  }

  lemma ListJsonItems(packs: seq<Pack>)
    ensures ListJson(packs).Arr? && |ListJson(packs).items| == |packs|
  {
  }

  // ----- the packs offered

  /** A stored item that is offered, whatever else is wrong with it. */
  function OfferedPack(item: Value): Option<Pack> {
    if !item.Obj? || Get(item.fields, ActiveKey) == Bool(false) then None
    else
      var f := item.fields;
      var id, price, credit, given := TextOf(Get(f, IdKey)), Get(f, PriceKey), Get(f, CreditKey), Get(f, LabelKey);
      if id == [] || !IsAmount(price, MAX_SAFE) || !IsAmount(credit, MAX_SAFE) then None
      else Some(Pack(id, price.n, credit.n, true, if given.Obj? then LabelsIn(given.fields) else map[]))
  }

  function OfferedIn(items: seq<Value>): seq<Pack> {
    if items == [] then []
    else
      var before := OfferedIn(items[..|items| - 1]);
      var p := OfferedPack(items[|items| - 1]);
      if p.None? || Taken(before, p.value.id) then before else before + [p.value]
  }

  function Offered(all: Value, c: Currency): seq<Pack> {
    if !all.Obj? then []
    else
      var list := Get(all.fields, OfCurrency(c));
      if list.Arr? then OfferedIn(list.items) else []
  }

  method ActivePacks(all: Value, c: Currency) returns (out: seq<Pack>)
    ensures out == Offered(all, c)
  {
    hide LabelsIn;
    out := [];
    if !all.Obj? {
      return;
    }
    var list := Get(all.fields, OfCurrency(c));
    if !list.Arr? {
      return;
    }
    for i := 0 to |list.items|
      invariant out == OfferedIn(list.items[..i])
    {
      assert list.items[..i + 1][..i] == list.items[..i];
      var item := list.items[i];
      if !item.Obj? || Get(item.fields, ActiveKey) == Bool(false) {
        continue;
      }
      var id := TextOf(Get(item.fields, IdKey));
      if id == [] || Taken(out, id) {
        continue;
      }
      var price, credit, shown := Get(item.fields, PriceKey), Get(item.fields, CreditKey), Get(item.fields, LabelKey);
      if !IsAmount(price, MAX_SAFE) || !IsAmount(credit, MAX_SAFE) {
        continue;
      }
      out := out + [Pack(id, price.n, credit.n, true, if shown.Obj? then LabelsIn(shown.fields) else map[])];
    }
    assert list.items[..|list.items|] == list.items;
  }

  function ActiveOnly(packs: seq<Pack>): (r: seq<Pack>)
    ensures forall p :: p in r <==> p in packs && p.active
  {
    if packs == [] then []
    else
      assert packs == packs[..|packs| - 1] + [packs[|packs| - 1]];
      ActiveOnly(packs[..|packs| - 1]) + if packs[|packs| - 1].active then [packs[|packs| - 1]] else []
  }

  lemma NormalAmounts(c: Currency, p: Pack)
    requires Normal(c, p)
    ensures p.id != [] && IsAmount(Whole(p.price), MAX_SAFE) && IsAmount(Whole(p.credit), MAX_SAFE)
        && CleanLabelSet(p.labels)
  {
    hide LabelsOf, MaxPrice, CleanLabelSet, PackJson, Get;
    PackFields(p);
  }

  lemma NormalOffered(c: Currency, p: Pack)
    requires Normal(c, p)
    ensures OfferedPack(PackJson(p)) == if p.active then Some(p) else None
  {
    hide Normal, LabelsOf, LabelsIn, LabelsJson, PackJson, Get;
    PackFields(p);
    NormalAmounts(c, p);
    LabelsReadBack(p.labels);
    LabelFieldsRead(p.labels);
  }

  lemma {:induction false} NormalListOffered(c: Currency, packs: seq<Pack>)
    requires NormalList(c, packs)
    ensures OfferedIn(ListJson(packs).items) == ActiveOnly(packs)
  {
    hide Normal, OfferedPack, PackJson;
    if packs != [] {
      var front, p := packs[..|packs| - 1], packs[|packs| - 1];
      NormalListOffered(c, front);
      var items := ListJson(packs).items;
      assert items[..|items| - 1] == ListJson(front).items;
      NormalOffered(c, p);
      assert !Taken(ActiveOnly(front), p.id);
    }
  }

  /** Of a saved row, exactly the active packs of each currency are offered, in their order, labels and all. */
  lemma SavedPacksOffered(e: Edition, raw: Value, c: Currency)
    requires Validate(e, raw).Valid?
    ensures var all := Validate(e, raw).value;
      Offered(PacksJson(all), c) == if c in all then ActiveOnly(all[c]) else []
  {
    hide NormalList, ListJson, ActiveOnly, OfferedIn, Validate, CurrencyFields;
    var all := Validate(e, raw).value;
    ValidPacks(e, raw);
    if c in all {
      NormalListOffered(c, all[c]);
      ListJsonItems(all[c]);
    }
  }
}
