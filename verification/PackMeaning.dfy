/** The AI credit packs in the terms of a save's own body: what it may hold, and what of a stored one is offered
    (shared/aiPacks.ts). */
module PackMeaning {
  import opened Options
  import opened Text
  import opened TextWords
  import opened Editions
  import opened Packs

  /** Lower-case letters and digits, after the first also underscores and hyphens; 1 to 24 of them. */
  predicate Identifier(id: string) {
    && 1 <= |id| <= 24
    && forall i :: 0 <= i < |id| ==>
         || id[i] in "abcdefghijklm" || id[i] in "nopqrstuvwxyz" || id[i] in "0123456789"
         || (i > 0 && id[i] in "_-")
  }

  lemma IdStartIs(c: char)
    ensures IdStart(c) <==> c in "abcdefghijklm" || c in "nopqrstuvwxyz" || c in "0123456789"
  {
  }

  lemma IdentifierIs(id: string)
    ensures IsId(id) <==> Identifier(id)
  {
    forall c
      ensures IdStart(c) <==> c in "abcdefghijklm" || c in "nopqrstuvwxyz" || c in "0123456789"
    {
      IdStartIs(c);
    }
    hide IdStart;
  }

  function LargestTopUp(c: Currency): int {
    match c case IRR => 10_000_000_000 case USD => 5_000_000 case TRY => 200_000_000
  }

  /** A label of one language: none, or a text of at most 40 units once trimmed. */
  ghost predicate GoodLabel(v: Value) {
    v == Undefined || v == Null || (v.Str? && Units(Trim(v.s)) <= 40)
  }

  /** The labels kept of those given: the trimmed texts, without the blank ones. */
  ghost predicate LabelsKept(fields: map<Key, Value>, labels: map<Locale, string>) {
    forall l: Locale ::
      && (l in labels <==> InLocale(l) in fields && fields[InLocale(l)].Str? && !Blank(fields[InLocale(l)].s))
      && (l in labels ==> labels[l] == Trim(fields[InLocale(l)].s))
  }

  ghost predicate GoodLabels(v: Value, labels: map<Locale, string>) {
    if v == Undefined || v == Null then labels == map[]
    else v.Obj? && (forall k :: k in v.fields ==> k.InLocale? && GoodLabel(v.fields[k])) && LabelsKept(v.fields, labels)
  }

  /** `item` is the AI pack `p` as a save may ask for it. */
  ghost predicate GoodPack(c: Currency, item: Value, p: Pack) {
    && item.Obj?
    && Get(item.fields, IdKey) == Str(p.id) && Identifier(p.id)
    && Get(item.fields, PriceKey) == Whole(p.price) && 0 < p.price <= LargestTopUp(c)
    && (c == IRR ==> p.price % 10 == 0)
    && Get(item.fields, CreditKey) == Whole(p.credit) && 0 < p.credit <= 1_000_000_000_000
    && (if p.active then Get(item.fields, ActiveKey) in {Undefined, Bool(true)}
        else Get(item.fields, ActiveKey) == Bool(false))
    && GoodLabels(Get(item.fields, LabelKey), p.labels)
  }

  lemma LabelKept(fields: map<Key, Value>, l: Locale)
    ensures l in LabelsIn(fields)
        <==> InLocale(l) in fields && fields[InLocale(l)].Str? && !Blank(fields[InLocale(l)].s)
    ensures l in LabelsIn(fields) ==> LabelsIn(fields)[l] == Trim(fields[InLocale(l)].s)
  {
    hide Trim, Blank;
    assert l.Fa? || l.En? || l.Tr?;
    NoLabel();
    if InLocale(l) in fields && fields[InLocale(l)].Str? {
      TrimBlank(fields[InLocale(l)].s);
    }
  }

  lemma LabelsInAre(fields: map<Key, Value>, labels: map<Locale, string>)
    ensures LabelsIn(fields) == labels <==> LabelsKept(fields, labels)
  {
    hide LabelsIn, Trim, Blank;
    forall l: Locale
      ensures l in LabelsIn(fields)
          <==> InLocale(l) in fields && fields[InLocale(l)].Str? && !Blank(fields[InLocale(l)].s)
      ensures l in LabelsIn(fields) ==> LabelsIn(fields)[l] == Trim(fields[InLocale(l)].s)
    {
      LabelKept(fields, l);
    }
    if LabelsKept(fields, labels) {
      assert forall l :: l in LabelsIn(fields) <==> l in labels;
    }
  }

  lemma LabelsAre(v: Value, labels: map<Locale, string>)
    ensures LabelsOf(v) == Some(labels) <==> GoodLabels(v, labels)
  {
    hide LabelsIn, LabelsKept, Trim, Units;
    if v.Obj? {
      LabelsInAre(v.fields, labels);
    }
  }

  /** Exactly which items are packs, and which pack each is. */
  lemma PackIs(c: Currency, item: Value, p: Pack)
    ensures PackOf(c, item) == Some(p) <==> GoodPack(c, item, p)
  {
    hide IsId, Identifier, LabelsOf, GoodLabels, Get;
    IdentifierIs(p.id);
    NoId();
    if item.Obj? {
      LabelsAre(Get(item.fields, LabelKey), p.labels);
    }
  }

  lemma NoId()
    ensures !IsId([])
  {
  }

  // ----- a whole save

  ghost predicate PacksOf(c: Currency, items: seq<Value>, packs: seq<Pack>) {
    && |packs| == |items|
    && (forall i :: 0 <= i < |items| ==> GoodPack(c, items[i], packs[i]))
    && (forall i, j :: 0 <= i < j < |packs| ==> packs[i].id != packs[j].id)
  }

  lemma GoodPackId(c: Currency, item: Value, p: Pack)
    requires GoodPack(c, item, p)
    ensures item.Obj? && IdOf(item) == p.id && IsId(p.id)
  {
    hide GoodLabels;
    IdentifierIs(p.id);
  }

  lemma NextIs(c: Currency, before: seq<Pack>, item: Value, packs: seq<Pack>)
    ensures Next(c, before, item) == Valid(packs) <==>
      && |packs| == |before| + 1 && packs[..|before|] == before && GoodPack(c, item, packs[|before|])
      && forall i :: 0 <= i < |before| ==> before[i].id != packs[|before|].id
  {
    hide PackOf, GoodPack, IsId;
    var p := PackOf(c, item);
    if p.Some? {
      PackIs(c, item, p.value);
      GoodPackId(c, item, p.value);
      assert Taken(before, p.value.id) <==> exists i :: 0 <= i < |before| && before[i].id == p.value.id by {
        TakenAt(before, p.value.id);
      }
    }
    if |packs| == |before| + 1 && packs[..|before|] == before && GoodPack(c, item, packs[|before|]) {
      PackIs(c, item, packs[|before|]);
      assert packs == before + [packs[|before|]];
    }
  }

  lemma TakenAt(packs: seq<Pack>, id: string)
    ensures Taken(packs, id) <==> exists i :: 0 <= i < |packs| && packs[i].id == id
  {
    if Taken(packs, id) {
      var p :| p in packs && p.id == id;
      var i :| 0 <= i < |packs| && packs[i] == p;
    }
  }

  lemma {:induction false} ListIs(c: Currency, items: seq<Value>, packs: seq<Pack>)
    ensures ListOf(c, items) == Valid(packs) <==> PacksOf(c, items, packs)
  {
    hide GoodPack, Next;
    if items != [] {
      var front, last, n := items[..|items| - 1], items[|items| - 1], |items| - 1;
      var before := ListOf(c, front);
      if before.Valid? {
        ListIs(c, front, before.value);
        NextIs(c, before.value, last, packs);
      }
      if PacksOf(c, items, packs) {
        ListIs(c, front, packs[..n]);
        assert ListOf(c, front) == Valid(packs[..n]);
      }
    }
  }

  ghost predicate CurrencyIs(c: Currency, v: Value, packs: seq<Pack>) {
    if v == Undefined || v == Null then packs == [] else v.Arr? && |v.items| <= 8 && PacksOf(c, v.items, packs)
  }

  /** A save is accepted exactly when its keys are currencies of the edition (Rial in Iran, Dollar and Lira elsewhere),
      each with no packs or a list of at most eight good ones with different ids; and it stores those packs. */
  lemma SavedPacks(e: Edition, raw: Value, all: map<Currency, seq<Pack>>)
    ensures Validate(e, raw) == Valid(all) <==>
      && raw.Obj?
      && (forall k :: k in raw.fields ==> k.OfCurrency? && (k.currency == IRR <==> e == Iran))
      && (forall c :: c in all <==> (c == IRR <==> e == Iran))
      && (forall c :: c in all ==> CurrencyIs(c, Get(raw.fields, OfCurrency(c)), all[c]))
  {
    hide ListOf, PacksOf, Get, AllPacks, CurrencyPacks, CurrencyIs;
    CurrenciesDiffer(e);
    forall c: Currency
      ensures c in Currencies(e) <==> (c == IRR <==> e == Iran)
    {
      CurrencyOf(e, c);
    }
    hide Currencies;
    if raw.Obj? {
      forall c, packs
        ensures CurrencyPacks(c, Get(raw.fields, OfCurrency(c))) == Valid(packs)
            <==> CurrencyIs(c, Get(raw.fields, OfCurrency(c)), packs)
      {
        PacksOfCurrency(c, Get(raw.fields, OfCurrency(c)), packs);
      }
      if Validate(e, raw) == Valid(all) {
        AllPacksRead(raw.fields, Currencies(e));
      }
      if forall c :: c in Currencies(e) ==>
           c in all && CurrencyPacks(c, Get(raw.fields, OfCurrency(c))) == Valid(all[c]) {
        AllPacksFrom(raw.fields, Currencies(e), all);
        if forall c :: c in all <==> c in Currencies(e) {
          assert (map c | c in Currencies(e) :: all[c]) == all;
        }
      }
    }
  }

  lemma CurrencyOf(e: Edition, c: Currency)
    ensures c in Currencies(e) <==> (c == IRR <==> e == Iran)
  {
    assert c == IRR || c == USD || c == TRY;
  }

  lemma PacksOfCurrency(c: Currency, v: Value, packs: seq<Pack>)
    ensures CurrencyPacks(c, v) == Valid(packs) <==> CurrencyIs(c, v, packs)
  {
    hide ListOf, PacksOf;
    if v.Arr? {
      ListIs(c, v.items, packs);
    }
  }

  // ----- what a refusal names

  /** This part of an item is wrong in itself. */
  ghost predicate Faulty(c: Currency, item: Value, part: Part) {
    item.Obj?
    && match part
       case IdPart => forall id :: Identifier(id) ==> Get(item.fields, IdKey) != Str(id)
       case PricePart =>
         forall n :: 0 < n <= LargestTopUp(c) && (c == IRR ==> n % 10 == 0) ==> Get(item.fields, PriceKey) != Whole(n)
       case CreditPart => forall n :: 0 < n <= 1_000_000_000_000 ==> Get(item.fields, CreditKey) != Whole(n)
       case ActivePart => Get(item.fields, ActiveKey) !in {Undefined, Bool(true), Bool(false)}
       case LabelPart =>
         Get(item.fields, LabelKey) !in {Undefined, Null} && !Get(item.fields, LabelKey).Obj?
       case LabelAt(k) =>
         && Get(item.fields, LabelKey).Obj? && k in Get(item.fields, LabelKey).fields
         && (!k.InLocale? || !GoodLabel(Get(item.fields, LabelKey).fields[k]))
  }

  lemma FaultyIs(c: Currency, item: Value, part: Part)
    requires item.Obj?
    ensures PartWrong(c, item, part) <==> Faulty(c, item, part)
  {
    hide IsId, Identifier, Units, Trim, Get;
    NoId();
    match part
    case IdPart =>
      IdentifierIs(IdOf(item));
    case PricePart =>
      var price := Get(item.fields, PriceKey);
      assert price.Whole? ==> price == Whole(price.n);
    case CreditPart =>
      var credit := Get(item.fields, CreditKey);
      assert credit.Whole? ==> credit == Whole(credit.n);
    case _ =>
  }

  /** A refusal is true. A repeated id is a good one that an item before has; any other fault of an item is the item
      itself, being no object, or a part of it. */
  lemma RefusalIsTrue(e: Edition, raw: Value, c: Currency, i: nat, part: Part, reason: Reason)
    requires Blames(e, raw, PartField(c, i, part), reason)
    ensures (c == IRR <==> e == Iran) && Get(Fields(raw), OfCurrency(c)).Arr?
    ensures var items := Get(Fields(raw), OfCurrency(c)).items;
      && i < |items| && items[i].Obj?
      && (if reason == Duplicate then
            && part == IdPart && Identifier(IdOf(items[i]))
            && exists j :: 0 <= j < i && items[j].Obj? && IdOf(items[j]) == IdOf(items[i])
          else reason == Invalid && Faulty(c, items[i], part))
  {
    hide PartWrong, Faulty, Identifier, IsId, ListOf;
    CurrencyOf(e, c);
    var items := Get(Fields(raw), OfCurrency(c)).items;
    if items[i].Obj? {
      FaultyIs(c, items[i], part);
    }
    IdentifierIs(IdOf(items[i]));
  }

  // ----- what a stored row offers

  /** `item` offers the AI pack `p`: not switched off, named, with a price and a credit that are safe whole numbers. */
  ghost predicate Offers(item: Value, p: Pack) {
    && item.Obj? && Get(item.fields, ActiveKey) != Bool(false) && p.active
    && Get(item.fields, IdKey) == Str(p.id) && p.id != []
    && Get(item.fields, PriceKey) == Whole(p.price) && 0 < p.price <= 9_007_199_254_740_991
    && Get(item.fields, CreditKey) == Whole(p.credit) && 0 < p.credit <= 9_007_199_254_740_991
    && (if Get(item.fields, LabelKey).Obj? then LabelsKept(Get(item.fields, LabelKey).fields, p.labels)
        else p.labels == map[])
  }

  lemma OffersOne(item: Value, p: Pack)
    ensures OfferedPack(item) == Some(p) <==> Offers(item, p)
  {
    hide LabelsIn, LabelsKept, Get;
    if item.Obj? && Get(item.fields, LabelKey).Obj? {
      LabelsInAre(Get(item.fields, LabelKey).fields, p.labels);
    }
  }

  /** The first item of its id that offers anything. */
  ghost predicate FirstOffer(items: seq<Value>, i: int, p: Pack) {
    && 0 <= i < |items| && Offers(items[i], p)
    && forall j, q :: 0 <= j < i && Offers(items[j], q) ==> q.id != p.id
  }

  ghost predicate IsFirstOffer(items: seq<Value>, p: Pack) {
    exists i :: FirstOffer(items, i, p)
  }

  /** Some item offers a pack of this id. */
  ghost predicate IdOffered(items: seq<Value>, id: string) {
    exists i, q :: 0 <= i < |items| && Offers(items[i], q) && q.id == id
  }

  ghost predicate IdsDiffer(packs: seq<Pack>) {
    forall i, j :: 0 <= i < j < |packs| ==> packs[i].id != packs[j].id
  }

  /** Whatever is stored: of the items with one id the first that offers a pack is offered, and nothing else is. */
  lemma {:induction false} OfferedAre(items: seq<Value>, p: Pack)
    ensures p in OfferedIn(items) <==> IsFirstOffer(items, p)
    ensures IdsDiffer(OfferedIn(items))
    ensures forall id :: Taken(OfferedIn(items), id) <==> IdOffered(items, id)
  {
    hide IsFirstOffer, IdOffered, Taken, OfferedPack;
    if items == [] {
      NothingOffered(p);
    } else {
      var front, last := items[..|items| - 1], items[|items| - 1];
      OfferedAre(front, p);
      assert items == front + [last];
      OfferedNext(front, last);
      IdsNext(front, last);
      FirstNext(front, last, p);
    }
  }

  lemma NothingOffered(p: Pack)
    ensures OfferedIn([]) == [] && !IsFirstOffer([], p) && forall id :: !Taken([], id) && !IdOffered([], id)
  {
  }

  /** What one more item adds: its pack, unless its id is taken. */
  lemma OfferedNext(front: seq<Value>, last: Value)
    ensures var p := OfferedPack(last);
      OfferedIn(front + [last])
        == OfferedIn(front) + if p.Some? && !Taken(OfferedIn(front), p.value.id) then [p.value] else []
  {
    hide OfferedPack, Taken;
    assert (front + [last])[..|front|] == front;
    assert OfferedIn(front) + [] == OfferedIn(front);
  }

  lemma TakenMore(packs: seq<Pack>, p: Pack, id: string)
    ensures Taken(packs + [p], id) <==> Taken(packs, id) || p.id == id
  {
    if Taken(packs, id) {
      var q :| q in packs && q.id == id;
      assert q in packs + [p];
    }
    assert p in packs + [p];
  }

  lemma IdOfferedMore(front: seq<Value>, last: Value, id: string)
    ensures IdOffered(front + [last], id) <==>
      IdOffered(front, id) || (OfferedPack(last).Some? && OfferedPack(last).value.id == id)
  {
    hide Offers, OfferedPack;
    var items := front + [last];
    if i, q :| 0 <= i < |front| && Offers(front[i], q) && q.id == id {
      assert items[i] == front[i];
    }
    if OfferedPack(last).Some? {
      OffersOne(last, OfferedPack(last).value);
      assert items[|front|] == last;
    }
    if i, q :| 0 <= i < |items| && Offers(items[i], q) && q.id == id {
      if i < |front| {
        assert items[i] == front[i];
      } else {
        OffersOne(last, q);
      }
    }
  }

  lemma IdsNext(front: seq<Value>, last: Value)
    requires IdsDiffer(OfferedIn(front)) && forall id :: Taken(OfferedIn(front), id) <==> IdOffered(front, id)
    ensures IdsDiffer(OfferedIn(front + [last]))
    ensures forall id :: Taken(OfferedIn(front + [last]), id) <==> IdOffered(front + [last], id)
  {
    hide IdOffered, OfferedPack, OfferedIn;
    OfferedNext(front, last);
    var before, p := OfferedIn(front), OfferedPack(last);
    forall id
      ensures Taken(OfferedIn(front + [last]), id) <==> IdOffered(front + [last], id)
    {
      IdOfferedMore(front, last, id);
      if p.Some? {
        TakenMore(before, p.value, id);
      }
    }
  }

  lemma FirstNext(front: seq<Value>, last: Value, p: Pack)
    requires p in OfferedIn(front) <==> IsFirstOffer(front, p)
    requires forall id :: Taken(OfferedIn(front), id) <==> IdOffered(front, id)
    ensures p in OfferedIn(front + [last]) <==> IsFirstOffer(front + [last], p)
  {
    hide Offers, OfferedPack, OfferedIn, Taken;
    OfferedNext(front, last);
    OffersOne(last, p);
    var items, n := front + [last], |front|;
    assert items[..n] == front && forall i :: 0 <= i < n ==> items[i] == front[i];
    if i :| FirstOffer(front, i, p) {
      assert FirstOffer(items, i, p);
    }
    if i :| FirstOffer(items, i, p) {
      if i < n {
        assert FirstOffer(front, i, p);
      } else {
        assert items[n] == last && !IdOffered(front, p.id);
      }
    }
    if OfferedPack(last) == Some(p) && !IdOffered(front, p.id) {
      assert items[n] == last && FirstOffer(items, n, p);
    }
  }
}
