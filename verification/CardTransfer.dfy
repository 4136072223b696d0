/** The bank account of card-to-card transfers: reading, printing and cleaning
    its numbers (shared/cardTransfer.ts). */
module CardTransfer {
  import opened Options
  import opened Text
  import opened TextWords
  import Luhn
  import Iban

  /** Persian and Arabic digits as Latin ones; None for anything that is not a digit. */
  function LatinDigit(c: char): (r: Option<char>)
    ensures r.Some? ==> IsDigit(r.value)
    ensures IsDigit(c) ==> r == Some(c)
  {
    var n := c as int;
    if 0x06F0 <= n <= 0x06F9 then Some(Digit(n - 0x06F0))
    else if 0x0660 <= n <= 0x0669 then Some(Digit(n - 0x0660))
    else if IsDigit(c) then Some(c)
    else None
  }

  function LatinDigits(s: string): (r: string)
    ensures AllDigits(r)
  {
    if s == [] then []
    else
      var last := LatinDigit(s[|s| - 1]);
      LatinDigits(s[..|s| - 1]) + if last.Some? then [last.value] else []
  }

  function NormalizeCardNumber(value: string): (r: Option<string>)
    ensures r.Some? ==> |r.value| == 16 && Luhn.Valid(r.value)
  {
    var digits := LatinDigits(value);
    if |digits| == 16 && Luhn.Valid(digits) then Some(digits) else None
  }

  /** toUpperCase on the letters that can become a Latin capital; no letter becomes a digit or stops being one. */
  function Upper(c: char): (r: char)
    ensures LatinDigit(r) == LatinDigit(c)
  {
    if 'a' <= c <= 'z' then (c as int - 32) as char
    else if c as int == 0x131 then 'I'
    else c
  }

  /** Upper case, without white space and hyphens. */
  function Compact(s: string): string {
    if s == [] then []
    else
      var c := Upper(s[|s| - 1]);
      Compact(s[..|s| - 1]) + if IsSpace(c) || c == '-' then [] else [c]
  }

  function WithoutCountry(s: string): string {
    if |s| >= 2 && s[0] == 'I' && s[1] == 'R' then s[2..] else s
  }

  function NormalizeIban(value: string): (r: Option<string>)
    ensures r.Some? ==> |r.value| == 26 && r.value[..2] == "IR" && Iban.ValidDigits(r.value[2..])
  {
    var digits := LatinDigits(WithoutCountry(Compact(value)));
    if Iban.ValidDigits(digits) then
      assert ("IR" + digits)[2..] == digits;
      Some("IR" + digits)
    else None
  }

  /** A space after every four characters that have another after them. */
  function Grouped(s: string): string {
    if |s| > 4 then s[..4] + " " + Grouped(s[4..]) else s
  }

  // ----- reading

  lemma {:induction false} LatinConcat(a: string, b: string)
    ensures LatinDigits(a + b) == LatinDigits(a) + LatinDigits(b)
  {
    hide LatinDigit, IsDigit, AllDigits;
    if b == [] {
      assert a + b == a;
    } else {
      LatinConcat(a, b[..|b| - 1]);
      assert (a + b)[..|a + b| - 1] == a + b[..|b| - 1];
    }
  }

  lemma {:induction false} LatinKeeps(s: string)
    requires AllDigits(s)
    ensures LatinDigits(s) == s
  {
    if s != [] {
      LatinKeeps(s[..|s| - 1]);
    }
  }

  lemma {:induction false} CompactKeepsDigits(s: string)
    ensures LatinDigits(Compact(s)) == LatinDigits(s)
  {
    if s != [] {
      var front, c := s[..|s| - 1], Upper(s[|s| - 1]);
      CompactKeepsDigits(front);
      if IsSpace(c) || c == '-' {
        assert LatinDigit(c).None?;
        assert Compact(s) == Compact(front);
        assert LatinDigits(s) == LatinDigits(front);
      } else {
        assert Compact(s) == Compact(front) + [c];
        assert (Compact(front) + [c])[..|Compact(front)|] == Compact(front);
      }
    }
  }

  lemma NoDigitsInCountry()
    ensures LatinDigits("IR") == []
  {
    var s := "IR";
    assert s[..1] == ['I'] && s[1] == 'R';
    assert LatinDigit('I').None? && LatinDigit('R').None?;
    assert LatinDigits(['I']) == LatinDigits(['I'][..0]) + [];
    assert LatinDigits(s) == LatinDigits(s[..1]) + [];
  }

  lemma CountryHasNoDigits(s: string)
    ensures LatinDigits(WithoutCountry(s)) == LatinDigits(s)
  {
    if |s| >= 2 && s[0] == 'I' && s[1] == 'R' {
      hide LatinDigits;
      assert s == "IR" + s[2..];
      LatinConcat("IR", s[2..]);
      NoDigitsInCountry();
      assert [] + LatinDigits(s[2..]) == LatinDigits(s[2..]);
    }
  }

  /** An IBAN is read by its digits alone: case, spacing, hyphens and even the country in front do not matter. */
  lemma IbanReadByDigits(value: string)
    ensures NormalizeIban(value) ==
      if Iban.ValidDigits(LatinDigits(value)) then Some("IR" + LatinDigits(value)) else None
  {
    hide Iban.ValidDigits, LatinDigits, Compact, WithoutCountry;
    CompactKeepsDigits(value);
    CountryHasNoDigits(Compact(value));
  }

  lemma DigitsOfIban(digits: string)
    requires AllDigits(digits)
    ensures LatinDigits("IR" + digits) == digits
  {
    hide LatinDigits;
    LatinConcat("IR", digits);
    NoDigitsInCountry();
    LatinKeeps(digits);
    assert [] + digits == digits;
  }

  lemma {:induction false} GroupedKeepsDigits(s: string)
    ensures LatinDigits(Grouped(s)) == LatinDigits(s)
    decreases |s|
  {
    if |s| > 4 {
      GroupedKeepsDigits(s[4..]);
      LatinConcat(s[..4] + " ", Grouped(s[4..]));
      LatinConcat(s[..4], " ");
      LatinConcat(s[..4], s[4..]);
      assert s == s[..4] + s[4..];
      BlankHasNoDigits();
    }
  }

  lemma BlankHasNoDigits()
    ensures LatinDigits(" ") == []
  {
    var s := " ";
    assert s[..0] == [] && LatinDigit(s[0]).None?;
  }

  /** A card number printed in fours reads back as itself. */
  lemma CardRoundTrip(digits: string)
    requires |digits| == 16 && Luhn.Valid(digits)
    ensures NormalizeCardNumber(Grouped(digits)) == Some(digits)
  {
    hide Luhn.Valid;
    LuhnDigits(digits);
    GroupedKeepsDigits(digits);
    LatinKeeps(digits);
  }

  lemma LuhnDigits(digits: string)
    requires Luhn.Valid(digits)
    ensures AllDigits(digits)
  {
  }

  lemma IbanDigits(digits: string)
    requires Iban.ValidDigits(digits)
    ensures |digits| == 24 && AllDigits(digits)
  {
  }

  /** An IBAN printed in fours reads back as itself. */
  lemma IbanRoundTrip(digits: string)
    requires Iban.ValidDigits(digits)
    ensures NormalizeIban(Grouped("IR" + digits)) == Some("IR" + digits)
  {
    hide Iban.ValidDigits, LatinDigits, NormalizeIban, Grouped;
    IbanDigits(digits);
    GroupedKeepsDigits("IR" + digits);
    DigitsOfIban(digits);
    IbanReadByDigits(Grouped("IR" + digits));
  }

  // ----- other scripts, and the groups of four

  /** Latin digits written from another script's zero on: Persian ones from U+06F0, Arabic ones from U+0660. */
  function InScript(zero: int, s: string): (r: string)
    requires AllDigits(s) && 0 <= zero < 0xD000
    ensures |r| == |s|
  {
    if s == [] then [] else InScript(zero, s[..|s| - 1]) + [(zero + (s[|s| - 1] - '0') as int) as char]
  }

  lemma DigitInScript(zero: int, c: char)
    requires IsDigit(c) && zero in {0x30, 0x06F0, 0x0660}
    ensures LatinDigit((zero + (c - '0') as int) as char) == Some(c)
  {
  }

  lemma LatinAppend(s: string, c: char)
    ensures LatinDigits(s + [c]) == LatinDigits(s) + if LatinDigit(c).Some? then [LatinDigit(c).value] else []
  {
    hide LatinDigit;
    assert (s + [c])[..|s|] == s;
  }

  lemma {:induction false} ScriptRead(zero: int, s: string)
    requires AllDigits(s) && zero in {0x30, 0x06F0, 0x0660}
    ensures LatinDigits(InScript(zero, s)) == s
  {
    hide LatinDigits, LatinDigit;
    if s == [] {
      EmptyText();
    } else {
      var front, c := s[..|s| - 1], s[|s| - 1];
      ScriptRead(zero, front);
      DigitInScript(zero, c);
      LatinAppend(InScript(zero, front), (zero + (c - '0') as int) as char);
    }
  }

  /** Everything that is no Latin, Persian or Arabic digit is passed over. */
  lemma PassedOver(c: char)
    requires !('0' <= c <= '9') && !('\U{06F0}' <= c <= '\U{06F9}') && !('\U{0660}' <= c <= '\U{0669}')
    ensures LatinDigits([c]) == []
  {
    assert [c][..0] == [];
  }

  /** A valid card number may be typed in any of the three scripts, grouped as it is printed. */
  lemma CardInAnyScript(zero: int, digits: string)
    requires |digits| == 16 && Luhn.Valid(digits) && zero in {0x30, 0x06F0, 0x0660}
    ensures AllDigits(digits) && NormalizeCardNumber(Grouped(InScript(zero, digits))) == Some(digits)
  {
    hide Luhn.Valid, LatinDigits, Grouped;
    LuhnDigits(digits);
    GroupedKeepsDigits(InScript(zero, digits));
    ScriptRead(zero, digits);
  }

  /** And so may an IBAN, with or without its country. */
  lemma IbanInAnyScript(zero: int, digits: string)
    requires Iban.ValidDigits(digits) && zero in {0x30, 0x06F0, 0x0660}
    ensures AllDigits(digits) && NormalizeIban(InScript(zero, digits)) == Some("IR" + digits)
    ensures NormalizeIban(Grouped("IR" + InScript(zero, digits))) == Some("IR" + digits)
  {
    hide Iban.ValidDigits, LatinDigits, NormalizeIban, Grouped;
    IbanDigits(digits);
    ScriptRead(zero, digits);
    IbanReadByDigits(InScript(zero, digits));
    GroupedKeepsDigits("IR" + InScript(zero, digits));
    LatinConcat("IR", InScript(zero, digits));
    NoDigitsInCountry();
    assert [] + digits == digits;
    IbanReadByDigits(Grouped("IR" + InScript(zero, digits)));
  }

  lemma {:induction false} GroupedLength(s: string)
    ensures |Grouped(s)| == if s == [] then 0 else |s| + (|s| - 1) / 4
    decreases |s|
  {
    if |s| > 4 {
      GroupedLength(s[4..]);
    }
  }

  /** Printed in fours: every fifth character is a space, none is the last, and the others are the text in order. */
  lemma {:induction false} GroupedAt(s: string, k: nat)
    requires k < |Grouped(s)|
    ensures |Grouped(s)| == |s| + (|s| - 1) / 4
    ensures if k % 5 == 4 then Grouped(s)[k] == ' ' && k < |Grouped(s)| - 1
            else k - k / 5 < |s| && Grouped(s)[k] == s[k - k / 5]
    decreases |s|
  {
    GroupedLength(s);
    if |s| > 4 && k >= 5 {
      GroupedAt(s[4..], k - 5);
      assert Grouped(s)[k] == Grouped(s[4..])[k - 5];
    }
  }

  // ----- the settings

  datatype Settings = Settings(enabled: bool, holderName: string, cardNumber: string, iban: string, bank: string)

  /** What was typed; a field of the body that is missing reads as "". */
  datatype Input = Input(enabled: bool, holderName: string, cardNumber: string, iban: string, bank: string)

  datatype Problem = HolderInvalid | CardInvalid | IbanInvalid | BankInvalid

  datatype Cleaned = Ok(value: Settings) | Refused(problem: Problem)

  const DEFAULT_BANK: string := "\U{0628}\U{0644}\U{0648}\U{0628}\U{0627}\U{0646}\U{06A9}"

  function CleanSettings(input: Input): Cleaned {
    var holder := Tidy(input.holderName);
    var bank := if Tidy(input.bank) == [] then DEFAULT_BANK else Tidy(input.bank);
    var cardRaw := LatinDigits(input.cardNumber);
    var ibanRaw := Trim(input.iban);
    var card := if cardRaw == [] then Some([]) else NormalizeCardNumber(cardRaw);
    var iban := if ibanRaw == [] then Some([]) else NormalizeIban(ibanRaw);
    if Units(holder) > 80 || (input.enabled && Units(holder) < 2) then Refused(HolderInvalid)
    else if card.None? || (input.enabled && card.value == []) then Refused(CardInvalid)
    else if iban.None? || (input.enabled && iban.value == []) then Refused(IbanInvalid)
    else if Units(bank) > 40 then Refused(BankInvalid)
    else Ok(Settings(input.enabled, holder, card.value, iban.value, bank))
  }

  lemma {:induction false} BlankHasNone(s: string)
    requires Blank(s)
    ensures LatinDigits(s) == []
  {
    if s != [] {
      assert IsSpace(s[|s| - 1]) by { assert s[|s| - 1] in s; }
      BlankHasNone(s[..|s| - 1]);
    }
  }

  lemma TrimKeepsDigits(s: string)
    ensures LatinDigits(Trim(s)) == LatinDigits(s) && (Trim(s) == [] <==> Blank(s))
  {
    hide LatinDigits, Trim, Blank, IsSpace;
    var front, back := TrimEnds(s);
    LatinConcat(front + Trim(s), back);
    LatinConcat(front, Trim(s));
    BlankHasNone(front);
    BlankHasNone(back);
    TrimBlank(s);
  }

  /** What is wrong with each part of what was typed. The name: over 80 units of words and spaces, or under two when
      enabled. The card: digits, but not sixteen that pass, or none when enabled. The IBAN likewise. */
  predicate HolderWrong(input: Input) {
    var holder := Joined(Words(input.holderName));
    Units(holder) > 80 || (input.enabled && Units(holder) < 2)
  }

  predicate CardWrong(input: Input) {
    var card := LatinDigits(input.cardNumber);
    if card == [] then input.enabled else |card| != 16 || !Luhn.Valid(card)
  }

  ghost predicate IbanWrong(input: Input) {
    if Blank(input.iban) then input.enabled else !Iban.ValidDigits(LatinDigits(input.iban))
  }

  function BankShown(input: Input): string {
    if Words(input.bank) == [] then "\U{0628}\U{0644}\U{0648}\U{0628}\U{0627}\U{0646}\U{06A9}"
    else Joined(Words(input.bank))
  }

  /** Cleaning names the first part that is wrong; with none, it keeps the words of the names and the digits of the
      numbers. */
  lemma SettingsCleaned(input: Input)
    ensures CleanSettings(input) ==
      if HolderWrong(input) then Refused(HolderInvalid)
      else if CardWrong(input) then Refused(CardInvalid)
      else if IbanWrong(input) then Refused(IbanInvalid)
      else if Units(BankShown(input)) > 40 then Refused(BankInvalid)
      else Ok(Settings(input.enabled, Joined(Words(input.holderName)), LatinDigits(input.cardNumber),
                       if Blank(input.iban) then [] else "IR" + LatinDigits(input.iban), BankShown(input)))
  {
    hide Iban.ValidDigits, Luhn.Valid, Tidy, Trim, LatinDigits, NormalizeIban, Words, Joined, Blank, Units;
    TidyJoinsWords(input.holderName);
    TidyJoinsWords(input.bank);
    TidyNothing(input.bank);
    TrimKeepsDigits(input.iban);
    IbanReadByDigits(Trim(input.iban));
    var card := LatinDigits(input.cardNumber);
    LatinKeeps(card);
  }

  predicate Ready(s: Settings) {
    s.enabled && Units(s.holderName) >= 2 && s.cardNumber != [] && s.iban != []
  }

  function AsInput(s: Settings): Input {
    Input(s.enabled, s.holderName, s.cardNumber, s.iban, s.bank)
  }

  lemma CleanIban(iban: string)
    requires |iban| == 26 && iban[..2] == "IR" && Iban.ValidDigits(iban[2..])
    ensures Trim(iban) == iban && NormalizeIban(iban) == Some(iban)
  {
    hide Iban.ValidDigits, LatinDigits, NormalizeIban;
    IbanDigits(iban[2..]);
    assert iban == "IR" + iban[2..];
    assert iban[0] == "IR"[0] && iban[25] == iban[2..][23];
    TrimTidy(iban);
    DigitsOfIban(iban[2..]);
    IbanReadByDigits(iban);
  }

  lemma CleanCard(card: string)
    requires |card| == 16 && Luhn.Valid(card)
    ensures LatinDigits(card) == card && NormalizeCardNumber(card) == Some(card)
  {
    hide Luhn.Valid;
    LuhnDigits(card);
    LatinKeeps(card);
  }

  /** The shape of accepted settings: every field clean, each number empty or valid. */
  ghost predicate CleanShape(s: Settings) {
    && IsTidy(s.holderName) && Units(s.holderName) <= 80 && (s.enabled ==> Units(s.holderName) >= 2)
    && IsTidy(s.bank) && s.bank != [] && Units(s.bank) <= 40
    && (if s.cardNumber == [] then !s.enabled else |s.cardNumber| == 16 && Luhn.Valid(s.cardNumber))
    && (if s.iban == [] then !s.enabled
        else |s.iban| == 26 && s.iban[..2] == "IR" && Iban.ValidDigits(s.iban[2..]))
  }

  lemma AcceptedIsClean(input: Input)
    requires CleanSettings(input).Ok?
    ensures CleanShape(CleanSettings(input).value)
  {
    hide Iban.ValidDigits, Luhn.Valid, Tidy, Trim, LatinDigits, IsTidy, NormalizeIban, NormalizeCardNumber;
    TidyIsTidy(input.holderName);
    TidyIsTidy(input.bank);
    DefaultBankTidy();
  }

  lemma CleanAccepted(s: Settings)
    requires CleanShape(s)
    ensures CleanSettings(AsInput(s)) == Ok(s)
  {
    hide Iban.ValidDigits, Luhn.Valid, Tidy, Trim, LatinDigits, IsTidy, NormalizeIban, NormalizeCardNumber;
    TidyKeeps(s.holderName);
    TidyKeeps(s.bank);
    EmptyText();
    if s.cardNumber != [] {
      CleanCard(s.cardNumber);
    }
    if s.iban != [] {
      CleanIban(s.iban);
    }
  }

  /** What was saved reads back unchanged, and an enabled method that was accepted is complete:
      it can be shown to a payer. */
  lemma CleanedSettingsKept(input: Input)
    requires CleanSettings(input).Ok?
    ensures var s := CleanSettings(input).value;
      && CleanSettings(AsInput(s)) == Ok(s)
      && (s.enabled ==> Ready(s) && Units(s.holderName) >= 2 && |s.cardNumber| == 16 && |s.iban| == 26)
  {
    hide CleanSettings, Luhn.Valid, Iban.ValidDigits, IsTidy;
    AcceptedIsClean(input);
    CleanAccepted(CleanSettings(input).value);
  }

  /** What is switched off, or lacks the name, the card or the IBAN, is never shown to a payer. */
  lemma NotReady(s: Settings)
    requires !s.enabled || Units(s.holderName) < 2 || s.cardNumber == [] || s.iban == []
    ensures !Ready(s)
  {
  }

  lemma DefaultBankTidy()
    ensures IsTidy(DEFAULT_BANK)
  {
  }

  lemma EmptyText()
    ensures LatinDigits([]) == [] && Trim([]) == []
  {
  }
}
