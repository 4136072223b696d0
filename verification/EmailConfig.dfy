/** A stored email provider config in today's terms, and what the environment may
    add to it (shared/emailProviders.ts). */
module EmailConfig {
  import opened Options
  import opened Text
  import opened TextWords

  datatype Provider = Resend | Sendgrid | Smtp | Unknown

  datatype Field =
    | SmtpHost | SmtpPort | SmtpUser | SmtpPass | Encryption | ApiKey
    | SmtpUsername | SmtpPassword | SmtpSecure   // the old form's names
    | Named(name: string)

  /** A stored value; a finite number comes with its printed form. */
  datatype Value = Str(s: string) | Num(printed: string) | Flag(on: bool) | Other

  type Config = map<Field, Value>

  /** The variables the environment sets, by the field each may stand in for; SMTP and API keys apart. */
  datatype Env = Env(resendKey: string, sendgridKey: string, host: string, port: string, user: string, pass: string)

  const DEFAULT_PORT: string := "587"

  /** The text of a value: trimmed, or a number's; anything else is blank. */
  function ValueText(v: Value): string {
    match v
    case Str(s) => Trim(s)
    case Num(printed) => printed
    case Flag(_) => []
    case Other => []
  }

  function TextOf(cfg: Config, f: Field): string {
    if f in cfg then ValueText(cfg[f]) else []
  }

  /** The digits a number starts with, read as Number.parseInt(_, 10) reads them. */
  function LeadingDigits(s: string): (r: string)
    ensures AllDigits(r)
  {
    if s != [] && IsDigit(s[0]) then [s[0]] + LeadingDigits(s[1..]) else []
  }

  function ParseInt(s: string): Option<int> {
    var signed := s != [] && (s[0] == '-' || s[0] == '+');
    var digits := LeadingDigits(if signed then s[1..] else s);
    var n: int := Number(digits);
    if digits == [] then None else Some(if signed && s[0] == '-' then -n else n)
  }

  predicate ImplicitTlsPort(cfg: Config) {
    ParseInt(TextOf(cfg, SmtpPort)) == Some(465)
  }

  datatype Mode = Auto | Plain | StartTls | Ssl

  function ModeOf(s: string): Option<Mode> {
    if s == "auto" then Some(Auto) else if s == "none" then Some(Plain)
    else if s == "starttls" then Some(StartTls) else if s == "ssl" then Some(Ssl) else None
  }

  function ModeName(m: Mode): string {
    match m case Auto => "auto" case Plain => "none" case StartTls => "starttls" case Ssl => "ssl"
  }

  /** The old "Use TLS" switch, stored as a string or a boolean. */
  predicate SwitchOn(cfg: Config) {
    SmtpSecure in cfg && match cfg[SmtpSecure]
      case Flag(on) => on
      case Str(s) => Lower(Trim(s)) in ["true", "1", "on", "yes"]
      case Num(_) => false
      case Other => false
  }

  function StoredMode(cfg: Config): Option<Mode> {
    ModeOf(Lower(TextOf(cfg, Encryption)))
  }

  function SmtpEncryptionMode(cfg: Config): Mode {
    var stored := StoredMode(cfg);
    var mode := if stored.Some? then stored.value else if SwitchOn(cfg) then StartTls else Auto;
    if ImplicitTlsPort(cfg) && (mode == Auto || mode == StartTls) then Ssl else mode
  }

  /** An old name folds into its current one when that is blank, and goes. */
  function Fold(cfg: Config, legacy: Field, current: Field): Config {
    if legacy !in cfg then cfg
    else if TextOf(cfg, current) == [] && TextOf(cfg, legacy) != [] then cfg[current := cfg[legacy]] - {legacy}
    else cfg - {legacy}
  }

  function FoldSwitch(cfg: Config): Config {
    if SmtpSecure !in cfg then cfg
    else if TextOf(cfg, Encryption) == [] && SwitchOn(cfg) then
      cfg[Encryption := Str(ModeName(if ImplicitTlsPort(cfg) then Ssl else StartTls))] - {SmtpSecure}
    else cfg - {SmtpSecure}
  }

  function Canonical(p: Provider, cfg: Config): Config {
    if p == Smtp then FoldSwitch(Fold(Fold(cfg, SmtpUsername, SmtpUser), SmtpPassword, SmtpPass)) else cfg
  }

  method CanonicalConfig(p: Provider, cfg: Config) returns (out: Config)
    ensures out == Canonical(p, cfg)
  {
    hide SwitchOn, ImplicitTlsPort, ModeName, ValueText;
    out := cfg;
    if p == Smtp {
      var pairs := [(SmtpUsername, SmtpUser), (SmtpPassword, SmtpPass)];
      var i := 0;
      while i < 2
        invariant 0 <= i <= 2
        invariant out == if i == 0 then cfg else if i == 1 then Fold(cfg, SmtpUsername, SmtpUser)
                         else Fold(Fold(cfg, SmtpUsername, SmtpUser), SmtpPassword, SmtpPass)
      {
        var (legacy, current) := pairs[i];
        if legacy in out {
          if TextOf(out, current) == [] && TextOf(out, legacy) != [] {
            out := out[current := out[legacy]];
          }
          out := out - {legacy};
        }
        i := i + 1;
      }
      if SmtpSecure in out {
        if TextOf(out, Encryption) == [] && SwitchOn(out) {
          out := out[Encryption := Str(ModeName(if ImplicitTlsPort(out) then Ssl else StartTls))];
        }
        out := out - {SmtpSecure};
      }
    }
  }

  // ----- how a config is read

  /** A field counts as filled when it holds a text that is not all white space, or a number. */
  lemma TextRead(cfg: Config, f: Field)
    ensures TextOf(cfg, f) != [] <==>
      f in cfg && ((cfg[f].Str? && !Blank(cfg[f].s)) || (cfg[f].Num? && cfg[f].printed != []))
  {
    hide Trim, Blank;
    if f in cfg && cfg[f].Str? {
      TrimBlank(cfg[f].s);
    }
  }

  lemma {:induction false} DigitsLead(d: string, rest: string)
    requires AllDigits(d) && (rest == [] || !IsDigit(rest[0]))
    ensures LeadingDigits(d + rest) == d
  {
    if d == [] {
      assert d + rest == rest;
    } else {
      DigitsLead(d[1..], rest);
      assert (d + rest)[1..] == d[1..] + rest;
      assert d == [d[0]] + d[1..];
    }
  }

  /** An optional sign, digits, and anything that does not go on with a digit: the signed number, or none without a
      digit. */
  lemma IntRead(sign: string, d: string, rest: string)
    requires sign in ["", "+", "-"] && AllDigits(d) && (rest == [] || !IsDigit(rest[0]))
    requires sign == [] && d == [] && rest != [] ==> rest[0] != '+' && rest[0] != '-'
    ensures var n: int := Number(d);
      ParseInt(sign + d + rest) == if d == [] then None else Some(if sign == "-" then -n else n)
  {
    hide Number, LeadingDigits;
    DigitsLead(d, rest);
    var s := sign + d + rest;
    if sign == [] {
      assert s == d + rest;
      assert d != [] ==> s[0] == d[0];
      assert d == [] ==> s == rest;
    } else {
      assert s[1..] == d + rest;
    }
  }

  /** The old switch is on: true, or one of these words in any case with white space around it. */
  ghost predicate Switched(cfg: Config) {
    SmtpSecure in cfg
    && (|| cfg[SmtpSecure] == Flag(true)
        || (cfg[SmtpSecure].Str?
            && exists word :: word in ["true", "1", "on", "yes"] && SameButCase(Trim(cfg[SmtpSecure].s), word)))
  }

  lemma SwitchRead(cfg: Config)
    ensures SwitchOn(cfg) <==> Switched(cfg)
    ensures Switched(cfg) ==> SmtpSecure in cfg
  {
    hide Lower, Trim, SameButCase;
    if SmtpSecure in cfg && cfg[SmtpSecure].Str? {
      var s := Trim(cfg[SmtpSecure].s);
      WordRead(s, "true");
      WordRead(s, "1");
      WordRead(s, "on");
      WordRead(s, "yes");
      assert ["true", "1", "on", "yes"][0] == "true" && ["true", "1", "on", "yes"][1] == "1";
      assert ["true", "1", "on", "yes"][2] == "on" && ["true", "1", "on", "yes"][3] == "yes";
    }
  }

  /** How the connection is protected: implicit TLS when asked for, and on port 465 unless TLS is turned off; no TLS
      when asked for; elsewhere STARTTLS when asked for, or by the old switch beside no known mode; else automatic. */
  lemma ModeRead(cfg: Config)
    ensures var e, mode := TextOf(cfg, Encryption), SmtpEncryptionMode(cfg);
      var implicit := ParseInt(TextOf(cfg, SmtpPort)) == Some(465);
      var known :=
        SameButCase(e, "auto") || SameButCase(e, "none") || SameButCase(e, "starttls") || SameButCase(e, "ssl");
      && (mode == Plain <==> SameButCase(e, "none"))
      && (mode == Ssl <==> SameButCase(e, "ssl") || (implicit && !SameButCase(e, "none")))
      && (mode == StartTls <==> !implicit && (SameButCase(e, "starttls") || (!known && Switched(cfg))))
  {
    hide Lower, Trim, SameButCase, ParseInt, ValueText, SwitchOn, Switched;
    SwitchRead(cfg);
    var e := TextOf(cfg, Encryption);
    WordRead(e, "auto");
    WordRead(e, "none");
    WordRead(e, "starttls");
    WordRead(e, "ssl");
  }

  // ----- what canonical form keeps

  /** A text under the old name moves into the blank current field; otherwise the current field stays. */
  ghost predicate FoldsInto(cfg: Config, out: Config, legacy: Field, current: Field) {
    if TextOf(cfg, current) == [] && TextOf(cfg, legacy) != [] then current in out && out[current] == cfg[legacy]
    else SameOn(cfg, out, current)
  }

  lemma SwitchFolds(cfg: Config)
    ensures var out := FoldSwitch(cfg);
      TextOf(out, Encryption) == if TextOf(cfg, Encryption) != [] || !Switched(cfg) then TextOf(cfg, Encryption)
                                 else if ParseInt(TextOf(cfg, SmtpPort)) == Some(465) then "ssl" else "starttls"
    ensures forall f :: f != Encryption && f != SmtpSecure ==> SameOn(cfg, FoldSwitch(cfg), f)
    ensures SmtpSecure !in FoldSwitch(cfg)
  {
    hide Lower, Trim, ParseInt, SwitchOn, Switched;
    SwitchRead(cfg);
    ModeTrimmed(Ssl);
    ModeTrimmed(StartTls);
    assert ModeName(Ssl) == "ssl" && ModeName(StartTls) == "starttls";
    var implicit := ParseInt(TextOf(cfg, SmtpPort)) == Some(465);
    assert ImplicitTlsPort(cfg) == implicit;
  }

  lemma ModeTrimmed(m: Mode)
    ensures Trim(ModeName(m)) == ModeName(m)
  {
    hide IsSpace, Trim, ModeName;
    ModeNames(m);
    LettersNotSpace();
    TrimTidy(ModeName(m));
  }

  /** Only an SMTP config is rewritten. */
  lemma OthersStay(p: Provider, cfg: Config)
    requires p != Smtp
    ensures Canonical(p, cfg) == cfg
  {
  }

  /** The old names are gone, each folded only into its own blank field, the switch into a blank `encryption`; every
      other field is as it was. */
  lemma CanonicalFields(cfg: Config)
    ensures var out := Canonical(Smtp, cfg);
      && SmtpUsername !in out && SmtpPassword !in out && SmtpSecure !in out
      && FoldsInto(cfg, out, SmtpUsername, SmtpUser) && FoldsInto(cfg, out, SmtpPassword, SmtpPass)
      && TextOf(out, Encryption) == (if TextOf(cfg, Encryption) != [] || !Switched(cfg) then TextOf(cfg, Encryption)
                                     else if ParseInt(TextOf(cfg, SmtpPort)) == Some(465) then "ssl" else "starttls")
      && forall f :: f !in {SmtpUsername, SmtpPassword, SmtpSecure, SmtpUser, SmtpPass, Encryption} ==>
           (f in out <==> f in cfg) && (f in cfg ==> out[f] == cfg[f])
  {
    hide SwitchOn, ValueText, Switched, ParseInt, ImplicitTlsPort, ModeName;
    var folded := Fold(Fold(cfg, SmtpUsername, SmtpUser), SmtpPassword, SmtpPass);
    SwitchFolds(folded);
    FoldedEncryption(cfg);
  }

  lemma FoldedEncryption(cfg: Config)
    ensures var folded := Fold(Fold(cfg, SmtpUsername, SmtpUser), SmtpPassword, SmtpPass);
      && TextOf(folded, Encryption) == TextOf(cfg, Encryption) && TextOf(folded, SmtpPort) == TextOf(cfg, SmtpPort)
      && Switched(folded) == Switched(cfg)
  {
    hide ValueText, Switched, Fold;
    FoldsLeave(cfg, Encryption);
    FoldsLeave(cfg, SmtpPort);
    FoldsLeave(cfg, SmtpSecure);
    SameSwitch(cfg, Fold(Fold(cfg, SmtpUsername, SmtpUser), SmtpPassword, SmtpPass));
  }

  lemma SameSwitch(a: Config, b: Config)
    requires SameOn(a, b, SmtpSecure)
    ensures Switched(a) == Switched(b)
  {
    hide Trim, SameButCase;
  }

  lemma CanonicalTwice(p: Provider, cfg: Config)
    ensures Canonical(p, Canonical(p, cfg)) == Canonical(p, cfg)
  {
    hide SwitchOn, ImplicitTlsPort, ModeName, ValueText;
    CanonicalFields(cfg);
  }

  lemma NamedModes(m: Mode)
    ensures ModeOf(Lower(Trim(ModeName(m)))) == Some(m)
  {
    hide IsSpace, Lower, Trim, ModeOf, ModeName;
    var s := ModeName(m);
    ModeNames(m);
    LettersNotSpace();
    TrimTidy(s);
    LowerKeeps(s);
  }

  lemma ModeNames(m: Mode)
    ensures var s := ModeName(m);
      ModeOf(s) == Some(m) && s != [] && forall i :: 0 <= i < |s| ==> 'a' <= s[i] <= 'z'
  {
  }

  lemma LettersNotSpace()
    ensures forall c :: 'a' <= c <= 'z' ==> !IsSpace(c)
  {
  }

  /** The rewrite keeps how the connection is protected exactly unless the switch was on beside an unknown,
      non-blank `encryption` off the implicit-TLS port: there the switch's STARTTLS is lost. */
  lemma ModeKeptIff(cfg: Config)
    ensures SmtpEncryptionMode(Canonical(Smtp, cfg)) == SmtpEncryptionMode(cfg)
        <==> !(SwitchOn(cfg) && TextOf(cfg, Encryption) != [] && StoredMode(cfg).None? && !ImplicitTlsPort(cfg))
  {
    hide ModeOf, ModeName, ValueText, Lower, ParseInt, Trim, Fold;
    var folded := Fold(Fold(cfg, SmtpUsername, SmtpUser), SmtpPassword, SmtpPass);
    FoldsLeave(cfg, SmtpSecure);
    FoldsLeave(cfg, Encryption);
    FoldsLeave(cfg, SmtpPort);
    SameSettings(cfg, folded);
    SwitchFolded(folded);
  }

  /** The fields that decide the protection. */
  ghost predicate SameOn(a: Config, b: Config, f: Field) {
    (f in a <==> f in b) && (f in a ==> a[f] == b[f])
  }

  lemma FoldsLeave(cfg: Config, f: Field)
    requires f !in {SmtpUsername, SmtpPassword, SmtpUser, SmtpPass}
    ensures SameOn(cfg, Fold(Fold(cfg, SmtpUsername, SmtpUser), SmtpPassword, SmtpPass), f)
  {
    hide ValueText;
  }

  lemma SameSettings(a: Config, b: Config)
    requires SameOn(a, b, SmtpSecure) && SameOn(a, b, Encryption) && SameOn(a, b, SmtpPort)
    ensures SwitchOn(a) == SwitchOn(b) && TextOf(a, Encryption) == TextOf(b, Encryption)
    ensures ImplicitTlsPort(a) == ImplicitTlsPort(b) && StoredMode(a) == StoredMode(b)
    ensures SmtpEncryptionMode(a) == SmtpEncryptionMode(b)
  {
    hide ModeOf, ValueText, Lower, ParseInt, Trim;
  }

  lemma SwitchFolded(cfg: Config)
    ensures SmtpEncryptionMode(FoldSwitch(cfg)) == SmtpEncryptionMode(cfg)
        <==> !(SwitchOn(cfg) && TextOf(cfg, Encryption) != [] && StoredMode(cfg).None? && !ImplicitTlsPort(cfg))
  {
    hide ModeOf, ModeName, Lower, ParseInt, Trim, LowerLetter;
    NamedModes(Ssl);
    NamedModes(StartTls);
    BlankMode(cfg);
    var out := FoldSwitch(cfg);
    assert TextOf(out, SmtpPort) == TextOf(cfg, SmtpPort);
    assert !SwitchOn(out);
    if SwitchOn(cfg) && TextOf(cfg, Encryption) == [] {
      assert TextOf(out, Encryption) == Trim(ModeName(if ImplicitTlsPort(cfg) then Ssl else StartTls));
    } else {
      assert TextOf(out, Encryption) == TextOf(cfg, Encryption);
    }
  }

  lemma BlankMode(cfg: Config)
    ensures TextOf(cfg, Encryption) == [] ==> StoredMode(cfg).None?
  {
    hide ValueText;
  }

  /** A row with the switch on and an `encryption` no mode is called: read as STARTTLS, rewritten as auto. */
  lemma UnknownModeExample()
    ensures var cfg: Config := map[SmtpSecure := Flag(true), Encryption := Num("1")];
      SmtpEncryptionMode(cfg) == StartTls && SmtpEncryptionMode(Canonical(Smtp, cfg)) == Auto
  {
    var cfg: Config := map[SmtpSecure := Flag(true), Encryption := Num("1")];
    assert |Lower("1")| == 1;
    assert ModeOf(Lower("1")).None?;
    assert TextOf(cfg, SmtpPort) == [] && ParseInt([]).None?;
    assert Canonical(Smtp, cfg) == FoldSwitch(cfg) == map[Encryption := Num("1")];
  }

  // ----- the environment

  function FromEnv(value: string): string {
    Trim(value)
  }

  /** A variable fills a blank field. */
  function Fill(cfg: Config, f: Field, value: string): Config {
    if TextOf(cfg, f) == [] && FromEnv(value) != [] then cfg[f := Str(FromEnv(value))] else cfg
  }

  function DestinationHost(text: string): string {
    Lower(text)
  }

  function DestinationPort(text: string): string {
    if text == [] then DEFAULT_PORT else text
  }

  /** The password's variable belongs to the environment's host, and to its port and user when it sets them. */
  predicate SameDestination(cfg: Config, env: Env) {
    && FromEnv(env.host) != []
    && DestinationHost(TextOf(cfg, SmtpHost)) == DestinationHost(FromEnv(env.host))
    && (FromEnv(env.port) != [] ==> DestinationPort(TextOf(cfg, SmtpPort)) == DestinationPort(FromEnv(env.port)))
    && (FromEnv(env.user) != [] ==> TextOf(cfg, SmtpUser) == FromEnv(env.user))
  }

  function WithEnv(p: Provider, cfg: Config, env: Env): Config {
    match p
    case Resend => Fill(cfg, ApiKey, env.resendKey)
    case Sendgrid => Fill(cfg, ApiKey, env.sendgridKey)
    case Smtp =>
      var out := Fill(Fill(Fill(cfg, SmtpHost, env.host), SmtpPort, env.port), SmtpUser, env.user);
      if SameDestination(out, env) then Fill(out, SmtpPass, env.pass) else out
    case Unknown => cfg
  }

  method WithEnvFallbacks(p: Provider, cfg: Config, env: Env) returns (out: Config)
    ensures out == WithEnv(p, cfg, env)
  {
    hide ValueText, Lower, Trim;
    out := cfg;
    match p {
      case Unknown => return;
      case Resend => out := Fill(out, ApiKey, env.resendKey);
      case Sendgrid => out := Fill(out, ApiKey, env.sendgridKey);
      case Smtp =>
        var fallbacks := [(SmtpHost, env.host), (SmtpPort, env.port), (SmtpUser, env.user)];
        var i := 0;
        while i < 3
          invariant 0 <= i <= 3
          invariant out == (if i == 0 then cfg else if i == 1 then Fill(cfg, SmtpHost, env.host)
                            else if i == 2 then Fill(Fill(cfg, SmtpHost, env.host), SmtpPort, env.port)
                            else Fill(Fill(Fill(cfg, SmtpHost, env.host), SmtpPort, env.port), SmtpUser, env.user))
        {
          var (field, variable) := fallbacks[i];
          if TextOf(out, field) == [] && FromEnv(variable) != [] {
            out := out[field := Str(FromEnv(variable))];
          }
          i := i + 1;
        }
        if TextOf(out, SmtpPass) == [] && FromEnv(env.pass) != [] && SameDestination(out, env) {
          out := out[SmtpPass := Str(FromEnv(env.pass))];
        }
    }
  }

  lemma FillText(cfg: Config, f: Field, value: string)
    ensures TextOf(Fill(cfg, f, value), f) == if TextOf(cfg, f) != [] then TextOf(cfg, f) else FromEnv(value)
    ensures forall g :: g != f ==> SameOn(cfg, Fill(cfg, f, value), g)
  {
    TrimTwice(value);
  }

  /** A field the Super Admin filled is never touched, and nothing but the variables' own fields is. */
  lemma FilledFieldsStay(p: Provider, cfg: Config, env: Env, f: Field)
    requires TextOf(cfg, f) != [] || f !in {ApiKey, SmtpHost, SmtpPort, SmtpUser, SmtpPass}
    ensures SameOn(cfg, WithEnv(p, cfg, env), f)
  {
    hide ValueText, Trim, Lower, SameDestination;
  }

  /** The host, port and user each are the Super Admin's, else the environment's. */
  lemma SmtpFields(cfg: Config, env: Env)
    ensures var out := WithEnv(Smtp, cfg, env);
      && TextOf(out, SmtpHost) == (if TextOf(cfg, SmtpHost) != [] then TextOf(cfg, SmtpHost) else FromEnv(env.host))
      && TextOf(out, SmtpPort) == (if TextOf(cfg, SmtpPort) != [] then TextOf(cfg, SmtpPort) else FromEnv(env.port))
      && TextOf(out, SmtpUser) == (if TextOf(cfg, SmtpUser) != [] then TextOf(cfg, SmtpUser) else FromEnv(env.user))
  {
    hide ValueText, Trim, Lower, SameDestination, Fill;
    var a := Fill(cfg, SmtpHost, env.host);
    var b := Fill(a, SmtpPort, env.port);
    var c := Fill(b, SmtpUser, env.user);
    FillText(cfg, SmtpHost, env.host);
    FillText(a, SmtpPort, env.port);
    FillText(b, SmtpUser, env.user);
    FillText(c, SmtpPass, env.pass);
    var d := Fill(c, SmtpPass, env.pass);
    assert SameOn(c, d, SmtpHost) && SameOn(c, d, SmtpPort) && SameOn(c, d, SmtpUser);
    assert SameOn(a, b, SmtpHost) && SameOn(b, c, SmtpHost) && SameOn(b, c, SmtpPort);
    assert SameOn(cfg, a, SmtpPort) && SameOn(cfg, a, SmtpUser) && SameOn(a, b, SmtpUser);
  }

  /** The password is the Super Admin's; else the environment's exactly when the resulting host is the environment's
      (and the port and user it sets are too); else there is none. */
  lemma PasswordStaysWithItsHost(cfg: Config, env: Env)
    ensures var out := WithEnv(Smtp, cfg, env);
      TextOf(out, SmtpPass) ==
        if TextOf(cfg, SmtpPass) != [] then TextOf(cfg, SmtpPass)
        else if SameDestination(out, env) then FromEnv(env.pass)
        else []
  {
    hide ValueText, Trim, Lower, Fill;
    var a := Fill(cfg, SmtpHost, env.host);
    var b := Fill(a, SmtpPort, env.port);
    var c := Fill(b, SmtpUser, env.user);
    FillText(cfg, SmtpHost, env.host);
    FillText(a, SmtpPort, env.port);
    FillText(b, SmtpUser, env.user);
    FillText(c, SmtpPass, env.pass);
    assert SameOn(cfg, a, SmtpPass) && SameOn(a, b, SmtpPass) && SameOn(b, c, SmtpPass);
    var d := Fill(c, SmtpPass, env.pass);
    assert SameOn(c, d, SmtpHost) && SameOn(c, d, SmtpPort) && SameOn(c, d, SmtpUser);
    assert SameDestination(c, env) == SameDestination(d, env);
  }

  /** The variable SMTP_PASS goes only where the environment would send it: with no password stored, there is one
      exactly when SMTP_HOST names the resulting host, case aside, and SMTP_PORT and SMTP_USER, where set, are the
      resulting port and user, a blank port standing for 587; and then it is the variable's. */
  lemma PasswordGoesHome(cfg: Config, env: Env)
    requires TextOf(cfg, SmtpPass) == [] && Trim(env.pass) != []
    ensures var out := WithEnv(Smtp, cfg, env);
      var port := TextOf(out, SmtpPort);
      && (TextOf(out, SmtpPass) != [] <==>
            && Trim(env.host) != [] && SameButCase(TextOf(out, SmtpHost), Trim(env.host))
            && (Trim(env.port) != [] ==> (if port == [] then "587" else port) == Trim(env.port))
            && (Trim(env.user) != [] ==> TextOf(out, SmtpUser) == Trim(env.user)))
      && (TextOf(out, SmtpPass) != [] ==> TextOf(out, SmtpPass) == Trim(env.pass))
  {
    hide ValueText, Trim, Lower, WithEnv, SameButCase;
    PasswordStaysWithItsHost(cfg, env);
    LowerSame(TextOf(WithEnv(Smtp, cfg, env), SmtpHost), Trim(env.host));
  }

  /** The other providers' key is the Super Admin's, else their own variable's; an unknown provider gets nothing. */
  lemma KeyFields(cfg: Config, env: Env)
    ensures TextOf(WithEnv(Resend, cfg, env), ApiKey)
         == if TextOf(cfg, ApiKey) != [] then TextOf(cfg, ApiKey) else Trim(env.resendKey)
    ensures TextOf(WithEnv(Sendgrid, cfg, env), ApiKey)
         == if TextOf(cfg, ApiKey) != [] then TextOf(cfg, ApiKey) else Trim(env.sendgridKey)
    ensures forall f :: f != ApiKey ==>
      SameOn(cfg, WithEnv(Resend, cfg, env), f) && SameOn(cfg, WithEnv(Sendgrid, cfg, env), f)
    ensures WithEnv(Unknown, cfg, env) == cfg
  {
    hide ValueText, Trim, Fill;
    FillText(cfg, ApiKey, env.resendKey);
    FillText(cfg, ApiKey, env.sendgridKey);
  }

  lemma FillDone(cfg: Config, f: Field, value: string)
    requires TextOf(cfg, f) != [] || FromEnv(value) == []
    ensures Fill(cfg, f, value) == cfg
  {
  }

  lemma KeyFilled(cfg: Config, value: string)
    ensures Fill(Fill(cfg, ApiKey, value), ApiKey, value) == Fill(cfg, ApiKey, value)
  {
    hide ValueText, Trim, Fill;
    FillText(cfg, ApiKey, value);
    FillDone(Fill(cfg, ApiKey, value), ApiKey, value);
  }

  /** Applying the environment again changes nothing. */
  lemma EnvTwice(p: Provider, cfg: Config, env: Env)
    ensures WithEnv(p, WithEnv(p, cfg, env), env) == WithEnv(p, cfg, env)
  {
    hide ValueText, Trim, Lower, Fill, SameDestination;
    match p
    case Resend => KeyFilled(cfg, env.resendKey);
    case Sendgrid => KeyFilled(cfg, env.sendgridKey);
    case Smtp =>
      var out := WithEnv(Smtp, cfg, env);
      SmtpFields(cfg, env);
      PasswordStaysWithItsHost(cfg, env);
      FillDone(out, SmtpHost, env.host);
      FillDone(out, SmtpPort, env.port);
      FillDone(out, SmtpUser, env.user);
      if SameDestination(out, env) {
        FillDone(out, SmtpPass, env.pass);
      }
    case Unknown =>
  }
}
