/** The certificates of a relay's private CA: reading pasted PEM text and printing it as PEM wants it
    (shared/emailProviders.ts, pemCertificates; RFC 7468 sections 2, 3 and 5). */
module Pem {
  import opened Options
  import opened Text

  function Begin(): string {
    "-----BEGIN CERTIFICATE-----"
  }

  function End(): string {
    "-----END CERTIFICATE-----"
  }

  lemma Markers()
    ensures |Begin()| == 27 && |End()| == 25 && Begin()[0] == '-' && End()[0] == '-' && End()[24] == '-'
  {
  }

  predicate IsBase64(c: char) {
    'A' <= c <= 'Z' || 'a' <= c <= 'z' || '0' <= c <= '9' || c == '+' || c == '/'
  }

  /** [A-Za-z0-9+/=\s] */
  predicate InBody(c: char) {
    IsBase64(c) || c == '=' || IsSpace(c)
  }

  lemma DashOutside()
    ensures !InBody('-') && !IsSpace('-')
  {
  }

  predicate StartsWith(s: string, i: nat, what: string) {
    i + |what| <= |s| && s[i..i + |what|] == what
  }

  /** The end of the run of body characters from `i` on. */
  function BodyEnd(s: string, i: nat): (j: nat)
    requires i <= |s|
    ensures i <= j <= |s|
    ensures forall k :: i <= k < j ==> InBody(s[k])
    ensures j < |s| ==> !InBody(s[j])
    decreases |s| - i
  {
    if i < |s| && InBody(s[i]) then BodyEnd(s, i + 1) else i
  }

  /** Does the pattern match at `i`? No body character starts the end marker, so the lazy body ends where the run does.
      */
  predicate MatchesAt(s: string, i: nat) {
    StartsWith(s, i, Begin()) && StartsWith(s, BodyEnd(s, i + |Begin()|), End())
  }

  /** The leftmost match from `i` on; the length of the text when there is none. */
  function NextMatch(s: string, i: nat): (m: nat)
    requires i <= |s|
    ensures i <= m <= |s|
    ensures m < |s| ==> MatchesAt(s, m)
    ensures forall k :: i <= k < m ==> !MatchesAt(s, k)
    decreases |s| - i
  {
    if i == |s| || MatchesAt(s, i) then i else NextMatch(s, i + 1)
  }

  /** White space taken out. */
  function Strip(s: string): (r: string)
    ensures |r| <= |s|
  {
    if s == [] then []
    else Strip(s[..|s| - 1]) + if IsSpace(s[|s| - 1]) then [] else [s[|s| - 1]]
  }

  /** How many `=` end the text, at most two counted. */
  function Padding(s: string): (n: nat)
    ensures n <= 2 && n <= |s|
  {
    if s == [] || s[|s| - 1] != '=' then 0
    else if |s| == 1 || s[|s| - 2] != '=' then 1
    else 2
  }

  /** Not empty, whole groups of four, /^[A-Za-z0-9+/]+={0,2}$/. */
  predicate ValidBody(s: string) {
    && s != [] && |s| % 4 == 0
    && Padding(s) < |s|
    && forall i :: 0 <= i < |s| - Padding(s) ==> IsBase64(s[i])
  }

  /** The body cut into lines of 64. */
  function Lines(s: string): (r: seq<string>)
    ensures forall i :: 0 <= i < |r| ==> 0 < |r[i]| <= 64
    ensures forall i :: 0 <= i < |r| - 1 ==> |r[i]| == 64
  {
    if s == [] then [] else if |s| <= 64 then [s] else [s[..64]] + Lines(s[64..])
  }

  function JoinLines(lines: seq<string>): string {
    if lines == [] then [] else if |lines| == 1 then lines[0] else lines[0] + "\n" + JoinLines(lines[1..])
  }

  function Print(body: string): string {
    Begin() + ("\n" + JoinLines(Lines(body)) + "\n") + End() + "\n"
  }

  function Prepend(first: string, rest: Option<seq<string>>): Option<seq<string>> {
    if rest.Some? then Some([first] + rest.value) else None
  }

  /** The certificates of what is left of the text: blank up to each match, blank at the end. */
  function ParseRest(s: string): Option<seq<string>>
    decreases |s|
  {
    Markers();
    var m := NextMatch(s, 0);
    if m == |s| then if Trim(s) == [] then Some([]) else None
    else
      var from := m + |Begin()|;
      var to := BodyEnd(s, from);
      var body := Strip(s[from..to]);
      if Trim(s[..m]) != [] || !ValidBody(body) then None
      else Prepend(Print(body), ParseRest(s[to + |End()|..]))
  }

  function PemCertificates(value: string): Option<seq<string>> {
    var r := ParseRest(Trim(value));
    if r.Some? && r.value == [] then None else r
  }

  method ReadCertificates(value: string) returns (r: Option<seq<string>>)
    ensures r == PemCertificates(value)
  {
    hide InBody, IsSpace, Begin, End, ValidBody, Print, NextMatch, BodyEnd, Strip, Trim, ParseRest;
    var s := Trim(value);
    var certificates: seq<string> := [];
    var last := 0;
    assert s[0..] == s;
    PrefixNone(ParseRest(s));
    while true
      invariant 0 <= last <= |s|
      invariant ParseRest(s) == Prefixed(certificates, ParseRest(s[last..]))
      decreases |s| - last
    {
      Markers();
      var rest := s[last..];
      var m := NextMatch(rest, 0);
      if m == |rest| {
        Unmatched(rest);
        break;
      }
      var from := m + |Begin()|;
      var to := BodyEnd(rest, from);
      ParseStep(rest, m, to);
      if Trim(rest[..m]) != [] {
        return None;
      }
      var body := Strip(rest[from..to]);
      if !ValidBody(body) {
        return None;
      }
      PrefixMore(certificates, Print(body), ParseRest(rest[to + |End()|..]));
      certificates := certificates + [Print(body)];
      assert s[last + to + |End()|..] == rest[to + |End()|..];
      last := last + to + |End()|;
    }
    PrefixEmpty(certificates);
    r := if certificates != [] && Trim(s[last..]) == [] then Some(certificates) else None;
  }

  lemma PrefixEmpty(some: seq<string>)
    ensures Prefixed(some, Some([])) == Some(some)
  {
    assert some + [] == some;
  }

  function Prefixed(some: seq<string>, rest: Option<seq<string>>): Option<seq<string>> {
    if rest.Some? then Some(some + rest.value) else None
  }

  lemma PrefixNone(rest: Option<seq<string>>)
    ensures Prefixed([], rest) == rest
  {
    if rest.Some? {
      assert [] + rest.value == rest.value;
    }
  }

  lemma PrefixMore(some: seq<string>, x: string, rest: Option<seq<string>>)
    ensures Prefixed(some, Prepend(x, rest)) == Prefixed(some + [x], rest)
  {
    if rest.Some? {
      assert some + ([x] + rest.value) == some + [x] + rest.value;
    }
  }

  // ----- what texts are accepted, and as what

  ghost predicate BodyText(s: string) {
    forall c :: c in s ==> InBody(c)
  }

  /** Certificates written one after another, with the given white space around and between them. */
  function Written(gaps: seq<string>, bodies: seq<string>): string
    requires |gaps| == |bodies| + 1
    decreases |bodies|
  {
    if bodies == [] then gaps[0]
    else gaps[0] + Begin() + bodies[0] + End() + Written(gaps[1..], bodies[1..])
  }

  ghost predicate Gaps(gaps: seq<string>) {
    forall i :: 0 <= i < |gaps| ==> Blank(gaps[i])
  }

  ghost predicate BodyTexts(bodies: seq<string>) {
    forall i :: 0 <= i < |bodies| ==> BodyText(bodies[i])
  }

  /** The printed certificates, or None when one body is not base64. */
  function Printed(bodies: seq<string>): Option<seq<string>> {
    if bodies == [] then Some([])
    else if !ValidBody(Strip(bodies[0])) then None
    else Prepend(Print(Strip(bodies[0])), Printed(bodies[1..]))
  }

  lemma {:induction false} BodyEndIs(s: string, i: nat, j: nat)
    requires i <= j < |s| && !InBody(s[j]) && forall k :: i <= k < j ==> InBody(s[k])
    ensures BodyEnd(s, i) == j
    decreases j - i
  {
    hide InBody;
    if i < j {
      BodyEndIs(s, i + 1, j);
    }
  }

  lemma MatchStartsWithDash(s: string, i: nat)
    requires MatchesAt(s, i)
    ensures i < |s| && s[i] == '-'
  {
    hide InBody, BodyEnd;
    assert s[i..i + |Begin()|][0] == '-';
  }

  /** In `gap BEGIN body END rest` the first match is the one written. */
  lemma FirstMatch(gap: string, body: string, rest: string)
    requires Blank(gap) && BodyText(body)
    ensures var s := gap + Begin() + body + End() + rest;
      && NextMatch(s, 0) == |gap| < |s| && s[..|gap|] == gap
      && BodyEnd(s, |gap| + |Begin()|) == |gap| + |Begin()| + |body|
      && s[|gap| + |Begin()|..|gap| + |Begin()| + |body|] == body
      && s[|gap| + |Begin()| + |body| + |End()|..] == rest
  {
    hide InBody, IsSpace, Begin, End;
    Markers();
    DashOutside();
    var s := gap + Begin() + body + End() + rest;
    var from := |gap| + |Begin()|;
    var to := from + |body|;
    assert s[from..to] == body;
    assert s[to..to + |End()|] == End();
    assert s[|gap|..|gap| + |Begin()|] == Begin();
    assert s[to] == End()[0];
    forall k | from <= k < to
      ensures InBody(s[k])
    {
      assert s[k] == body[k - from];
    }
    BodyEndIs(s, from, to);
    assert MatchesAt(s, |gap|);
    forall k | 0 <= k < |gap|
      ensures s[k] != '-'
    {
      assert gap[k] in gap;
    }
    var m := NextMatch(s, 0);
    assert m <= |gap|;
    MatchStartsWithDash(s, m);
  }

  lemma ParseStep(s: string, m: nat, to: nat)
    requires NextMatch(s, 0) == m < |s| && BodyEnd(s, m + |Begin()|) == to
    ensures var body := Strip(s[m + |Begin()|..to]);
      ParseRest(s) == if Trim(s[..m]) != [] || !ValidBody(body) then None
                      else Prepend(Print(body), ParseRest(s[to + |End()|..]))
  {
    hide InBody, IsSpace, Begin, End, ValidBody, Print, NextMatch, BodyEnd, Strip, Trim;
  }

  lemma ParseFirst(gap: string, body: string, rest: string)
    requires Blank(gap) && BodyText(body)
    ensures ParseRest(gap + Begin() + body + End() + rest) ==
      if ValidBody(Strip(body)) then Prepend(Print(Strip(body)), ParseRest(rest)) else None
  {
    hide InBody, IsSpace, Begin, End, ValidBody, Print, NextMatch, BodyEnd, Strip, Trim, ParseRest;
    var s := gap + Begin() + body + End() + rest;
    FirstMatch(gap, body, rest);
    TrimBlank(gap);
    ParseStep(s, |gap|, |gap| + |Begin()| + |body|);
  }

  lemma NoMatchInBlank(s: string)
    requires Blank(s)
    ensures ParseRest(s) == Some([])
  {
    hide InBody, IsSpace, Begin, End, ValidBody, Print, BodyEnd, Strip, Trim, MatchesAt;
    DashOutside();
    TrimBlank(s);
    assert NextMatch(s, 0) == |s| by { BlankUnmatched(s); }
  }

  lemma BlankUnmatched(s: string)
    requires Blank(s)
    ensures NextMatch(s, 0) == |s|
  {
    hide InBody, IsSpace, MatchesAt;
    DashOutside();
    var m := NextMatch(s, 0);
    assert m < |s| ==> s[m] in s;
    if m < |s| {
      MatchStartsWithDash(s, m);
      assert false;
    }
  }

  lemma {:induction false} WrittenParses(gaps: seq<string>, bodies: seq<string>)
    requires |gaps| == |bodies| + 1 && Gaps(gaps) && BodyTexts(bodies)
    ensures ParseRest(Written(gaps, bodies)) == Printed(bodies)
    decreases |bodies|
  {
    hide InBody, IsSpace, Begin, End, ValidBody, Print, ParseRest, Strip, Blank;
    if bodies == [] {
      NoMatchInBlank(gaps[0]);
    } else {
      ParseFirst(gaps[0], bodies[0], Written(gaps[1..], bodies[1..]));
      WrittenParses(gaps[1..], bodies[1..]);
    }
  }

  /** Whatever is accepted is certificates with white space around them and nothing else. */
  lemma {:induction false} ParsedIsWritten(s: string) returns (gaps: seq<string>, bodies: seq<string>)
    requires ParseRest(s).Some?
    ensures |gaps| == |bodies| + 1 && Gaps(gaps) && BodyTexts(bodies) && s == Written(gaps, bodies)
    ensures Printed(bodies) == ParseRest(s)
    decreases |s|
  {
    hide InBody, IsSpace, Begin, End, ValidBody, Print, Strip, Blank, Trim, ParseRest, NextMatch, BodyEnd;
    Markers();
    var m := NextMatch(s, 0);
    if m == |s| {
      Unmatched(s);
      gaps, bodies := [s], [];
    } else {
      var from := m + |Begin()|;
      var to := BodyEnd(s, from);
      var rest := s[to + |End()|..];
      ParseStep(s, m, to);
      var moreGaps, moreBodies := ParsedIsWritten(rest);
      TrimBlank(s[..m]);
      gaps, bodies := [s[..m]] + moreGaps, [s[from..to]] + moreBodies;
      assert gaps[1..] == moreGaps && bodies[1..] == moreBodies;
      MatchParts(s, m);
      SliceInBody(s, from, to);
    }
  }

  lemma Unmatched(s: string)
    requires NextMatch(s, 0) == |s|
    ensures ParseRest(s) == if Trim(s) == [] then Some([]) else None
    ensures Trim(s) == [] <==> Blank(s)
  {
    hide NextMatch, Trim;
    TrimBlank(s);
  }

  lemma MatchParts(s: string, m: nat)
    requires MatchesAt(s, m)
    ensures var from := m + |Begin()|;
      var to := BodyEnd(s, from);
      s == s[..m] + Begin() + s[from..to] + End() + s[to + |End()|..]
  {
    hide Begin, End, InBody, BodyEnd;
    var from := m + |Begin()|;
    var to := BodyEnd(s, from);
    assert s == s[..m] + s[m..from] + s[from..to] + s[to..to + |End()|] + s[to + |End()|..];
  }

  lemma SliceInBody(s: string, from: nat, to: nat)
    requires from <= to <= |s| && forall k :: from <= k < to ==> InBody(s[k])
    ensures BodyText(s[from..to])
  {
    hide InBody;
    forall c | c in s[from..to]
      ensures InBody(c)
    {
      var k :| 0 <= k < to - from && s[from..to][k] == c;
      assert s[from + k] == c;
    }
  }

  // ----- printing and reading back

  lemma {:induction false} StripConcat(a: string, b: string)
    ensures Strip(a + b) == Strip(a) + Strip(b)
  {
    hide IsSpace;
    if b == [] {
      assert a + b == a;
    } else {
      StripConcat(a, b[..|b| - 1]);
      assert (a + b)[..|a + b| - 1] == a + b[..|b| - 1];
    }
  }

  lemma {:induction false} StripBase64(s: string)
    requires forall i :: 0 <= i < |s| ==> !IsSpace(s[i])
    ensures Strip(s) == s
  {
    if s != [] {
      StripBase64(s[..|s| - 1]);
    }
  }

  lemma StripNewline()
    ensures Strip("\n") == [] && IsSpace('\n') && InBody('\n')
  {
    assert Strip("\n") == Strip("\n"[..0]) + [];
  }

  lemma {:induction false} StripLines(s: string)
    requires forall i :: 0 <= i < |s| ==> !IsSpace(s[i])
    ensures Strip(JoinLines(Lines(s))) == s
    decreases |s|
  {
    hide IsSpace, Strip;
    if s == [] {
      StripBase64([]);
    } else if |s| <= 64 {
      StripBase64(s);
    } else {
      var rest := Lines(s[64..]);
      assert Lines(s) == [s[..64]] + rest;
      assert rest != [];
      assert Lines(s)[1..] == rest;
      StripLines(s[64..]);
      StripBase64(s[..64]);
      StripNewline();
      StripConcat(s[..64] + "\n", JoinLines(rest));
      StripConcat(s[..64], "\n");
      assert s == s[..64] + s[64..];
    }
  }

  lemma {:induction false} LinesInBody(s: string)
    requires forall i :: 0 <= i < |s| ==> InBody(s[i])
    ensures BodyText(JoinLines(Lines(s)))
    decreases |s|
  {
    hide InBody, IsSpace;
    StripNewline();
    if |s| > 64 {
      LinesInBody(s[64..]);
      assert Lines(s)[1..] == Lines(s[64..]) && Lines(s[64..]) != [];
      forall c | c in s[..64]
        ensures InBody(c)
      {
        var k :| 0 <= k < 64 && s[..64][k] == c;
        assert s[k] == c;
      }
    }
  }

  lemma ValidChars(body: string)
    requires ValidBody(body)
    ensures forall i :: 0 <= i < |body| ==> InBody(body[i]) && !IsSpace(body[i])
  {
    forall i | 0 <= i < |body|
      ensures body[i] == '=' || IsBase64(body[i])
    {
      if i >= |body| - Padding(body) {
        assert body[i] == '=';
      }
    }
  }

  /** A printed certificate is PEM text of the same body. */
  lemma PrintedBody(body: string)
    requires ValidBody(body)
    ensures var written := "\n" + JoinLines(Lines(body)) + "\n";
      BodyText(written) && Strip(written) == body && Print(body) == Begin() + written + End() + "\n"
  {
    hide InBody, IsSpace, Strip, Lines, JoinLines, ValidBody, Begin, End;
    ValidChars(body);
    StripLines(body);
    LinesInBody(body);
    StripNewline();
    var joined := JoinLines(Lines(body));
    StripConcat("\n" + joined, "\n");
    StripConcat("\n", joined);
  }

  function Concatenated(texts: seq<string>): string {
    if texts == [] then [] else texts[0] + Concatenated(texts[1..])
  }

  ghost predicate AllPrinted(texts: seq<string>, bodies: seq<string>) {
    |texts| == |bodies|
    && forall i :: 0 <= i < |bodies| ==> ValidBody(bodies[i]) && texts[i] == Print(bodies[i])
  }

  lemma {:induction false} PrintedTexts(bodies: seq<string>) returns (stripped: seq<string>)
    requires Printed(bodies).Some?
    ensures AllPrinted(Printed(bodies).value, stripped) && |stripped| == |bodies|
  {
    hide ValidBody, Print, Strip;
    if bodies == [] {
      stripped := [];
    } else {
      var rest := PrintedTexts(bodies[1..]);
      stripped := [Strip(bodies[0])] + rest;
    }
  }

  /** Printed certificates put together read back as themselves. */
  lemma {:induction false} PrintedReadBack(texts: seq<string>, bodies: seq<string>, gap: string)
    requires AllPrinted(texts, bodies) && Blank(gap)
    ensures ParseRest(gap + Concatenated(texts)) == Some(texts)
    decreases |texts|
  {
    hide ValidBody, Print, Strip, ParseRest, InBody, IsSpace, JoinLines, Begin, End;
    if texts == [] {
      assert gap + [] == gap;
      NoMatchInBlank(gap);
    } else {
      var body := bodies[0];
      PrintedBody(body);
      var written := "\n" + JoinLines(Lines(body)) + "\n";
      var rest := Concatenated(texts[1..]);
      StripNewline();
      PrintedReadBack(texts[1..], bodies[1..], "\n");
      assert gap + Concatenated(texts) == gap + Begin() + written + End() + ("\n" + rest);
      ParseFirst(gap, written, "\n" + rest);
      assert texts == [texts[0]] + texts[1..];
    }
  }

  // ----- the surrounding trim

  lemma {:induction false} TrimStartBlank(gap: string, s: string)
    requires Blank(gap) && s != [] && !IsSpace(s[0])
    ensures TrimStart(gap + s) == s
  {
    hide IsSpace;
    if gap == [] {
      assert gap + s == s;
    } else {
      assert gap[0] in gap;
      assert (gap + s)[1..] == gap[1..] + s;
      assert forall c :: c in gap[1..] ==> c in gap;
      TrimStartBlank(gap[1..], s);
    }
  }

  lemma {:induction false} TrimEndBlank(s: string, gap: string)
    requires Blank(gap) && s != [] && !IsSpace(s[|s| - 1])
    ensures TrimEnd(s + gap) == s
  {
    hide IsSpace;
    if gap == [] {
      assert s + gap == s;
    } else {
      var front := gap[..|gap| - 1];
      assert gap[|gap| - 1] in gap;
      assert (s + gap)[..|s + gap| - 1] == s + front;
      assert forall c :: c in front ==> c in gap;
      TrimEndBlank(s, front);
    }
  }

  lemma {:induction false} LastGap(gaps: seq<string>, bodies: seq<string>)
    requires |gaps| == |bodies| + 1 && bodies != []
    ensures var bare := Written(gaps[|bodies| := []], bodies);
      Written(gaps, bodies) == bare + gaps[|bodies|] && bare != [] && bare[|bare| - 1] == '-'
    decreases |bodies|
  {
    hide Begin, End;
    Markers();
    var bare := Written(gaps[|bodies| := []], bodies);
    var rest := gaps[1..];
    assert gaps[|bodies| := []][1..] == rest[|bodies| - 1 := []];
    if |bodies| == 1 {
      assert Written(rest, bodies[1..]) == gaps[1];
      assert Written(rest[0 := []], bodies[1..]) == [];
      assert bare == gaps[0] + Begin() + bodies[0] + End() + [];
    } else {
      LastGap(rest, bodies[1..]);
    }
  }

  /** Trimming the text only takes the outer gaps away. */
  lemma TrimWritten(gaps: seq<string>, bodies: seq<string>)
    requires |gaps| == |bodies| + 1 && Gaps(gaps) && bodies != []
    ensures Trim(Written(gaps, bodies)) == Written(gaps[0 := []][|bodies| := []], bodies)
  {
    hide Begin, End, IsSpace, Blank, Written;
    Markers();
    DashOutside();
    var inner := gaps[0 := []];
    FirstGap(gaps, bodies);
    LastGap(inner, bodies);
    var core := Written(inner, bodies);
    var bare := Written(inner[|bodies| := []], bodies);
    FirstGap(inner[|bodies| := []], bodies);
    TrimStartBlank(gaps[0], core);
    TrimEndBlank(bare, gaps[|bodies|]);
  }

  lemma FirstGap(gaps: seq<string>, bodies: seq<string>)
    requires |gaps| == |bodies| + 1 && bodies != []
    ensures var core := Written(gaps[0 := []], bodies);
      Written(gaps, bodies) == gaps[0] + core && core != [] && core[0] == '-'
  {
    hide Begin, End;
    Markers();
    var rest := Written(gaps[1..], bodies[1..]);
    assert gaps[0 := []][1..] == gaps[1..];
    assert Written(gaps[0 := []], bodies) == [] + Begin() + bodies[0] + End() + rest;
    assert Written(gaps, bodies) == gaps[0] + ([] + Begin() + bodies[0] + End() + rest);
  }

  // ----- pemCertificates

  /** Certificates written with any white space around and between them are read by their bodies alone: refused when
      one body is not base64, else each printed. */
  lemma WrittenCertificates(gaps: seq<string>, bodies: seq<string>)
    requires |gaps| == |bodies| + 1 && Gaps(gaps) && BodyTexts(bodies) && bodies != []
    ensures PemCertificates(Written(gaps, bodies)) == Printed(bodies)
  {
    hide InBody, IsSpace, Begin, End, ValidBody, Print, ParseRest, Strip, Trim, Written;
    TrimWritten(gaps, bodies);
    var bare := gaps[0 := []][|bodies| := []];
    assert Gaps(bare);
    WrittenParses(bare, bodies);
    PrintedNotEmpty(bodies);
  }

  lemma PrintedNotEmpty(bodies: seq<string>)
    requires bodies != []
    ensures Printed(bodies).Some? ==> Printed(bodies).value != []
  {
    hide ValidBody, Print, Strip;
  }

  /** Nothing else is accepted: an accepted text is certificates with white space, all with base64 bodies. */
  lemma AcceptedIsWritten(value: string) returns (gaps: seq<string>, bodies: seq<string>)
    requires PemCertificates(value).Some?
    ensures |gaps| == |bodies| + 1 && Gaps(gaps) && BodyTexts(bodies) && bodies != []
    ensures Trim(value) == Written(gaps, bodies) && PemCertificates(value) == Printed(bodies)
  {
    hide InBody, IsSpace, Begin, End, ValidBody, Print, ParseRest, Strip, Trim, Written;
    gaps, bodies := ParsedIsWritten(Trim(value));
  }

  ghost predicate SameButForSpace(a: seq<string>, b: seq<string>) {
    |a| == |b| && forall i :: 0 <= i < |a| ==> Strip(a[i]) == Strip(b[i])
  }

  lemma {:induction false} SamePrinted(a: seq<string>, b: seq<string>)
    requires SameButForSpace(a, b)
    ensures Printed(a) == Printed(b)
  {
    hide ValidBody, Print, Strip;
    if a != [] {
      SamePrinted(a[1..], b[1..]);
    }
  }

  /** White space added to or removed from bodies, or around the certificates, never changes the result. */
  lemma WhiteSpaceDoesNotMatter(gaps: seq<string>, bodies: seq<string>, gaps': seq<string>, bodies': seq<string>)
    requires |gaps| == |bodies| + 1 && Gaps(gaps) && BodyTexts(bodies) && bodies != []
    requires |gaps'| == |bodies'| + 1 && Gaps(gaps') && BodyTexts(bodies')
    requires SameButForSpace(bodies, bodies')
    ensures PemCertificates(Written(gaps, bodies)) == PemCertificates(Written(gaps', bodies'))
  {
    hide PemCertificates, Printed, Written, Gaps, BodyTexts;
    WrittenCertificates(gaps, bodies);
    WrittenCertificates(gaps', bodies');
    SamePrinted(bodies, bodies');
  }

  /** What was read, printed one after another, reads back as the same list. */
  lemma ReadBack(value: string)
    requires PemCertificates(value).Some?
    ensures var texts := PemCertificates(value).value; PemCertificates(Concatenated(texts)) == Some(texts)
  {
    hide InBody, IsSpace, Begin, End, ValidBody, Print, ParseRest, Strip, Trim, Written, Printed, Concatenated;
    var texts := PemCertificates(value).value;
    var gaps, bodies := AcceptedIsWritten(value);
    var stripped := PrintedTexts(bodies);
    PrintedReadBack(texts, stripped, []);
    assert [] + Concatenated(texts) == Concatenated(texts);
    var gaps', bodies' := ParsedIsWritten(Concatenated(texts));
    if bodies' == [] {
      PrintedNone();
      assert false;
    }
    WrittenCertificates(gaps', bodies');
  }

  lemma PrintedNone()
    ensures Printed([]) == Some([])
  {
  }

  // ----- the same in characters

  /** The base64 alphabet, letter by letter. */
  predicate InAlphabet(c: char) {
    || c in "ABCDEFGHIJKLM" || c in "NOPQRSTUVWXYZ" || c in "abcdefghijklm" || c in "nopqrstuvwxyz"
    || c in "0123456789+/"
  }

  lemma AlphabetIs(c: char)
    ensures IsBase64(c) <==> InAlphabet(c)
  {
  }

  /** A body that is taken: characters of the alphabet, one at least, then at most two equals signs, in whole fours. */
  predicate PaddedBy(s: string, padding: nat) {
    && padding < |s| && (forall i :: 0 <= i < |s| - padding ==> InAlphabet(s[i]))
    && forall i :: |s| - padding <= i < |s| ==> s[i] == '='
  }

  predicate WholeBody(s: string) {
    |s| % 4 == 0 && (PaddedBy(s, 0) || PaddedBy(s, 1) || PaddedBy(s, 2))
  }

  lemma PaddingIs(s: string, padding: nat)
    requires PaddedBy(s, padding) && padding <= 2
    ensures Padding(s) == padding
  {
    AlphabetIs(s[|s| - padding - 1]);
  }

  lemma BodyMeans(s: string)
    ensures ValidBody(s) <==> WholeBody(s)
  {
    forall c
      ensures IsBase64(c) <==> InAlphabet(c)
    {
      AlphabetIs(c);
    }
    hide IsBase64, InAlphabet;
    if ValidBody(s) {
      assert PaddedBy(s, Padding(s));
    }
    if WholeBody(s) {
      var padding := if PaddedBy(s, 0) then 0 else if PaddedBy(s, 1) then 1 else 2;
      PaddingIs(s, padding);
    }
  }

  lemma {:induction false} LinesLength(s: string)
    ensures |JoinLines(Lines(s))| == if s == [] then 0 else |s| + (|s| - 1) / 64
    decreases |s|
  {
    if |s| > 64 {
      LinesLength(s[64..]);
      assert Lines(s)[1..] == Lines(s[64..]) && Lines(s[64..]) != [];
    }
  }

  lemma LinesFirst(s: string)
    requires |s| > 64
    ensures JoinLines(Lines(s)) == s[..64] + "\n" + JoinLines(Lines(s[64..]))
  {
    assert Lines(s)[1..] == Lines(s[64..]) && Lines(s[64..]) != [];
  }

  lemma OneLine(s: string)
    requires |s| <= 64
    ensures JoinLines(Lines(s)) == s
  {
  }

  /** The body in lines: every 65th character ends a line, none is the last, and the others are the body in order. */
  lemma {:induction false} LineAt(s: string, k: nat)
    requires k < |JoinLines(Lines(s))|
    ensures var text := JoinLines(Lines(s));
      && |text| == |s| + (|s| - 1) / 64
      && if k % 65 == 64 then text[k] == '\n' && k < |text| - 1 else k - k / 65 < |s| && text[k] == s[k - k / 65]
    decreases |s|
  {
    hide Lines, JoinLines;
    LinesLength(s);
    if |s| <= 64 {
      OneLine(s);
    } else {
      var rest := JoinLines(Lines(s[64..]));
      LinesFirst(s);
      LinesLength(s[64..]);
      if k >= 65 {
        LineAt(s[64..], k - 65);
        assert JoinLines(Lines(s))[k] == rest[k - 65];
        assert k - k / 65 == 64 + (k - 65 - (k - 65) / 65);
      }
    }
  }

  /** What a reader is given for one certificate, whatever white space stands around it and in its body. */
  lemma OneCertificate(before: string, body: string, after: string)
    requires Blank(before) && Blank(after) && BodyText(body)
    ensures PemCertificates(before + "-----BEGIN CERTIFICATE-----" + body + "-----END CERTIFICATE-----" + after)
         == if WholeBody(Strip(body))
            then
              Some(["-----BEGIN CERTIFICATE-----\n" + JoinLines(Lines(Strip(body))) + "\n-----END CERTIFICATE-----\n"])
            else None
  {
    hide InBody, IsSpace, ValidBody, ParseRest, Strip, Trim, WholeBody, JoinLines, Lines, PemCertificates, Blank, Print;
    var gaps, bodies := [before, after], [body];
    assert Written(gaps, bodies)
        == before + "-----BEGIN CERTIFICATE-----" + body + "-----END CERTIFICATE-----" + after by {
      assert gaps[1..] == [after] && bodies[1..] == [];
    }
    WrittenCertificates(gaps, bodies);
    BodyMeans(Strip(body));
    OnePrinted(body);
    PrintSpelled(Strip(body));
  }

  lemma OnePrinted(body: string)
    ensures Printed([body]) == if ValidBody(Strip(body)) then Some([Print(Strip(body))]) else None
  {
    hide ValidBody, Strip, Print;
    var rest := [body][1..];
    assert rest == [];
    assert Printed(rest) == Some([]);
    assert [Print(Strip(body))] + [] == [Print(Strip(body))];
  }

  lemma PrintSpelled(body: string)
    ensures Print(body)
         == "-----BEGIN CERTIFICATE-----\n" + JoinLines(Lines(body)) + "\n-----END CERTIFICATE-----\n"
  {
    var text := JoinLines(Lines(body));
    hide JoinLines, Lines;
    MarkersSpelled();
    assert Print(body) == (Begin() + "\n") + text + ("\n" + End() + "\n");
  }

  lemma MarkersSpelled()
    ensures Begin() + "\n" == "-----BEGIN CERTIFICATE-----\n"
    ensures "\n" + End() + "\n" == "\n-----END CERTIFICATE-----\n"
  {
  }

  /** What white space taken out leaves: every other character, in order. */
  lemma StripInserted(a: string, c: char, b: string)
    ensures Strip(a + [c] + b) == if IsSpace(c) then Strip(a + b) else Strip(a) + [c] + Strip(b)
  {
    StripConcat(a + [c], b);
    StripConcat(a, [c]);
    StripConcat(a, b);
    assert Strip([c]) == if IsSpace(c) then [] else [c] by {
      assert [c][..0] == [];
    }
    assert Strip(a) + [] == Strip(a);
  }
}
