/** What tidying and trimming keep of a text: its words (the source's `replace(/\s+/g, ' ').trim()` and `trim`). */
module TextWords {
  import opened Text

  /** The longest runs of characters that are no white space. */
  function Words(s: string): (r: seq<string>)
    ensures s != [] && !IsSpace(s[0]) ==> r != []
  {
    if s == [] then []
    else if IsSpace(s[0]) then Words(s[1..])
    else if |s| > 1 && !IsSpace(s[1]) then [[s[0]] + Words(s[1..])[0]] + Words(s[1..])[1..]
    else [[s[0]]] + Words(s[1..])
  }

  function Joined(words: seq<string>): string {
    if words == [] then [] else if |words| == 1 then words[0] else words[0] + " " + Joined(words[1..])
  }

  lemma {:induction false} TrimStartWords(s: string)
    ensures Words(TrimStart(s)) == Words(s)
  {
    hide IsSpace;
    if s != [] && IsSpace(s[0]) {
      TrimStartWords(s[1..]);
    }
  }

  lemma {:induction false} LastSpace(s: string)
    requires s != [] && IsSpace(s[|s| - 1])
    ensures Words(s[..|s| - 1]) == Words(s)
  {
    hide IsSpace;
    if |s| > 1 {
      LastSpace(s[1..]);
      assert s[1..][..|s| - 2] == s[..|s| - 1][1..];
    }
  }

  lemma {:induction false} TrimEndWords(s: string)
    ensures Words(TrimEnd(s)) == Words(s)
  {
    hide IsSpace, Words;
    if s != [] && IsSpace(s[|s| - 1]) {
      LastSpace(s);
      TrimEndWords(s[..|s| - 1]);
    }
  }

  lemma CollapseFirst(s: string)
    requires s != []
    ensures Collapse(s) != [] && IsSpace(Collapse(s)[0]) == IsSpace(s[0])
  {
    hide IsSpace;
    SpaceIsSpace();
  }

  lemma {:induction false} CollapseWords(s: string)
    ensures Words(Collapse(s)) == Words(s)
    decreases |s|
  {
    hide IsSpace;
    if s != [] {
      CollapseFirst(s);
      if IsSpace(s[0]) {
        CollapseWords(TrimStart(s));
        TrimStartWords(s);
        assert Collapse(s)[1..] == Collapse(TrimStart(s));
      } else {
        CollapseWords(s[1..]);
        assert Collapse(s)[1..] == Collapse(s[1..]);
        if |s| > 1 {
          CollapseFirst(s[1..]);
        }
      }
    }
  }

  lemma {:induction false} TidyIsItsWords(s: string)
    requires IsTidy(s)
    ensures Joined(Words(s)) == s
    decreases |s|
  {
    hide IsSpace, Words, Joined;
    if |s| <= 1 {
      OneWord(s);
    } else if IsSpace(s[1]) {
      TidyIsItsWords(s[2..]);
      FirstWord(s);
    } else {
      TidyIsItsWords(s[1..]);
      LongerWord(s);
    }
  }

  lemma OneWord(s: string)
    requires |s| <= 1 && (s != [] ==> !IsSpace(s[0]))
    ensures Joined(Words(s)) == s
  {
    hide IsSpace;
    if s != [] {
      assert s == [s[0]] && s[1..] == [];
      assert Words(s) == [[s[0]]] + [] by { assert Words(s[1..]) == []; }
      assert [[s[0]]] + [] == [s];
    }
  }

  lemma FirstWord(s: string)
    requires |s| > 1 && IsTidy(s) && IsSpace(s[1]) && Joined(Words(s[2..])) == s[2..]
    ensures Joined(Words(s)) == s
  {
    hide IsSpace;
    var rest := Words(s[2..]);
    assert s[1..][1..] == s[2..] && s[2..] != [];
    assert Words(s[1..]) == rest;
    assert Words(s) == [[s[0]]] + rest && ([[s[0]]] + rest)[1..] == rest;
    assert s == [s[0]] + " " + s[2..];
  }

  lemma LongerWord(s: string)
    requires |s| > 1 && !IsSpace(s[0]) && !IsSpace(s[1]) && Joined(Words(s[1..])) == s[1..]
    ensures Joined(Words(s)) == s
  {
    hide IsSpace;
    var rest := Words(s[1..]);
    assert Words(s) == [[s[0]] + rest[0]] + rest[1..];
    assert ([[s[0]] + rest[0]] + rest[1..])[1..] == rest[1..];
    assert s == [s[0]] + s[1..];
  }

  /** Tidied text is the text's own words, one space between them. */
  lemma TidyJoinsWords(s: string)
    ensures Tidy(s) == Joined(Words(s))
  {
    hide Words, Joined, IsTidy, Collapse, TrimStart, TrimEnd;
    CollapseWords(s);
    TrimStartWords(Collapse(s));
    TrimEndWords(TrimStart(Collapse(s)));
    TidyIsTidy(s);
    TidyIsItsWords(Tidy(s));
  }

  lemma BlankAt(s: string)
    requires forall i :: 0 <= i < |s| ==> IsSpace(s[i])
    ensures Blank(s)
  {
    hide IsSpace;
  }

  lemma StartCut(s: string) returns (front: string)
    ensures s == front + TrimStart(s) && Blank(front)
  {
    hide IsSpace, Blank;
    var n := |s| - |TrimStart(s)|;
    front := s[..n];
    assert s == front + s[n..];
    BlankAt(front);
  }

  lemma EndCut(s: string) returns (back: string)
    ensures s == TrimEnd(s) + back && Blank(back)
  {
    hide IsSpace, Blank;
    back := s[|TrimEnd(s)|..];
    BlankAt(back);
  }

  /** Trimming takes white space off both ends and nothing else. */
  lemma TrimEnds(s: string) returns (front: string, back: string)
    ensures s == front + Trim(s) + back && Blank(front) && Blank(back)
  {
    hide IsSpace, Blank, TrimStart, TrimEnd;
    var t := TrimStart(s);
    front := StartCut(s);
    back := EndCut(t);
    assert Trim(s) == TrimEnd(t);
    assert front + (TrimEnd(t) + back) == front + TrimEnd(t) + back;
  }

  /** Upper case: the letters a to z, each by its place in the alphabet; no other character changes. */
  lemma {:induction false} UpperAt(s: string, i: nat)
    requires i < |s|
    ensures UpperCode(s)[i] == if 'a' <= s[i] <= 'z' then 'A' + (s[i] - 'a') else s[i]
  {
    if i < |s| - 1 {
      UpperAt(s[..|s| - 1], i);
    }
  }

  lemma {:induction false} LowerAt(s: string, i: nat)
    requires i < |s|
    ensures Lower(s)[i] == if 'A' <= s[i] <= 'Z' then 'a' + (s[i] - 'A') else s[i]
  {
    if i < |s| - 1 {
      LowerAt(s[..|s| - 1], i);
    }
  }

  /** The same text but for the case of Latin letters. */
  ghost predicate SameButCase(a: string, b: string) {
    |a| == |b| && forall i :: 0 <= i < |a| ==>
      || a[i] == b[i]
      || ('a' <= a[i] <= 'z' && b[i] == 'A' + (a[i] - 'a'))
      || ('A' <= a[i] <= 'Z' && b[i] == 'a' + (a[i] - 'A'))
  }

  lemma LowerSame(a: string, b: string)
    ensures Lower(a) == Lower(b) <==> SameButCase(a, b)
  {
    hide Lower;
    assert |Lower(a)| == |a| && |Lower(b)| == |b|;
    if |a| == |b| {
      forall i | 0 <= i < |a|
        ensures Lower(a)[i] == (if 'A' <= a[i] <= 'Z' then 'a' + (a[i] - 'A') else a[i])
        ensures Lower(b)[i] == (if 'A' <= b[i] <= 'Z' then 'a' + (b[i] - 'A') else b[i])
      {
        LowerAt(a, i);
        LowerAt(b, i);
      }
      assert Lower(a) == Lower(b) <==> forall i :: 0 <= i < |a| ==> Lower(a)[i] == Lower(b)[i];
    }
  }

  lemma WordRead(s: string, word: string)
    requires forall i :: 0 <= i < |word| ==> !('A' <= word[i] <= 'Z')
    ensures Lower(s) == word <==> SameButCase(s, word)
  {
    hide Lower, SameButCase;
    LowerKeeps(word);
    LowerSame(s, word);
  }

  lemma TidyNothing(s: string)
    ensures Tidy(s) == [] <==> Words(s) == []
    ensures Words(s) == [] <==> Blank(s)
  {
    hide Tidy;
    TidyJoinsWords(s);
    WordsNotEmpty(s);
    NoWords(s);
  }

  lemma {:induction false} WordsNotEmpty(s: string)
    ensures forall i :: 0 <= i < |Words(s)| ==> Words(s)[i] != []
  {
    hide IsSpace;
    if s != [] {
      WordsNotEmpty(s[1..]);
    }
  }

  lemma {:induction false} NoWords(s: string)
    ensures Words(s) == [] <==> Blank(s)
  {
    hide IsSpace;
    if s != [] {
      assert s == [s[0]] + s[1..];
      NoWords(s[1..]);
    }
  }

  /** Lengths add up; a character beyond the basic plane counts twice. */
  lemma {:induction false} UnitsAdd(s: string, c: char)
    ensures Units(s + [c]) == Units(s) + if c <= '\U{FFFF}' then 1 else 2
  {
    assert (s + [c])[..|s|] == s;
  }

  /** The white space and line terminators of ECMAScript, one by one. */
  lemma WhiteSpace(c: char)
    ensures IsSpace(c) <==>
      c in "\t\n\U{000B}\U{000C}\r \U{00A0}\U{1680}\U{2000}\U{2001}\U{2002}\U{2003}\U{2004}\U{2005}\U{2006}"
           + "\U{2007}\U{2008}\U{2009}\U{200A}\U{2028}\U{2029}\U{202F}\U{205F}\U{3000}\U{FEFF}"
  {
  }
}
