/** Every text without comments is written text. */
module SlintCoverage {
  import opened Text
  import opened SlintLexing
  import opened SlintPieces
  import opened SlintReading

  lemma {:induction false} SpanIsWhole(p: char -> bool, s: string)
    ensures var n := Span(p, s); AllIn(p, s[..n]) && (s[n..] == "" || !p(s[n..][0]))
  {
    if s != "" && p(s[0]) {
      SpanIsWhole(p, s[1..]);
      var n := Span(p, s);
      assert s[n..] == s[1..][n - 1..];
      assert s[..n] == [s[0]] + s[1..][..n - 1];
    }
  }

  lemma {:induction false} QuotedIsClosed(s: string)
    requires Quoted(s).Some?
    ensures Closed(s[..Quoted(s).value])
  {
    var n := Quoted(s).value;
    if s[0] == '"' {
    } else if s[0] == '\\' {
      QuotedIsClosed(s[2..]);
      assert s[..n][2..] == s[2..][..n - 2];
    } else {
      QuotedIsClosed(s[1..]);
      assert s[..n][1..] == s[1..][..n - 1];
    }
  }

  /** White space without comments. */
  lemma GapIsBlank(cs: Chars, gap: string)
    requires AllIn(cs.space, gap) && NoComment(gap)
    ensures Blank(cs, gap) && StripComments(gap) == gap
  {
    StrippedHasNone(gap);
    var lines := LastLineEnds(gap);
    assert LastLine(gap) == gap[|lines|..];
    NoCommentBehind(gap, |lines|);
  }

  lemma SliceHasNoComment(s: string, a: nat, b: nat)
    requires a <= b <= |s| && NoComment(s)
    ensures NoComment(s[a..b])
  {
    assert forall i :: 0 <= i < b - a ==> s[a..b][i] == s[a + i];
  }

  /** A keyword and the white space behind it. */
  lemma KeywordParts(cs: Chars, s: string, keyword: string) returns (gap: string)
    requires AfterKeyword(cs, s, keyword).Some? && NoComment(s)
    ensures var k := AfterKeyword(cs, s, keyword).value;
            && s == keyword + (gap + s[k..]) && k == |keyword| + |gap|
            && gap != "" && Blank(cs, gap) && StripComments(gap) == gap
  {
    gap := KeywordSlices(cs, s, keyword);
    assert gap == s[|keyword|..|keyword| + |gap|];
    SliceHasNoComment(s, |keyword|, |keyword| + |gap|);
    GapIsBlank(cs, gap);
  }

  lemma KeywordSlices(cs: Chars, s: string, keyword: string) returns (gap: string)
    requires AfterKeyword(cs, s, keyword).Some?
    ensures var k := AfterKeyword(cs, s, keyword).value;
            s == keyword + (gap + s[k..]) && k == |keyword| + |gap| && gap != "" && AllIn(cs.space, gap)
  {
    var rest := s[|keyword|..];
    gap := rest[..Span(cs.space, rest)];
    DropTwice(s, |keyword|, |gap|);
    SpanIsWhole(cs.space, rest);
    Rejoined(s, keyword);
    Rejoined(rest, gap);
  }

  lemma Rejoined(s: string, front: string)
    requires front <= s
    ensures s == front + s[|front|..]
  {
  }

  lemma KindParsed(cs: Chars, s: string) returns (kind: string, gap: string)
    requires AfterKind(cs, s).Some? && NoComment(s)
    ensures var k := AfterKind(cs, s).value;
            && kind in ["component", "global"] && s == kind + (gap + s[k..]) && k == |kind| + |gap|
            && gap != "" && Blank(cs, gap) && StripComments(gap) == gap
  {
    kind := if AfterKeyword(cs, s, "component").Some? then "component" else "global";
    gap := KeywordParts(cs, s, kind);
  }

  /** A name in front of what is no word character. */
  lemma NameParsed(cs: Chars, s: string) returns (name: string)
    requires Span(cs.word, s) > 0
    ensures name != "" && AllIn(cs.word, name) && |name| == Span(cs.word, s)
    ensures s == name + s[|name|..] && EndsWord(cs, s[|name|..])
  {
    name := s[..Span(cs.word, s)];
    SpanIsWhole(cs.word, s);
  }

  /** The piece at the front of a text. */
  ghost predicate IsFront(cs: Chars, s: string, p: Piece) {
    && Spell(p) <= s && Spell(p) != "" && Code(p) == Spell(p)
    && WellWritten(cs, p, s[|Spell(p)|..], s[|Spell(p)|..])
  }

  lemma KindFront(cs: Chars, s: string) returns (p: Piece)
    requires AfterKind(cs, s).Some? && Span(cs.word, s[AfterKind(cs, s).value..]) > 0 && NoComment(s)
    ensures IsFront(cs, s, p)
  {
    var kind, gap := KindParsed(cs, s);
    var rest := s[AfterKind(cs, s).value..];
    var name := NameParsed(cs, rest);
    p := Decl(None, kind, gap, name);
    var spelt, more := kind + (gap + name), rest[|name|..];
    ToTheRight(kind, gap, name, more);
    assert Spell(p) == spelt by {
      assert "" + spelt == spelt;
    }
    assert s == spelt + more;
    assert s[|spelt|..] == more;
  }

  lemma ExportFront(cs: Chars, s: string) returns (p: Piece)
    requires AfterKeyword(cs, s, "export").Some? && NoComment(s)
    requires var inner := s[AfterKeyword(cs, s, "export").value..];
             AfterKind(cs, inner).Some? && Span(cs.word, inner[AfterKind(cs, inner).value..]) > 0
    ensures IsFront(cs, s, p)
  {
    var exported := KeywordParts(cs, s, "export");
    var inner := s[AfterKeyword(cs, s, "export").value..];
    NoCommentBehind(s, AfterKeyword(cs, s, "export").value);
    var kind, gap := KindParsed(cs, inner);
    var rest := inner[AfterKind(cs, inner).value..];
    var name := NameParsed(cs, rest);
    p := Decl(Some(exported), kind, gap, name);
    var decl, more := kind + (gap + name), rest[|name|..];
    ToTheRight(kind, gap, name, more);
    TwoAndTwo("export", exported, decl, more);
    assert s == Spell(p) + more;
    assert s[|Spell(p)|..] == more;
  }

  lemma TranslationAtFront(cs: Chars, s: string) returns (p: Piece)
    requires TranslationAt(cs, s).Some? && NoComment(s)
    ensures IsFront(cs, s, p)
  {
    var gap, text, more := TranslationParsed(cs, s);
    p := Trans(gap, text);
    TranslationText(gap, text, more);
    assert s[|Spell(p)|..] == more;
  }

  lemma TranslationParsed(cs: Chars, s: string) returns (gap: string, text: string, more: string)
    requires TranslationAt(cs, s).Some? && NoComment(s)
    ensures Blank(cs, gap) && StripComments(gap) == gap && Closed(text)
    ensures s == "@tr(" + (gap + ("\"" + (text + "\"" + more)))
  {
    var rest := s[4..];
    var n := Span(cs.space, rest);
    gap := rest[..n];
    SpanIsWhole(cs.space, rest);
    NoCommentBehind(s, 4);
    SliceHasNoComment(rest, 0, n);
    GapIsBlank(cs, gap);
    DropTwice(s, 4, n + 1);
    text, more := BodyParsed(rest[n + 1..]);
    QuoteFirst(rest, n);
    assert s == "@tr(" + rest;
  }

  lemma QuoteFirst(rest: string, n: nat)
    requires n < |rest| && rest[n] == '"'
    ensures rest == rest[..n] + ("\"" + rest[n + 1..])
  {
  }

  lemma BodyParsed(body: string) returns (text: string, more: string)
    requires Quoted(body).Some?
    ensures Closed(text) && body == text + "\"" + more
  {
    var m := Quoted(body).value;
    QuotedIsClosed(body);
    text, more := body[..m], body[m + 1..];
  }

  lemma WordAtFront(cs: Chars, s: string) returns (p: Piece)
    requires s != "" && cs.word(s[0]) && DeclarationAt(cs, s).None?
    ensures IsFront(cs, s, p)
  {
    var name := NameParsed(cs, s);
    p := Word(name);
  }

  lemma MarkAtFront(cs: Chars, s: string) returns (p: Piece)
    requires s != "" && !cs.word(s[0]) && NoComment(s) && TranslationAt(cs, s).None?
    ensures IsFront(cs, s, p)
  {
    assert s == [s[0]] + s[1..];
    p := if s[0] == '{' then Brace(true) else if s[0] == '}' then Brace(false) else Mark(s[0]);
  }

  lemma FrontIsPiece(cs: Chars, s: string) returns (p: Piece)
    requires Lawful(cs) && s != "" && NoComment(s)
    ensures IsFront(cs, s, p)
  {
    var e := AfterKeyword(cs, s, "export");
    if DeclarationAt(cs, s).Some? {
      if e.Some? && AfterKind(cs, s[e.value..]).Some? {
        DropTwice(s, e.value, AfterKind(cs, s[e.value..]).value);
        p := ExportFront(cs, s);
      } else {
        p := KindFront(cs, s);
      }
    } else if cs.word(s[0]) {
      p := WordAtFront(cs, s);
    } else if TranslationAt(cs, s).Some? {
      p := TranslationAtFront(cs, s);
    } else {
      p := MarkAtFront(cs, s);
    }
  }

  /** Nothing is asked of a text but that it holds no comments, and comments may be put between its pieces and into
      their gaps: every text without them is written text. */
  lemma {:induction false} EveryTextIsWritten(cs: Chars, s: string) returns (ps: seq<Piece>)
    requires Lawful(cs) && NoComment(s)
    ensures AllWritten(cs, ps) && AllPlain(ps) && SpellAll(ps) == s && CodeAll(ps) == s
    decreases |s|
  {
    ps := [];
    if s != "" {
      var p := FrontIsPiece(cs, s);
      var rest := s[|Spell(p)|..];
      NoCommentBehind(s, |Spell(p)|);
      var more := EveryTextIsWritten(cs, rest);
      ps := [p] + more;
      assert ps[1..] == more && s == Spell(p) + rest;
      if p.Trans? {
        PlainPart(p, s);
      }
    }
  }

  lemma PlainPart(p: Piece, s: string)
    requires p.Trans? && Spell(p) <= s && NoComment(s)
    ensures NoComment(p.text)
  {
    var k := |p.gap| + 5;
    assert p.text == Spell(p)[k..k + |p.text|] == s[k..k + |p.text|];
    SliceHasNoComment(s, k, k + |p.text|);
  }
}
