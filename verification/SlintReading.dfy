/** Exactly when `slint_contexts` reads written text as it is written. */
module SlintReading {
  import opened Text
  import opened SlintContexts
  import opened SlintLexing
  import opened SlintPieces

  // ---------------------------------------------------------------------------
  // Reading code
  // ---------------------------------------------------------------------------

  lemma TokensOfFront(cs: Chars, inWord: bool, a: string, b: string)
    requires a != "" && LexFront(cs, inWord, a + b).end == |a|
    ensures TokensAfter(cs, inWord, a + b) ==
            [LexFront(cs, inWord, a + b).token] + TokensAfter(cs, InWord(cs.word, a), b)
  {
    assert (a + b)[..|a|] == a && (a + b)[|a|..] == b;
  }

  /** What starts with no word character declares nothing. */
  lemma NoDeclaration(cs: Chars, s: string)
    requires Lawful(cs) && EndsWord(cs, s)
    ensures DeclarationAt(cs, s).None?
  {
  }

  /** In front of it the end of a word makes no difference. */
  lemma WordIsOver(cs: Chars, s: string)
    requires Lawful(cs) && EndsWord(cs, s)
    ensures TokensAfter(cs, true, s) == TokensAfter(cs, false, s)
  {
    NoDeclaration(cs, s);
  }

  /** Within a word nothing is recognised. */
  ghost predicate DullInWord(front: Front, word: char -> bool) {
    forall c, rest :: word(c) ==> front(true, [c] + rest) == Lexeme(Other, 1)
  }

  lemma FirstOther(front: Front, word: char -> bool, inWord: bool, c: char, rest: string)
    requires Steady(front) && front(inWord, [c] + rest) == Lexeme(Other, 1)
    ensures TokensBy(front, word, inWord, [c] + rest) == [Other] + TokensBy(front, word, word(c), rest)
  {
    assert ([c] + rest)[..1] == [c] && ([c] + rest)[1..] == rest;
  }

  /** A word that declares nothing at its start declares nothing later. */
  lemma {:induction false} WordGoesOn(front: Front, word: char -> bool, inWord: bool, w: string, rest: string)
    requires Steady(front) && DullInWord(front, word) && AllIn(word, w) && w != ""
    requires inWord || front(false, w + rest) == Lexeme(Other, 1)
    ensures TokensBy(front, word, inWord, w + rest) == Others(|w|) + TokensBy(front, word, true, rest)
    decreases |w|
  {
    var tail := w[1..] + rest;
    assert w + rest == [w[0]] + tail;
    FirstOther(front, word, inWord, w[0], tail);
    if |w| > 1 {
      WordGoesOn(front, word, true, w[1..], rest);
      OneMoreOther(|w| - 1, TokensBy(front, word, true, rest));
    } else {
      assert tail == rest;
      OneMoreOther(0, TokensBy(front, word, true, rest));
    }
  }

  lemma OneMoreOther(n: nat, ts: seq<Token>)
    ensures [Other] + (Others(n) + ts) == Others(n + 1) + ts
    ensures [Other] + ts == Others(1) + ts
  {
  }

  /** A character that starts nothing. */
  lemma PlainFront(cs: Chars, inWord: bool, c: char, rest: string)
    requires c !in "{}" && (inWord || DeclarationAt(cs, [c] + rest).None?)
    requires c == '@' ==> TranslationAt(cs, [c] + rest).None?
    ensures LexFront(cs, inWord, [c] + rest) == Lexeme(Other, 1)
  {
    var s := [c] + rest;
    assert s[0] == c;
    assert "@tr("[0] == '@' && (c != '@' ==> !("@tr(" <= s));
  }

  lemma WordsAreDull(cs: Chars)
    requires Lawful(cs)
    ensures DullInWord(FrontOf(cs), cs.word)
  {
    forall c, rest | cs.word(c) ensures FrontOf(cs)(true, [c] + rest) == Lexeme(Other, 1) {
      PlainFront(cs, true, c, rest);
    }
  }

  /** A word that starts no declaration is passed over. */
  lemma WordIsPassed(cs: Chars, word: string, rest: string)
    requires Lawful(cs) && word != "" && AllIn(cs.word, word) && EndsWord(cs, rest)
    requires DeclarationAt(cs, word + rest).None?
    ensures TokensAfter(cs, false, word + rest) == Others(|word|) + TokensAfter(cs, false, rest)
  {
    WordFront(cs, word, rest);
    WordsAreDull(cs);
    WordGoesOn(FrontOf(cs), cs.word, false, word, rest);
    WordIsOver(cs, rest);
  }

  lemma WordFront(cs: Chars, word: string, rest: string)
    requires Lawful(cs) && word != "" && AllIn(cs.word, word) && DeclarationAt(cs, word + rest).None?
    ensures FrontOf(cs)(false, word + rest) == Lexeme(Other, 1)
  {
    var s := word + rest;
    assert s == [s[0]] + s[1..] && s[0] == word[0];
    PlainFront(cs, false, s[0], s[1..]);
  }

  /** A keyword is only seen where the whole word is that keyword. */
  lemma KeywordIsWord(cs: Chars, word: string, rest: string, keyword: string)
    requires Lawful(cs) && AllIn(cs.word, word) && AllIn(cs.word, keyword) && EndsWord(cs, rest)
    requires AfterKeyword(cs, word + rest, keyword).Some?
    ensures word == keyword
  {
    var s := word + rest;
    assert keyword == s[..|keyword|] && word == s[..|word|];
    assert s[|keyword|..] != "" && s[|keyword|] == s[|keyword|..][0];
    assert |word| < |s| ==> s[|word|] == rest[0];
    assert forall i :: 0 <= i < |word| ==> s[i] == word[i];
    assert forall i :: 0 <= i < |keyword| ==> s[i] == keyword[i];
    assert |word| == |keyword|;
  }

  /** So only the three keywords can start a declaration. */
  lemma OtherWordsDeclareNothing(cs: Chars, word: string, rest: string)
    requires Lawful(cs) && AllIn(cs.word, word) && EndsWord(cs, rest)
    requires word !in ["component", "global", "export"]
    ensures DeclarationAt(cs, word + rest).None?
  {
    var s := word + rest;
    KeywordsAreWords(cs);
    if AfterKeyword(cs, s, "export").Some? {
      KeywordIsWord(cs, word, rest, "export");
    }
    if AfterKeyword(cs, s, "component").Some? {
      KeywordIsWord(cs, word, rest, "component");
    }
    if AfterKeyword(cs, s, "global").Some? {
      KeywordIsWord(cs, word, rest, "global");
    }
  }

  // ---------------------------------------------------------------------------
  // Reading declarations
  // ---------------------------------------------------------------------------

  /** A keyword with white space behind it. */
  lemma KeywordAndGap(cs: Chars, keyword: string, gap: string, s: string)
    requires gap != "" && AllIn(cs.space, gap) && s != "" && !cs.space(s[0])
    ensures AfterKeyword(cs, keyword + (gap + s), keyword) == Some(|keyword| + |gap|)
    ensures (keyword + (gap + s))[|keyword| + |gap|..] == s
  {
    assert (keyword + (gap + s))[|keyword|..] == gap + s;
    SpanOf(cs.space, gap, s);
  }

  lemma OtherLetter(cs: Chars, s: string, keyword: string)
    requires s != "" && keyword != "" && s[0] != keyword[0]
    ensures AfterKeyword(cs, s, keyword).None?
  {
  }

  lemma KindIsSeen(cs: Chars, kind: string, gap: string, s: string)
    requires Lawful(cs) && kind in ["component", "global"] && gap != "" && AllIn(cs.space, gap)
    requires s != "" && cs.word(s[0])
    ensures var t := kind + (gap + s);
            AfterKind(cs, t) == Some(|kind| + |gap|) && t[|kind| + |gap|..] == s && AfterKeyword(cs, t, "export").None?
  {
    var t := kind + (gap + s);
    KeywordAndGap(cs, kind, gap, s);
    assert t[0] == kind[0];
    OtherLetter(cs, t, "export");
    if kind == "global" {
      OtherLetter(cs, t, "component");
    }
  }

  lemma NameIsSeen(cs: Chars, name: string, rest: string)
    requires name != "" && AllIn(cs.word, name) && EndsWord(cs, rest)
    ensures Span(cs.word, name + rest) == |name| && (name + rest)[..|name|] == name
  {
    SpanOf(cs.word, name, rest);
  }

  lemma SliceOfDrop(s: string, k: nat, n: nat)
    requires k + n <= |s|
    ensures s[k..k + n] == s[k..][..n]
  {
  }

  lemma DropTwice(s: string, a: nat, b: nat)
    requires a + b <= |s|
    ensures s[a..][b..] == s[a + b..]
  {
  }

  /** A kind and a name. */
  lemma KindDeclares(cs: Chars, kind: string, gap: string, name: string, rest: string)
    requires Lawful(cs) && kind in ["component", "global"] && gap != "" && AllIn(cs.space, gap)
    requires name != "" && AllIn(cs.word, name) && EndsWord(cs, rest)
    ensures DeclarationAt(cs, kind + (gap + (name + rest))) == Some((name, |kind| + |gap| + |name|))
  {
    KindIsSeen(cs, kind, gap, name + rest);
    NameIsSeen(cs, name, rest);
    SliceOfDrop(kind + (gap + (name + rest)), |kind| + |gap|, |name|);
  }

  lemma ExportIsSeen(cs: Chars, exported: string, kind: string, gap: string, s: string)
    requires Lawful(cs) && exported != "" && AllIn(cs.space, exported)
    requires kind in ["component", "global"] && gap != "" && AllIn(cs.space, gap) && s != "" && cs.word(s[0])
    ensures var inner := kind + (gap + s);
            var t := "export" + (exported + inner);
            && AfterKeyword(cs, t, "export") == Some(6 + |exported|) && t[6 + |exported|..] == inner
            && AfterKind(cs, inner) == Some(|kind| + |gap|) && inner[|kind| + |gap|..] == s
  {
    var inner := kind + (gap + s);
    assert inner[0] == kind[0];
    KeywordAndGap(cs, "export", exported, inner);
    KindIsSeen(cs, kind, gap, s);
  }

  lemma DeclaresFrom(cs: Chars, s: string, e: nat, inner: string, k: nat, tail: string, name: string)
    requires AfterKeyword(cs, s, "export") == Some(e) && s[e..] == inner
    requires AfterKind(cs, inner) == Some(k) && inner[k..] == tail
    requires name != "" && Span(cs.word, tail) == |name| && tail[..|name|] == name
    ensures DeclarationAt(cs, s) == Some((name, e + k + |name|))
  {
    DropTwice(s, e, k);
    SliceOfDrop(s, e + k, |name|);
  }

  lemma DeclarationFront(cs: Chars, a: string, name: string, rest: string)
    requires Lawful(cs) && InWord(cs.word, a) && EndsWord(cs, rest)
    requires DeclarationAt(cs, a + rest) == Some((name, |a|))
    ensures TokensAfter(cs, false, a + rest) == [Declare(name)] + TokensAfter(cs, false, rest)
  {
    TokensOfFront(cs, false, a, rest);
    WordIsOver(cs, rest);
  }

  lemma EndsInWord(cs: Chars, lead: string, name: string)
    requires name != "" && AllIn(cs.word, name)
    ensures InWord(cs.word, lead + name)
  {
    assert (lead + name)[|lead + name| - 1] == name[|name| - 1];
  }

  lemma KindIsPassed(cs: Chars, kind: string, gap: string, name: string, rest: string)
    requires Lawful(cs) && kind in ["component", "global"] && gap != "" && AllIn(cs.space, gap)
    requires name != "" && AllIn(cs.word, name) && EndsWord(cs, rest)
    ensures TokensAfter(cs, false, (kind + (gap + name)) + rest) == [Declare(name)] + TokensAfter(cs, false, rest)
  {
    KindParts(cs, kind, gap, name, rest);
    DeclarationFront(cs, kind + (gap + name), name, rest);
  }

  lemma KindParts(cs: Chars, kind: string, gap: string, name: string, rest: string)
    requires Lawful(cs) && kind in ["component", "global"] && gap != "" && AllIn(cs.space, gap)
    requires name != "" && AllIn(cs.word, name) && EndsWord(cs, rest)
    ensures var decl := kind + (gap + name);
            InWord(cs.word, decl) && DeclarationAt(cs, decl + rest) == Some((name, |decl|))
  {
    KindDeclares(cs, kind, gap, name, rest);
    ToTheRight(kind, gap, name, rest);
    TwoAndTwo(kind, gap, name, "");
    EndsInWord(cs, kind + gap, name);
  }

  lemma ExportIsPassed(cs: Chars, exported: string, kind: string, gap: string, name: string, rest: string)
    requires Lawful(cs) && exported != "" && AllIn(cs.space, exported)
    requires kind in ["component", "global"] && gap != "" && AllIn(cs.space, gap)
    requires name != "" && AllIn(cs.word, name) && EndsWord(cs, rest)
    ensures TokensAfter(cs, false, (("export" + exported) + (kind + (gap + name))) + rest) ==
            [Declare(name)] + TokensAfter(cs, false, rest)
  {
    var decl, lead := kind + (gap + name), "export" + exported;
    ExportParts(cs, exported, kind, gap, name, rest);
    LeadDeclares(cs, lead, decl, 6 + |exported|, |kind| + |gap|, name, rest);
  }

  lemma LeadDeclares(cs: Chars, lead: string, decl: string, e: nat, k: nat, name: string, rest: string)
    requires Lawful(cs) && InWord(cs.word, lead + decl) && EndsWord(cs, rest) && name != ""
    requires var s := (lead + decl) + rest;
             && AfterKeyword(cs, s, "export") == Some(e) && s[e..] == decl + rest
             && AfterKind(cs, decl + rest) == Some(k) && (decl + rest)[k..] == name + rest
             && Span(cs.word, name + rest) == |name| && (name + rest)[..|name|] == name
    requires |lead + decl| == e + k + |name|
    ensures TokensAfter(cs, false, (lead + decl) + rest) == [Declare(name)] + TokensAfter(cs, false, rest)
  {
    DeclaresFrom(cs, (lead + decl) + rest, e, decl + rest, k, name + rest, name);
    DeclarationFront(cs, lead + decl, name, rest);
  }

  lemma ExportParts(cs: Chars, exported: string, kind: string, gap: string, name: string, rest: string)
    requires Lawful(cs) && exported != "" && AllIn(cs.space, exported)
    requires kind in ["component", "global"] && gap != "" && AllIn(cs.space, gap)
    requires name != "" && AllIn(cs.word, name) && EndsWord(cs, rest)
    ensures var decl, lead := kind + (gap + name), "export" + exported;
            var s := (lead + decl) + rest;
            && AfterKeyword(cs, s, "export") == Some(6 + |exported|) && s[6 + |exported|..] == decl + rest
            && AfterKind(cs, decl + rest) == Some(|kind| + |gap|) && (decl + rest)[|kind| + |gap|..] == name + rest
            && Span(cs.word, name + rest) == |name| && (name + rest)[..|name|] == name
            && InWord(cs.word, lead + decl) && |lead + decl| == 6 + |exported| + |kind| + |gap| + |name|
  {
    var decl := kind + (gap + name);
    ToTheRight(kind, gap, name, rest);
    TwoAndTwo("export", exported, decl, rest);
    TwoAndTwo(kind, gap, name, "");
    EndsInWord(cs, kind + gap, name);
    EndsAlike(cs, "export" + exported, decl);
    ExportIsSeen(cs, exported, kind, gap, name + rest);
    NameIsSeen(cs, name, rest);
  }

  lemma EndsAlike(cs: Chars, lead: string, s: string)
    requires InWord(cs.word, s)
    ensures InWord(cs.word, lead + s) && |lead + s| == |lead| + |s|
  {
    assert (lead + s)[|lead + s| - 1] == s[|s| - 1];
  }

  // ---------------------------------------------------------------------------
  // Reading translations
  // ---------------------------------------------------------------------------

  lemma {:induction false} QuotedBody(s: string, rest: string)
    requires Closed(s)
    ensures Quoted(s + "\"" + rest) == Some(|s|)
  {
    var t := s + "\"" + rest;
    if s == "" {
    } else if s[0] == '\\' {
      assert t[2..] == s[2..] + "\"" + rest;
      QuotedBody(s[2..], rest);
    } else {
      assert t[1..] == s[1..] + "\"" + rest;
      QuotedBody(s[1..], rest);
    }
  }

  lemma QuoteBehind(cs: Chars, gap: string, body: string)
    requires Lawful(cs) && AllIn(cs.space, gap)
    ensures var s := "@tr(" + (gap + ("\"" + body));
            OpenQuote(cs, s) == Some(|gap| + 5) && s[|gap| + 5..] == body
  {
    var tail := "\"" + body;
    var s := "@tr(" + (gap + tail);
    assert s[..4] == "@tr(" && s[4..] == gap + tail;
    assert tail[0] == '"' && tail[1..] == body;
    SpanOf(cs.space, gap, tail);
    assert s[4 + |gap|..] == tail;
    DropTwice(s, 4 + |gap|, 1);
    assert s[4 + |gap|] == tail[0];
  }

  lemma TranslatesFrom(cs: Chars, s: string, k: nat, body: string, text: string)
    requires OpenQuote(cs, s) == Some(k) && s[k..] == body && Quoted(body) == Some(|text|) && text <= body
    ensures TranslationAt(cs, s) == Some((text, k + |text| + 1))
  {
    SliceOfDrop(s, k, |text|);
    assert body[..|text|] == text;
  }

  lemma TranslationIsPassed(cs: Chars, gap: string, text: string, rest: string)
    requires Lawful(cs) && AllIn(cs.space, gap) && Closed(text)
    ensures TokensAfter(cs, false, Spell(Trans(gap, text)) + rest) == [Tr(text)] + TokensAfter(cs, false, rest)
  {
    TranslationParts(cs, gap, text, rest);
    TranslationFront(cs, Spell(Trans(gap, text)), |gap| + 5, text, rest);
  }

  lemma TranslationParts(cs: Chars, gap: string, text: string, rest: string)
    requires Lawful(cs) && AllIn(cs.space, gap) && Closed(text)
    ensures var a, k, body := Spell(Trans(gap, text)), |gap| + 5, text + "\"" + rest;
            && OpenQuote(cs, a + rest) == Some(k) && (a + rest)[k..] == body && Quoted(body) == Some(|text|)
            && text <= body && EndsWord(cs, a + rest) && !InWord(cs.word, a) && |a| == k + |text| + 1
  {
    TranslationText(gap, text, rest);
    QuotedBody(text, rest);
    QuoteBehind(cs, gap, text + "\"" + rest);
  }

  lemma TranslationText(gap: string, text: string, rest: string)
    ensures var a, body := Spell(Trans(gap, text)), text + "\"" + rest;
            && a + rest == "@tr(" + (gap + ("\"" + body)) && text <= body
            && (a + rest)[0] == '@' && a[|a| - 1] == '"' && |a| == |gap| + |text| + 6
  {
    Joined(text, "\"", rest);
    Joined("\"", text + "\"", rest);
    Joined(gap, "\"" + (text + "\""), rest);
    Joined("@tr(", gap + ("\"" + (text + "\"")), rest);
  }

  lemma TranslationFront(cs: Chars, a: string, k: nat, text: string, rest: string)
    requires Lawful(cs) && EndsWord(cs, a + rest) && !InWord(cs.word, a) && |a| == k + |text| + 1
    requires var body := text + "\"" + rest;
             && OpenQuote(cs, a + rest) == Some(k) && (a + rest)[k..] == body && Quoted(body) == Some(|text|)
             && text <= body
    ensures TokensAfter(cs, false, a + rest) == [Tr(text)] + TokensAfter(cs, false, rest)
  {
    TranslatesFrom(cs, a + rest, k, text + "\"" + rest, text);
    NoDeclaration(cs, a + rest);
    TokensOfFront(cs, false, a, rest);
  }

  // ---------------------------------------------------------------------------
  // Reading what was written
  // ---------------------------------------------------------------------------

  /** Each piece is read as its own tokens. */
  lemma PieceIsPassed(cs: Chars, p: Piece, text: string, code: string)
    requires Lawful(cs) && WellWritten(cs, p, text, code)
    ensures TokensAfter(cs, false, Code(p) + code) == PieceTokens(p) + TokensAfter(cs, false, code)
  {
    match p
    case Decl(exported, kind, gap, name) =>
      if exported.Some? {
        ExportIsPassed(cs, StripComments(exported.value), kind, StripComments(gap), name, code);
      } else {
        KindIsPassed(cs, kind, StripComments(gap), name, code);
        assert "" + (kind + (StripComments(gap) + name)) == kind + (StripComments(gap) + name);
      }
    case Trans(gap, body) => TranslationIsPassed(cs, StripComments(gap), body, code);
    case Word(word) => WordIsPassed(cs, word, code);
    case Brace(opens) =>
      NoDeclaration(cs, Code(p) + code);
      TokensOfFront(cs, false, Code(p), code);
    case Mark(mark) =>
      NoDeclaration(cs, [mark] + code);
      PlainFront(cs, false, mark, code);
      TokensOfFront(cs, false, [mark], code);
    case Remark(_) =>
      assert "" + code == code;
  }

  lemma {:induction false} CodeIsLexed(cs: Chars, ps: seq<Piece>)
    requires Lawful(cs) && AllWritten(cs, ps)
    ensures TokensAfter(cs, false, CodeAll(ps)) == TokensOfAll(ps)
  {
    if ps != [] {
      PieceIsPassed(cs, ps[0], SpellAll(ps[1..]), CodeAll(ps[1..]));
      CodeIsLexed(cs, ps[1..]);
    }
  }

  // ---------------------------------------------------------------------------
  // Exactly when it is read as written
  // ---------------------------------------------------------------------------

  /** A recognised translation is part of the text, so it holds no comment where the text holds none. */
  ghost predicate Excerpts(front: Front) {
    forall w, s :: s != "" && NoComment(s) && front(w, s).token.Tr? ==> NoComment(front(w, s).token.text)
  }

  lemma NoCommentBehind(s: string, k: nat)
    requires k <= |s| && NoComment(s)
    ensures NoComment(s[k..])
  {
    assert forall i :: 0 <= i < |s[k..]| ==> s[k..][i] == s[k + i];
  }

  lemma FrontExcerpts(cs: Chars)
    ensures Excerpts(FrontOf(cs))
  {
    forall w, s: string | s != "" && NoComment(s) && FrontOf(cs)(w, s).token.Tr?
      ensures NoComment(FrontOf(cs)(w, s).token.text)
    {
      var k := OpenQuote(cs, s).value;
      NoCommentBehind(s, k);
      assert s[k..k + Quoted(s[k..]).value] <= s[k..];
    }
  }

  lemma {:induction false} TokenExcerpts(front: Front, word: char -> bool, inWord: bool, s: string, text: string)
    requires Steady(front) && Excerpts(front) && NoComment(s) && Tr(text) in TokensBy(front, word, inWord, s)
    ensures NoComment(text)
    decreases |s|
  {
    var l := front(inWord, s);
    if l.token != Tr(text) {
      NoCommentBehind(s, l.end);
      TokenExcerpts(front, word, InWord(word, s[..l.end]), s[l.end..], text);
    }
  }

  lemma {:induction false} WrittenTranslation(ps: seq<Piece>, p: Piece)
    requires p in ps && p.Trans?
    ensures Tr(p.text) in TokensOfAll(ps)
  {
    if p != ps[0] {
      WrittenTranslation(ps[1..], p);
    }
  }

  /** What is read in a text. */
  ghost function ReadTokens(cs: Chars, text: string): (ts: seq<Token>) {
    TokensAfter(cs, false, StripComments(text))
  }

  /** Written text is read as its pieces' tokens exactly when no translated text holds two slashes. */
  lemma TokensExactlyWhen(cs: Chars, ps: seq<Piece>)
    requires Lawful(cs) && AllWritten(cs, ps)
    ensures ReadTokens(cs, SpellAll(ps)) == TokensOfAll(ps) <==> AllPlain(ps)
  {
    if AllPlain(ps) {
      WrittenIsStripped(cs, ps);
      CodeIsLexed(cs, ps);
    }
    if ReadTokens(cs, SpellAll(ps)) == TokensOfAll(ps) {
      forall p | p in ps && p.Trans? ensures NoComment(p.text) {
        WrittenTranslation(ps, p);
        ReadIsPlain(cs, SpellAll(ps), p.text);
      }
    }
  }

  lemma ReadIsPlain(cs: Chars, text: string, read: string)
    requires Tr(read) in ReadTokens(cs, text)
    ensures NoComment(read)
  {
    StrippedHasNone(text);
    FrontExcerpts(cs);
    TokenExcerpts(FrontOf(cs), cs.word, false, StripComments(text), read);
  }

  /** Every translation stands in some component. */
  predicate Housed(f: Forest, inside: bool) {
    match f
    case Empty => true
    case Translation(_, rest) => inside && Housed(rest, inside)
    case Skipped(rest) => Housed(rest, inside)
    case Block(body, rest) => Housed(body, inside) && Housed(rest, inside)
    case Component(_, _, body, rest) => Housed(body, true) && Housed(rest, inside)
  }

  predicate Tells(fs: seq<Found>, text: string) {
    exists i :: 0 <= i < |fs| && fs[i].text == text
  }

  lemma TellsEither(fs: seq<Found>, gs: seq<Found>, text: string)
    ensures Tells(fs + gs, text) <==> Tells(fs, text) || Tells(gs, text)
  {
    if i :| 0 <= i < |fs| && fs[i].text == text {
      assert (fs + gs)[i].text == text;
    }
    if i :| 0 <= i < |gs| && gs[i].text == text {
      assert (fs + gs)[|fs| + i].text == text;
    }
    if i :| 0 <= i < |fs + gs| && (fs + gs)[i].text == text {
      assert i >= |fs| ==> gs[i - |fs|].text == text;
    }
  }

  lemma {:induction false} HeaderTells(hs: seq<Plain>, enclosing: seq<string>, text: string)
    requires enclosing != [] && Tr(text) in FlattenHeader(hs)
    ensures Tells(WalkHeader(hs, enclosing), text)
  {
    var here := if hs[0].PlainTr? then At(enclosing, hs[0].text) else [];
    TellsEither(here, WalkHeader(hs[1..], enclosing), text);
    if hs[0].PlainTr? && hs[0].text == text {
      assert here[0].text == text;
    } else {
      HeaderTells(hs[1..], enclosing, text);
    }
  }

  /** The walk tells every housed translation. */
  lemma {:induction false} WalkTells(f: Forest, enclosing: seq<string>, text: string)
    requires Housed(f, enclosing != []) && Tr(text) in Flatten(f)
    ensures Tells(Walk(f, enclosing), text)
  {
    match f
    case Empty =>
    case Translation(t, rest) =>
      TellsEither(At(enclosing, t), Walk(rest, enclosing), text);
      if t == text {
        assert At(enclosing, t)[0].text == text;
      } else {
        WalkTells(rest, enclosing, text);
      }
    case Skipped(rest) => WalkTells(rest, enclosing, text);
    case Block(body, rest) =>
      TellsEither(Walk(body, enclosing), Walk(rest, enclosing), text);
      if Tr(text) in Flatten(body) {
        WalkTells(body, enclosing, text);
      } else {
        WalkTells(rest, enclosing, text);
      }
    case Component(name, header, body, rest) =>
      var inner := enclosing + [name];
      TellsEither(WalkHeader(header, inner), Walk(body, inner), text);
      TellsEither(WalkHeader(header, inner) + Walk(body, inner), Walk(rest, enclosing), text);
      if Tr(text) in FlattenHeader(header) {
        HeaderTells(header, inner, text);
      } else if Tr(text) in Flatten(body) {
        WalkTells(body, inner, text);
      } else {
        WalkTells(rest, enclosing, text);
      }
  }

  /** What the machine tells it has read. */
  lemma {:induction false} ToldIsRead(m: Machine, ts: seq<Token>, text: string)
    requires Tells(FeedAll(m, ts).found, text)
    ensures Tells(m.found, text) || Tr(text) in ts
    decreases |ts|
  {
    if ts != [] {
      ToldIsRead(Feed(m, ts[0]), ts[1..], text);
      if ts[0].Tr? && m.stack != [] {
        TellsEither(m.found, [Found(Names(m.stack), ts[0].text)], text);
      }
    }
  }

  /** What is found in a text. */
  ghost function ReadFound(cs: Chars, text: string): (fs: seq<Found>) {
    FeedAll(Machine([], 0, []), ReadTokens(cs, text)).found
  }

  /** In written text whose pieces nest, with every translation in some component, each translation is found with
      exactly its enclosing components if and only if no translated text holds two slashes. */
  lemma FoundExactlyWhen(cs: Chars, ps: seq<Piece>, f: Forest)
    requires Lawful(cs) && AllWritten(cs, ps) && TokensOfAll(ps) == Flatten(f) && Housed(f, false)
    ensures ReadFound(cs, SpellAll(ps)) == Walk(f, []) <==> AllPlain(ps)
  {
    if AllPlain(ps) {
      TokensExactlyWhen(cs, ps);
      MachineRefinesWalk(Machine([], 0, []), f);
      assert [] + Walk(f, []) == Walk(f, []);
    }
    if ReadFound(cs, SpellAll(ps)) == Walk(f, []) {
      forall p | p in ps && p.Trans? ensures NoComment(p.text) {
        WrittenTranslation(ps, p);
        WalkTells(f, [], p.text);
        ToldIsRead(Machine([], 0, []), ReadTokens(cs, SpellAll(ps)), p.text);
        ReadIsPlain(cs, SpellAll(ps), p.text);
      }
    }
  }

  /** The pairs of such a text are each translation with its innermost enclosing component. */
  lemma PairsOfWrittenText(cs: Chars, ps: seq<Piece>, f: Forest)
    requires Lawful(cs) && AllWritten(cs, ps) && TokensOfAll(ps) == Flatten(f) && AllPlain(ps)
    ensures PairsOf(cs, SpellAll(ps)) == Pairs(Walk(f, []))
  {
    TokensExactlyWhen(cs, ps);
    PairsOfWellNestedText(f);
  }

  // ---------------------------------------------------------------------------
  // Slashes in a translation
  // ---------------------------------------------------------------------------

  /** A translation takes two quotes. */
  lemma TranslationTakesQuotes(cs: Chars, s: string)
    requires TranslationAt(cs, s).Some?
    ensures exists i, j :: 0 <= i < j < |s| && s[i] == '"' && s[j] == '"'
  {
    var k := OpenQuote(cs, s).value;
    var n := Quoted(s[k..]).value;
    assert s[k - 1] == '"' && s[k + n] == '"';
  }

  predicate OneQuote(s: string) {
    forall i, j :: 0 <= i < j < |s| ==> !(s[i] == '"' && s[j] == '"')
  }

  /** The tokens of a text without a second quote hold no translation. */
  lemma {:induction false} NothingTranslated(front: Front, word: char -> bool, inWord: bool, s: string, m: Machine)
    requires Steady(front) && forall w, t :: OneQuote(t) ==> !front(w, t).token.Tr?
    requires OneQuote(s)
    ensures FeedAll(m, TokensBy(front, word, inWord, s)).found == m.found
    decreases |s|
  {
    if s != "" {
      var l := front(inWord, s);
      var rest := s[l.end..];
      assert forall i :: 0 <= i < |rest| ==> rest[i] == s[i + l.end];
      FeedFirst(m, l.token, TokensBy(front, word, InWord(word, s[..l.end]), rest));
      NothingTranslated(front, word, InWord(word, s[..l.end]), rest, Feed(m, l.token));
    }
  }

  lemma OneQuoteOneSide(cs: Chars)
    ensures forall w, t :: OneQuote(t) ==> !FrontOf(cs)(w, t).token.Tr?
  {
    forall w, t: string | OneQuote(t) ensures !FrontOf(cs)(w, t).token.Tr? {
      if TranslationAt(cs, t).Some? {
        TranslationTakesQuotes(cs, t);
      }
    }
  }

  lemma CutAtSlashes(front: string, after: string)
    requires NoComment(front) && (front == "" || front[|front| - 1] != '/') && Lacks(after, '\n')
    ensures StripComments(front + ("//" + after)) == front
  {
    StripFront(front, "//" + after);
    SpanOf(NotNewline(), after, "");
    assert after + "" == after && ("//" + after)[2..] == after && after[|after|..] == "";
    assert front + "" == front;
  }

  lemma OneQuoteBetween(before: string, text: string)
    requires Lacks(before, '"') && Lacks(text, '"') && NoComment(before) && NoComment(text)
    ensures OneQuote(before + "\"" + text) && NoComment(before + "\"" + text)
  {
    var s := before + "\"" + text;
    forall i | 0 <= i < |s| ensures s[i] == '"' <==> i == |before| {
      assert i > |before| ==> s[i] == text[i - |before| - 1];
    }
    forall i | 0 <= i < |s| - 1 ensures !(s[i] == '/' && s[i + 1] == '/') {
      assert i > |before| ==> s[i] == text[i - |before| - 1] && s[i + 1] == text[i - |before|];
    }
  }

  /** Two slashes inside the only translation of a text: the cut takes its closing quote, and nothing is found. */
  lemma SlashesHideTranslation(cs: Chars, before: string, text: string, after: string)
    requires Lacks(before, '"') && Lacks(text, '"') && NoComment(before) && NoComment(text)
    requires (text == "" || text[|text| - 1] != '/') && Lacks(after, '\n')
    ensures PairsOf(cs, before + "\"" + text + ("//" + after)) == {}
  {
    var code := before + "\"" + text;
    OneQuoteBetween(before, text);
    assert code[|code| - 1] == if text == "" then '"' else text[|text| - 1];
    CutAtSlashes(code, after);
    OneQuoteOneSide(cs);
    NothingTranslated(FrontOf(cs), cs.word, false, code, Machine([], 0, []));
  }

  /** An address in a translated text. */
  lemma AddressExample(cs: Chars)
    ensures PairsOf(cs, "component A {@tr(\"http://x\")}") == {}
  {
    var before, text, after := "component A {@tr(", "http:", "x\")}";
    assert "component A {@tr(\"http://x\")}" == before + "\"" + text + ("//" + after);
    SlashesHideTranslation(cs, before, text, after);
  }
}
