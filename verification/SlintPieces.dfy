/** `.slint` text as it is written, piece by piece, and what is left of it once comments are cut. */
module SlintPieces {
  import opened Text
  import opened SlintContexts
  import opened SlintLexing

  // ---------------------------------------------------------------------------
  // Written text
  // ---------------------------------------------------------------------------

  /** Pieces of source text. A gap is white space that may hold comments; `exported` is the gap behind `export`. */
  datatype Piece =
    | Decl(exported: Option<string>, kind: string, gap: string, name: string)
    | Trans(gap: string, text: string)
    | Brace(opens: bool)
    | Word(word: string)
    | Mark(mark: char)
    | Remark(line: string)

  function Spell(p: Piece): (s: string) {
    match p
    case Decl(exported, kind, gap, name) =>
      (if exported.Some? then "export" + exported.value else "") + (kind + (gap + name))
    case Trans(gap, text) => "@tr(" + (gap + ("\"" + (text + "\"")))
    case Brace(opens) => if opens then "{" else "}"
    case Word(word) => word
    case Mark(mark) => [mark]
    case Remark(line) => "//" + line
  }

  /** The piece without its comments. */
  function Bare(p: Piece): (b: Piece) {
    match p
    case Decl(exported, kind, gap, name) =>
      Decl(if exported.Some? then Some(StripComments(exported.value)) else None, kind, StripComments(gap), name)
    case Trans(gap, text) => Trans(StripComments(gap), text)
    case _ => p
  }

  function Code(p: Piece): (s: string) {
    if p.Remark? then "" else Spell(Bare(p))
  }

  function Others(n: nat): (ts: seq<Token>) {
    if n == 0 then [] else [Other] + Others(n - 1)
  }

  function PieceTokens(p: Piece): (ts: seq<Token>) {
    match p
    case Decl(_, _, _, name) => [Declare(name)]
    case Trans(_, text) => [Tr(text)]
    case Brace(opens) => [if opens then Open else Close]
    case Word(word) => Others(|word|)
    case Mark(_) => [Other]
    case Remark(_) => []
  }

  function SpellAll(ps: seq<Piece>): (s: string) {
    if ps == [] then "" else Spell(ps[0]) + SpellAll(ps[1..])
  }

  function CodeAll(ps: seq<Piece>): (s: string) {
    if ps == [] then "" else Code(ps[0]) + CodeAll(ps[1..])
  }

  function TokensOfAll(ps: seq<Piece>): (ts: seq<Token>) {
    if ps == [] then [] else PieceTokens(ps[0]) + TokensOfAll(ps[1..])
  }

  predicate AllIn(p: char -> bool, s: string) {
    forall i :: 0 <= i < |s| ==> p(s[i])
  }

  /** A string's body: every quote and every backslash in it is escaped. */
  predicate Closed(s: string) {
    if s == "" then true
    else if s[0] == '\\' then |s| > 1 && s[1] != '\n' && Closed(s[2..])
    else s[0] != '"' && Closed(s[1..])
  }

  function LastLine(s: string): (t: string) {
    if s == "" || s[|s| - 1] == '\n' then "" else LastLine(s[..|s| - 1]) + [s[|s| - 1]]
  }

  /** White space, with comments that end in it. */
  predicate Blank(cs: Chars, gap: string) {
    AllIn(cs.space, StripComments(gap)) && NoComment(LastLine(gap))
  }

  predicate EndsWord(cs: Chars, rest: string) {
    rest == "" || !cs.word(rest[0])
  }

  /** A piece in front of a text, which is `code` once its comments are cut: a word ends where no further word
      character follows and starts no declaration, an at sign no translation, a slash no comment, and a remark
      goes on to the end of its line. */
  predicate WellWritten(cs: Chars, p: Piece, text: string, code: string) {
    match p
    case Decl(exported, kind, gap, name) =>
      && (exported.Some? ==> Blank(cs, exported.value) && StripComments(exported.value) != "")
      && kind in ["component", "global"] && Blank(cs, gap) && StripComments(gap) != ""
      && name != "" && AllIn(cs.word, name) && EndsWord(cs, code)
    case Trans(gap, body) => Blank(cs, gap) && Closed(body)
    case Brace(_) => true
    case Word(word) =>
      word != "" && AllIn(cs.word, word) && EndsWord(cs, code) && DeclarationAt(cs, word + code).None?
    case Mark(mark) =>
      && !cs.word(mark) && mark !in "{}"
      && (mark == '@' ==> TranslationAt(cs, [mark] + code).None?)
      && (mark == '/' ==> !("/" <= text))
    case Remark(line) => Lacks(line, '\n') && (text == "" || text[0] == '\n')
  }

  predicate AllWritten(cs: Chars, ps: seq<Piece>) {
    ps == [] || (WellWritten(cs, ps[0], SpellAll(ps[1..]), CodeAll(ps[1..])) && AllWritten(cs, ps[1..]))
  }

  /** No translated text holds two slashes. */
  predicate AllPlain(ps: seq<Piece>) {
    forall p :: p in ps && p.Trans? ==> NoComment(p.text)
  }

  // ---------------------------------------------------------------------------
  // Cutting comments
  // ---------------------------------------------------------------------------

  lemma {:induction false} SpanOf(p: char -> bool, a: string, b: string)
    requires AllIn(p, a) && (b == "" || !p(b[0]))
    ensures Span(p, a + b) == |a|
  {
    if a == "" {
      assert a + b == b;
    } else {
      assert (a + b)[1..] == a[1..] + b;
      SpanOf(p, a[1..], b);
    }
  }

  lemma {:induction false} SpanInside(p: char -> bool, a: string, b: string)
    requires a != "" && !p(a[|a| - 1])
    ensures Span(p, a + b) == Span(p, a) < |a|
  {
    if p(a[0]) {
      assert (a + b)[1..] == a[1..] + b;
      SpanInside(p, a[1..], b);
    }
  }

  lemma Joined(a: string, b: string, c: string)
    ensures (a + b) + c == a + (b + c)
  {
  }

  lemma TwoAndTwo(a: string, b: string, c: string, d: string)
    ensures ((a + b) + c) + d == a + (b + (c + d)) && (a + b) + c == a + (b + c)
  {
  }

  lemma ToTheRight(a: string, b: string, c: string, d: string)
    ensures (a + (b + c)) + d == a + (b + (c + d))
  {
  }

  lemma CommentIsCut(a: string, b: string)
    requires "//" <= a && a[|a| - 1] == '\n'
    ensures var rest := a[2..][Span(NotNewline(), a[2..])..];
            && rest != "" && rest[|rest| - 1] == '\n' && |rest| < |a|
            && StripComments(a) == StripComments(rest) && StripComments(a + b) == StripComments(rest + b)
  {
    var tail := a[2..];
    assert (a + b)[2..] == tail + b && "//" <= a + b;
    SpanInside(NotNewline(), tail, b);
    var n := Span(NotNewline(), tail);
    assert (tail + b)[n..] == tail[n..] + b;
  }

  lemma FrontIsKept(a: string, b: string)
    requires a != "" && !("//" <= a) && a != "/"
    ensures StripComments(a) == [a[0]] + StripComments(a[1..])
    ensures StripComments(a + b) == [a[0]] + StripComments(a[1..] + b)
  {
    assert (a + b)[1..] == a[1..] + b && (a + b)[0] == a[0];
    assert a == [a[0]] + a[1..];
    assert |a| > 1 ==> (a + b)[1] == a[1];
    assert !("//" <= a + b);
  }

  /** A text is cut by itself in front of another. */
  predicate CutsApart(a: string, b: string) {
    StripComments(a + b) == StripComments(a) + StripComments(b)
  }

  lemma CommentCutsApart(a: string, b: string)
    requires "//" <= a && a[|a| - 1] == '\n' && CutsApart(a[2..][Span(NotNewline(), a[2..])..], b)
    ensures CutsApart(a, b)
  {
    CommentIsCut(a, b);
  }

  lemma FrontCutsApart(a: string, b: string)
    requires a != "" && !("//" <= a) && a != "/" && CutsApart(a[1..], b)
    ensures CutsApart(a, b)
  {
    FrontIsKept(a, b);
    Joined([a[0]], StripComments(a[1..]), StripComments(b));
  }

  /** So is what ends in a newline. */
  lemma {:induction false} StripLine(a: string, b: string)
    requires a != "" && a[|a| - 1] == '\n'
    ensures CutsApart(a, b)
    decreases |a|
  {
    if |a| == 1 {
      LoneNewline(a, b);
    } else if "//" <= a {
      CommentIsCut(a, b);
      StripLine(a[2..][Span(NotNewline(), a[2..])..], b);
      CommentCutsApart(a, b);
    } else {
      StripLine(a[1..], b);
      FrontCutsApart(a, b);
    }
  }

  lemma LoneNewline(a: string, b: string)
    requires |a| == 1 && a[0] == '\n'
    ensures StripComments(a + b) == StripComments(a) + StripComments(b)
  {
    FrontIsKept(a, b);
    assert a[1..] == "" && "" + b == b;
  }

  lemma {:induction false} LastLineEnds(s: string) returns (lines: string)
    ensures s == lines + LastLine(s) && (lines == "" || lines[|lines| - 1] == '\n')
  {
    if s == "" || s[|s| - 1] == '\n' {
      lines := s;
    } else {
      var init := s[..|s| - 1];
      lines := LastLineEnds(init);
      Joined(lines, LastLine(init), [s[|s| - 1]]);
    }
  }

  lemma LinesCutApart(lines: string, rest: string)
    requires lines == "" || lines[|lines| - 1] == '\n'
    ensures CutsApart(lines, rest)
  {
    if lines == "" {
      assert "" + rest == rest && "" + StripComments(rest) == StripComments(rest);
    } else {
      StripLine(lines, rest);
    }
  }

  lemma GapIsCut(cs: Chars, gap: string, rest: string)
    requires Lawful(cs) && Blank(cs, gap)
    ensures StripComments(gap + rest) == StripComments(gap) + StripComments(rest)
  {
    var lines := LastLineEnds(gap);
    var last := LastLine(gap);
    LinesCutApart(lines, last);
    StrippedHasNone(last);
    LastIsKept(cs, StripComments(lines), last, rest);
    LinesCutApart(lines, last + rest);
    Joined(lines, last, rest);
    Joined(StripComments(lines), last, StripComments(rest));
  }

  lemma LastIsKept(cs: Chars, cut: string, last: string, rest: string)
    requires Lawful(cs) && AllIn(cs.space, cut + last) && NoComment(last)
    ensures StripComments(last + rest) == last + StripComments(rest)
  {
    assert last != "" ==> (cut + last)[|cut + last| - 1] == last[|last| - 1];
    StripFront(last, rest);
  }

  lemma WordIsKept(cs: Chars, word: string, rest: string)
    requires Lawful(cs) && AllIn(cs.word, word)
    ensures StripComments(word + rest) == word + StripComments(rest)
  {
    StripFront(word, rest);
  }

  lemma DeclarationIsCut(cs: Chars, kind: string, gap: string, name: string, rest: string)
    requires Lawful(cs) && kind in ["component", "global"] && Blank(cs, gap) && AllIn(cs.word, name)
    ensures StripComments((kind + (gap + name)) + rest) ==
            (kind + (StripComments(gap) + name)) + StripComments(rest)
  {
    ToTheRight(kind, gap, name, rest);
    ToTheRight(kind, StripComments(gap), name, StripComments(rest));
    KeywordsAreWords(cs);
    WordIsKept(cs, kind, gap + (name + rest));
    GapIsCut(cs, gap, name + rest);
    WordIsKept(cs, name, rest);
    ToTheRight("", StripComments(gap), name, StripComments(rest));
  }

  lemma ExportIsCut(cs: Chars, gap: string, decl: string, code: string, rest: string)
    requires Lawful(cs) && Blank(cs, gap) && StripComments(decl + rest) == code + StripComments(rest)
    ensures StripComments((("export" + gap) + decl) + rest) ==
            (("export" + StripComments(gap)) + code) + StripComments(rest)
  {
    var cut, after := StripComments(gap), StripComments(rest);
    TwoAndTwo("export", gap, decl, rest);
    TwoAndTwo("export", cut, code, after);
    KeywordsAreWords(cs);
    WordIsKept(cs, "export", gap + (decl + rest));
    GapIsCut(cs, gap, decl + rest);
    Joined(cut, code, after);
  }

  lemma KeywordsAreWords(cs: Chars)
    requires Lawful(cs)
    ensures AllIn(cs.word, "component") && AllIn(cs.word, "global") && AllIn(cs.word, "export")
  {
  }

  lemma TranslationIsCut(cs: Chars, gap: string, text: string, rest: string)
    requires Lawful(cs) && Blank(cs, gap) && NoComment(text)
    ensures StripComments(Spell(Trans(gap, text)) + rest) == Code(Trans(gap, text)) + StripComments(rest)
  {
    var quoted := "\"" + (text + "\"");
    ToTheRight("@tr(", gap, quoted, rest);
    ToTheRight("@tr(", StripComments(gap), quoted, StripComments(rest));
    StripFront("@tr(", gap + (quoted + rest));
    GapIsCut(cs, gap, quoted + rest);
    QuotedIsKept(text, rest);
    ToTheRight("", StripComments(gap), quoted, StripComments(rest));
  }

  lemma QuotedIsKept(text: string, rest: string)
    requires NoComment(text)
    ensures StripComments(("\"" + (text + "\"")) + rest) == ("\"" + (text + "\"")) + StripComments(rest)
  {
    var a := "\"" + (text + "\"");
    forall i | 0 <= i < |a| - 1 ensures !(a[i] == '/' && a[i + 1] == '/') {
      assert 0 < i <= |text| ==> a[i] == text[i - 1];
      assert 0 <= i < |text| ==> a[i + 1] == text[i];
    }
    StripFront(a, rest);
  }

  lemma RemarkIsCut(line: string, rest: string)
    requires Lacks(line, '\n') && (rest == "" || rest[0] == '\n')
    ensures StripComments(("//" + line) + rest) == StripComments(rest)
  {
    var s := ("//" + line) + rest;
    assert s[2..] == line + rest && "//" <= s;
    SpanOf(NotNewline(), line, rest);
    assert (line + rest)[|line|..] == rest;
  }

  lemma MarkIsKept(mark: char, rest: string)
    requires mark == '/' ==> !("/" <= rest)
    ensures StripComments([mark] + rest) == [mark] + StripComments(rest)
  {
    var s := [mark] + rest;
    assert s[1..] == rest && s[0] == mark;
    assert "//" <= s ==> "/" <= rest;
  }

  lemma PieceIsCut(cs: Chars, p: Piece, rest: string, code: string)
    requires Lawful(cs) && WellWritten(cs, p, rest, code) && (p.Trans? ==> NoComment(p.text))
    ensures StripComments(Spell(p) + rest) == Code(p) + StripComments(rest)
  {
    match p
    case Decl(exported, kind, gap, name) =>
      DeclarationIsCut(cs, kind, gap, name, rest);
      if exported.Some? {
        ExportIsCut(cs, exported.value, kind + (gap + name), kind + (StripComments(gap) + name), rest);
      } else {
        assert "" + (kind + (gap + name)) == kind + (gap + name);
        assert "" + (kind + (StripComments(gap) + name)) == kind + (StripComments(gap) + name);
      }
    case Trans(gap, text) => TranslationIsCut(cs, gap, text, rest);
    case Brace(opens) => MarkIsKept(if opens then '{' else '}', rest);
    case Word(word) => WordIsKept(cs, word, rest);
    case Mark(mark) => MarkIsKept(mark, rest);
    case Remark(line) => RemarkIsCut(line, rest);
  }

  /** Cutting comments from written text leaves its code, as long as no translated text holds two slashes. */
  lemma {:induction false} WrittenIsStripped(cs: Chars, ps: seq<Piece>)
    requires Lawful(cs) && AllWritten(cs, ps) && AllPlain(ps)
    ensures StripComments(SpellAll(ps)) == CodeAll(ps)
  {
    if ps != [] {
      assert AllPlain(ps[1..]) by {
        assert forall p :: p in ps[1..] ==> p in ps;
      }
      WrittenIsStripped(cs, ps[1..]);
      PieceIsCut(cs, ps[0], SpellAll(ps[1..]), CodeAll(ps[1..]));
    }
  }
}
