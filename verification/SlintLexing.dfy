/** What `slint_contexts` of `po_fill_slint_contexts.py` sees in the text of a `.slint` file: comments are cut
    first, then two patterns and two braces are looked for at each position. */
module SlintLexing {
  import opened Text
  import opened SlintContexts

  /** The character classes of the regular expressions. */
  datatype Chars = Chars(word: char -> bool, space: char -> bool)

  ghost predicate Lawful(cs: Chars) {
    && (forall c :: cs.word(c) ==> !cs.space(c) && c !in "{}@/\"(\\")
    && (forall c :: 'a' <= c <= 'z' ==> cs.word(c))
    && cs.space(' ') && cs.space('\n') && !cs.space('"') && !cs.space('/')
  }

  // ---------------------------------------------------------------------------
  // Comments
  // ---------------------------------------------------------------------------

  /** How many characters of the class come first. */
  function Span(p: char -> bool, s: string): (n: nat)
    ensures n <= |s|
  {
    if s != "" && p(s[0]) then 1 + Span(p, s[1..]) else 0
  }

  function NotNewline(): (p: char -> bool) {
    c => c != '\n'
  }

  /** `re.sub(r"//[^\n]*", "", text)`. */
  function StripComments(t: string): (code: string) {
    if t == "" then ""
    else if "//" <= t then StripComments(t[2..][Span(NotNewline(), t[2..])..])
    else [t[0]] + StripComments(t[1..])
  }

  predicate NoComment(t: string) {
    forall i :: 0 <= i < |t| - 1 ==> !(t[i] == '/' && t[i + 1] == '/')
  }

  /** Without comments, and not ready to start one, a text is kept. */
  lemma {:induction false} StripFront(a: string, b: string)
    requires NoComment(a) && (a == "" || a[|a| - 1] != '/')
    ensures StripComments(a + b) == a + StripComments(b)
  {
    if a == "" {
      assert a + b == b;
    } else {
      assert (a + b)[1..] == a[1..] + b && (a + b)[0] == a[0];
      assert !("//" <= a + b) by {
        if |a| > 1 {
          assert (a + b)[1] == a[1];
        }
      }
      StripFront(a[1..], b);
    }
  }

  /** Cutting comments leaves none, and keeps a text exactly when it has none. */
  lemma {:induction false} StrippedHasNone(t: string)
    ensures NoComment(StripComments(t)) && |StripComments(t)| <= |t|
    ensures StripComments(t) == t <==> NoComment(t)
    ensures t != "" && StripComments(t) != "" && !("//" <= t) ==> StripComments(t)[0] == t[0]
    decreases |t|
  {
    if t == "" {
    } else if "//" <= t {
      StrippedHasNone(t[2..][Span(NotNewline(), t[2..])..]);
      assert t[0] == '/' && t[1] == '/';
    } else {
      StrippedHasNone(t[1..]);
      if NoComment(t) {
        assert NoComment(t[1..]);
      }
      if NoComment(t[1..]) {
        assert |t| > 1 ==> !(t[0] == '/' && t[1] == '/');
        assert forall i :: 0 < i < |t| - 1 ==> t[i] == t[1..][i - 1] && t[i + 1] == t[1..][i];
      }
      KeptFront(t);
    }
  }

  lemma KeptFront(t: string)
    requires t != "" && !("//" <= t) && NoComment(StripComments(t[1..]))
    requires |t| > 1 && StripComments(t[1..]) != "" && !("//" <= t[1..]) ==> StripComments(t[1..])[0] == t[1]
    ensures NoComment(StripComments(t))
  {
    var rest, code := StripComments(t[1..]), StripComments(t);
    assert code == [t[0]] + rest;
    forall i | 0 <= i < |code| - 1 ensures !(code[i] == '/' && code[i + 1] == '/') {
      if i > 0 {
        assert code[i] == rest[i - 1] && code[i + 1] == rest[i];
      } else if t[0] == '/' {
        assert t[1] != '/';
        assert t[1..][0] == t[1];
      }
    }
  }

  // ---------------------------------------------------------------------------
  // The two patterns
  // ---------------------------------------------------------------------------

  /** Behind the keyword and at least one space. */
  function AfterKeyword(cs: Chars, s: string, keyword: string): (r: Option<nat>)
    ensures r.Some? ==> |keyword| < r.value <= |s|
  {
    if keyword <= s && Span(cs.space, s[|keyword|..]) > 0 then Some(|keyword| + Span(cs.space, s[|keyword|..]))
    else None
  }

  function AfterKind(cs: Chars, s: string): (r: Option<nat>)
    ensures r.Some? ==> 0 < r.value <= |s|
  {
    if AfterKeyword(cs, s, "component").Some? then AfterKeyword(cs, s, "component")
    else AfterKeyword(cs, s, "global")
  }

  /** `COMPONENT_RE`: the declared name, and the length of the match. */
  function DeclarationAt(cs: Chars, s: string): (r: Option<(string, nat)>)
    ensures r.Some? ==> 0 < r.value.1 <= |s|
  {
    var e := AfterKeyword(cs, s, "export");
    var k := if e.Some? && AfterKind(cs, s[e.value..]).Some? then Some(e.value + AfterKind(cs, s[e.value..]).value)
             else AfterKind(cs, s);
    if k.None? then None
    else
      var n := Span(cs.word, s[k.value..]);
      if n == 0 then None else Some((s[k.value..k.value + n], k.value + n))
  }

  /** The length of a string's body, up to its closing quote. */
  function Quoted(s: string): (r: Option<nat>)
    ensures r.Some? ==> r.value < |s| && s[r.value] == '"'
  {
    if s == "" then None
    else if s[0] == '"' then Some(0)
    else
      var taken := if s[0] == '\\' then 2 else 1;
      if |s| < taken || (taken == 2 && s[1] == '\n') then None
      else match Quoted(s[taken..]) case Some(n) => Some(n + taken) case None => None
  }

  /** Behind `@tr(`, spaces and the opening quote. */
  function OpenQuote(cs: Chars, s: string): (r: Option<nat>)
    ensures r.Some? ==> 0 < r.value <= |s| && s[r.value - 1] == '"'
  {
    if !("@tr(" <= s) then None
    else
      var k := 4 + Span(cs.space, s[4..]);
      if k < |s| && s[k] == '"' then Some(k + 1) else None
  }

  /** `TRANSLATION_RE`: the quoted text, and the length of the match. */
  function TranslationAt(cs: Chars, s: string): (r: Option<(string, nat)>)
    ensures r.Some? ==> 0 < r.value.1 <= |s|
  {
    var k := OpenQuote(cs, s);
    if k.None? then None
    else match Quoted(s[k.value..])
      case None => None
      case Some(n) => Some((s[k.value..k.value + n], k.value + n + 1))
  }

  /** What is recognised at the front of a text; a declaration only where no word goes on. */
  function LexFront(cs: Chars, inWord: bool, s: string): (l: Lexeme)
    ensures s != "" ==> 0 < l.end <= |s|
  {
    var d := if inWord then None else DeclarationAt(cs, s);
    if d.Some? then Lexeme(Declare(d.value.0), d.value.1)
    else if TranslationAt(cs, s).Some? then Lexeme(Tr(TranslationAt(cs, s).value.0), TranslationAt(cs, s).value.1)
    else Lexeme(if "{" <= s then Open else if "}" <= s then Close else Other, 1)
  }

  function FrontOf(cs: Chars): (front: Front) {
    (w: bool, s: string) => LexFront(cs, w, s)
  }

  ghost function TokensAfter(cs: Chars, inWord: bool, s: string): (ts: seq<Token>) {
    TokensBy(FrontOf(cs), cs.word, inWord, s)
  }

  // ---------------------------------------------------------------------------
  // Whole files
  // ---------------------------------------------------------------------------

  /** The pairs of one file. */
  ghost function PairsOf(cs: Chars, text: string): (ps: set<(string, string)>) {
    Pairs(FeedAll(Machine([], 0, []), TokensAfter(cs, false, StripComments(text))).found)
  }

  ghost function PairsOfAll(cs: Chars, texts: seq<string>): (ps: set<(string, string)>) {
    if texts == [] then {} else PairsOfAll(cs, texts[..|texts| - 1]) + PairsOf(cs, texts[|texts| - 1])
  }

  /** `slint_contexts`, given the texts of the files. */
  method ContextPairs(cs: Chars, texts: seq<string>) returns (pairs: set<(string, string)>)
    ensures pairs == PairsOfAll(cs, texts)
  {
    pairs := {};
    for i := 0 to |texts|
      invariant pairs == PairsOfAll(cs, texts[..i])
    {
      var code := StripComments(texts[i]);
      var found := SlintPairs(FrontOf(cs), cs.word, code);
      pairs := pairs + found;
      assert texts[..i + 1][..i] == texts[..i];
    }
    assert texts[..|texts|] == texts;
  }
}
