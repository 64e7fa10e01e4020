/** The context tracker of `po_fill_slint_contexts.py`: one pass over the tokens of a `.slint` file
    with a stack of (component, depth), against a walk of the nested declarations. */
module SlintContexts {

  /** What the scanner recognises at a position of the text; `Tr` carries the quoted text. */
  datatype Token = Declare(name: string) | Tr(text: string) | Open | Close | Other

  /** A recognised token and its length. */
  datatype Lexeme = Lexeme(token: Token, end: nat)

  // ---------------------------------------------------------------------------
  // Escapes
  // ---------------------------------------------------------------------------

  function Resolve(c: char): char {
    if c == 'n' then '\n' else if c == 't' then '\t' else c
  }

  /** `unescape_slint`, which resolves the same escapes as `unescape`. */
  function Unescape(s: string): (t: string) {
    if s == "" then ""
    else if s[0] == '\\' && |s| > 1 then [Resolve(s[1])] + Unescape(s[2..])
    else [s[0]] + Unescape(s[1..])
  }

  /** A pair stands for a newline, for a tab, or for its second character; any other character for itself. */
  lemma UnescapeMeans(c: char, rest: string)
    ensures Unescape("\\" + [c] + rest) ==
            [if c == 'n' then '\n' else if c == 't' then '\t' else c] + Unescape(rest)
    ensures c != '\\' ==> Unescape([c] + rest) == [c] + Unescape(rest)
    ensures Unescape("\\") == "\\"
  {
    assert ("\\" + [c] + rest)[2..] == rest && ([c] + rest)[1..] == rest;
    assert "\\"[1..] == "";
  }

  method UnescapeLoop(value: string) returns (result: string)
    ensures result == Unescape(value)
  {
    result := "";
    var index := 0;
    while index < |value|
      invariant 0 <= index <= |value|
      invariant result + Unescape(value[index..]) == Unescape(value)
    {
      ghost var rest, before := value[index..], result;
      var c := value[index];
      if c == '\\' && index + 1 < |value| {
        result := result + [Resolve(value[index + 1])];
        index := index + 2;
        assert rest[2..] == value[index..];
      } else {
        result := result + [c];
        index := index + 1;
        assert rest[1..] == value[index..];
      }
      assert before + Unescape(rest) == result + Unescape(value[index..]);
    }
    assert result + "" == result;
  }

  // ---------------------------------------------------------------------------
  // The one-pass machine
  // ---------------------------------------------------------------------------

  /** A translation and the components it sits in, outermost first. */
  datatype Found = Found(enclosing: seq<string>, text: string)

  datatype Machine = Machine(stack: seq<(string, int)>, depth: int, found: seq<Found>)

  function Names(stack: seq<(string, int)>): (ns: seq<string>)
    ensures |ns| == |stack|
  {
    if stack == [] then [] else Names(stack[..|stack| - 1]) + [stack[|stack| - 1].0]
  }

  /** Leaves the declarations outer at a depth below `depth`. */
  function PopTo(stack: seq<(string, int)>, depth: int): (s: seq<(string, int)>) {
    if stack != [] && stack[|stack| - 1].1 >= depth then PopTo(stack[..|stack| - 1], depth) else stack
  }

  function Feed(m: Machine, t: Token): (m': Machine) {
    match t
    case Declare(name) => m.(stack := m.stack + [(name, m.depth)])
    case Tr(text) => if m.stack == [] then m else m.(found := m.found + [Found(Names(m.stack), text)])
    case Open => m.(depth := m.depth + 1)
    case Close => m.(depth := m.depth - 1, stack := PopTo(m.stack, m.depth - 1))
    case Other => m
  }

  function FeedAll(m: Machine, ts: seq<Token>): (m': Machine)
    decreases |ts|
  {
    if ts == [] then m else FeedAll(Feed(m, ts[0]), ts[1..])
  }

  lemma {:induction false} FeedAppend(m: Machine, ts: seq<Token>, us: seq<Token>)
    ensures FeedAll(m, ts + us) == FeedAll(FeedAll(m, ts), us)
    decreases |ts|
  {
    if ts == [] {
      assert ts + us == us;
    } else {
      FeedAppend(Feed(m, ts[0]), ts[1..], us);
      assert (ts + us)[1..] == ts[1..] + us;
    }
  }

  /** What is recognised at the front of a text, given whether it goes on with a word. */
  type Front = (bool, string) -> Lexeme

  /** A lexeme takes at least one character and stays inside the text. */
  ghost predicate Steady(front: Front) {
    forall w, s :: s != "" ==> 0 < front(w, s).end <= |s|
  }

  predicate InWord(word: char -> bool, before: string) {
    before != "" && word(before[|before| - 1])
  }

  /** The tokens of a text that follows another. */
  ghost function TokensBy(front: Front, word: char -> bool, inWord: bool, s: string): (ts: seq<Token>)
    requires Steady(front)
    decreases |s|
  {
    if s == "" then []
    else
      var l := front(inWord, s);
      [l.token] + TokensBy(front, word, InWord(word, s[..l.end]), s[l.end..])
  }

  lemma SliceOn(word: char -> bool, code: string, i: nat, n: nat)
    requires 0 < n && i + n <= |code|
    ensures code[i..][n..] == code[i + n..] && InWord(word, code[..i + n]) == InWord(word, code[i..][..n])
  {
    assert code[..i + n][i + n - 1] == code[i..][..n][n - 1];
  }

  /** The machine reads on from a position of the text. */
  lemma ReadsOn(m: Machine, front: Front, word: char -> bool, inWord: bool, s: string)
    requires Steady(front) && s != ""
    ensures var l := front(inWord, s);
            FeedAll(m, TokensBy(front, word, inWord, s)) ==
            FeedAll(Feed(m, l.token), TokensBy(front, word, InWord(word, s[..l.end]), s[l.end..]))
  {
    var l := front(inWord, s);
    assert TokensBy(front, word, inWord, s)[1..] == TokensBy(front, word, InWord(word, s[..l.end]), s[l.end..]);
  }

  ghost function Pairs(fs: seq<Found>): (ps: set<(string, string)>) {
    set f | f in fs && f.enclosing != [] :: (f.enclosing[|f.enclosing| - 1], Unescape(f.text))
  }

  /** The loop's variables are those of the machine. */
  ghost predicate Tracks(m: Machine, stack: seq<(string, int)>, depth: int, pairs: set<(string, string)>) {
    m.stack == stack && m.depth == depth && pairs == Pairs(m.found)
  }

  /** The branches of the loop. */
  method Track(token: Token, stack: seq<(string, int)>, depth: int, pairs: set<(string, string)>, ghost m: Machine)
    returns (newStack: seq<(string, int)>, newDepth: int, newPairs: set<(string, string)>)
    requires Tracks(m, stack, depth, pairs)
    ensures Tracks(Feed(m, token), newStack, newDepth, newPairs)
  {
    newStack, newDepth, newPairs := stack, depth, pairs;
    match token {
      case Declare(name) =>
        newStack := stack + [(name, depth)];
      case Tr(text) =>
        var msgid := UnescapeLoop(text);
        if stack != [] {
          newPairs := pairs + {(stack[|stack| - 1].0, msgid)};
          PairsGrow(m.found, Found(Names(stack), text));
        }
      case Open =>
        newDepth := depth + 1;
      case Close =>
        newDepth := depth - 1;
        while newStack != [] && newStack[|newStack| - 1].1 >= newDepth
          invariant PopTo(newStack, newDepth) == PopTo(stack, newDepth)
          decreases |newStack|
        {
          newStack := newStack[..|newStack| - 1];
        }
      case Other =>
    }
  }

  /** What the machine still has to read leads where the whole text leads. */
  ghost predicate Reading(m: Machine, front: Front, word: char -> bool, code: string, i: nat)
    requires Steady(front) && i <= |code|
  {
    FeedAll(m, TokensBy(front, word, InWord(word, code[..i]), code[i..])) ==
    FeedAll(Machine([], 0, []), TokensBy(front, word, false, code))
  }

  lemma ReadingGoesOn(m: Machine, front: Front, word: char -> bool, code: string, i: nat)
    requires Steady(front) && i < |code| && Reading(m, front, word, code, i)
    ensures var l := front(InWord(word, code[..i]), code[i..]);
            i + l.end <= |code| && Reading(Feed(m, l.token), front, word, code, i + l.end)
  {
    ReadsOn(m, front, word, InWord(word, code[..i]), code[i..]);
    SliceOn(word, code, i, front(InWord(word, code[..i]), code[i..]).end);
  }

  lemma ReadingEnds(m: Machine, front: Front, word: char -> bool, code: string)
    requires Steady(front)
    ensures Reading(Machine([], 0, []), front, word, code, 0)
    ensures Reading(m, front, word, code, |code|) ==>
              m == FeedAll(Machine([], 0, []), TokensBy(front, word, false, code))
  {
    assert code[0..] == code && code[..0] == "";
  }

  /** The loop of `slint_contexts` over one text without comments; `front` is what the two patterns and the brace
      test see, and `word` which characters make words. */
  method SlintPairs(front: Front, word: char -> bool, code: string) returns (pairs: set<(string, string)>)
    requires Steady(front)
    ensures pairs == Pairs(FeedAll(Machine([], 0, []), TokensBy(front, word, false, code)).found)
  {
    var stack: seq<(string, int)> := [];
    var depth, index := 0, 0;
    pairs := {};
    ghost var m := Machine([], 0, []);
    ReadingEnds(m, front, word, code);
    while index < |code|
      invariant 0 <= index <= |code| && Tracks(m, stack, depth, pairs) && Reading(m, front, word, code, index)
      decreases |code| - index
    {
      var lexeme := front(InWord(word, code[..index]), code[index..]);
      ReadingGoesOn(m, front, word, code, index);
      stack, depth, pairs := Track(lexeme.token, stack, depth, pairs, m);
      m := Feed(m, lexeme.token);
      index := index + lexeme.end;
    }
    ReadingEnds(m, front, word, code);
  }

  lemma PairsGrow(fs: seq<Found>, f: Found)
    requires f.enclosing != []
    ensures Pairs(fs + [f]) == Pairs(fs) + {(f.enclosing[|f.enclosing| - 1], Unescape(f.text))}
  {
    assert forall g :: g in fs + [f] <==> g in fs || g == f;
    assert f in fs + [f];
  }

  // ---------------------------------------------------------------------------
  // Nested declarations
  // ---------------------------------------------------------------------------

  /** What may stand between a component's name and its opening brace. */
  datatype Plain = PlainTr(text: string) | PlainOther

  /** Well-nested source text. */
  datatype Forest =
    | Empty
    | Translation(text: string, rest: Forest)
    | Skipped(rest: Forest)
    | Block(body: Forest, rest: Forest)
    | Component(name: string, header: seq<Plain>, body: Forest, rest: Forest)

  function FlattenHeader(hs: seq<Plain>): (ts: seq<Token>) {
    if hs == [] then []
    else [match hs[0] case PlainTr(text) => Tr(text) case PlainOther => Other] + FlattenHeader(hs[1..])
  }

  /** The tokens of the text, left to right. */
  function Flatten(f: Forest): (ts: seq<Token>) {
    match f
    case Empty => []
    case Translation(text, rest) => [Tr(text)] + Flatten(rest)
    case Skipped(rest) => [Other] + Flatten(rest)
    case Block(body, rest) => [Open] + Flatten(body) + [Close] + Flatten(rest)
    case Component(name, header, body, rest) =>
      [Declare(name)] + FlattenHeader(header) + [Open] + Flatten(body) + [Close] + Flatten(rest)
  }

  function At(enclosing: seq<string>, text: string): (fs: seq<Found>) {
    if enclosing == [] then [] else [Found(enclosing, text)]
  }

  function WalkHeader(hs: seq<Plain>, enclosing: seq<string>): (fs: seq<Found>) {
    if hs == [] then []
    else (if hs[0].PlainTr? then At(enclosing, hs[0].text) else []) + WalkHeader(hs[1..], enclosing)
  }

  /** The reference: each translation with all the components it is nested in. */
  function Walk(f: Forest, enclosing: seq<string>): (fs: seq<Found>) {
    match f
    case Empty => []
    case Translation(text, rest) => At(enclosing, text) + Walk(rest, enclosing)
    case Skipped(rest) => Walk(rest, enclosing)
    case Block(body, rest) => Walk(body, enclosing) + Walk(rest, enclosing)
    case Component(name, header, body, rest) =>
      WalkHeader(header, enclosing + [name]) + Walk(body, enclosing + [name]) + Walk(rest, enclosing)
  }

  /** All open declarations started above the current depth. */
  ghost predicate Nested(m: Machine) {
    forall i :: 0 <= i < |m.stack| ==> m.stack[i].1 < m.depth
  }

  lemma NamesPush(stack: seq<(string, int)>, name: string, depth: int)
    ensures Names(stack + [(name, depth)]) == Names(stack) + [name]
  {
    assert (stack + [(name, depth)])[..|stack|] == stack;
  }

  /** The machine after reporting `fs` more. */
  function Plus(m: Machine, fs: seq<Found>): (m': Machine) {
    m.(found := m.found + fs)
  }

  lemma PlusPlus(m: Machine, fs: seq<Found>, gs: seq<Found>)
    ensures Plus(Plus(m, fs), gs) == Plus(m, fs + gs) && Plus(m, []) == m
  {
    assert (m.found + fs) + gs == m.found + (fs + gs);
    assert m.found + [] == m.found;
  }

  lemma FeedFirst(m: Machine, t: Token, ts: seq<Token>)
    ensures FeedAll(m, [t] + ts) == FeedAll(Feed(m, t), ts)
  {
    assert ([t] + ts)[1..] == ts;
  }

  lemma TranslationReported(m: Machine, text: string)
    ensures Feed(m, Tr(text)) == Plus(m, At(Names(m.stack), text))
  {
    PlusPlus(m, [], []);
  }

  lemma {:induction false} HeaderIsWalked(m: Machine, hs: seq<Plain>)
    ensures FeedAll(m, FlattenHeader(hs)) == Plus(m, WalkHeader(hs, Names(m.stack)))
    decreases |hs|
  {
    PlusPlus(m, [], []);
    if hs != [] {
      var rest := hs[1..];
      var here := if hs[0].PlainTr? then At(Names(m.stack), hs[0].text) else [];
      if hs[0].PlainTr? {
        TranslationReported(m, hs[0].text);
      }
      FeedFirst(m, FlattenHeader(hs)[0], FlattenHeader(rest));
      HeaderIsWalked(Plus(m, here), rest);
      PlusPlus(m, here, WalkHeader(rest, Names(m.stack)));
    }
  }

  /** On well-nested text the one-pass machine ends where it started, having reported exactly what
      the walk reports: its stack always lists exactly the enclosing components. */
  lemma {:induction false} MachineRefinesWalk(m: Machine, f: Forest)
    requires Nested(m)
    ensures FeedAll(m, Flatten(f)) == Plus(m, Walk(f, Names(m.stack)))
    decreases f, 0
  {
    var ns := Names(m.stack);
    match f
    case Empty =>
      PlusPlus(m, [], []);
    case Translation(text, rest) =>
      TranslationReported(m, text);
      FeedFirst(m, Tr(text), Flatten(rest));
      MachineRefinesWalk(Plus(m, At(ns, text)), rest);
      PlusPlus(m, At(ns, text), Walk(rest, ns));
    case Skipped(rest) =>
      FeedFirst(m, Other, Flatten(rest));
      MachineRefinesWalk(m, rest);
    case Block(body, rest) =>
      BracesAreWalked(m, body);
      FeedAppend(m, [Open] + Flatten(body) + [Close], Flatten(rest));
      MachineRefinesWalk(Plus(m, Walk(body, ns)), rest);
      PlusPlus(m, Walk(body, ns), Walk(rest, ns));
    case Component(name, header, body, rest) =>
      var inside := WalkHeader(header, ns + [name]) + Walk(body, ns + [name]);
      ComponentIsWalked(m, name, header, body);
      FeedAppend(m, [Declare(name)] + FlattenHeader(header) + [Open] + Flatten(body) + [Close], Flatten(rest));
      MachineRefinesWalk(Plus(m, inside), rest);
      PlusPlus(m, inside, Walk(rest, ns));
  }

  lemma BracesAreWalked(m: Machine, body: Forest)
    requires Nested(m)
    ensures FeedAll(m, [Open] + Flatten(body) + [Close]) == Plus(m, Walk(body, Names(m.stack)))
    decreases body, 1
  {
    var inner, ws := Feed(m, Open), Walk(body, Names(m.stack));
    assert Nested(inner);
    MachineRefinesWalk(inner, body);
    FeedFirst(m, Open, Flatten(body));
    FeedAppend(m, [Open] + Flatten(body), [Close]);
    FeedFirst(Plus(inner, ws), Close, []);
    CloseUndoesOpen(m, ws);
  }

  lemma CloseUndoesOpen(m: Machine, ws: seq<Found>)
    requires Nested(m)
    ensures FeedAll(Feed(Plus(Feed(m, Open), ws), Close), []) == Plus(m, ws)
    ensures [Close] + [] == [Close]
  {
    assert PopTo(m.stack, m.depth) == m.stack;
  }

  lemma ComponentIsWalked(m: Machine, name: string, header: seq<Plain>, body: Forest)
    requires Nested(m)
    ensures FeedAll(m, [Declare(name)] + FlattenHeader(header) + [Open] + Flatten(body) + [Close]) ==
            Plus(m, WalkHeader(header, Names(m.stack) + [name]) + Walk(body, Names(m.stack) + [name]))
    decreases body, 1
  {
    var outer := Feed(m, Declare(name));
    NamesPush(m.stack, name, m.depth);
    var ns := Names(outer.stack);
    var hs, ws := WalkHeader(header, ns), Walk(body, ns);
    // The header, then the body one level deeper, then the closing brace.
    var inner := Feed(Plus(outer, hs), Open);
    var front := [Declare(name)] + FlattenHeader(header) + [Open];
    HeadIsWalked(m, name, header);
    MachineRefinesWalk(inner, body);
    FeedAppend(m, front, Flatten(body));
    FeedAppend(m, front + Flatten(body), [Close]);
    FeedFirst(Plus(inner, ws), Close, []);
    CloseEndsComponent(m, name, hs, ws);
  }

  lemma HeadIsWalked(m: Machine, name: string, header: seq<Plain>)
    requires Nested(m)
    ensures var inner := Feed(Plus(Feed(m, Declare(name)), WalkHeader(header, Names(m.stack) + [name])), Open);
            FeedAll(m, [Declare(name)] + FlattenHeader(header) + [Open]) == inner && Nested(inner)
  {
    var outer := Feed(m, Declare(name));
    NamesPush(m.stack, name, m.depth);
    FeedFirst(m, Declare(name), FlattenHeader(header));
    HeaderIsWalked(outer, header);
    FeedAppend(m, [Declare(name)] + FlattenHeader(header), [Open]);
    FeedFirst(Plus(outer, WalkHeader(header, Names(outer.stack))), Open, []);
    assert [Open] + [] == [Open];
  }

  lemma CloseEndsComponent(m: Machine, name: string, hs: seq<Found>, ws: seq<Found>)
    requires Nested(m)
    ensures var inner := Feed(Plus(Feed(m, Declare(name)), hs), Open);
            FeedAll(Feed(Plus(inner, ws), Close), []) == Plus(m, hs + ws)
    ensures [Close] + [] == [Close]
  {
    PopsOne(m, name);
    assert m.found + hs + ws == m.found + (hs + ws);
  }

  lemma PopsOne(m: Machine, name: string)
    requires Nested(m)
    ensures PopTo(m.stack + [(name, m.depth)], m.depth) == m.stack
  {
    var stack := m.stack + [(name, m.depth)];
    assert stack[..|m.stack|] == m.stack;
    assert PopTo(m.stack, m.depth) == m.stack;
  }

  /** On a well-nested file the pairs found are each translation with its innermost enclosing component. */
  lemma PairsOfWellNestedText(f: Forest)
    ensures Pairs(FeedAll(Machine([], 0, []), Flatten(f)).found) == Pairs(Walk(f, []))
  {
    MachineRefinesWalk(Machine([], 0, []), f);
    assert [] + Walk(f, []) == Walk(f, []);
  }
}
