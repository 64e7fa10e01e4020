/** Search patterns (`SearchMatcher`, `has_regex_meta_beyond_wildcards` and `wildcard_to_regex` of
    `local_fs.rs`), with a reader for the part of the regex syntax that compiled wildcards use. */
module SearchMatching {
  import opened Text

  // ---------------------------------------------------------------------------
  // A small regex
  // ---------------------------------------------------------------------------

  datatype Token = Start | End | Exactly(c: char) | AnyOne | AnyRun

  /** `Invalid` is a source the engine refuses, `Beyond` one that uses more syntax than is modelled. */
  datatype Reading = Tokens(ts: seq<Token>) | Invalid | Beyond

  /** The characters that `regex::escape` puts a backslash before. */
  predicate IsMeta(c: char) {
    c in {'\\', '.', '+', '*', '?', '(', ')', '|', '[', ']', '{', '}', '^', '$', '#', '&', '-', '~'}
  }

  /** The start of a repetition operator. */
  predicate Repeats(s: string) {
    s != "" && s[0] in {'*', '+', '?', '{'}
  }

  function Cons(t: Token, r: Reading): (q: Reading) {
    if r.Tokens? then Tokens([t] + r.ts) else r
  }

  function Read(s: string): (r: Reading)
    decreases |s|
  {
    if s == "" then Tokens([])
    else if s[0] in {'*', '+', '?'} then Invalid
    else if s[0] == '.' && |s| > 1 && s[1] == '*' then
      if Repeats(s[2..]) then Beyond else Cons(AnyRun, Read(s[2..]))
    else if s[0] == '\\' then
      if |s| == 1 then Invalid
      else if !IsMeta(s[1]) || Repeats(s[2..]) then Beyond
      else Cons(Exactly(s[1]), Read(s[2..]))
    else if Repeats(s[1..]) then Beyond
    else if s[0] == '^' then Cons(Start, Read(s[1..]))
    else if s[0] == '$' then Cons(End, Read(s[1..]))
    else if s[0] == '.' then Cons(AnyOne, Read(s[1..]))
    else if s[0] in {'(', ')', '[', ']', '{', '}', '|'} then Beyond
    else Cons(Exactly(s[0]), Read(s[1..]))
  }

  /** A match that starts at position `i`; a dot stands for anything but a newline. */
  predicate MatchesAt(fold: char -> char, ts: seq<Token>, text: string, i: nat)
    decreases |ts|, |text| - i
  {
    if ts == [] then true
    else
      match ts[0]
      case Start => i == 0 && MatchesAt(fold, ts[1..], text, i)
      case End => i == |text| && MatchesAt(fold, ts[1..], text, i)
      case Exactly(c) => i < |text| && fold(c) == fold(text[i]) && MatchesAt(fold, ts[1..], text, i + 1)
      case AnyOne => i < |text| && text[i] != '\n' && MatchesAt(fold, ts[1..], text, i + 1)
      case AnyRun =>
        MatchesAt(fold, ts[1..], text, i) || (i < |text| && text[i] != '\n' && MatchesAt(fold, ts, text, i + 1))
  }

  /** `is_match`: a match anywhere in the text. */
  ghost predicate Found(fold: char -> char, ts: seq<Token>, text: string) {
    exists i: nat :: i <= |text| && MatchesAt(fold, ts, text, i)
  }

  // ---------------------------------------------------------------------------
  // Compiling wildcards
  // ---------------------------------------------------------------------------

  function EscapeRegex(c: char): (s: string) {
    if IsMeta(c) then ['\\', c] else [c]
  }

  function Piece(c: char): (s: string) {
    if c == '*' then ".*" else if c == '?' then "." else EscapeRegex(c)
  }

  function Body(wildcard: string): (s: string) {
    if wildcard == "" then "" else Piece(wildcard[0]) + Body(wildcard[1..])
  }

  method WildcardToRegex(wildcard: string) returns (out: string)
    ensures out == "^" + Body(wildcard) + "$"
  {
    out := "^";
    var i := 0;
    while i < |wildcard|
      invariant 0 <= i <= |wildcard|
      invariant out + Body(wildcard[i..]) == "^" + Body(wildcard)
    {
      ghost var rest := wildcard[i..];
      assert rest[0] == wildcard[i] && rest[1..] == wildcard[i + 1..];
      PieceFirst(out, wildcard[i], Body(rest[1..]));
      if wildcard[i] == '*' {
        out := out + ".*";
      } else if wildcard[i] == '?' {
        out := out + ".";
      } else {
        out := out + EscapeRegex(wildcard[i]);
      }
      i := i + 1;
    }
    assert wildcard[i..] == "" && out + "" == out;
    out := out + "$";
  }

  lemma PieceFirst(out: string, c: char, rest: string)
    ensures out + (Piece(c) + rest) == (out + Piece(c)) + rest
  {
  }

  function TokenOf(c: char): (t: Token) {
    if c == '*' then AnyRun else if c == '?' then AnyOne else Exactly(c)
  }

  function Compile(wildcard: string): (ts: seq<Token>) {
    if wildcard == "" then [End] else [TokenOf(wildcard[0])] + Compile(wildcard[1..])
  }

  lemma NoRepeat(c: char, rest: string)
    ensures !Repeats(Piece(c) + rest)
  {
    assert (Piece(c) + rest)[0] == Piece(c)[0];
  }

  lemma PieceReads(c: char, rest: string)
    requires !Repeats(rest)
    ensures Read(Piece(c) + rest) == Cons(TokenOf(c), Read(rest))
  {
    var s := Piece(c) + rest;
    if |Piece(c)| == 2 {
      assert s[2..] == rest;
    } else {
      assert s[1..] == rest;
    }
  }

  /** The compiled source means the tokens of the pattern, whatever characters the pattern has. */
  lemma {:induction false} BodyReads(wildcard: string)
    ensures !Repeats(Body(wildcard) + "$")
    ensures Read(Body(wildcard) + "$") == Tokens(Compile(wildcard))
  {
    if wildcard == "" {
      var s := "" + "$";
      assert s[1..] == "";
      assert Read(s[1..]) == Tokens([]);
      assert [End] + [] == [End];
    } else {
      var rest := Body(wildcard[1..]) + "$";
      BodyReads(wildcard[1..]);
      assert Body(wildcard) + "$" == Piece(wildcard[0]) + rest;
      PieceReads(wildcard[0], rest);
      NoRepeat(wildcard[0], rest);
    }
  }

  lemma CompiledReads(wildcard: string)
    ensures Read("^" + Body(wildcard) + "$") == Tokens([Start] + Compile(wildcard))
  {
    BodyReads(wildcard);
    var s := "^" + Body(wildcard) + "$";
    assert s[1..] == Body(wildcard) + "$";
  }

  // ---------------------------------------------------------------------------
  // What a wildcard means
  // ---------------------------------------------------------------------------

  /** A direct matcher: `*` is any run and `?` any one of the characters that `wild` allows. */
  predicate Glob(fold: char -> char, wild: char -> bool, pattern: string, name: string)
    decreases |pattern|, |name|
  {
    if pattern == "" then name == ""
    else if pattern[0] == '*' then
      Glob(fold, wild, pattern[1..], name)
      || (name != "" && wild(name[0]) && Glob(fold, wild, pattern, name[1..]))
    else if name == "" then false
    else if pattern[0] == '?' then wild(name[0]) && Glob(fold, wild, pattern[1..], name[1..])
    else fold(pattern[0]) == fold(name[0]) && Glob(fold, wild, pattern[1..], name[1..])
  }

  predicate NotNewline(c: char) {
    c != '\n'
  }

  lemma {:induction false} CompiledMeansGlob(fold: char -> char, wildcard: string, name: string, i: nat)
    requires i <= |name|
    ensures MatchesAt(fold, Compile(wildcard), name, i) <==> Glob(fold, NotNewline, wildcard, name[i..])
    decreases |wildcard|, |name| - i
  {
    var ts, tail := Compile(wildcard), name[i..];
    if wildcard == "" {
      assert ts[1..] == [];
    } else {
      assert ts[1..] == Compile(wildcard[1..]);
      if wildcard[0] == '*' {
        CompiledMeansGlob(fold, wildcard[1..], name, i);
        if i < |name| {
          CompiledMeansGlob(fold, wildcard, name, i + 1);
          assert tail[1..] == name[i + 1..];
        }
      } else if i < |name| {
        CompiledMeansGlob(fold, wildcard[1..], name, i + 1);
        assert tail[1..] == name[i + 1..];
      }
    }
  }

  /** For every pattern and name: the compiled regex finds a match exactly when the pattern matches the
      whole name, its wildcards standing for anything but newlines. */
  lemma RegexMeansWildcard(fold: char -> char, wildcard: string, name: string)
    ensures var r := Read("^" + Body(wildcard) + "$");
            r.Tokens? && (Found(fold, r.ts, name) <==> Glob(fold, NotNewline, wildcard, name))
  {
    CompiledReads(wildcard);
    var ts := [Start] + Compile(wildcard);
    assert ts[1..] == Compile(wildcard);
    CompiledMeansGlob(fold, wildcard, name, 0);
    assert name[0..] == name;
    assert MatchesAt(fold, ts, name, 0) <==> MatchesAt(fold, ts[1..], name, 0);
    forall i: nat | i <= |name| && MatchesAt(fold, ts, name, i)
      ensures i == 0
    {
    }
  }

  predicate Everything(c: char) {
    true
  }

  /** On names without newlines the wildcards stand for anything at all. */
  lemma {:induction false} NewlineFreeNames(fold: char -> char, pattern: string, name: string)
    requires Lacks(name, '\n')
    ensures Glob(fold, NotNewline, pattern, name) <==> Glob(fold, Everything, pattern, name)
    decreases |pattern|, |name|
  {
    if pattern != "" {
      if pattern[0] == '*' {
        NewlineFreeNames(fold, pattern[1..], name);
        if name != "" {
          NewlineFreeNames(fold, pattern, name[1..]);
        }
      } else if name != "" {
        NewlineFreeNames(fold, pattern[1..], name[1..]);
      }
    }
  }

  /** On any name the regex accepts no more than the direct matcher does. */
  lemma {:induction false} NewlinesOnlyReject(fold: char -> char, pattern: string, name: string)
    requires Glob(fold, NotNewline, pattern, name)
    ensures Glob(fold, Everything, pattern, name)
    decreases |pattern|, |name|
  {
    if pattern != "" {
      if pattern[0] == '*' {
        if Glob(fold, NotNewline, pattern[1..], name) {
          NewlinesOnlyReject(fold, pattern[1..], name);
        } else {
          NewlinesOnlyReject(fold, pattern, name[1..]);
        }
      } else {
        NewlinesOnlyReject(fold, pattern[1..], name[1..]);
      }
    }
  }

  // ---------------------------------------------------------------------------
  // The matcher
  // ---------------------------------------------------------------------------

  datatype Matcher = Regex(source: string) | Substring(lowered: string)

  predicate HasRegexMeta(pattern: string) {
    exists i :: 0 <= i < |pattern|
                && pattern[i] in {'\\', '.', '^', '$', '+', '(', ')', '[', ']', '{', '}', '|'}
  }

  predicate HasWildcard(pattern: string) {
    '*' in pattern || '?' in pattern
  }

  /** The engine accepts what reads as tokens and refuses what is invalid. */
  ghost predicate LawfulEngine(compiles: string -> bool) {
    forall s :: (Read(s).Tokens? ==> compiles(s)) && (Read(s).Invalid? ==> !compiles(s))
  }

  function Build(compiles: string -> bool, source: string): (m: Result<Matcher, string>) {
    if compiles(source) then Ok(Regex(source)) else Err("The pattern is not valid.")
  }

  function NewMatcher(compiles: string -> bool, lower: string -> string, raw: string): (m: Result<Matcher, string>) {
    var pattern := Trim(raw);
    if pattern == "" then Err("The pattern is not valid.")
    else if HasRegexMeta(pattern) then Build(compiles, pattern)
    else if HasWildcard(pattern) then Build(compiles, "^" + Body(pattern) + "$")
    else Ok(Substring(lower(pattern)))
  }

  ghost predicate Occurs(part: string, text: string) {
    exists front, back :: text == front + part + back
  }

  /** `matches`: a regex finds a match, and any other pattern occurs, both in lower case. Of regexes only those that
      are read are covered. */
  ghost predicate Accepts(m: Matcher, fold: char -> char, lower: string -> string, name: string) {
    match m
    case Regex(source) => Read(source).Tokens? && Found(fold, Read(source).ts, name)
    case Substring(lowered) => Occurs(lowered, lower(name))
  }

  /** A pattern with no metacharacter and no wildcard finds exactly the names in which it occurs, in any case. */
  lemma PlainMatcherIsExact(
      compiles: string -> bool, lower: string -> string, fold: char -> char, raw: string, name: string)
    requires Trim(raw) != ""
    requires forall c :: c in Trim(raw) ==>
               c !in {'\\', '.', '^', '$', '+', '(', ')', '[', ']', '{', '}', '|', '*', '?'}
    ensures var m, part := NewMatcher(compiles, lower, raw), lower(Trim(raw));
            && m.Ok?
            && (Accepts(m.value, fold, lower, name) <==>
                  exists front, back :: lower(name) == front + part + back)
  {
    var pattern := Trim(raw);
    forall i | 0 <= i < |pattern| ensures pattern[i] in pattern {
    }
    assert !HasRegexMeta(pattern) && !HasWildcard(pattern);
  }

  /** One with a metacharacter other than the wildcards is taken for a regex as it stands. */
  lemma RawPatternIsRegex(compiles: string -> bool, lower: string -> string, raw: string, c: char)
    requires c in Trim(raw) && c in {'\\', '.', '^', '$', '+', '(', ')', '[', ']', '{', '}', '|'}
    ensures NewMatcher(compiles, lower, raw) ==
            if compiles(Trim(raw)) then Ok(Regex(Trim(raw))) else Err("The pattern is not valid.")
  {
    var pattern := Trim(raw);
    var i :| 0 <= i < |pattern| && pattern[i] == c;
    assert HasRegexMeta(pattern);
  }

  /** A wildcard pattern without other metacharacters always yields a matcher, and the matcher accepts
      exactly the names that the direct matcher accepts. */
  lemma WildcardMatcherIsExact(
      compiles: string -> bool, lower: string -> string, fold: char -> char, raw: string, name: string)
    requires LawfulEngine(compiles) && Lacks(name, '\n')
    requires Trim(raw) != "" && !HasRegexMeta(Trim(raw)) && HasWildcard(Trim(raw))
    ensures var m := NewMatcher(compiles, lower, raw);
            && m.Ok? && m.value.Regex? && Read(m.value.source).Tokens?
            && (Found(fold, Read(m.value.source).ts, name) <==> Glob(fold, Everything, Trim(raw), name))
  {
    var pattern := Trim(raw);
    RegexMeansWildcard(fold, pattern, name);
    NewlineFreeNames(fold, pattern, name);
  }

  /** How many backslashes a pattern ends with. */
  function TrailingBackslashes(s: string): (n: nat)
    ensures n <= |s|
  {
    if s == "" || s[|s| - 1] != '\\' then 0 else 1 + TrailingBackslashes(s[..|s| - 1])
  }

  /** A first character counts only when everything after it is backslashes. */
  lemma {:induction false} TrailingFromFront(s: string)
    requires s != ""
    ensures var n := TrailingBackslashes(s[1..]);
            TrailingBackslashes(s) == if s[0] == '\\' && n == |s| - 1 then |s| else n
  {
    if |s| > 1 && s[|s| - 1] == '\\' {
      var init := s[..|s| - 1];
      TrailingFromFront(init);
      assert init[1..] == s[1..][..|s| - 2];
    } else if |s| == 1 {
      assert s[..0] == "" && s[1..] == "";
    }
  }

  /** A repetition with nothing to repeat, or a backslash with nothing to escape. */
  predicate Malformed(s: string) {
    (s != "" && s[0] in {'*', '+', '?'}) || TrailingBackslashes(s) % 2 == 1
  }

  /** Of the sources that are modelled, those two shapes are the ones that are refused. */
  lemma {:induction false} InvalidExactlyWhen(s: string)
    requires !Read(s).Beyond?
    ensures Read(s).Invalid? <==> Malformed(s)
    decreases |s|
  {
    if s == "" || s[0] in {'*', '+', '?'} {
    } else if s[0] == '.' && |s| > 1 && s[1] == '*' {
      TrailingFromFront(s);
      TrailingFromFront(s[1..]);
      assert s[1..][1..] == s[2..];
      InvalidExactlyWhen(s[2..]);
    } else if s[0] == '\\' {
      TrailingFromFront(s);
      if |s| > 1 {
        TrailingFromFront(s[1..]);
        assert s[1..][1..] == s[2..];
        InvalidExactlyWhen(s[2..]);
      }
    } else {
      TrailingFromFront(s);
      InvalidExactlyWhen(s[1..]);
    }
  }

  /** A pattern is refused exactly when it is blank, or when a metacharacter makes it a regex and that
      regex starts with a repetition or ends in an odd number of backslashes. */
  lemma RefusedExactlyWhen(compiles: string -> bool, lower: string -> string, raw: string)
    requires LawfulEngine(compiles)
    requires HasRegexMeta(Trim(raw)) ==> !Read(Trim(raw)).Beyond?
    ensures NewMatcher(compiles, lower, raw).Err? <==>
            Trim(raw) == "" || (HasRegexMeta(Trim(raw)) && Malformed(Trim(raw)))
  {
    var pattern := Trim(raw);
    if HasRegexMeta(pattern) {
      InvalidExactlyWhen(pattern);
    } else {
      CompiledReads(pattern);
    }
  }

  /** So a wildcard in front of a metacharacter is refused, as in `*.txt` and `?.txt`. */
  lemma WildcardBeforeDotExample(compiles: string -> bool, lower: string -> string, wildcard: char)
    requires LawfulEngine(compiles) && wildcard in {'*', '?'}
    ensures NewMatcher(compiles, lower, [wildcard] + ".txt").Err?
  {
    var pattern := [wildcard] + ".txt";
    TrimmedExactlyWhenFixed(pattern);
    assert pattern[1] == '.';
    RefusedExactlyWhen(compiles, lower, pattern);
  }

  /** The pattern for hidden files, `.*`, is taken for a regex that finds a match in every name. */
  lemma DotStarExample(compiles: string -> bool, lower: string -> string, fold: char -> char, name: string)
    requires LawfulEngine(compiles)
    ensures NewMatcher(compiles, lower, ".*") == Ok(Regex(".*"))
    ensures Read(".*").Tokens? && Found(fold, Read(".*").ts, name)
  {
    var pattern := ".*";
    TrimmedExactlyWhenFixed(pattern);
    assert pattern[0] == '.' && pattern[2..] == "";
    var ts := Read(pattern).ts;
    assert ts == [AnyRun] && ts[1..] == [];
    assert MatchesAt(fold, ts, name, 0);
  }
}
