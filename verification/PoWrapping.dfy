/** Wrapping a PO string over quoted lines (`as_po_string` of `po_fill_slint_contexts.py`) and
    reading the lines back (`unquote` and the continuation rule of `parse_entries`). */
module PoWrapping {
  import opened Text
  import opened SlintContexts
  import opened PoStrings

  const WIDTH: nat := 72

  // ---------------------------------------------------------------------------
  // Where a line is cut
  // ---------------------------------------------------------------------------

  /** `rest.rfind("\\n", 0, hi)`. */
  function LastNewlineEscape(rest: string, hi: nat): (p: Option<nat>)
    requires hi <= |rest|
    ensures p.Some? ==> p.value + 2 <= hi && rest[p.value] == '\\' && rest[p.value + 1] == 'n'
  {
    if hi < 2 then None
    else if rest[hi - 2] == '\\' && rest[hi - 1] == 'n' then Some(hi - 2)
    else LastNewlineEscape(rest, hi - 1)
  }

  /** `rest.rfind(" ", 0, hi)`. */
  function LastSpace(rest: string, hi: nat): (p: Option<nat>)
    requires hi <= |rest|
    ensures p.Some? ==> p.value < hi && rest[p.value] == ' '
    ensures p.None? ==> ' ' !in rest[..hi]
  {
    if hi == 0 then None
    else if rest[hi - 1] == ' ' then Some(hi - 1)
    else
      assert rest[..hi] == rest[..hi - 1] + [rest[hi - 1]];
      LastSpace(rest, hi - 1)
  }

  /** Where the next line ends: after the last newline escape, else after the last space, else at 72.
      Only the last kind of cut can follow a backslash. */
  function CutAt(rest: string): (k: nat)
    requires |rest| > WIDTH
    ensures 0 < k <= WIDTH
    ensures k < WIDTH ==> rest[k - 1] != '\\'
  {
    var newline := LastNewlineEscape(rest, WIDTH);
    if newline.Some? then newline.value + 2
    else
      var space := LastSpace(rest, WIDTH);
      if space.Some? then space.value + 1 else WIDTH
  }

  predicate NewlineEscapeAt(s: string, p: int) {
    0 <= p && p + 1 < |s| && s[p] == '\\' && s[p + 1] == 'n'
  }

  /** A line is cut behind the last newline escape that it has room for; without one, behind the last space; without
      that, where the room ends. */
  lemma CutExactlyWhere(rest: string)
    requires |rest| > 72
    ensures var k, room := CutAt(rest), rest[..72];
            if exists p :: NewlineEscapeAt(room, p) then
              NewlineEscapeAt(room, k - 2) && forall p :: p > k - 2 ==> !NewlineEscapeAt(room, p)
            else if ' ' in room then room[k - 1] == ' ' && ' ' !in room[k..]
            else k == 72
  {
    LastEscape(rest, 72);
    LastBlank(rest, 72);
  }

  lemma {:induction false} LastEscape(rest: string, hi: nat)
    requires hi <= |rest|
    ensures match LastNewlineEscape(rest, hi)
            case Some(p) => NewlineEscapeAt(rest[..hi], p) && forall q :: q > p ==> !NewlineEscapeAt(rest[..hi], q)
            case None => forall q :: !NewlineEscapeAt(rest[..hi], q)
  {
    if hi >= 2 && !(rest[hi - 2] == '\\' && rest[hi - 1] == 'n') {
      LastEscape(rest, hi - 1);
      forall q ensures NewlineEscapeAt(rest[..hi], q) <==> NewlineEscapeAt(rest[..hi - 1], q) {
      }
    }
  }

  lemma {:induction false} LastBlank(rest: string, hi: nat)
    requires hi <= |rest|
    ensures match LastSpace(rest, hi)
            case Some(p) => rest[p] == ' ' && ' ' !in rest[..hi][p + 1..]
            case None => ' ' !in rest[..hi]
  {
    if hi > 0 && rest[hi - 1] != ' ' {
      LastBlank(rest, hi - 1);
      assert rest[..hi] == rest[..hi - 1] + [rest[hi - 1]];
      if LastSpace(rest, hi - 1).Some? {
        var p := LastSpace(rest, hi - 1).value;
        assert rest[..hi][p + 1..] == rest[..hi - 1][p + 1..] + [rest[hi - 1]];
      }
    }
  }

  function Wrap(rest: string): (lines: seq<string>)
    ensures lines != []
  {
    if |rest| <= WIDTH then [rest] else [rest[..CutAt(rest)]] + Wrap(rest[CutAt(rest)..])
  }

  function Concat(parts: seq<string>): (s: string) {
    if parts == [] then "" else parts[0] + Concat(parts[1..])
  }

  predicate AllFit(lines: seq<string>) {
    forall i :: 0 <= i < |lines| ==> |lines[i]| <= WIDTH
  }

  /** Wrapping loses nothing and keeps to the width. */
  lemma {:induction false} WrapKeepsText(rest: string)
    ensures Concat(Wrap(rest)) == rest && AllFit(Wrap(rest))
    ensures |rest| <= WIDTH ==> |Wrap(rest)| == 1
  {
    if |rest| <= WIDTH {
      assert [rest][1..] == [];
      assert rest + "" == rest;
    } else {
      var k := CutAt(rest);
      WrapKeepsText(rest[k..]);
      assert Wrap(rest)[1..] == Wrap(rest[k..]);
      assert rest[..k] + rest[k..] == rest;
      forall i | 0 <= i < |Wrap(rest)|
        ensures |Wrap(rest)[i]| <= WIDTH
      {
        if i > 0 {
          assert Wrap(rest)[i] == Wrap(rest[k..])[i - 1];
        }
      }
    }
  }

  // ---------------------------------------------------------------------------
  // Printing
  // ---------------------------------------------------------------------------

  function Quoted(line: string): (s: string) {
    "\"" + line + "\""
  }

  function QuoteAll(lines: seq<string>): (qs: seq<string>) {
    if lines == [] then [] else [Quoted(lines[0])] + QuoteAll(lines[1..])
  }

  function PoText(value: string): (s: string) {
    Join("\n", QuoteAll(Wrap(Escape(value))))
  }

  method EscapeValue(value: string) returns (escaped: string)
    ensures escaped == Escape(value)
  {
    escaped := Replace(Replace(Replace(value, '\\', "\\\\"), '"', "\\\""), '\n', "\\n");
    ThreeReplacementsEscape(value);
  }

  method FindCut(rest: string) returns (cut: nat)
    requires |rest| > WIDTH
    ensures cut == CutAt(rest)
  {
    var newline := LastNewlineEscape(rest, WIDTH);
    if newline.Some? {
      return newline.value + 2;
    }
    var space := LastSpace(rest, WIDTH);
    if space.None? {
      return WIDTH;
    }
    cut := space.value + if rest[space.value..space.value + 2] == "\\n" then 2 else 1;
  }

  lemma OneQuoted(line: string)
    ensures Join("\n", QuoteAll([line])) == Quoted(line)
  {
    assert [line][1..] == [] && QuoteAll([line][1..]) == [];
  }

  method AsPoString(value: string) returns (text: string)
    ensures text == PoText(value)
  {
    var escaped := EscapeValue(value);
    if |escaped| <= WIDTH {
      OneQuoted(escaped);
      return "\"" + escaped + "\"";
    }
    var lines: seq<string> := [];
    var rest := escaped;
    while |rest| > WIDTH
      invariant lines + Wrap(rest) == Wrap(escaped)
      decreases |rest|
    {
      var cut := FindCut(rest);
      lines := lines + [rest[..cut]];
      rest := rest[cut..];
    }
    lines := lines + [rest];
    text := Join("\n", QuoteAll(lines));
  }

  // ---------------------------------------------------------------------------
  // Reading
  // ---------------------------------------------------------------------------

  /** From just after an opening quote: what the group holds and what follows its closing quote. */
  function Group(s: string): (r: Option<(string, string)>)
    ensures r.Some? ==> |r.value.0| + 1 + |r.value.1| == |s|
  {
    if s == "" then None
    else if s[0] == '"' then Some(("", s[1..]))
    else if s[0] == '\\' then
      if |s| < 2 || s[1] == '\n' then None else Extend(s[..2], Group(s[2..]))
    else Extend(s[..1], Group(s[1..]))
  }

  function Extend(front: string, r: Option<(string, string)>): (e: Option<(string, string)>) {
    if r.None? then None else Some((front + r.value.0, r.value.1))
  }

  /** The joined contents of all the quoted groups a left-to-right search finds. */
  function Groups(s: string): (t: string)
    decreases |s|
  {
    if s == "" then ""
    else if s[0] == '"' && Group(s[1..]).Some? then Group(s[1..]).value.0 + Groups(Group(s[1..]).value.1)
    else Groups(s[1..])
  }

  lemma GroupsSkip(s: string)
    requires s != "" && (s[0] != '"' || Group(s[1..]).None?)
    ensures Groups(s) == Groups(s[1..])
  {
  }

  lemma GroupsTake(s: string)
    requires s != "" && s[0] == '"' && Group(s[1..]).Some?
    ensures Groups(s) == Group(s[1..]).value.0 + Groups(Group(s[1..]).value.1)
  {
  }

  function Unquote(literal: string): (value: string) {
    Unescape(Groups(literal))
  }

  /** What `parse_entries` accumulates from the quoted lines of one value. */
  function ReadBack(lines: seq<string>): (value: string) {
    if lines == [] then "" else Unquote(Quoted(lines[0])) + ReadBack(lines[1..])
  }

  lemma {:induction false} GroupIsPaired(s: string)
    requires Group(s).Some?
    ensures Paired(Group(s).value.0)
  {
    if s[0] != '"' {
      var n := First(s);
      GroupIsPaired(s[n..]);
      var inner := Group(s[n..]).value.0;
      assert (s[..n] + inner)[n..] == inner;
    }
  }

  lemma {:induction false} WholeGroup(d: string)
    requires Whole(d)
    ensures Group(d + "\"") == Some((d, ""))
  {
    var s := d + "\"";
    if d == "" {
      assert s[1..] == "";
    } else {
      var n := First(d);
      WholeGroup(d[n..]);
      assert s[n..] == d[n..] + "\"" && s[..n] == d[..n];
      assert d[..n] + d[n..] == d;
    }
  }

  lemma {:induction false} RaggedNoGroup(d: string)
    requires Ragged(d)
    ensures Group(d + "\"") == None
  {
    var s := d + "\"";
    if |d| == 1 {
      assert s[2..] == "";
    } else {
      var n := First(d);
      RaggedNoGroup(d[n..]);
      assert s[n..] == d[n..] + "\"";
    }
  }

  /** A whole line reads back as its own unescaped text. */
  lemma WholeLineReads(d: string)
    requires Whole(d)
    ensures Unquote(Quoted(d)) == Unescape(d)
  {
    WholeGroup(d);
    assert Quoted(d)[1..] == d + "\"";
    GroupsTake(Quoted(d));
    assert d + "" == d;
  }

  /** The number of characters a reader standing outside any group still gets. */
  function Gets(s: string): (n: nat) {
    Units(Groups(s))
  }

  lemma GetsGroup(s: string)
    requires s != "" && s[0] == '"' && Group(s[1..]).Some?
    ensures Gets(s) == Units(Group(s[1..]).value.0) + Gets(Group(s[1..]).value.1)
  {
    var r := Group(s[1..]).value;
    GroupIsPaired(s[1..]);
    GroupsTake(s);
    UnescapeAppend(r.0, Groups(r.1));
  }

  /** A ragged line reads as nothing at all, wherever the reader starts inside it. */
  lemma {:induction false} RaggedReadsNothing(d: string)
    requires Ragged(d)
    ensures Groups(d + "\"") == ""
  {
    var s := d + "\"";
    GroupsSkip(s);
    if |d| == 1 {
      assert s[1..] == "\"" && s[1..][1..] == "";
      GroupsSkip(s[1..]);
    } else {
      var n := First(d);
      RaggedReadsNothing(d[n..]);
      RaggedNoGroup(d[n..]);
      assert s[n..] == d[n..] + "\"";
      if n == 2 {
        assert s[1..][1..] == s[n..];
        GroupsSkip(s[1..]);
      }
    }
  }

  /** From outside, a reader gets no more from whole text than the text stands for. */
  lemma {:induction false} WholeFromOutside(d: string)
    requires Whole(d)
    ensures Gets(d + "\"") <= Units(d)
  {
    var s := d + "\"";
    GroupsSkip(s);
    if d == "" {
      assert s[1..] == "";
    } else {
      var n := First(d);
      WholeFromOutside(d[n..]);
      assert s[n..] == d[n..] + "\"";
      FirstUnit(d);
      if n == 2 {
        assert s[1..][1..] == s[n..];
        if s[1] == '"' {
          WholeGroup(d[n..]);
          GetsGroup(s[1..]);
        } else {
          GroupsSkip(s[1..]);
        }
      }
    }
  }

  /** What a group opened one character too early can hold. */
  lemma {:induction false} ShiftedGroup(x: char, d: string)
    requires Whole(d) || Ragged(d)
    requires Group([x] + d + "\"").Some?
    ensures var r := Group([x] + d + "\"").value;
            Units(r.0) + Gets(r.1) <= Units(d) + if Whole(d) then 1 else 0
    decreases |d|
  {
    var s := [x] + d + "\"";
    if x == '"' {
      assert s[1..] == d + "\"";
      ShiftedQuote(d);
    } else if x == '\\' {
      ShiftedBackslash(d);
    } else {
      assert s[1..] == d + "\"" && s[..1] == [x];
      ShiftedPlain(x, d);
    }
  }

  lemma ShiftedQuote(d: string)
    requires Whole(d) || Ragged(d)
    ensures Gets(d + "\"") <= Units(d)
  {
    if Whole(d) {
      WholeFromOutside(d);
    } else {
      RaggedReadsNothing(d);
    }
  }

  lemma ShiftedPlain(x: char, d: string)
    requires x != '\\' && x != '"'
    requires Whole(d) || Ragged(d)
    requires Extend([x], Group(d + "\"")).Some?
    ensures var r := Extend([x], Group(d + "\"")).value;
            Whole(d) && Units(r.0) + Gets(r.1) <= Units(d) + 1
  {
    if Whole(d) {
      WholeGroup(d);
      FirstUnit([x] + d);
      assert ([x] + d)[1..] == d;
    } else {
      RaggedNoGroup(d);
    }
  }

  lemma ShiftedBackslash(d: string)
    requires Whole(d) || Ragged(d)
    requires Group(['\\'] + d + "\"").Some?
    ensures var r := Group(['\\'] + d + "\"").value;
            Units(r.0) + Gets(r.1) <= Units(d) + if Whole(d) then 1 else 0
    decreases |d|, 0
  {
    var s := ['\\'] + d + "\"";
    if d == "" {
    } else if d[0] != '\\' {
      var inner := d[1..];
      assert s[2..] == inner + "\"" && s[..2] == ['\\', d[0]];
      FirstUnit(d);
      if Whole(d) {
        WholeGroup(inner);
      } else {
        RaggedNoGroup(inner);
      }
    } else if |d| == 1 {
      assert s[2..] == "\"" && s[..2] == "\\\\";
      assert Group(s[2..]) == Some(("", ""));
    } else {
      var inner := d[2..];
      assert s[2..] == [d[1]] + inner + "\"" && s[..2] == "\\\\";
      ShiftedGroup(d[1], inner);
      FirstUnit(d);
    }
  }

  /** A line that starts with the second half of a split pair. */
  lemma ShiftedLine(x: char, d: string)
    requires Whole(d) || Ragged(d)
    ensures |Unquote(Quoted([x] + d))| <= Units(d) + if Whole(d) then 1 else 0
  {
    var line := Quoted([x] + d);
    assert line[1..] == [x] + d + "\"";
    if Group(line[1..]).Some? {
      GetsGroup(line);
      ShiftedGroup(x, d);
    } else {
      GroupsSkip(line);
      assert line[1..][1..] == d + "\"";
      GroupsSkip(line[1..]);
      ShiftedQuote(d);
    }
  }

  lemma RaggedLineReads(d: string)
    requires Ragged(d)
    ensures Unquote(Quoted(d)) == ""
  {
    assert Quoted(d)[1..] == d + "\"";
    RaggedNoGroup(d);
    GroupsSkip(Quoted(d));
    RaggedReadsNothing(d);
  }

  // ---------------------------------------------------------------------------
  // Round trip
  // ---------------------------------------------------------------------------

  predicate AllWhole(lines: seq<string>) {
    if lines == [] then true else Whole(lines[0]) && AllWhole(lines[1..])
  }

  lemma ReadOne(line: string, lines: seq<string>)
    ensures ReadBack([line] + lines) == Unquote(Quoted(line)) + ReadBack(lines)
    ensures AllWhole([line] + lines) <==> Whole(line) && AllWhole(lines)
  {
    assert ([line] + lines)[1..] == lines;
  }

  /** Reading back wrapped whole text: exact when no line ends inside a pair, and short otherwise. */
  lemma {:induction false} WholeTextReads(rest: string)
    requires Whole(rest)
    ensures AllWhole(Wrap(rest)) ==> ReadBack(Wrap(rest)) == Unescape(rest)
    ensures !AllWhole(Wrap(rest)) ==> |ReadBack(Wrap(rest))| < Units(rest)
    decreases |rest|
  {
    if |rest| <= WIDTH {
      ReadOne(rest, []);
      WholeLineReads(rest);
      assert [rest] + [] == [rest];
    } else {
      var k := CutAt(rest);
      var line, tail := rest[..k], rest[k..];
      ReadOne(line, Wrap(tail));
      CutIsWholeOrRagged(rest, k);
      if Whole(line) {
        CutAfterWhole(rest, k);
        WholeLineReads(line);
        WholeTextReads(tail);
      } else {
        CutInsidePair(rest, k);
        RaggedLineReads(line);
        TailFirst(rest, k);
        ShiftedTextReads(rest[k], rest[k + 1..]);
        UnitsAtLeastHalf(line);
      }
    }
  }

  /** Wrapped text that starts with the second half of a split pair. */
  lemma {:induction false} ShiftedTextReads(x: char, s: string)
    requires Whole(s)
    ensures |ReadBack(Wrap([x] + s))| <= Units(s) + 1
    decreases |s| + 1
  {
    var rest := [x] + s;
    if |rest| <= WIDTH {
      ReadOne(rest, []);
      ShiftedLine(x, s);
      assert [rest] + [] == [rest];
    } else {
      var j := CutAt(rest) - 1;
      ShiftedSlices(x, s, j);
      ReadOne([x] + s[..j], Wrap(s[j..]));
      CutIsWholeOrRagged(s, j);
      ShiftedLine(x, s[..j]);
      if Whole(s[..j]) {
        CutAfterWhole(s, j);
        WholeTextReads(s[j..]);
      } else {
        RaggedNotWhole(s[..j]);
        CutInsidePair(s, j);
        TailFirst(s, j);
        ShiftedTextReads(s[j], s[j + 1..]);
      }
    }
  }

  lemma ShiftedSlices(x: char, s: string, j: nat)
    requires j <= |s|
    ensures ([x] + s)[..j + 1] == [x] + s[..j] && ([x] + s)[j + 1..] == s[j..]
  {
  }

  lemma TailFirst(s: string, j: nat)
    requires j < |s|
    ensures s[j..] == [s[j]] + s[j + 1..]
  {
  }

  /** The printed lines of a value read back as the value exactly when no line ends in the first half
      of an escape pair. */
  lemma RoundTripExactlyWhen(value: string)
    ensures ReadBack(Wrap(Escape(value))) == value <==> AllWhole(Wrap(Escape(value)))
  {
    EscapeRoundTrip(value);
    WholeTextReads(Escape(value));
  }

  /** Text whose every 72 characters hold a place to cut is never cut inside a pair: only the hard cut
      can split one. */
  lemma {:induction false} OnlyHardCutsSplit(rest: string)
    requires Whole(rest) && |rest| > WIDTH && !Whole(rest[..CutAt(rest)])
    ensures CutAt(rest) == WIDTH && rest[WIDTH - 1] == '\\' && ' ' !in rest[..WIDTH]
  {
    CutIsWholeOrRagged(rest, CutAt(rest));
  }

  function Repeat(c: char, n: nat): (s: string)
    ensures |s| == n
  {
    if n == 0 then "" else [c] + Repeat(c, n - 1)
  }

  lemma {:induction false} EscapeAppend(s: string, t: string)
    ensures Escape(s + t) == Escape(s) + Escape(t)
  {
    if s == "" {
      assert s + t == t;
    } else {
      calc {
        Escape(s + t);
      == { assert (s + t)[1..] == s[1..] + t && (s + t)[0] == s[0]; }
        EscapeChar(s[0]) + Escape(s[1..] + t);
      == { EscapeAppend(s[1..], t); }
        EscapeChar(s[0]) + (Escape(s[1..]) + Escape(t));
      ==
        EscapeChar(s[0]) + Escape(s[1..]) + Escape(t);
      }
    }
  }

  lemma {:induction false} RepeatPlain(n: nat)
    ensures Escape(Repeat('a', n)) == Repeat('a', n)
  {
    if n > 0 {
      RepeatPlain(n - 1);
      assert Repeat('a', n)[1..] == Repeat('a', n - 1);
    }
  }

  lemma {:induction false} RepeatThenBackslash(n: nat)
    ensures Ragged(Repeat('a', n) + "\\")
  {
    if n > 0 {
      RepeatThenBackslash(n - 1);
      assert (Repeat('a', n) + "\\")[1..] == Repeat('a', n - 1) + "\\";
    }
  }

  lemma {:induction false} RepeatAt(c: char, n: nat, i: nat)
    requires i < n
    ensures Repeat(c, n)[i] == c
  {
    if i > 0 {
      RepeatAt(c, n - 1, i - 1);
    }
  }

  lemma ExampleEscaped()
    ensures Escape(Repeat('a', 71) + "\"") == Repeat('a', 71) + "\\\""
  {
    RepeatPlain(71);
    EscapeAppend(Repeat('a', 71), "\"");
    assert "\""[1..] == "";
  }

  /** Seventy-one letters and a quote: the hard cut falls between the backslash and the quote, and the
      value does not come back. */
  lemma HardCutExample()
    ensures var value := Repeat('a', 71) + "\"";
            ReadBack(Wrap(Escape(value))) != value
  {
    var value := Repeat('a', 71) + "\"";
    var e := Escape(value);
    ExampleEscaped();
    forall i | 0 <= i < 72
      ensures e[i] != 'n' && e[i] != ' '
    {
      if i < 71 {
        RepeatAt('a', 71, i);
      }
    }
    assert e[..72] == Repeat('a', 71) + "\\";
    RepeatThenBackslash(71);
    RaggedNotWhole(e[..72]);
    ReadOne(e[..72], Wrap(e[72..]));
    RoundTripExactlyWhen(value);
  }
}
