/** Cutting a catalogue into blocks and lines (`text.split("\n\n")` and `str.splitlines`), and putting
    blocks after existing text. */
module PoBlocks {
  import opened Text

  /** `s.split("\n\n")`. */
  function SplitBlocks(s: string): (blocks: seq<string>)
    ensures blocks != []
  {
    if s == "" then [""]
    else if |s| >= 2 && s[0] == '\n' && s[1] == '\n' then [""] + SplitBlocks(s[2..])
    else Push(s[0], SplitBlocks(s[1..]))
  }

  /** The line boundaries of Python's `str.splitlines`. */
  predicate IsBreak(c: char) {
    || '\n' <= c <= '\r'
    || '\U{001C}' <= c <= '\U{001E}'
    || c == '\U{0085}'
    || c == '\U{2028}'
    || c == '\U{2029}'
  }

  /** `s.splitlines()`; text mode has already turned carriage returns into newlines. */
  function SplitLines(s: string): (lines: seq<string>) {
    if s == "" then []
    else if IsBreak(s[0]) then [""] + SplitLines(s[1..])
    else Push(s[0], SplitLines(s[1..]))
  }

  predicate Unbroken(s: string) {
    forall i :: 0 <= i < |s| ==> !IsBreak(s[i])
  }

  // ---------------------------------------------------------------------------
  // Lines
  // ---------------------------------------------------------------------------

  predicate GoodLines(lines: seq<string>) {
    if lines == [] then true else lines[0] != "" && Unbroken(lines[0]) && GoodLines(lines[1..])
  }

  lemma {:induction false} GoodLinesAppend(a: seq<string>, b: seq<string>)
    requires GoodLines(a) && GoodLines(b)
    ensures GoodLines(a + b)
  {
    if a == [] {
      assert a + b == b;
    } else {
      GoodLinesAppend(a[1..], b);
      assert (a + b)[1..] == a[1..] + b;
    }
  }

  lemma {:induction false} OneLine(line: string)
    requires line != "" && Unbroken(line)
    ensures SplitLines(line) == [line]
  {
    if |line| == 1 {
      assert line[1..] == "" && line == [line[0]];
      assert SplitLines(line[1..]) == [];
    } else {
      OneLine(line[1..]);
      assert [line[0]] + line[1..] == line;
    }
  }

  lemma {:induction false} LineThenRest(line: string, rest: string)
    requires Unbroken(line)
    ensures SplitLines(line + "\n" + rest) == [line] + SplitLines(rest)
  {
    var s := line + "\n" + rest;
    if line == "" {
      assert s[1..] == rest;
    } else {
      LineThenRest(line[1..], rest);
      assert s[1..] == line[1..] + "\n" + rest;
      assert [line[0]] + line[1..] == line;
      assert ([line[1..]] + SplitLines(rest))[1..] == SplitLines(rest);
    }
  }

  lemma {:induction false} LinesComeBack(lines: seq<string>)
    requires GoodLines(lines)
    ensures SplitLines(Join("\n", lines)) == lines
  {
    if |lines| == 1 {
      OneLine(lines[0]);
    } else if |lines| > 1 {
      LinesComeBack(lines[1..]);
      LineThenRest(lines[0], Join("\n", lines[1..]));
    }
  }

  /** A newline at the end adds at most an empty line. */
  lemma {:induction false} NewlineAtEnd(s: string)
    ensures SplitLines(s + "\n") == SplitLines(s) || SplitLines(s + "\n") == SplitLines(s) + [""]
  {
    if s == "" {
      assert (s + "\n")[1..] == "";
    } else {
      NewlineAtEnd(s[1..]);
      assert (s + "\n")[1..] == s[1..] + "\n";
      var before, after := SplitLines(s[1..]), SplitLines(s[1..] + "\n");
      assert (s + "\n")[0] == s[0];
      if IsBreak(s[0]) {
        assert [""] + (before + [""]) == [""] + before + [""];
      } else if before != [] && after == before + [""] {
        assert Push(s[0], after) == Push(s[0], before) + [""];
      } else if before == [] {
        assert s[1..] == "" && s[1..] + "\n" == "\n" && "\n"[1..] == "";
        PushEmpty(s[0], []);
      }
    }
  }

  // ---------------------------------------------------------------------------
  // Blocks
  // ---------------------------------------------------------------------------

  /** No two newlines meet, at either end or inside. */
  predicate Solid(s: string) {
    if s == "" then false
    else if |s| == 1 then s[0] != '\n'
    else (s[0] != '\n' || s[1] != '\n') && SolidTail(s[1..]) && s[0] != '\n'
  }

  /** What may follow the first character of a solid block. */
  predicate SolidTail(s: string) {
    if s == "" then false
    else if |s| == 1 then s[0] != '\n'
    else (s[0] != '\n' || s[1] != '\n') && SolidTail(s[1..])
  }

  lemma {:induction false} TailAppend(a: string, b: string)
    requires a != "" && SolidTail(b) && b[0] != '\n'
    requires forall i :: 0 <= i < |a| - 1 ==> a[i] != '\n' || a[i + 1] != '\n'
    ensures SolidTail(a + b)
  {
    assert (a + b)[1..] == a[1..] + b;
    if |a| == 1 {
      assert a[1..] + b == b;
    } else {
      TailAppend(a[1..], b);
    }
  }

  lemma {:induction false} LineIsSolid(line: string)
    requires line != "" && Unbroken(line)
    ensures SolidTail(line) && Solid(line)
  {
    if |line| > 1 {
      LineIsSolid(line[1..]);
    }
  }

  lemma {:induction false} JoinedLinesAreSolid(lines: seq<string>)
    requires lines != [] && GoodLines(lines)
    ensures SolidTail(Join("\n", lines)) && Join("\n", lines)[0] != '\n'
  {
    LineIsSolid(lines[0]);
    if |lines| > 1 {
      var rest := Join("\n", lines[1..]);
      JoinedLinesAreSolid(lines[1..]);
      TailAppend(lines[0] + "\n", rest);
    }
  }

  /** The same blocks with the last one terminated. */
  function Terminated(bs: seq<string>): (ts: seq<string>)
    requires bs != []
  {
    bs[..|bs| - 1] + [bs[|bs| - 1] + "\n"]
  }

  lemma {:induction false} OneBlock(b: string)
    requires SolidTail(b)
    ensures SplitBlocks(b) == [b]
  {
    if |b| == 1 {
      assert b[1..] == "" && b == [b[0]];
      PushEmpty(b[0], []);
    } else {
      OneBlock(b[1..]);
      assert [b[0]] + b[1..] == b;
    }
  }

  lemma {:induction false} BlockThenRest(b: string, rest: string)
    requires SolidTail(b)
    ensures SplitBlocks(b + "\n\n" + rest) == [b] + SplitBlocks(rest)
  {
    var s := b + "\n\n" + rest;
    if |b| == 1 {
      assert s[1..] == "\n\n" + rest && s[1..][2..] == rest && b == [b[0]];
      PushEmpty(s[0], SplitBlocks(rest));
    } else {
      BlockThenRest(b[1..], rest);
      assert s[1..] == b[1..] + "\n\n" + rest;
      assert [b[0]] + b[1..] == b;
    }
  }

  predicate AllSolid(blocks: seq<string>) {
    if blocks == [] then true
    else SolidTail(blocks[0]) && blocks[0][0] != '\n' && AllSolid(blocks[1..])
  }

  lemma {:induction false} BlocksComeBack(blocks: seq<string>)
    requires blocks != [] && AllSolid(blocks)
    ensures SplitBlocks(Join("\n\n", blocks)) == blocks
    ensures var s := Join("\n\n", blocks); s != "" && s[0] != '\n' && s[|s| - 1] != '\n'
  {
    SolidEnds(blocks[0]);
    if |blocks| == 1 {
      OneBlock(blocks[0]);
    } else {
      BlocksComeBack(blocks[1..]);
      BlockThenRest(blocks[0], Join("\n\n", blocks[1..]));
    }
  }

  lemma {:induction false} SolidEnds(b: string)
    requires SolidTail(b)
    ensures b[|b| - 1] != '\n'
  {
    if |b| > 1 {
      SolidEnds(b[1..]);
    }
  }

  /** The blocks of a text whose last line is now terminated. */
  lemma {:induction false} TerminateLastBlock(s: string)
    requires s == "" || s[|s| - 1] != '\n'
    ensures SplitBlocks(s + "\n") == Terminated(SplitBlocks(s))
  {
    var t := s + "\n";
    if s == "" {
      assert t == "\n";
      assert t[1..] == "";
      PushEmpty('\n', []);
    } else if |s| >= 2 && s[0] == '\n' && s[1] == '\n' {
      TerminateLastBlock(s[2..]);
      assert t[2..] == s[2..] + "\n";
      TerminatedFront(SplitBlocks(s[2..]));
    } else {
      TerminateLastBlock(s[1..]);
      assert t[1..] == s[1..] + "\n";
      PushTerminated(s[0], SplitBlocks(s[1..]));
    }
  }

  lemma TerminatedFront(bs: seq<string>)
    requires bs != []
    ensures Terminated([""] + bs) == [""] + Terminated(bs)
  {
    assert ([""] + bs)[..|bs|] == [""] + bs[..|bs| - 1];
  }

  lemma PushTerminated(c: char, bs: seq<string>)
    requires bs != []
    ensures Push(c, Terminated(bs)) == Terminated(Push(c, bs))
  {
    if |bs| == 1 {
      assert [c] + (bs[0] + "\n") == [c] + bs[0] + "\n";
    }
  }

  /** Two lists of blocks as they meet: the newline between them ends the last block of the first
      list, or starts the first block of the second. */
  function Stitch(bs: seq<string>, cs: seq<string>): (ds: seq<string>)
    requires bs != [] && cs != []
  {
    var last := bs[|bs| - 1];
    if last == "" then bs[..|bs| - 1] + ["\n" + cs[0]] + cs[1..]
    else bs[..|bs| - 1] + [last[..|last| - 1]] + cs
  }

  /** Text appended behind a newline keeps every block of both sides. */
  lemma {:induction false} AppendedBlocks(s: string, rest: string)
    requires s == "" || s[|s| - 1] == '\n'
    requires rest != "" && rest[0] != '\n'
    ensures SplitBlocks(s + "\n" + rest) == Stitch(SplitBlocks(s), SplitBlocks(rest))
  {
    var t := s + "\n" + rest;
    if s == "" {
      assert t[1..] == rest;
    } else if |s| == 1 {
      assert s == "\n" && s[1..] == "" && t[2..] == rest;
    } else if s[0] == '\n' && s[1] == '\n' {
      AppendedBlocks(s[2..], rest);
      assert t[2..] == s[2..] + "\n" + rest;
      StitchFront(SplitBlocks(s[2..]), SplitBlocks(rest));
    } else {
      AppendedBlocks(s[1..], rest);
      assert t[1..] == s[1..] + "\n" + rest;
      StitchPush(s[0], SplitBlocks(s[1..]), SplitBlocks(rest));
    }
  }

  lemma StitchFront(bs: seq<string>, cs: seq<string>)
    requires bs != [] && cs != []
    ensures Stitch([""] + bs, cs) == [""] + Stitch(bs, cs)
  {
    assert ([""] + bs)[..|bs|] == [""] + bs[..|bs| - 1];
  }

  lemma StitchPush(c: char, bs: seq<string>, cs: seq<string>)
    requires bs != [] && cs != []
    requires |bs| == 1 ==> bs[0] != ""
    ensures Stitch(Push(c, bs), cs) == Push(c, Stitch(bs, cs))
  {
    if |bs| == 1 {
      assert ([c] + bs[0])[..|bs[0]|] == [c] + bs[0][..|bs[0]| - 1];
    }
  }
}
