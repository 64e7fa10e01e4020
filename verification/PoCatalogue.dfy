/** Reading catalogue entries (`parse_entries` of `po_fill_slint_contexts.py`) and the entry block that
    `fill` prints. */
module PoCatalogue {
  import opened Text
  import opened SlintContexts
  import opened PoStrings
  import opened PoWrapping
  import opened PoBlocks

  datatype Key = Context | Msgid | Msgstr

  datatype Entry = Entry(context: string, msgid: Option<string>, msgstr: Option<string>)

  /** The line machine: the entry so far and the value that continuation lines belong to. */
  datatype Reader = Reader(entry: Entry, key: Option<Key>)

  const EMPTY: Entry := Entry("", None, None)

  function Put(e: Entry, k: Key, v: string): (f: Entry) {
    match k
    case Context => e.(context := v)
    case Msgid => e.(msgid := Some(v))
    case Msgstr => e.(msgstr := Some(v))
  }

  function Get(e: Entry, k: Key): (v: string) {
    match k
    case Context => e.context
    case Msgid => if e.msgid.Some? then e.msgid.value else ""
    case Msgstr => if e.msgstr.Some? then e.msgstr.value else ""
  }

  function ReadLine(r: Reader, line: string): (q: Reader) {
    if "msgctxt " <= line then Reader(Put(r.entry, Context, Unquote(line[8..])), Some(Context))
    else if "msgid " <= line then Reader(Put(r.entry, Msgid, Unquote(line[6..])), Some(Msgid))
    else if "msgstr " <= line then Reader(Put(r.entry, Msgstr, Unquote(line[7..])), Some(Msgstr))
    else if line != "" && line[0] == '"' && r.key.Some? then
      Reader(Put(r.entry, r.key.value, Get(r.entry, r.key.value) + Unquote(line)), r.key)
    else Reader(r.entry, None)
  }

  function ReadLines(r: Reader, lines: seq<string>): (q: Reader)
    decreases lines
  {
    if lines == [] then r else ReadLines(ReadLine(r, lines[0]), lines[1..])
  }

  function ParseBlock(block: string): (e: Entry) {
    ReadLines(Reader(EMPTY, None), SplitLines(block)).entry
  }

  function One(e: Entry): (es: seq<Entry>) {
    if e.msgid.Some? then [e] else []
  }

  function ParseEntries(blocks: seq<string>): (es: seq<Entry>) {
    if blocks == [] then []
    else One(ParseBlock(blocks[0])) + ParseEntries(blocks[1..])
  }

  function ParseText(text: string): (es: seq<Entry>) {
    ParseEntries(SplitBlocks(text))
  }

  // ---------------------------------------------------------------------------
  // The loops
  // ---------------------------------------------------------------------------

  method ParseOne(block: string) returns (entry: Entry)
    ensures entry == ParseBlock(block)
  {
    entry := EMPTY;
    var key: Option<Key> := None;
    var lines := SplitLines(block);
    var i := 0;
    while i < |lines|
      invariant 0 <= i <= |lines|
      invariant ReadLines(Reader(entry, key), lines[i..]) == ReadLines(Reader(EMPTY, None), lines)
    {
      var line := lines[i];
      ghost var before, rest := Reader(entry, key), lines[i..];
      if "msgctxt " <= line {
        key := Some(Context);
        entry := Put(entry, Context, Unquote(line[8..]));
      } else if "msgid " <= line {
        key := Some(Msgid);
        entry := Put(entry, Msgid, Unquote(line[6..]));
      } else if "msgstr " <= line {
        key := Some(Msgstr);
        entry := Put(entry, Msgstr, Unquote(line[7..]));
      } else if line != "" && line[0] == '"' && key.Some? {
        entry := Put(entry, key.value, Get(entry, key.value) + Unquote(line));
      } else {
        key := None;
      }
      i := i + 1;
      assert Reader(entry, key) == ReadLine(before, line);
      assert rest[0] == line && rest[1..] == lines[i..];
    }
  }

  lemma ParseTurn(blocks: seq<string>, i: nat, entries: seq<Entry>)
    requires i < |blocks|
    ensures entries + ParseEntries(blocks[i..])
         == (entries + One(ParseBlock(blocks[i]))) + ParseEntries(blocks[i + 1..])
  {
    assert blocks[i..][1..] == blocks[i + 1..];
    var one, rest := One(ParseBlock(blocks[i])), ParseEntries(blocks[i + 1..]);
    assert entries + (one + rest) == (entries + one) + rest;
  }

  method ParseAll(blocks: seq<string>) returns (entries: seq<Entry>)
    ensures entries == ParseEntries(blocks)
    ensures forall e :: e in entries ==> e.msgid.Some?
  {
    entries := [];
    var i := 0;
    while i < |blocks|
      invariant 0 <= i <= |blocks|
      invariant entries + ParseEntries(blocks[i..]) == ParseEntries(blocks)
      invariant forall e :: e in entries ==> e.msgid.Some?
    {
      ParseTurn(blocks, i, entries);
      var entry := ParseOne(blocks[i]);
      if entry.msgid.Some? {
        entries := entries + [entry];
      } else {
        assert entries + [] == entries;
      }
      i := i + 1;
    }
  }

  // ---------------------------------------------------------------------------
  // Lists of lines and blocks
  // ---------------------------------------------------------------------------

  lemma ReadFirst(r: Reader, line: string, rest: seq<string>)
    ensures ReadLines(r, [line] + rest) == ReadLines(ReadLine(r, line), rest)
  {
    assert ([line] + rest)[1..] == rest;
  }

  lemma {:induction false} ReadLinesAppend(r: Reader, a: seq<string>, b: seq<string>)
    ensures ReadLines(r, a + b) == ReadLines(ReadLines(r, a), b)
    decreases a
  {
    if a == [] {
      assert a + b == b;
    } else {
      assert a == [a[0]] + a[1..] && a + b == [a[0]] + (a[1..] + b);
      ReadFirst(r, a[0], a[1..]);
      ReadFirst(r, a[0], a[1..] + b);
      ReadLinesAppend(ReadLine(r, a[0]), a[1..], b);
    }
  }

  lemma {:induction false} ParseEntriesAppend(a: seq<string>, b: seq<string>)
    ensures ParseEntries(a + b) == ParseEntries(a) + ParseEntries(b)
  {
    if a == [] {
      assert a + b == b;
    } else {
      ParseEntriesAppend(a[1..], b);
      assert (a + b)[1..] == a[1..] + b && (a + b)[0] == a[0];
    }
  }

  /** A blank line before or after a block changes nothing: it only ends a continuation. */
  lemma BlankAround(b: string)
    ensures ParseBlock(b + "\n") == ParseBlock(b)
    ensures ParseBlock("\n" + b) == ParseBlock(b)
  {
    var start := Reader(EMPTY, None);
    NewlineAtEnd(b);
    ReadLinesAppend(start, SplitLines(b), [""]);
    assert ("\n" + b)[1..] == b;
    assert ([""] + SplitLines(b))[1..] == SplitLines(b);
    assert ReadLine(start, "") == start;
  }

  /** Terminating the last block leaves the entries. */
  lemma TerminatedEntries(bs: seq<string>)
    requires bs != []
    ensures ParseEntries(Terminated(bs)) == ParseEntries(bs)
  {
    var init, last := bs[..|bs| - 1], bs[|bs| - 1];
    assert bs == init + [last];
    ParseEntriesAppend(init, [last]);
    ParseEntriesAppend(init, [last + "\n"]);
    BlankAround(last);
  }

  /** Stitched blocks hold the entries of both sides, in order. */
  lemma StitchedEntries(bs: seq<string>, cs: seq<string>)
    requires bs != [] && cs != []
    requires bs[|bs| - 1] == "" || bs[|bs| - 1][|bs[|bs| - 1]| - 1] == '\n'
    ensures ParseEntries(Stitch(bs, cs)) == ParseEntries(bs) + ParseEntries(cs)
  {
    var init, last := bs[..|bs| - 1], bs[|bs| - 1];
    assert bs == init + [last];
    ParseEntriesAppend(init, [last]);
    if last == "" {
      StitchedBehindEmpty(init, cs);
    } else {
      var cutLast := last[..|last| - 1];
      assert last == cutLast + "\n";
      BlankAround(cutLast);
      assert Stitch(bs, cs) == init + [cutLast] + cs;
      ParseEntriesAppend(init + [cutLast], cs);
      ParseEntriesAppend(init, [cutLast]);
    }
  }

  lemma StitchedBehindEmpty(init: seq<string>, cs: seq<string>)
    requires cs != []
    ensures ParseEntries(init + ["\n" + cs[0]] + cs[1..]) == ParseEntries(init) + ParseEntries([""]) + ParseEntries(cs)
  {
    var first := "\n" + cs[0];
    BlankAround(cs[0]);
    assert ParseBlock("") == EMPTY;
    FirstEntries(init, first, cs[1..]);
    ParseEntriesAppend([cs[0]], cs[1..]);
    assert [cs[0]] + cs[1..] == cs;
    assert ParseEntries(init) + [] == ParseEntries(init);
  }

  lemma FirstEntries(init: seq<string>, b: string, cs: seq<string>)
    ensures ParseEntries(init + [b] + cs) == ParseEntries(init) + (ParseEntries([b]) + ParseEntries(cs))
  {
    ParseEntriesAppend(init + [b], cs);
    ParseEntriesAppend(init, [b]);
  }

  lemma {:induction false} LastBlockOfTerminated(s: string)
    requires s == "" || s[|s| - 1] == '\n'
    ensures var bs := SplitBlocks(s); var last := bs[|bs| - 1]; last == "" || last[|last| - 1] == '\n'
  {
    if s != "" {
      if |s| >= 2 && s[0] == '\n' && s[1] == '\n' {
        LastBlockOfTerminated(s[2..]);
      } else {
        LastBlockOfTerminated(s[1..]);
        if s[1..] == "" {
          PushEmpty('\n', []);
        }
      }
    }
  }

  function Terminate(text: string): (t: string) {
    if text != "" && text[|text| - 1] == '\n' then text else text + "\n"
  }

  /** Blocks appended behind an existing text add their entries and disturb none. */
  lemma AppendedEntries(text: string, rest: string)
    requires rest != "" && rest[0] != '\n'
    ensures ParseText(Terminate(text) + "\n" + rest) == ParseText(text) + ParseText(rest)
  {
    var t := Terminate(text);
    AppendedBlocks(t, rest);
    LastBlockOfTerminated(t);
    StitchedEntries(SplitBlocks(t), SplitBlocks(rest));
    if t != text {
      TerminateLastBlock(text);
      TerminatedEntries(SplitBlocks(text));
    }
  }

  // ---------------------------------------------------------------------------
  // One printed entry
  // ---------------------------------------------------------------------------

  const COMMENT: string := "#. Same source text as another catalog entry"

  /** The block that `fill` prints, its comment included. */
  function BlockText(context: string, msgid: string, msgstr: string): (s: string) {
    COMMENT + "\n" + "msgctxt " + Quoted(context) + "\n" + "msgid " + PoText(msgid) + "\n" + "msgstr " + PoText(msgstr)
  }

  function Prefixed(p: string, lines: seq<string>): (ls: seq<string>)
    requires lines != []
  {
    [p + lines[0]] + lines[1..]
  }

  function ValueLines(p: string, value: string): (ls: seq<string>)
    ensures ls != []
  {
    Prefixed(p, QuoteAll(Wrap(Escape(value))))
  }

  /** An entry as lines: its values come in parts, one to a line. */
  function EntryLines(context: string, ids: seq<string>, strs: seq<string>): (ls: seq<string>)
    requires ids != [] && strs != []
  {
    [COMMENT, "msgctxt " + Quoted(context)]
    + (Prefixed("msgid ", QuoteAll(ids)) + Prefixed("msgstr ", QuoteAll(strs)))
  }

  function BlockLines(context: string, msgid: string, msgstr: string): (ls: seq<string>) {
    EntryLines(context, Wrap(Escape(msgid)), Wrap(Escape(msgstr)))
  }

  lemma {:induction false} JoinAppend(sep: string, a: seq<string>, b: seq<string>)
    requires a != [] && b != []
    ensures Join(sep, a + b) == Join(sep, a) + sep + Join(sep, b)
  {
    assert (a + b)[1..] == a[1..] + b;
    if |a| == 1 {
      assert a[1..] + b == b;
    } else {
      JoinAppend(sep, a[1..], b);
      var x, y, z := a[0], Join(sep, a[1..]), Join(sep, b);
      assert x + sep + (y + sep + z) == (x + sep + y) + sep + z;
    }
  }

  lemma JoinPrefixed(sep: string, p: string, lines: seq<string>)
    requires lines != []
    ensures Join(sep, Prefixed(p, lines)) == p + Join(sep, lines)
  {
    assert Prefixed(p, lines)[1..] == lines[1..];
    if |lines| > 1 {
      var y := Join(sep, lines[1..]);
      assert (p + lines[0]) + sep + y == p + (lines[0] + sep + y);
    }
  }

  lemma BlockIsItsLines(context: string, msgid: string, msgstr: string)
    ensures Join("\n", BlockLines(context, msgid, msgstr)) == BlockText(context, msgid, msgstr)
  {
    var ids, strs := ValueLines("msgid ", msgid), ValueLines("msgstr ", msgstr);
    JoinPrefixed("\n", "msgid ", QuoteAll(Wrap(Escape(msgid))));
    JoinPrefixed("\n", "msgstr ", QuoteAll(Wrap(Escape(msgstr))));
    JoinAppend("\n", ids, strs);
    var head, ctx := [COMMENT], ["msgctxt " + Quoted(context)];
    JoinAppend("\n", head + ctx, ids + strs);
    JoinAppend("\n", head, ctx);
    assert head + ctx == [COMMENT, "msgctxt " + Quoted(context)];
    NestedPlus("msgctxt ", Quoted(context), "msgid ", PoText(msgid), "msgstr ", PoText(msgstr));
  }

  lemma NestedPlus(b: string, x: string, c: string, y: string, d: string, z: string)
    ensures COMMENT + "\n" + (b + x) + "\n" + (c + y) + "\n" + (d + z)
         == COMMENT + "\n" + b + x + "\n" + c + y + "\n" + d + z
  {
    PlusStep(COMMENT + "\n", b, x);
    PlusStep(COMMENT + "\n" + b + x + "\n", c, y);
    PlusStep(COMMENT + "\n" + b + x + "\n" + c + y + "\n", d, z);
  }

  lemma PlusStep(a: string, b: string, c: string)
    ensures a + (b + c) == a + b + c
  {
  }

  /** A context as the component pattern captures it: word characters only. */
  predicate PlainContext(context: string) {
    forall i :: 0 <= i < |context| ==> context[i] != '"' && context[i] != '\\' && !IsBreak(context[i])
  }

  /** No line separator but the newline. */
  predicate OnlyNewlines(value: string) {
    forall i :: 0 <= i < |value| ==> value[i] == '\n' || !IsBreak(value[i])
  }

  lemma {:induction false} PlainContextReads(context: string)
    requires PlainContext(context)
    ensures Whole(context) && Unescape(context) == context
  {
    if context != "" {
      PlainContextReads(context[1..]);
      assert [context[0]] + context[1..] == context;
    }
  }

  lemma {:induction false} EscapeUnbroken(value: string)
    requires OnlyNewlines(value)
    ensures Unbroken(Escape(value))
  {
    if value != "" {
      EscapeUnbroken(value[1..]);
    }
  }

  lemma {:induction false} WrapUnbroken(rest: string)
    requires Unbroken(rest)
    ensures GoodLines(QuoteAll(Wrap(rest)))
  {
    if |rest| <= WIDTH {
    } else {
      var k := CutAt(rest);
      WrapUnbroken(rest[k..]);
      assert Wrap(rest)[1..] == Wrap(rest[k..]);
      assert QuoteAll(Wrap(rest)) == [Quoted(rest[..k])] + QuoteAll(Wrap(rest[k..]));
      assert QuoteAll(Wrap(rest))[1..] == QuoteAll(Wrap(rest[k..]));
    }
  }

  lemma BlockLinesAreGood(context: string, msgid: string, msgstr: string)
    requires PlainContext(context) && OnlyNewlines(msgid) && OnlyNewlines(msgstr)
    ensures GoodLines(BlockLines(context, msgid, msgstr))
  {
    ValueLinesAreGood("msgid ", msgid);
    ValueLinesAreGood("msgstr ", msgstr);
    EntryLinesAreGood(context, Wrap(Escape(msgid)), Wrap(Escape(msgstr)));
  }

  lemma EntryLinesAreGood(context: string, ids: seq<string>, strs: seq<string>)
    requires PlainContext(context) && ids != [] && strs != []
    requires GoodLines(Prefixed("msgid ", QuoteAll(ids))) && GoodLines(Prefixed("msgstr ", QuoteAll(strs)))
    ensures GoodLines(EntryLines(context, ids, strs))
  {
    var first, second := Prefixed("msgid ", QuoteAll(ids)), Prefixed("msgstr ", QuoteAll(strs));
    GoodLinesAppend(first, second);
    HeaderIsGood(context);
    GoodLinesAppend([COMMENT, "msgctxt " + Quoted(context)], first + second);
  }

  lemma CommentIsGood()
    ensures COMMENT != "" && Unbroken(COMMENT)
  {
  }

  lemma HeaderIsGood(context: string)
    requires Unbroken(context)
    ensures GoodLines([COMMENT, "msgctxt " + Quoted(context)])
  {
    var ctx := "msgctxt " + Quoted(context);
    var lines := [COMMENT, ctx];
    CommentIsGood();
    assert Unbroken("msgctxt ");
    assert lines[1..] == [ctx];
    assert GoodLines(lines[1..]) by {
      assert lines[1..][1..] == [];
    }
  }

  lemma ValueLinesAreGood(p: string, value: string)
    requires OnlyNewlines(value) && Unbroken(p)
    ensures GoodLines(ValueLines(p, value))
  {
    EscapeUnbroken(value);
    WrapUnbroken(Escape(value));
    var lines := QuoteAll(Wrap(Escape(value)));
    assert ValueLines(p, value)[1..] == lines[1..];
  }

  /** Continuation lines are appended to the value in progress. */
  lemma {:induction false} ContinuationReads(e: Entry, k: Key, lines: seq<string>)
    requires Put(e, k, Get(e, k)) == e
    ensures ReadLines(Reader(e, Some(k)), QuoteAll(lines)) == Reader(Put(e, k, Get(e, k) + ReadBack(lines)), Some(k))
    decreases lines
  {
    if lines == [] {
      assert Get(e, k) + "" == Get(e, k);
    } else {
      var line := Quoted(lines[0]);
      assert line[0] == '"';
      var f := Put(e, k, Get(e, k) + Unquote(line));
      assert ReadLine(Reader(e, Some(k)), line) == Reader(f, Some(k));
      assert QuoteAll(lines)[1..] == QuoteAll(lines[1..]);
      ContinuationReads(f, k, lines[1..]);
      PlusStep(Get(e, k), Unquote(line), ReadBack(lines[1..]));
    }
  }

  lemma MsgidReads(r: Reader, lines: seq<string>)
    requires lines != []
    ensures ReadLines(r, Prefixed("msgid ", QuoteAll(lines)))
         == Reader(r.entry.(msgid := Some(ReadBack(lines))), Some(Msgid))
  {
    var first := "msgid " + Quoted(lines[0]);
    assert first[6..] == Quoted(lines[0]);
    assert Prefixed("msgid ", QuoteAll(lines))[1..] == QuoteAll(lines[1..]);
    var e := r.entry.(msgid := Some(Unquote(Quoted(lines[0]))));
    assert first[3] == 'i';
    assert ReadLine(r, first) == Reader(e, Some(Msgid));
    ContinuationReads(e, Msgid, lines[1..]);
  }

  lemma MsgstrReads(r: Reader, lines: seq<string>)
    requires lines != []
    ensures ReadLines(r, Prefixed("msgstr ", QuoteAll(lines)))
         == Reader(r.entry.(msgstr := Some(ReadBack(lines))), Some(Msgstr))
  {
    var first := "msgstr " + Quoted(lines[0]);
    assert first[7..] == Quoted(lines[0]);
    assert Prefixed("msgstr ", QuoteAll(lines))[1..] == QuoteAll(lines[1..]);
    var e := r.entry.(msgstr := Some(Unquote(Quoted(lines[0]))));
    assert first[3] == 's';
    assert ReadLine(r, first) == Reader(e, Some(Msgstr));
    ContinuationReads(e, Msgstr, lines[1..]);
  }

  lemma CommentReads(r: Reader)
    ensures ReadLine(r, COMMENT) == Reader(r.entry, None)
  {
    assert COMMENT[0] == '#';
  }

  lemma HeaderReads(context: string)
    requires PlainContext(context)
    ensures ReadLines(Reader(EMPTY, None), [COMMENT, "msgctxt " + Quoted(context)])
         == Reader(Entry(context, None, None), Some(Context))
  {
    var start, ctx := Reader(EMPTY, None), "msgctxt " + Quoted(context);
    PlainContextReads(context);
    WholeLineReads(context);
    CommentReads(start);
    assert ctx[8..] == Quoted(context);
    ReadLinesAppend(start, [COMMENT], [ctx]);
    assert [COMMENT] + [ctx] == [COMMENT, ctx];
  }

  /** An entry reads as what its lines read back as, however its values are cut. */
  lemma EntryLinesRead(context: string, ids: seq<string>, strs: seq<string>)
    requires PlainContext(context) && ids != [] && strs != [] && GoodLines(EntryLines(context, ids, strs))
    ensures ParseBlock(Join("\n", EntryLines(context, ids, strs)))
         == Entry(context, Some(ReadBack(ids)), Some(ReadBack(strs)))
  {
    var start := Reader(EMPTY, None);
    var header := [COMMENT, "msgctxt " + Quoted(context)];
    var first, second := Prefixed("msgid ", QuoteAll(ids)), Prefixed("msgstr ", QuoteAll(strs));
    LinesComeBack(EntryLines(context, ids, strs));
    ReadLinesAppend(start, header, first + second);
    HeaderReads(context);
    var r := Reader(Entry(context, None, None), Some(Context));
    ReadLinesAppend(r, first, second);
    MsgidReads(r, ids);
    MsgstrReads(ReadLines(r, first), strs);
  }

  /** What reading a printed block yields, for every value without odd line separators. */
  lemma BlockReads(context: string, msgid: string, msgstr: string)
    requires PlainContext(context) && OnlyNewlines(msgid) && OnlyNewlines(msgstr)
    ensures ParseBlock(BlockText(context, msgid, msgstr))
         == Entry(context, Some(ReadBack(Wrap(Escape(msgid)))), Some(ReadBack(Wrap(Escape(msgstr)))))
  {
    BlockIsItsLines(context, msgid, msgstr);
    BlockLinesAreGood(context, msgid, msgstr);
    EntryLinesRead(context, Wrap(Escape(msgid)), Wrap(Escape(msgstr)));
  }

  lemma BlockIsSolid(context: string, msgid: string, msgstr: string)
    requires PlainContext(context) && OnlyNewlines(msgid) && OnlyNewlines(msgstr)
    ensures var b := BlockText(context, msgid, msgstr); SolidTail(b) && b[0] != '\n'
  {
    BlockIsItsLines(context, msgid, msgstr);
    BlockLinesAreGood(context, msgid, msgstr);
    JoinedLinesAreSolid(BlockLines(context, msgid, msgstr));
  }
}
