/** What `parse_entries` of `po_fill_slint_contexts.py` reads from a catalogue, line by line and block by block. */
module PoReading {
  import opened Text
  import opened PoWrapping
  import opened PoBlocks
  import opened PoCatalogue

  /** The line starts a value of this kind. */
  predicate Starts(line: string, k: Key) {
    match k
    case Context => "msgctxt " <= line
    case Msgid => "msgid " <= line
    case Msgstr => "msgstr " <= line
  }

  function Keyword(k: Key): (s: string) {
    match k case Context => "msgctxt " case Msgid => "msgid " case Msgstr => "msgstr "
  }

  predicate Continues(line: string) {
    line != "" && line[0] == '"'
  }

  /** Every line of the stretch continues the value before it. */
  predicate AllContinue(lines: seq<string>) {
    forall i :: 0 <= i < |lines| ==> Continues(lines[i])
  }

  predicate NoneStarts(lines: seq<string>, k: Key) {
    forall i :: 0 <= i < |lines| ==> !Starts(lines[i], k)
  }

  function Spelled(lines: seq<string>): (value: string) {
    if lines == [] then "" else Spelled(lines[..|lines| - 1]) + Unquote(lines[|lines| - 1])
  }

  /** The last line that starts a value of the kind, the lines that continue it, and what comes after them. */
  ghost predicate ValueAt(lines: seq<string>, k: Key, i: nat, j: nat) {
    && i < j <= |lines| && Starts(lines[i], k) && NoneStarts(lines[i + 1..], k)
    && AllContinue(lines[i + 1..j]) && (j < |lines| ==> !Continues(lines[j]))
  }

  lemma StartReads(r: Reader, line: string, k: Key)
    requires Starts(line, k)
    ensures ReadLine(r, line).key == Some(k) && Get(ReadLine(r, line).entry, k) == Unquote(line[|Keyword(k)|..])
  {
    OneKeyword(line);
  }

  /** The fourth letter tells the keywords apart. */
  lemma OneKeyword(line: string)
    ensures Starts(line, Context) ==> |line| > 3 && line[3] == 'c'
    ensures Starts(line, Msgid) ==> |line| > 3 && line[3] == 'i'
    ensures Starts(line, Msgstr) ==> |line| > 3 && line[3] == 's'
    ensures Continues(line) ==> forall k :: !Starts(line, k)
  {
    assert Starts(line, Context) ==> line[3] == "msgctxt "[3] && line[0] == "msgctxt "[0];
    assert Starts(line, Msgid) ==> line[3] == "msgid "[3] && line[0] == "msgid "[0];
    assert Starts(line, Msgstr) ==> line[3] == "msgstr "[3] && line[0] == "msgstr "[0];
  }

  lemma {:induction false} ContinuationReads(r: Reader, k: Key, lines: seq<string>)
    requires r.key == Some(k) && AllContinue(lines)
    ensures ReadLines(r, lines).key == Some(k)
    ensures Get(ReadLines(r, lines).entry, k) == Get(r.entry, k) + Spelled(lines)
    decreases |lines|
  {
    if lines == [] {
      assert Get(r.entry, k) + "" == Get(r.entry, k);
    } else {
      var init, last := lines[..|lines| - 1], lines[|lines| - 1];
      ContinuationReads(r, k, init);
      ReadLast(r, lines);
      ContinuesOne(ReadLines(r, init), k, last);
      Appended(Get(r.entry, k), Spelled(init), Unquote(last));
    }
  }

  lemma Appended(a: string, b: string, c: string)
    ensures a + (b + c) == (a + b) + c
  {
  }

  lemma ContinuesOne(r: Reader, k: Key, line: string)
    requires r.key == Some(k) && Continues(line)
    ensures ReadLine(r, line).key == Some(k) && Get(ReadLine(r, line).entry, k) == Get(r.entry, k) + Unquote(line)
  {
    OneKeyword(line);
  }

  lemma ReadLast(r: Reader, lines: seq<string>)
    requires lines != []
    ensures ReadLines(r, lines) == ReadLine(ReadLines(r, lines[..|lines| - 1]), lines[|lines| - 1])
  {
    var init, only := lines[..|lines| - 1], [lines[|lines| - 1]];
    assert lines == init + only && only[1..] == [];
    ReadLinesAppend(r, init, only);
  }

  /** A value that is not open stays as it is until another one of its kind starts. */
  lemma {:induction false} ClosedStays(r: Reader, k: Key, lines: seq<string>)
    requires r.key != Some(k) && NoneStarts(lines, k)
    ensures Get(ReadLines(r, lines).entry, k) == Get(r.entry, k)
    decreases |lines|
  {
    if lines != [] {
      ClosedOne(r, k, lines[0]);
      ClosedStays(ReadLine(r, lines[0]), k, lines[1..]);
    }
  }

  lemma ClosedOne(r: Reader, k: Key, line: string)
    requires r.key != Some(k) && !Starts(line, k)
    ensures ReadLine(r, line).key != Some(k) && Get(ReadLine(r, line).entry, k) == Get(r.entry, k)
  {
  }

  /** A line that neither continues a value nor starts one of the kind closes that kind's value. */
  lemma Closes(r: Reader, k: Key, line: string)
    requires !Continues(line) && !Starts(line, k)
    ensures ReadLine(r, line).key != Some(k) && Get(ReadLine(r, line).entry, k) == Get(r.entry, k)
  {
  }

  lemma AfterValue(r: Reader, k: Key, lines: seq<string>)
    requires NoneStarts(lines, k) && (lines != [] ==> !Continues(lines[0]))
    ensures Get(ReadLines(r, lines).entry, k) == Get(r.entry, k)
  {
    if lines != [] {
      Closes(r, k, lines[0]);
      ClosedStays(ReadLine(r, lines[0]), k, lines[1..]);
    }
  }

  lemma FourParts(lines: seq<string>, i: nat, j: nat)
    requires i < j <= |lines|
    ensures lines == lines[..i] + ([lines[i]] + (lines[i + 1..j] + lines[j..]))
  {
  }

  /** A field of an entry holds the strings quoted on the last line that starts it and on the lines that directly
      continue that one, in order; what else the block says does not matter. */
  lemma FieldReads(lines: seq<string>, k: Key, i: nat, j: nat)
    requires ValueAt(lines, k, i, j)
    ensures Get(ReadLines(Reader(EMPTY, None), lines).entry, k) ==
            Unquote(lines[i][|Keyword(k)|..]) + Spelled(lines[i + 1..j])
  {
    var start := Reader(EMPTY, None);
    var before := ReadLines(start, lines[..i]);
    var opened1 := ReadLine(before, lines[i]);
    var held := ReadLines(opened1, lines[i + 1..j]);
    FourParts(lines, i, j);
    ReadLinesAppend(start, lines[..i], [lines[i]] + (lines[i + 1..j] + lines[j..]));
    ReadFirst(before, lines[i], lines[i + 1..j] + lines[j..]);
    ReadLinesAppend(opened1, lines[i + 1..j], lines[j..]);
    StartReads(before, lines[i], k);
    ContinuationReads(opened1, k, lines[i + 1..j]);
    assert NoneStarts(lines[j..], k) by {
      forall n | 0 <= n < |lines[j..]| ensures !Starts(lines[j..][n], k) {
        assert lines[j..][n] == lines[i + 1..][j - i - 1 + n];
      }
    }
    AfterValue(held, k, lines[j..]);
  }

  /** There is a msgid exactly when a line starts one. */
  lemma {:induction false} MsgidReads(r: Reader, lines: seq<string>)
    requires r.key == Some(Msgid) ==> r.entry.msgid.Some?
    ensures ReadLines(r, lines).entry.msgid.Some? <==> r.entry.msgid.Some? || !NoneStarts(lines, Msgid)
    decreases |lines|
  {
    if lines != [] {
      MsgidOne(r, lines[0]);
      MsgidReads(ReadLine(r, lines[0]), lines[1..]);
      assert NoneStarts(lines, Msgid) <==> !Starts(lines[0], Msgid) && NoneStarts(lines[1..], Msgid) by {
        assert lines == [lines[0]] + lines[1..];
        forall i | 0 < i < |lines| ensures lines[i] == lines[1..][i - 1] {
        }
        forall i | 0 <= i < |lines[1..]| ensures lines[1..][i] == lines[i + 1] {
        }
      }
    }
  }

  lemma MsgidOne(r: Reader, line: string)
    requires r.key == Some(Msgid) ==> r.entry.msgid.Some?
    ensures var q := ReadLine(r, line);
            && (q.entry.msgid.Some? <==> r.entry.msgid.Some? || Starts(line, Msgid))
            && (q.key == Some(Msgid) ==> q.entry.msgid.Some?)
  {
    OneKeyword(line);
  }

  /** An entry of the catalogue is what one of its blocks reads as, and each block with a msgid is one. */
  lemma {:induction false} EntriesAreBlocks(blocks: seq<string>, e: Entry)
    ensures e in ParseEntries(blocks) <==>
            exists b :: b in blocks && ParseBlock(b) == e && !NoneStarts(SplitLines(b), Msgid)
  {
    if blocks != [] {
      EntriesAreBlocks(blocks[1..], e);
      MsgidReads(Reader(EMPTY, None), SplitLines(blocks[0]));
      assert blocks == [blocks[0]] + blocks[1..];
    }
  }
}
