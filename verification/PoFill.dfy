/** The whole-file pass of `po_fill_slint_contexts.py` (`fill`): which entries are added, what the new
    file reads as, and what a second run finds. */
module PoFill {
  import opened Text
  import opened PoStrings
  import opened PoWrapping
  import opened PoBlocks
  import opened PoCatalogue
  import opened PoOrder

  // ---------------------------------------------------------------------------
  // Counting translations
  // ---------------------------------------------------------------------------

  predicate Translated(e: Entry) {
    e.msgid.Some? && e.msgstr.Some? && e.msgstr.value != ""
  }

  /** How many entries translate `msgid` as `msgstr`. */
  function Count(es: seq<Entry>, msgid: string, msgstr: string): (n: nat) {
    if es == [] then 0
    else Count(es[..|es| - 1], msgid, msgstr) + if Shows(es[|es| - 1], msgid, msgstr) then 1 else 0
  }

  predicate Shows(e: Entry, msgid: string, msgstr: string) {
    e.msgid == Some(msgid) && e.msgstr == Some(msgstr) && msgstr != ""
  }

  type Counter = map<string, nat>

  function Bump(c: Counter, s: string): (d: Counter) {
    c[s := 1 + if s in c then c[s] else 0]
  }

  function TallyOne(t: map<string, Counter>, e: Entry): (u: map<string, Counter>) {
    if !Translated(e) then t
    else t[e.msgid.value := Bump(if e.msgid.value in t then t[e.msgid.value] else map[], e.msgstr.value)]
  }

  function Tally(es: seq<Entry>): (t: map<string, Counter>) {
    if es == [] then map[] else TallyOne(Tally(es[..|es| - 1]), es[|es| - 1])
  }

  /** The counters hold exactly the translations that occur, with their numbers. */
  lemma {:induction false} TallyCounts(es: seq<Entry>, msgid: string, msgstr: string)
    ensures msgid in Tally(es) && msgstr in Tally(es)[msgid] <==> Count(es, msgid, msgstr) > 0
    ensures msgid in Tally(es) && msgstr in Tally(es)[msgid] ==> Tally(es)[msgid][msgstr] == Count(es, msgid, msgstr)
    ensures msgid in Tally(es) ==> Tally(es)[msgid] != map[]
  {
    if es != [] {
      TallyCounts(es[..|es| - 1], msgid, msgstr);
    }
  }

  lemma {:induction false} TalliedMsgids(es: seq<Entry>, msgid: string)
    ensures msgid in Tally(es) <==> exists e :: e in es && Translated(e) && e.msgid == Some(msgid)
  {
    if es != [] {
      var init, last := es[..|es| - 1], es[|es| - 1];
      TalliedMsgids(init, msgid);
      assert es == init + [last];
      assert last in es;
    }
  }

  /** The pairs that already have a translation. */
  function Existing(es: seq<Entry>): (pairs: set<(string, string)>) {
    set e | e in es && Translated(e) :: (e.context, e.msgid.value)
  }

  // ---------------------------------------------------------------------------
  // The chosen translation
  // ---------------------------------------------------------------------------

  predicate Beats(c: Counter, a: string, b: string)
    requires a in c && b in c
  {
    c[a] > c[b] || (c[a] == c[b] && LexLeq(a, b))
  }

  /** First of the choices sorted by falling count, then by text. */
  predicate IsBest(c: Counter, b: string) {
    b in c && forall s :: s in c ==> Beats(c, b, s)
  }

  lemma BestIsUnique(c: Counter, a: string, b: string)
    requires IsBest(c, a) && IsBest(c, b)
    ensures a == b
  {
    assert Beats(c, a, b) && Beats(c, b, a);
    LexTotal(a, b);
  }

  method PickBest(c: Counter) returns (best: string)
    requires c != map[]
    ensures IsBest(c, best)
  {
    best :| best in c;
    var rest := c.Keys - {best};
    LexTotal(best, best);
    while rest != {}
      invariant best in c && rest <= c.Keys
      invariant forall s :: s in c && s !in rest ==> Beats(c, best, s)
      decreases rest
    {
      var s :| s in rest;
      rest := rest - {s};
      LexTotal(best, s);
      LexTotal(s, s);
      if !Beats(c, best, s) {
        forall r | r in c && r !in rest
          ensures Beats(c, s, r)
        {
          if r != s {
            assert Beats(c, best, r);
            if c[s] == c[best] == c[r] {
              LexTransitive(s, best, r);
            }
          }
        }
        best := s;
      }
    }
  }

  lemma {:induction false} BestAmong(c: Counter, keys: set<string>) returns (best: string)
    requires keys != {} && keys <= c.Keys
    ensures best in keys && forall s :: s in keys ==> Beats(c, best, s)
    decreases keys
  {
    var k :| k in keys;
    var rest := keys - {k};
    LexTotal(k, k);
    assert keys == rest + {k};
    if rest == {} {
      return k;
    }
    var b := BestAmong(c, rest);
    LexTotal(b, k);
    if Beats(c, b, k) {
      return b;
    }
    forall s | s in keys
      ensures Beats(c, k, s)
    {
      if s != k {
        assert Beats(c, b, s);
        if c[k] == c[b] == c[s] {
          LexTransitive(k, b, s);
        }
      }
    }
    return k;
  }

  lemma BestExists(c: Counter)
    requires c != map[]
    ensures exists b :: IsBest(c, b)
  {
    var b := BestAmong(c, c.Keys);
    assert IsBest(c, b);
  }

  ghost function Best(c: Counter): (b: string)
    requires c != map[]
    ensures IsBest(c, b)
  {
    BestExists(c);
    var b :| IsBest(c, b);
    b
  }

  /** The copied translation is one that occurs, none occurs more often, and ties go to the first text. */
  lemma BestIsMostFrequent(es: seq<Entry>, msgid: string, other: string)
    requires msgid in Tally(es) && Tally(es)[msgid] != map[]
    ensures var best := Best(Tally(es)[msgid]);
            Count(es, msgid, best) > 0
            && (Count(es, msgid, other) < Count(es, msgid, best)
                || (Count(es, msgid, other) == Count(es, msgid, best) && LexLeq(best, other)))
  {
    var c := Tally(es)[msgid];
    var best := Best(c);
    TallyCounts(es, msgid, best);
    TallyCounts(es, msgid, other);
    if other in c {
      assert Beats(c, best, other);
    }
  }

  // ---------------------------------------------------------------------------
  // What is added
  // ---------------------------------------------------------------------------

  ghost function AddedFor(es: seq<Entry>, pair: (string, string)): (added: seq<Entry>) {
    if pair in Existing(es) || pair.1 !in Tally(es) || Tally(es)[pair.1] == map[] then []
    else [Entry(pair.0, Some(pair.1), Some(Best(Tally(es)[pair.1])))]
  }

  /** The entries added for the wanted pairs, in their order. */
  ghost function Added(es: seq<Entry>, wanted: seq<(string, string)>): (added: seq<Entry>) {
    if wanted == [] then [] else Added(es, wanted[..|wanted| - 1]) + AddedFor(es, wanted[|wanted| - 1])
  }

  function EntryBlock(e: Entry): (s: string) {
    BlockText(e.context, Get(e, Msgid), Get(e, Msgstr))
  }

  function EntryBlocks(es: seq<Entry>): (bs: seq<string>)
    ensures |bs| == |es|
  {
    if es == [] then [] else EntryBlocks(es[..|es| - 1]) + [EntryBlock(es[|es| - 1])]
  }

  ghost function Filled(text: string, wanted: seq<(string, string)>): (out: string) {
    var added := Added(ParseText(text), wanted);
    if added == [] then text else Terminate(text) + "\n" + Join("\n\n", EntryBlocks(added)) + "\n"
  }

  method PrintEntry(context: string, msgid: string, best: string) returns (block: string)
    ensures block == BlockText(context, msgid, best)
    ensures "#. Same source text as another catalog entry\n" <= block
  {
    var idText := AsPoString(msgid);
    var strText := AsPoString(best);
    block := COMMENT + "\n" + "msgctxt " + Quoted(context) + "\n" + "msgid " + idText + "\n" + "msgstr " + strText;
  }

  method Collect(entries: seq<Entry>) returns (translations: map<string, Counter>, existing: set<(string, string)>)
    ensures translations == Tally(entries) && existing == Existing(entries)
  {
    translations, existing := map[], {};
    var i := 0;
    while i < |entries|
      invariant 0 <= i <= |entries|
      invariant translations == Tally(entries[..i])
      invariant existing == Existing(entries[..i])
    {
      var entry := entries[i];
      CollectTurn(entries, i);
      if entry.msgid.Some? && entry.msgstr.Some? && entry.msgstr.value != "" {
        var counter := if entry.msgid.value in translations then translations[entry.msgid.value] else map[];
        translations := translations[entry.msgid.value := Bump(counter, entry.msgstr.value)];
        existing := existing + {(entry.context, entry.msgid.value)};
      }
      i := i + 1;
    }
    assert entries[..i] == entries;
  }

  lemma CollectTurn(es: seq<Entry>, i: nat)
    requires i < |es|
    ensures Tally(es[..i + 1]) == TallyOne(Tally(es[..i]), es[i])
    ensures Existing(es[..i + 1]) ==
            Existing(es[..i]) + if Translated(es[i]) then {(es[i].context, es[i].msgid.value)} else {}
  {
    var next := es[..i + 1];
    assert next[..i] == es[..i];
    assert forall e :: e in next <==> e in es[..i] || e == es[i] by {
      assert next == es[..i] + [es[i]];
    }
  }

  lemma AddedGrows(es: seq<Entry>, wanted: seq<(string, string)>, i: nat)
    requires i < |wanted|
    ensures Added(es, wanted[..i + 1]) == Added(es, wanted[..i]) + AddedFor(es, wanted[i])
  {
    assert wanted[..i + 1][..i] == wanted[..i];
  }

  method NewBlocks(entries: seq<Entry>, wanted: seq<(string, string)>) returns (added: seq<string>)
    ensures added == EntryBlocks(Added(entries, wanted))
  {
    var translations, existing := Collect(entries);
    added := [];
    var i := 0;
    while i < |wanted|
      invariant 0 <= i <= |wanted|
      invariant added == EntryBlocks(Added(entries, wanted[..i]))
    {
      var pair := wanted[i];
      AddedGrows(entries, wanted, i);
      if pair !in existing && pair.1 in translations && translations[pair.1] != map[] {
        var best := PickBest(translations[pair.1]);
        BestIsUnique(translations[pair.1], best, Best(translations[pair.1]));
        var block := PrintEntry(pair.0, pair.1, best);
        added := added + [block];
      } else {
        assert Added(entries, wanted[..i]) + [] == Added(entries, wanted[..i]);
      }
      i := i + 1;
    }
    assert wanted[..i] == wanted;
  }

  /** `fill`, given the file's text and the set of wanted pairs, which it goes through in ascending order. */
  method Fill(text: string, pairs: set<(string, string)>) returns (out: string, count: nat)
    ensures out == Filled(text, InOrder(pairs))
    ensures count == |Added(ParseText(text), InOrder(pairs))|
    ensures count == 0 ==> out == text
    ensures count > 0 ==>
              out == (if text != "" && text[|text| - 1] == '\n' then text else text + "\n")
                     + "\n" + Join("\n\n", EntryBlocks(Added(ParseText(text), InOrder(pairs)))) + "\n"
  {
    var sorted := SortPairs(pairs);
    var entries := ParseAll(SplitBlocks(text));
    var added := NewBlocks(entries, sorted);
    count := |added|;
    if added == [] {
      return text, 0;
    }
    out := if text != "" && text[|text| - 1] == '\n' then text else text + "\n";
    out := out + "\n" + Join("\n\n", added) + "\n";
  }

  // ---------------------------------------------------------------------------
  // What the new file reads as
  // ---------------------------------------------------------------------------

  /** An entry whose strings print without odd separators. */
  predicate Printable(e: Entry) {
    && e.msgid.Some? && e.msgstr.Some?
    && PlainContext(e.context) && OnlyNewlines(e.msgid.value) && OnlyNewlines(e.msgstr.value)
  }

  /** An entry that no line of the printout splits inside a pair. */
  predicate Survives(e: Entry) {
    AllWhole(Wrap(Escape(Get(e, Msgid)))) && AllWhole(Wrap(Escape(Get(e, Msgstr))))
  }

  /** What reading the printed entry yields. */
  function Reread(e: Entry): (f: Entry) {
    Entry(e.context, Some(ReadBack(Wrap(Escape(Get(e, Msgid))))), Some(ReadBack(Wrap(Escape(Get(e, Msgstr))))))
  }

  predicate Each<T>(p: T -> bool, es: seq<T>) {
    if es == [] then true else Each(p, es[..|es| - 1]) && p(es[|es| - 1])
  }

  function MapEach<T>(f: T -> T, es: seq<T>): (fs: seq<T>)
    ensures |fs| == |es|
  {
    if es == [] then [] else MapEach(f, es[..|es| - 1]) + [f(es[|es| - 1])]
  }

  lemma RereadExactlyWhen(e: Entry)
    requires Printable(e)
    ensures Reread(e) == e <==> Survives(e)
  {
    RoundTripExactlyWhen(e.msgid.value);
    RoundTripExactlyWhen(e.msgstr.value);
  }

  lemma LastApart<T>(a: seq<T>, x: T, b: seq<T>, y: T)
    requires |a| == |b|
    ensures a + [x] == b + [y] <==> a == b && x == y
  {
    if a + [x] == b + [y] {
      assert a == (a + [x])[..|a|] && b == (b + [y])[..|a|];
      assert (a + [x])[|a|] == x;
    }
  }

  lemma {:induction false} FixedExactlyWhen<T>(f: T -> T, p: T -> bool, q: T -> bool, es: seq<T>)
    requires Each(p, es)
    requires forall e :: p(e) ==> (f(e) == e <==> q(e))
    ensures MapEach(f, es) == es <==> Each(q, es)
  {
    if es != [] {
      var init, last := es[..|es| - 1], es[|es| - 1];
      FixedExactlyWhen(f, p, q, init);
      assert es == init + [last];
      LastApart(MapEach(f, init), f(last), init, last);
    }
  }

  lemma RereadAllExactlyWhen(es: seq<Entry>)
    requires Each(Printable, es)
    ensures MapEach(Reread, es) == es <==> Each(Survives, es)
  {
    forall e | Printable(e)
      ensures Reread(e) == e <==> Survives(e)
    {
      RereadExactlyWhen(e);
    }
    FixedExactlyWhen(Reread, Printable, Survives, es);
  }

  lemma {:induction false} PrintedBlocks(es: seq<Entry>)
    requires Each(Printable, es)
    ensures AllSolid(EntryBlocks(es)) && ParseEntries(EntryBlocks(es)) == MapEach(Reread, es)
  {
    if es != [] {
      var init, e := es[..|es| - 1], es[|es| - 1];
      PrintedBlocks(init);
      BlockIsSolid(e.context, e.msgid.value, e.msgstr.value);
      BlockReads(e.context, e.msgid.value, e.msgstr.value);
      ParseEntriesAppend(EntryBlocks(init), [EntryBlock(e)]);
      SolidAppend(EntryBlocks(init), EntryBlock(e));
    }
  }

  lemma {:induction false} SolidAppend(bs: seq<string>, b: string)
    requires AllSolid(bs) && SolidTail(b) && b[0] != '\n'
    ensures AllSolid(bs + [b])
  {
    if bs == [] {
      assert bs + [b] == [b] && |[b][1..]| == 0;
    } else {
      SolidAppend(bs[1..], b);
      assert (bs + [b])[1..] == bs[1..] + [b];
    }
  }

  /** The new file reads as the old entries followed by what the added ones read back as. */
  lemma FilledReadsAs(text: string, wanted: seq<(string, string)>)
    requires Each(Printable, Added(ParseText(text), wanted))
    ensures ParseText(Filled(text, wanted)) == ParseText(text) + MapEach(Reread, Added(ParseText(text), wanted))
  {
    var added := Added(ParseText(text), wanted);
    if added == [] {
      assert ParseText(text) + [] == ParseText(text);
    } else {
      var blocks := EntryBlocks(added);
      PrintedBlocks(added);
      BlocksComeBack(blocks);
      var body := Join("\n\n", blocks);
      TerminateLastBlock(body);
      TerminatedEntries(blocks);
      AppendedEntries(text, body + "\n");
      PlusStep(Terminate(text) + "\n", body, "\n");
    }
  }

  /** The added entries come back as they were meant exactly when no printed line ends inside an escape
      pair; what the file held before is never disturbed. */
  lemma FilledReadsExactlyWhen(text: string, wanted: seq<(string, string)>)
    requires Each(Printable, Added(ParseText(text), wanted))
    ensures ParseText(Filled(text, wanted)) == ParseText(text) + Added(ParseText(text), wanted)
       <==> Each(Survives, Added(ParseText(text), wanted))
  {
    var before, added := ParseText(text), Added(ParseText(text), wanted);
    FilledReadsAs(text, wanted);
    RereadAllExactlyWhen(added);
    if before + MapEach(Reread, added) == before + added {
      assert MapEach(Reread, added) == (before + MapEach(Reread, added))[|before|..];
      assert added == (before + added)[|before|..];
    }
  }

  // ---------------------------------------------------------------------------
  // Where the added entries come from
  // ---------------------------------------------------------------------------

  lemma {:induction false} AddedHold(es: seq<Entry>, wanted: seq<(string, string)>, e: Entry)
    requires e in Added(es, wanted)
    ensures Translated(e) && e.msgid.value in Tally(es)
    ensures exists f :: f in es && Translated(f) && f.msgid == e.msgid && f.msgstr == e.msgstr
  {
    var init, pair := wanted[..|wanted| - 1], wanted[|wanted| - 1];
    if e in Added(es, init) {
      AddedHold(es, init, e);
    } else {
      assert e in AddedFor(es, pair);
      var c := Tally(es)[pair.1];
      TallyCounts(es, pair.1, Best(c));
      var f := ShownSomewhere(es, pair.1, Best(c));
      assert f in es;
    }
  }

  lemma {:induction false} ShownSomewhere(es: seq<Entry>, msgid: string, msgstr: string) returns (f: Entry)
    requires Count(es, msgid, msgstr) > 0
    ensures f in es && Shows(f, msgid, msgstr)
  {
    var init, last := es[..|es| - 1], es[|es| - 1];
    if Shows(last, msgid, msgstr) {
      f := last;
    } else {
      f := ShownSomewhere(init, msgid, msgstr);
      assert f in init;
    }
  }

  /** Clean inputs make printable additions: only word characters in contexts, no odd separators in the
      wanted texts and in the catalogue's translations. */
  lemma {:induction false} CleanInputsPrint(es: seq<Entry>, wanted: seq<(string, string)>)
    requires forall pair :: pair in wanted ==> PlainContext(pair.0) && OnlyNewlines(pair.1)
    requires forall e :: e in es && Translated(e) ==> OnlyNewlines(e.msgstr.value)
    ensures Each(Printable, Added(es, wanted))
  {
    if wanted != [] {
      var init, pair := wanted[..|wanted| - 1], wanted[|wanted| - 1];
      CleanInputsPrint(es, init);
      if AddedFor(es, pair) != [] {
        var e := AddedFor(es, pair)[0];
        assert e in Added(es, wanted);
        AddedHold(es, wanted, e);
        assert Added(es, wanted)[..|Added(es, wanted)| - 1] == Added(es, init);
      } else {
        assert Added(es, init) + [] == Added(es, init);
      }
    }
  }
}
