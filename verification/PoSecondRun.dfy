/** What a second run of `po_fill_slint_contexts.py` (`fill`) finds in the file that the first one wrote. */
module PoSecondRun {
  import opened Text
  import opened PoStrings
  import opened PoWrapping
  import opened PoBlocks
  import opened PoCatalogue
  import opened PoFill

  // ---------------------------------------------------------------------------
  // When every addition settles its pair
  // ---------------------------------------------------------------------------

  /** Every wanted pair is translated already, added now, or translated nowhere. */
  lemma {:induction false} WantedIsSettled(es: seq<Entry>, wanted: seq<(string, string)>, pair: (string, string))
    requires pair in wanted
    ensures pair in Existing(es + Added(es, wanted)) || pair.1 !in Tally(es)
  {
    if pair in Existing(es) {
    } else if pair.1 in Tally(es) {
      var e := AddedOne(es, wanted, pair);
      assert e in Added(es, wanted) && Translated(e);
    }
  }

  lemma {:induction false} AddedOne(es: seq<Entry>, wanted: seq<(string, string)>, pair: (string, string))
    returns (e: Entry)
    requires pair in wanted && pair !in Existing(es) && pair.1 in Tally(es)
    ensures e in Added(es, wanted) && Translated(e) && e.context == pair.0 && e.msgid == Some(pair.1)
  {
    var init, last := wanted[..|wanted| - 1], wanted[|wanted| - 1];
    TallyCounts(es, pair.1, "");
    if last == pair {
      e := Entry(pair.0, Some(pair.1), Some(Best(Tally(es)[pair.1])));
      assert AddedFor(es, last) == [e];
      assert e in Added(es, wanted);
      AddedHold(es, wanted, e);
    } else {
      assert pair in init;
      e := AddedOne(es, init, pair);
    }
  }

  /** Adding the entries creates no new translatable text. */
  lemma NoNewMsgids(es: seq<Entry>, wanted: seq<(string, string)>, msgid: string)
    requires msgid in Tally(es + Added(es, wanted))
    ensures msgid in Tally(es)
  {
    var added := Added(es, wanted);
    TalliedMsgids(es + added, msgid);
    TalliedMsgids(es, msgid);
    var e :| e in es + added && Translated(e) && e.msgid == Some(msgid);
    if e !in es {
      AddedHold(es, wanted, e);
    }
  }

  lemma {:induction false} NothingLeft(after: seq<Entry>, some: seq<(string, string)>)
    requires forall pair :: pair in some ==> pair in Existing(after) || pair.1 !in Tally(after)
    ensures Added(after, some) == []
  {
    if some != [] {
      NothingLeft(after, some[..|some| - 1]);
      assert some[|some| - 1] in some;
    }
  }

  /** An addition whose text comes back whole and whose translation does not come back empty: it settles its
      pair, even if the translation is cut. */
  predicate Settles(e: Entry) {
    AllWhole(Wrap(Escape(Get(e, Msgid)))) && ReadBack(Wrap(Escape(Get(e, Msgstr)))) != ""
  }

  lemma {:induction false} EachHolds<T>(p: T -> bool, es: seq<T>, e: T)
    requires Each(p, es) && e in es
    ensures p(e)
  {
    if e != es[|es| - 1] {
      EachHolds(p, es[..|es| - 1], e);
    }
  }

  lemma {:induction false} MapEachAt<T>(f: T -> T, es: seq<T>)
    ensures forall i :: 0 <= i < |es| ==> MapEach(f, es)[i] == f(es[i])
  {
    if es != [] {
      MapEachAt(f, es[..|es| - 1]);
    }
  }

  lemma RereadSettles(e: Entry)
    requires Printable(e) && Settles(e)
    ensures Reread(e).context == e.context && Reread(e).msgid == e.msgid && Translated(Reread(e))
  {
    RoundTripExactlyWhen(e.msgid.value);
  }

  lemma AdditionReads(added: seq<Entry>, e: Entry)
    requires Each(Printable, added) && Each(Settles, added) && e in added
    ensures var f := Reread(e);
            f in MapEach(Reread, added) && Translated(f) && f.context == e.context && f.msgid == e.msgid
  {
    EachHolds(Printable, added, e);
    EachHolds(Settles, added, e);
    RereadSettles(e);
    MapEachAt(Reread, added);
    var i :| 0 <= i < |added| && added[i] == e;
    assert MapEach(Reread, added)[i] == Reread(e);
  }

  /** What was settled in memory is settled in the file. */
  lemma StillExisting(es: seq<Entry>, added: seq<Entry>, pair: (string, string))
    requires Each(Printable, added) && Each(Settles, added) && pair in Existing(es + added)
    ensures pair in Existing(es + MapEach(Reread, added))
  {
    var e :| e in es + added && Translated(e) && (e.context, e.msgid.value) == pair;
    if e !in es {
      AdditionReads(added, e);
      assert Reread(e) in es + MapEach(Reread, added);
    } else {
      assert e in es + MapEach(Reread, added);
    }
  }

  /** And no text became translatable by being read back. */
  lemma NoNewAfterReading(es: seq<Entry>, wanted: seq<(string, string)>, msgid: string)
    requires Each(Printable, Added(es, wanted)) && Each(Settles, Added(es, wanted))
    requires msgid in Tally(es + MapEach(Reread, Added(es, wanted)))
    ensures msgid in Tally(es)
  {
    var added := Added(es, wanted);
    TalliedMsgids(es + MapEach(Reread, added), msgid);
    TalliedMsgids(es, msgid);
    var f :| f in es + MapEach(Reread, added) && Translated(f) && f.msgid == Some(msgid);
    if f !in es {
      NewHasOldText(es, wanted, f);
    }
  }

  lemma NewHasOldText(es: seq<Entry>, wanted: seq<(string, string)>, f: Entry)
    requires Each(Printable, Added(es, wanted)) && Each(Settles, Added(es, wanted))
    requires f in MapEach(Reread, Added(es, wanted))
    ensures exists e :: e in es && Translated(e) && e.msgid == f.msgid
  {
    var e := ReadFrom(Added(es, wanted), f);
    AdditionReads(Added(es, wanted), e);
    AddedHold(es, wanted, e);
  }

  lemma {:induction false} ReadFrom(added: seq<Entry>, f: Entry) returns (e: Entry)
    requires f in MapEach(Reread, added)
    ensures e in added && Reread(e) == f
  {
    var init, last := added[..|added| - 1], added[|added| - 1];
    if Reread(last) == f {
      e := last;
    } else {
      e := ReadFrom(init, f);
    }
  }

  /** Read back, the additions settle the wanted pairs as well as they did in memory. */
  lemma SettledAfterReading(es: seq<Entry>, wanted: seq<(string, string)>, pair: (string, string))
    requires Each(Printable, Added(es, wanted)) && Each(Settles, Added(es, wanted)) && pair in wanted
    ensures var after := es + MapEach(Reread, Added(es, wanted));
            pair in Existing(after) || pair.1 !in Tally(after)
  {
    WantedIsSettled(es, wanted, pair);
    if pair in Existing(es + Added(es, wanted)) {
      StillExisting(es, Added(es, wanted), pair);
    } else if pair.1 in Tally(es + MapEach(Reread, Added(es, wanted))) {
      NoNewAfterReading(es, wanted, pair.1);
    }
  }

  lemma SettledRunAddsNothing(es: seq<Entry>, wanted: seq<(string, string)>)
    requires Each(Printable, Added(es, wanted)) && Each(Settles, Added(es, wanted))
    ensures Added(es + MapEach(Reread, Added(es, wanted)), wanted) == []
  {
    var after := es + MapEach(Reread, Added(es, wanted));
    forall pair | pair in wanted
      ensures pair in Existing(after) || pair.1 !in Tally(after)
    {
      SettledAfterReading(es, wanted, pair);
    }
    NothingLeft(after, wanted);
  }

  // ---------------------------------------------------------------------------
  // When one does not
  // ---------------------------------------------------------------------------

  /** Each pair has one possible addition. */
  lemma {:induction false} AddedFromPair(es: seq<Entry>, wanted: seq<(string, string)>, e: Entry)
    requires e in Added(es, wanted)
    ensures e.msgid.Some? && (e.context, e.msgid.value) in wanted
    ensures AddedFor(es, (e.context, e.msgid.value)) == [e]
  {
    var init, pair := wanted[..|wanted| - 1], wanted[|wanted| - 1];
    if e in Added(es, init) {
      AddedFromPair(es, init, e);
    } else {
      assert e in AddedFor(es, pair);
    }
  }

  lemma {:induction false} NothingAddedFor(after: seq<Entry>, wanted: seq<(string, string)>, pair: (string, string))
    requires pair in wanted && Added(after, wanted) == []
    ensures AddedFor(after, pair) == []
  {
    var init, last := wanted[..|wanted| - 1], wanted[|wanted| - 1];
    if pair != last {
      assert pair in init;
      NothingAddedFor(after, init, pair);
    }
  }

  /** A text that had a translation keeps it. */
  lemma TalliedStays(es: seq<Entry>, more: seq<Entry>, msgid: string)
    requires msgid in Tally(es)
    ensures msgid in Tally(es + more) && Tally(es + more)[msgid] != map[]
  {
    TalliedMsgids(es, msgid);
    TalliedMsgids(es + more, msgid);
    var e :| e in es && Translated(e) && e.msgid == Some(msgid);
    assert e in es + more;
    TallyCounts(es + more, msgid, "");
  }

  function MsgidSize(e: Entry): (n: nat) {
    |Get(e, Msgid)|
  }

  function Longest(es: seq<Entry>): (n: nat) {
    if es == [] then 0
    else
      var n, m := Longest(es[..|es| - 1]), MsgidSize(es[|es| - 1]);
      if m > n then m else n
  }

  lemma {:induction false} AtMostLongest(es: seq<Entry>, e: Entry)
    requires e in es
    ensures MsgidSize(e) <= Longest(es)
  {
    if e != es[|es| - 1] {
      AtMostLongest(es[..|es| - 1], e);
    }
  }

  /** Reading back makes a text no longer, and keeps its length only when it keeps the text. */
  lemma ReadBackShortens(value: string)
    ensures ReadBack(Wrap(Escape(value))) == value || |ReadBack(Wrap(Escape(value)))| < |value|
  {
    EscapeRoundTrip(value);
    WholeTextReads(Escape(value));
  }

  /** If the file settles the pair of an addition that did not, then another, longer addition came back as
      its text; and that one did not settle its own pair. */
  lemma SettledByLonger(es: seq<Entry>, wanted: seq<(string, string)>, e: Entry) returns (f: Entry)
    requires Each(Printable, Added(es, wanted)) && e in Added(es, wanted) && !Settles(e)
    requires (e.context, Get(e, Msgid)) in Existing(es + MapEach(Reread, Added(es, wanted)))
    ensures f in Added(es, wanted) && !Settles(f) && MsgidSize(f) > MsgidSize(e)
  {
    var added := Added(es, wanted);
    AddedFromPair(es, wanted, e);
    var g :| && g in es + MapEach(Reread, added) && Translated(g)
             && (g.context, g.msgid.value) == (e.context, e.msgid.value);
    assert g !in es;
    f := ReadFrom(added, g);
    AddedFromPair(es, wanted, f);
    EachHolds(Printable, added, f);
    RoundTripExactlyWhen(f.msgid.value);
    ReadBackShortens(f.msgid.value);
  }

  /** So a second run that adds nothing leaves no such addition: take the longest. */
  lemma {:induction false} UnsettledIsAddedAgain(es: seq<Entry>, wanted: seq<(string, string)>, e: Entry)
    requires Each(Printable, Added(es, wanted)) && e in Added(es, wanted) && !Settles(e)
    ensures Added(es + MapEach(Reread, Added(es, wanted)), wanted) != []
    decreases Longest(Added(es, wanted)) - MsgidSize(e)
  {
    var added := Added(es, wanted);
    var after := es + MapEach(Reread, added);
    if Added(after, wanted) == [] {
      AddedFromPair(es, wanted, e);
      NothingAddedFor(after, wanted, (e.context, e.msgid.value));
      TalliedStays(es, MapEach(Reread, added), e.msgid.value);
      var f := SettledByLonger(es, wanted, e);
      AtMostLongest(added, f);
      UnsettledIsAddedAgain(es, wanted, f);
    }
  }

  lemma {:induction false} SomeFails<T>(p: T -> bool, es: seq<T>) returns (e: T)
    requires !Each(p, es)
    ensures e in es && !p(e)
  {
    if Each(p, es[..|es| - 1]) {
      e := es[|es| - 1];
    } else {
      e := SomeFails(p, es[..|es| - 1]);
    }
  }

  /** A second run adds nothing, and leaves the file alone, exactly when every added text came back whole
      and no added translation came back empty. */
  lemma SecondRunAddsNothingExactlyWhen(text: string, wanted: seq<(string, string)>)
    requires Each(Printable, Added(ParseText(text), wanted))
    ensures Added(ParseText(Filled(text, wanted)), wanted) == [] <==> Each(Settles, Added(ParseText(text), wanted))
    ensures Filled(Filled(text, wanted), wanted) == Filled(text, wanted)
       <==> Each(Settles, Added(ParseText(text), wanted))
  {
    var es := ParseText(text);
    FilledReadsAs(text, wanted);
    if Each(Settles, Added(es, wanted)) {
      SettledRunAddsNothing(es, wanted);
    } else {
      var e := SomeFails(Settles, Added(es, wanted));
      UnsettledIsAddedAgain(es, wanted, e);
      FilledIsLonger(Filled(text, wanted), wanted);
    }
  }

  lemma FilledIsLonger(text: string, wanted: seq<(string, string)>)
    requires Added(ParseText(text), wanted) != []
    ensures |Filled(text, wanted)| > |text|
  {
  }

  // ---------------------------------------------------------------------------
  // The input
  // ---------------------------------------------------------------------------

  /** A file of one entry, each value on one line. */
  function OneEntryText(context: string, msgid: string, msgstr: string): (text: string) {
    Join("\n", EntryLines(context, [Escape(msgid)], [Escape(msgstr)]))
  }

  lemma OneLineIsGood(p: string, value: string)
    requires OnlyNewlines(value) && Unbroken(p)
    ensures GoodLines(Prefixed(p, QuoteAll([Escape(value)])))
  {
    EscapeUnbroken(value);
    assert [Escape(value)][1..] == [];
    assert Prefixed(p, QuoteAll([Escape(value)])) == [p + Quoted(Escape(value))];
    assert [p + Quoted(Escape(value))][1..] == [];
  }

  lemma OneLineReads(value: string)
    ensures ReadBack([Escape(value)]) == value
  {
    EscapeRoundTrip(value);
    WholeLineReads(Escape(value));
    ReadOne(Escape(value), []);
    assert [Escape(value)] + [] == [Escape(value)];
  }

  lemma OneEntryReads(context: string, msgid: string, msgstr: string)
    requires PlainContext(context) && OnlyNewlines(msgid) && OnlyNewlines(msgstr)
    ensures ParseText(OneEntryText(context, msgid, msgstr)) == [Entry(context, Some(msgid), Some(msgstr))]
  {
    var lines := EntryLines(context, [Escape(msgid)], [Escape(msgstr)]);
    var text := Join("\n", lines);
    OneLineIsGood("msgid ", msgid);
    OneLineIsGood("msgstr ", msgstr);
    EntryLinesAreGood(context, [Escape(msgid)], [Escape(msgstr)]);
    EntryLinesRead(context, [Escape(msgid)], [Escape(msgstr)]);
    OneLineReads(msgid);
    OneLineReads(msgstr);
    JoinedLinesAreSolid(lines);
    SolidAppend([], text);
    BlocksComeBack([text]);
    assert [text][1..] == [];
    assert ParseEntries([text]) == One(ParseBlock(text)) + ParseEntries([]);
  }

  /** One entry and another context that wants its text. */
  lemma OnlyChoice(e: Entry, context: string)
    requires Translated(e) && e.context != context
    ensures Added([e], [(context, e.msgid.value)]) == [e.(context := context)]
  {
    var es, pair := [e], (context, e.msgid.value);
    assert es[..0] == [] && Tally([]) == map[];
    assert Tally(es) == map[e.msgid.value := map[e.msgstr.value := 1]];
    assert [pair][..0] == [];
    assert Added(es, [pair]) == AddedFor(es, pair);
    assert pair !in Existing(es);
  }

  /** The input: a file of one translated entry whose text has seventy-one letters and then a quote, wanted
      in another context. Every run adds that context again, since the added text does not come back. */
  lemma AddedAgainExample()
    ensures var value := Repeat('a', 71) + "\"";
            var text, wanted := OneEntryText("A", value, "b"), [("B", value)];
            && Added(ParseText(text), wanted) == [Entry("B", Some(value), Some("b"))]
            && Added(ParseText(Filled(text, wanted)), wanted) != []
  {
    var value := Repeat('a', 71) + "\"";
    HardCutExample();
    RoundTripExactlyWhen(value);
    forall i | 0 <= i < |value| ensures value[i] == 'a' || value[i] == '"' {
      if i < 71 {
        RepeatAt('a', 71, i);
      }
    }
    OneEntryReads("A", value, "b");
    CutTextIsAddedAgain(OneEntryText("A", value, "b"), value, "b", "A", "B");
  }

  lemma CutTextIsAddedAgain(text: string, value: string, msgstr: string, from: string, to: string)
    requires OnlyNewlines(value) && OnlyNewlines(msgstr) && PlainContext(to) && from != to && msgstr != ""
    requires !AllWhole(Wrap(Escape(value))) && ParseText(text) == [Entry(from, Some(value), Some(msgstr))]
    ensures Added(ParseText(text), [(to, value)]) == [Entry(to, Some(value), Some(msgstr))]
    ensures Added(ParseText(Filled(text, [(to, value)])), [(to, value)]) != []
  {
    OnlyChoice(Entry(from, Some(value), Some(msgstr)), to);
    UnsettledOnly(text, [(to, value)], Entry(to, Some(value), Some(msgstr)));
  }

  lemma UnsettledOnly(text: string, wanted: seq<(string, string)>, e: Entry)
    requires Added(ParseText(text), wanted) == [e] && Printable(e) && !Settles(e)
    ensures Added(ParseText(Filled(text, wanted)), wanted) != []
  {
    OnlyOne(Printable, e);
    OnlyOne(Settles, e);
    SecondRunAddsNothingExactlyWhen(text, wanted);
  }

  lemma OnlyOne<T>(p: T -> bool, e: T)
    ensures Each(p, [e]) <==> p(e)
  {
    assert [e][..0] == [];
  }
}
