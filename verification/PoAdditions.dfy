/** Which entries `fill` of `po_fill_slint_contexts.py` adds, told from the catalogue's entries and the wanted pairs
    alone. */
module PoAdditions {
  import opened Text
  import opened PoCatalogue
  import opened PoFill

  /** The text has a translation under the context. */
  ghost predicate Given(es: seq<Entry>, context: string, msgid: string) {
    exists e :: e in es && e.context == context && e.msgid == Some(msgid) && e.msgstr.Some? && e.msgstr.value != ""
  }

  /** Under some context, the text is translated like this. */
  ghost predicate Offered(es: seq<Entry>, msgid: string, msgstr: string) {
    msgstr != "" && exists e :: e in es && e.msgid == Some(msgid) && e.msgstr == Some(msgstr)
  }

  /** No translation of the text occurs more often; among those that occur as often it is the first one. */
  ghost predicate Favoured(es: seq<Entry>, msgid: string, msgstr: string) {
    && Offered(es, msgid, msgstr)
    && forall other :: Offered(es, msgid, other) ==>
         Count(es, msgid, other) < Count(es, msgid, msgstr)
         || (Count(es, msgid, other) == Count(es, msgid, msgstr) && LexLeq(msgstr, other))
  }

  lemma GivenIsExisting(es: seq<Entry>, context: string, msgid: string)
    ensures (context, msgid) in Existing(es) <==> Given(es, context, msgid)
  {
    if Given(es, context, msgid) {
      var e :| e in es && e.context == context && e.msgid == Some(msgid) && e.msgstr.Some? && e.msgstr.value != "";
      assert Translated(e) && (e.context, e.msgid.value) == (context, msgid);
    }
  }

  lemma {:induction false} OfferedIsCounted(es: seq<Entry>, msgid: string, msgstr: string)
    ensures Offered(es, msgid, msgstr) <==> Count(es, msgid, msgstr) > 0
  {
    if es != [] {
      var init, last := es[..|es| - 1], es[|es| - 1];
      OfferedIsCounted(init, msgid, msgstr);
      assert es == init + [last];
      assert last in es;
    }
  }

  lemma FavouredIsBest(es: seq<Entry>, msgid: string, msgstr: string)
    requires msgid in Tally(es) && Tally(es)[msgid] != map[]
    ensures Favoured(es, msgid, msgstr) <==> msgstr == Best(Tally(es)[msgid])
  {
    var best := Best(Tally(es)[msgid]);
    OfferedIsCounted(es, msgid, best);
    BestIsMostFrequent(es, msgid, best);
    BestIsMostFrequent(es, msgid, msgstr);
    if Favoured(es, msgid, msgstr) {
      assert Offered(es, msgid, best);
      LexTotal(best, msgstr);
    }
    if msgstr == best {
      forall other | Offered(es, msgid, other)
        ensures Count(es, msgid, other) < Count(es, msgid, best)
                || (Count(es, msgid, other) == Count(es, msgid, best) && LexLeq(best, other))
      {
        BestIsMostFrequent(es, msgid, other);
      }
    }
  }

  /** For one wanted pair. */
  lemma AddedForExactlyWhen(es: seq<Entry>, pair: (string, string), e: Entry)
    ensures e in AddedFor(es, pair) <==>
            && e.context == pair.0 && e.msgid == Some(pair.1) && !Given(es, pair.0, pair.1)
            && e.msgstr.Some? && Favoured(es, pair.1, e.msgstr.value)
  {
    GivenIsExisting(es, pair.0, pair.1);
    TallyCounts(es, pair.1, "");
    if pair.1 in Tally(es) {
      if e.msgstr.Some? {
        FavouredIsBest(es, pair.1, e.msgstr.value);
      }
    } else if e.msgstr.Some? {
      OfferedIsCounted(es, pair.1, e.msgstr.value);
      TallyCounts(es, pair.1, e.msgstr.value);
    }
  }

  /** Added are exactly the wanted pairs that have no translation of their own while their text has one elsewhere,
      with the favoured one of those. */
  lemma {:induction false} AddedExactlyWhen(es: seq<Entry>, wanted: seq<(string, string)>, e: Entry)
    ensures e in Added(es, wanted) <==>
            && e.msgid.Some? && e.msgstr.Some? && (e.context, e.msgid.value) in wanted
            && !Given(es, e.context, e.msgid.value) && Favoured(es, e.msgid.value, e.msgstr.value)
  {
    if wanted != [] {
      var init, pair := wanted[..|wanted| - 1], wanted[|wanted| - 1];
      AddedExactlyWhen(es, init, e);
      AddedForExactlyWhen(es, pair, e);
      assert wanted == init + [pair];
    }
  }
}
