/** The order in which `po_fill_slint_contexts.py` goes through the wanted pairs: `sorted` on a set of pairs. */
module PoOrder {
  import opened Text

  type Pair = (string, string)

  /** Tuples compare by their first difference. */
  predicate PairLeq(a: Pair, b: Pair) {
    if a.0 == b.0 then LexLeq(a.1, b.1) else LexLeq(a.0, b.0)
  }

  predicate Ascending(ps: seq<Pair>) {
    |ps| < 2 || (ps[0] != ps[1] && PairLeq(ps[0], ps[1]) && Ascending(ps[1..]))
  }

  /** The pairs of the set, each once, in ascending order. */
  ghost predicate Sorts(ps: seq<Pair>, pairs: set<Pair>) {
    Ascending(ps) && forall p :: p in ps <==> p in pairs
  }

  lemma PairTotal(a: Pair, b: Pair)
    ensures PairLeq(a, b) || PairLeq(b, a)
    ensures PairLeq(a, b) && PairLeq(b, a) ==> a == b
  {
    LexTotal(a.0, b.0);
    LexTotal(a.1, b.1);
  }

  lemma PairTransitive(a: Pair, b: Pair, c: Pair)
    requires PairLeq(a, b) && PairLeq(b, c)
    ensures PairLeq(a, c)
  {
    if a.0 == b.0 == c.0 {
      LexTransitive(a.1, b.1, c.1);
    } else if a.0 != b.0 && b.0 != c.0 {
      LexTransitive(a.0, b.0, c.0);
      LexTotal(a.0, b.0);
    }
  }

  /** The first pair is below all others. */
  lemma {:induction false} FirstIsLeast(ps: seq<Pair>, p: Pair)
    requires Ascending(ps) && p in ps
    ensures PairLeq(ps[0], p) && (p !in ps[1..] <==> p == ps[0])
  {
    PairTotal(ps[0], ps[0]);
    if p in ps[1..] {
      FirstIsLeast(ps[1..], p);
      PairTransitive(ps[0], ps[1], p);
      PairTotal(ps[0], ps[1]);
    }
  }

  /** There is one such list: the order in which the set is enumerated does not matter. */
  lemma {:induction false} SortedOnce(ps: seq<Pair>, qs: seq<Pair>, pairs: set<Pair>)
    requires Sorts(ps, pairs) && Sorts(qs, pairs)
    ensures ps == qs
  {
    EmptyTogether(ps, qs, pairs);
    EmptyTogether(qs, ps, pairs);
    if ps != [] && qs != [] {
      assert ps[0] in qs && qs[0] in ps;
      FirstIsLeast(qs, ps[0]);
      FirstIsLeast(ps, qs[0]);
      PairTotal(ps[0], qs[0]);
      SortsRest(ps, pairs);
      SortsRest(qs, pairs);
      SortedOnce(ps[1..], qs[1..], pairs - {ps[0]});
    }
  }

  lemma EmptyTogether(ps: seq<Pair>, qs: seq<Pair>, pairs: set<Pair>)
    requires Sorts(ps, pairs) && Sorts(qs, pairs)
    ensures ps != [] ==> ps[0] in qs
  {
  }

  lemma SortsRest(ps: seq<Pair>, pairs: set<Pair>)
    requires Sorts(ps, pairs) && ps != []
    ensures Sorts(ps[1..], pairs - {ps[0]}) && ps == [ps[0]] + ps[1..]
  {
    FirstIsLeast(ps, ps[0]);
    forall p ensures p in ps[1..] <==> p in pairs - {ps[0]} {
      assert p in ps <==> p == ps[0] || p in ps[1..];
    }
  }

  function Insert(p: Pair, ps: seq<Pair>): (qs: seq<Pair>) {
    if ps == [] || PairLeq(p, ps[0]) then [p] + ps else [ps[0]] + Insert(p, ps[1..])
  }

  lemma {:induction false} InsertSorts(p: Pair, ps: seq<Pair>, pairs: set<Pair>)
    requires Sorts(ps, pairs) && p !in pairs
    ensures Sorts(Insert(p, ps), pairs + {p})
  {
    if ps == [] || PairLeq(p, ps[0]) {
      assert ([p] + ps)[1..] == ps;
      assert ps != [] ==> ps[0] in pairs;
    } else {
      PairTotal(p, ps[0]);
      SortsRest(ps, pairs);
      InsertSorts(p, ps[1..], pairs - {ps[0]});
      var rest := Insert(p, ps[1..]);
      assert ([ps[0]] + rest)[1..] == rest;
      InsertedBehind(ps[0], p, ps[1..], pairs);
      forall q ensures q in [ps[0]] + rest <==> q in pairs + {p} {
        assert q in rest <==> q in pairs - {ps[0]} + {p};
        assert ps[0] in pairs;
      }
    }
  }

  lemma InsertedBehind(a: Pair, p: Pair, ps: seq<Pair>, pairs: set<Pair>)
    requires Ascending([a] + ps) && PairLeq(a, p) && a != p
    ensures Insert(p, ps) != [] && Insert(p, ps)[0] != a && PairLeq(a, Insert(p, ps)[0])
  {
    if ps != [] {
      assert ([a] + ps)[1] == ps[0];
    }
  }

  /** The pairs in ascending order. */
  ghost function InOrder(pairs: set<Pair>): (ps: seq<Pair>)
    decreases |pairs|
  {
    if pairs == {} then []
    else
      var p :| p in pairs;
      Insert(p, InOrder(pairs - {p}))
  }

  lemma {:induction false} InOrderSorts(pairs: set<Pair>)
    ensures Sorts(InOrder(pairs), pairs)
    decreases |pairs|
  {
    if pairs != {} {
      var p :| p in pairs && InOrder(pairs) == Insert(p, InOrder(pairs - {p}));
      InOrderSorts(pairs - {p});
      InsertSorts(p, InOrder(pairs - {p}), pairs - {p});
      assert pairs - {p} + {p} == pairs;
    }
  }

  /** `sorted(pairs)`. */
  method SortPairs(pairs: set<Pair>) returns (ps: seq<Pair>)
    ensures Sorts(ps, pairs) && ps == InOrder(pairs)
  {
    ps := [];
    var rest := pairs;
    while rest != {}
      invariant rest <= pairs && Sorts(ps, pairs - rest)
      decreases |rest|
    {
      var p :| p in rest;
      InsertSorts(p, ps, pairs - rest);
      ps := Insert(p, ps);
      rest := rest - {p};
      assert pairs - rest == pairs - (rest + {p}) + {p};
    }
    assert pairs - rest == pairs;
    InOrderSorts(pairs);
    SortedOnce(ps, InOrder(pairs), pairs);
  }
}
