/** When the probe vector lines up with the candidates. `connect_routed` reads an attempt order made
    of probe positions as candidate positions, while probes are taken for the candidates that have a
    first hop and are cached under a key that forgets the candidates' order. */
module RouteAlignment {
  import opened Text
  import opened RouteCaching
  import opened RouteKeys
  import opened RouteRanking
  import opened Failover

  /** Probe i belongs to candidate i. */
  predicate Aligned(rs: seq<ProbeResult>, cands: seq<Candidate>) {
    |rs| <= |cands| && forall i :: 0 <= i < |rs| ==> rs[i].route == cands[i].route
  }

  lemma {:induction false} AlignedIsPrefix(rs: seq<ProbeResult>, cands: seq<Candidate>)
    ensures Aligned(rs, cands) <==> ResultLabels(rs) <= CandidateLabels(cands)
  {
    if rs != [] && cands != [] {
      AlignedIsPrefix(rs[1..], cands[1..]);
      if Aligned(rs, cands) {
        assert Aligned(rs[1..], cands[1..]);
      }
      if rs[0].route == cands[0].route && Aligned(rs[1..], cands[1..]) {
        forall i | 0 <= i < |rs| ensures rs[i].route == cands[i].route {
          assert i > 0 ==> rs[i] == rs[1..][i - 1] && cands[i] == cands[1..][i - 1];
        }
      }
      PrefixCons(rs[0].route, ResultLabels(rs[1..]), cands[0].route, CandidateLabels(cands[1..]));
    }
  }

  lemma PrefixCons(x: string, xs: seq<string>, y: string, ys: seq<string>)
    ensures [x] + xs <= [y] + ys <==> x == y && xs <= ys
  {
    var a, b := [x] + xs, [y] + ys;
    assert a[1..] == xs && b[1..] == ys && a[0] == x && b[0] == y;
    if a <= b {
      assert a == b[..|a|];
      assert xs == b[..|a|][1..] == ys[..|xs|];
    }
    if x == y && xs <= ys {
      assert a == b[..|a|];
    }
  }

  // ---------------------------------------------------------------------------
  // A round just taken
  // ---------------------------------------------------------------------------

  /** No candidate without a first hop stands before one that has one. */
  predicate ProbesFirst(cands: seq<Candidate>) {
    forall i, j :: 0 <= i < j < |cands| && Probeable(cands[j]) ==> Probeable(cands[i])
  }

  /** A fresh round lines up exactly when the probed labels are the first labels; with distinct labels,
      exactly when no unprobeable candidate precedes a probeable one. */
  lemma FreshAlignedExactlyWhen(cands: seq<Candidate>, rs: seq<ProbeResult>)
    requires ResultLabels(rs) == ProbedLabels(cands)
    ensures Aligned(rs, cands) <==> ProbedLabels(cands) <= CandidateLabels(cands)
    ensures Distinct(CandidateLabels(cands)) ==> (Aligned(rs, cands) <==> ProbesFirst(cands))
  {
    AlignedIsPrefix(rs, cands);
    if Distinct(CandidateLabels(cands)) {
      PrefixWhenProbesFirst(cands);
    }
  }

  lemma DistinctTail(ls: seq<string>)
    requires ls != [] && Distinct(ls)
    ensures ls[0] !in ls[1..] && Distinct(ls[1..])
  {
    assert forall k :: 0 <= k < |ls[1..]| ==> ls[1..][k] == ls[k + 1];
  }

  lemma {:induction false} PrefixWhenProbesFirst(cands: seq<Candidate>)
    requires Distinct(CandidateLabels(cands))
    ensures ProbedLabels(cands) <= CandidateLabels(cands) <==> ProbesFirst(cands)
  {
    if cands != [] {
      var c, rest := cands[0], cands[1..];
      DistinctTail(CandidateLabels(cands));
      assert CandidateLabels(cands)[1..] == CandidateLabels(rest);
      PrefixWhenProbesFirst(rest);
      ProbedLabelsAreLabels(rest);
      if Probeable(c) {
        PrefixCons(c.route, ProbedLabels(rest), c.route, CandidateLabels(rest));
        ProbesFirstCons(cands);
      } else if ProbedLabels(rest) == [] {
        NothingProbed(rest);
      } else {
        assert ProbedLabels(rest)[0] in CandidateLabels(rest);
        NothingProbed(rest);
      }
    }
  }

  lemma ProbesFirstCons(cands: seq<Candidate>)
    requires cands != [] && Probeable(cands[0])
    ensures ProbesFirst(cands) <==> ProbesFirst(cands[1..])
  {
    var rest := cands[1..];
    if ProbesFirst(rest) {
      forall i, j | 0 <= i < j < |cands| && Probeable(cands[j]) ensures Probeable(cands[i]) {
        if i > 0 {
          assert Probeable(rest[j - 1]) && cands[i] == rest[i - 1];
        }
      }
    }
    if ProbesFirst(cands) {
      forall i, j | 0 <= i < j < |rest| && Probeable(rest[j]) ensures Probeable(rest[i]) {
        assert Probeable(cands[j + 1]) && rest[i] == cands[i + 1];
      }
    }
  }

  lemma {:induction false} ProbedLabelsAreLabels(cands: seq<Candidate>)
    ensures forall l :: l in ProbedLabels(cands) ==> l in CandidateLabels(cands)
  {
    if cands != [] {
      ProbedLabelsAreLabels(cands[1..]);
    }
  }

  lemma {:induction false} NothingProbed(cands: seq<Candidate>)
    ensures ProbedLabels(cands) == [] <==> forall i :: 0 <= i < |cands| ==> !Probeable(cands[i])
  {
    if cands != [] {
      NothingProbed(cands[1..]);
      assert cands == [cands[0]] + cands[1..];
    }
  }

  // ---------------------------------------------------------------------------
  // A round served from the cache
  // ---------------------------------------------------------------------------

  /** A round taken for `earlier` and served to `later` lines up with `later` exactly when the probed
      labels of `earlier`, with the stray failures since then appended, are the first labels of `later`. */
  lemma ServedAlignedExactlyWhen(log: seq<Event>, key: string, earlier: seq<Candidate>, later: seq<Candidate>,
                                 ttlSecs: nat, now: int)
    requires LastRound(log, key).Some? && RoundLabels(log, key) == ProbedLabels(earlier)
    requires FreshProbes(Replay(log), key, ttlSecs, now).Some?
    ensures Aligned(FreshProbes(Replay(log), key, ttlSecs, now).value, later) <==>
            ProbedLabels(earlier) + StrayLabels(log, key) <= CandidateLabels(later)
  {
    FreshRefinesLog(log, key, ttlSecs, now);
    AlignedIsPrefix(FreshProbes(Replay(log), key, ttlSecs, now).value, later);
  }

  /** Only routes that the last round covered failed since. */
  lemma {:induction false} NoStrays(log: seq<Event>, key: string)
    requires forall ev :: ev in log && ev.Failed? && ev.key == key ==> ev.route in RoundLabels(log, key)
    requires LastRound(log, key).Some?
    ensures StrayLabels(log, key) == []
  {
    var init, ev := log[..|log| - 1], log[|log| - 1];
    assert log == init + [ev];
    if !(ev.key == key && ev.Probed?) {
      assert RoundLabels(log, key) == RoundLabels(init, key);
      assert forall x :: x in init ==> x in log;
      NoStrays(init, key);
      assert ev in log;
    }
  }

  lemma {:induction false} AllProbed(cands: seq<Candidate>)
    requires forall i :: 0 <= i < |cands| ==> Probeable(cands[i])
    ensures ProbedLabels(cands) == CandidateLabels(cands)
  {
    if cands != [] {
      AllProbed(cands[1..]);
    }
  }

  /** Two plain lists with one key: when all of the first was probed and only its routes failed since,
      the served round lines up with the second exactly when the second has the same order. */
  lemma ServedAlignedExactlyInOrder(log: seq<Event>, key: string, earlier: seq<Candidate>, later: seq<Candidate>,
                                    ttlSecs: nat, now: int)
    requires LastRound(log, key).Some? && RoundLabels(log, key) == ProbedLabels(earlier)
    requires forall ev :: ev in log && ev.Failed? && ev.key == key ==> ev.route in CandidateLabels(earlier)
    requires forall i :: 0 <= i < |earlier| ==> Probeable(earlier[i])
    requires earlier != [] && later != [] && PlainCandidates(earlier) && PlainCandidates(later)
    requires KeyText(earlier) == KeyText(later)
    requires FreshProbes(Replay(log), key, ttlSecs, now).Some?
    ensures Aligned(FreshProbes(Replay(log), key, ttlSecs, now).value, later) <==>
            CandidateLabels(earlier) == CandidateLabels(later)
  {
    AllProbed(earlier);
    NoStrays(log, key);
    ServedAlignedExactlyWhen(log, key, earlier, later, ttlSecs, now);
    KeyFixesLabels(earlier, later);
    var xs, ys := CandidateLabels(earlier), CandidateLabels(later);
    assert |multiset(xs)| == |xs| && |multiset(ys)| == |ys|;
    assert xs + [] == xs;
    assert xs <= ys && |xs| == |ys| ==> xs == ys;
  }

  // ---------------------------------------------------------------------------
  // Two inputs that fall out of step
  // ---------------------------------------------------------------------------

  /** The one probe that answered is attempted first. */
  lemma SoleAnswerFirst(rs: seq<ProbeResult>, i: nat)
    requires i < |rs| && forall j :: 0 <= j < |rs| ==> (rs[j].status.Reachable? <==> j == i)
    ensures var o := RankProbes(rs, None); o != [] && o[0] == i
  {
    var o := RankProbes(rs, None);
    RankIsPermutation(rs, None, i);
    assert i in multiset(o);
    var k :| 0 <= k < |o| && o[k] == i;
    if k > 0 {
      RankRespectsClasses(rs, None, 0, k);
    }
  }

  lemma ThreeCandidates(x: Candidate, y: Candidate, z: Candidate)
    ensures Descriptors([x, y, z]) == [Descriptor(x), Descriptor(y), Descriptor(z)]
    ensures !Probeable(x) && Probeable(y) && Probeable(z) ==> ProbedLabels([x, y, z]) == [y.route, z.route]
  {
    assert [x, y, z][1..] == [y, z] && [y, z][1..] == [z] && [z][1..] == [];
    assert Descriptors([z]) == [Descriptor(z)];
    assert Descriptors([y, z]) == [Descriptor(y), Descriptor(z)];
    assert Probeable(z) ==> ProbedLabels([z]) == [z.route];
    assert Probeable(y) && Probeable(z) ==> ProbedLabels([y, z]) == [y.route, z.route];
  }

  /** Right after a first round the cache serves it, with nothing sticky and nothing in backoff. */
  lemma ServedAsTaken(rs: seq<ProbeResult>, key: string, at: int, ttlSecs: nat, now: int)
    requires now - at <= ttlSecs && CoarseAll(rs) == rs
    ensures var es := Replay([Probed(key, rs, at)]);
            && FreshProbes(es, key, ttlSecs, now) == Some(rs)
            && StickyLabel(es, key).None? && BackoffSet(es, key, now) == {}
  {
    var log := [Probed(key, rs, at)];
    var only := log[..0];
    assert Replay(only) == map[] && log[..|log| - 1] == only;
    RoundOnList(rs, [], "");
    UnmarkedRound(rs, now);
  }

  lemma {:induction false} UnmarkedRound(rs: seq<ProbeResult>, now: int)
    ensures Recent(WithProbes(rs, []), now) == []
  {
    if rs != [] {
      UnmarkedRound(rs[1..], now);
      assert WithProbes(rs, [])[1..] == WithProbes(rs[1..], []);
    }
  }

  /** A round in which only the second of three routes answers. */
  function OnlyAAnswers(): (rs: seq<ProbeResult>) {
    [ProbeResult("", Unreachable), ProbeResult("a", Reachable(0, false)), ProbeResult("b", Unreachable)]
  }

  lemma OnlyAIsCoarse()
    ensures CoarseAll(OnlyAAnswers()) == OnlyAAnswers()
  {
    var rs := OnlyAAnswers();
    assert rs[1..] == [rs[1], rs[2]] && [rs[1], rs[2]][1..] == [rs[2]] && [rs[2]][1..] == [];
    assert CoarseAll([rs[2]]) == [rs[2]];
    assert CoarseAll([rs[1], rs[2]]) == [rs[1], rs[2]];
  }

  lemma SwappedKey(p: Candidate, a: Candidate, b: Candidate)
    ensures KeyText([p, a, b]) == KeyText([p, b, a])
  {
    ThreeCandidates(p, a, b);
    ThreeCandidates(p, b, a);
    var x, y, z := Descriptor(p), Descriptor(a), Descriptor(b);
    assert multiset([x, y, z]) == multiset([x, z, y]);
    KeyIgnoresOrder([p, a, b], [p, b, a]);
  }

  /** The routes of a site, reordered within the cache's time to live: the key is the same, the probe
      of "a", the only one to answer, is read as a probe of "b", and "b" is attempted first. */
  lemma ReorderedRoutesExample(p: Candidate, a: Candidate, b: Candidate, key: string)
    requires p.route == "" && a.route == "a" && b.route == "b"
    ensures KeyText([p, a, b]) == KeyText([p, b, a])
    ensures var rs, es := OnlyAAnswers(), Replay([Probed(key, OnlyAAnswers(), 0)]);
            var order := AttemptOrder([p, b, a], rs, StickyLabel(es, key), BackoffSet(es, key, 10));
            && FreshProbes(es, key, 300, 10) == Some(rs)
            && order != [] && order[0] == 1 && rs[1].route == a.route && [p, b, a][1] == b
  {
    SwappedKey(p, a, b);
    OnlyAIsCoarse();
    ServedAsTaken(OnlyAAnswers(), key, 0, 300, 10);
    SoleAnswerFirst(OnlyAAnswers(), 1);
  }

  /** A round in which only the first of two routes answers. */
  function OnlyAOfTwo(): (rs: seq<ProbeResult>) {
    [ProbeResult("a", Reachable(0, false)), ProbeResult("b", Unreachable)]
  }

  lemma TwoResults()
    ensures ResultLabels(OnlyAOfTwo()) == ["a", "b"]
  {
    var rs := OnlyAOfTwo();
    assert rs[1..] == [rs[1]] && rs[1..][1..] == [];
    assert ResultLabels(rs[1..]) == ["b"];
  }

  lemma FirstOfTwo(cands: seq<Candidate>)
    ensures var order := AttemptOrder(cands, OnlyAOfTwo(), None, {});
            order != [] && order[0] == 0 && 2 !in order
  {
    SoleAnswerFirst(OnlyAOfTwo(), 0);
    OrderIsPermutation(cands, OnlyAOfTwo(), None, {}, 2);
    var order := AttemptOrder(cands, OnlyAOfTwo(), None, {});
    assert 2 in order ==> 2 in multiset(order);
  }

  /** A primary with a blank host: it has no first hop, so every probe is read as that of the candidate before
      its own. The blank primary is attempted first, and the last route never. */
  lemma UnprobeablePrimaryExample(p: Candidate, a: Candidate, b: Candidate)
    requires p.route == "" && a.route == "a" && b.route == "b"
    requires p.hop.NoHop? && Trim(p.host) == "" && Trim(a.host) != "" && Trim(b.host) != ""
    ensures ResultLabels(OnlyAOfTwo()) == ProbedLabels([p, a, b])
    ensures var order := AttemptOrder([p, a, b], OnlyAOfTwo(), None, {});
            order != [] && order[0] == 0 && [p, a, b][order[0]] == p && 2 !in order
  {
    assert !Probeable(p) && Probeable(a) && Probeable(b);
    ThreeCandidates(p, a, b);
    TwoResults();
    FirstOfTwo([p, a, b]);
  }
}
