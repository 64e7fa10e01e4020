/** The key under which probes are cached (`cache_key` in `routing.rs`): what it says about the
    candidates, and the bound on cached probe vectors that follows from it. */
module RouteKeys {
  import opened Text
  import opened RouteCaching

  /** The first hop as the key spells it: the jump host, else the proxy, else none. */
  datatype Hop = ThroughJump(host: string) | ThroughProxy(host: string) | NoHop

  /** A connectable endpoint, as far as the schedule is concerned: its label (empty for the primary), its
      endpoint and its transport. */
  datatype Candidate = Candidate(route: string, host: string, port: nat, hop: Hop)

  /** `probe_target_for`: what must answer first, the jump host or the proxy if it is named, else the host. */
  function FirstHop(c: Candidate): (h: string) {
    if !c.hop.NoHop? && Trim(c.hop.host) != "" then Trim(c.hop.host) else Trim(c.host)
  }

  predicate Probeable(c: Candidate) {
    FirstHop(c) != ""
  }

  function CandidateLabels(cands: seq<Candidate>): (ls: seq<string>) {
    if cands == [] then [] else [cands[0].route] + CandidateLabels(cands[1..])
  }

  /** The labels that get probed, in candidate order. */
  function ProbedLabels(cands: seq<Candidate>): (ls: seq<string>) {
    if cands == [] then []
    else (if Probeable(cands[0]) then [cands[0].route] else []) + ProbedLabels(cands[1..])
  }

  /** What gets a probe: a candidate whose jump host or proxy is named, or else whose host is. */
  lemma {:induction false} ProbedExactlyWhen(cands: seq<Candidate>, route: string)
    ensures route in ProbedLabels(cands) <==>
            exists c :: c in cands && c.route == route
                        && ((!c.hop.NoHop? && Trim(c.hop.host) != "") || Trim(c.host) != "")
  {
    if cands != [] {
      ProbedExactlyWhen(cands[1..], route);
      assert forall c :: c in cands <==> c == cands[0] || c in cands[1..];
    }
  }

  // ---------------------------------------------------------------------------
  // The key
  // ---------------------------------------------------------------------------

  function HopText(h: Hop): (s: string) {
    match h
    case ThroughJump(host) => "jump:" + host
    case ThroughProxy(host) => "proxy:" + host
    case NoHop => "direct"
  }

  function Endpoint(c: Candidate): (s: string) {
    c.host + "|" + Decimal(c.port) + "|" + HopText(c.hop)
  }

  function Descriptor(c: Candidate): (s: string) {
    c.route + ['|'] + Endpoint(c)
  }

  function Descriptors(cands: seq<Candidate>): (ds: seq<string>) {
    if cands == [] then [] else [Descriptor(cands[0])] + Descriptors(cands[1..])
  }

  function InsertText(t: string, ts: seq<string>): (us: seq<string>) {
    if ts == [] || LexLeq(t, ts[0]) then [t] + ts else [ts[0]] + InsertText(t, ts[1..])
  }

  /** `Vec<String>::sort`. */
  function SortTexts(ts: seq<string>): (us: seq<string>) {
    if ts == [] then [] else InsertText(ts[0], SortTexts(ts[1..]))
  }

  /** The text that is hashed. */
  function KeyText(cands: seq<Candidate>): (s: string) {
    Join([';'], SortTexts(Descriptors(cands)))
  }

  function CacheKey(hash: string -> string, cands: seq<Candidate>): (key: string) {
    hash(KeyText(cands))
  }

  // ---------------------------------------------------------------------------
  // Sorting forgets the order and nothing else
  // ---------------------------------------------------------------------------

  predicate SortedTexts(ts: seq<string>) {
    |ts| < 2 || (LexLeq(ts[0], ts[1]) && SortedTexts(ts[1..]))
  }

  lemma {:induction false} InsertTextFacts(t: string, ts: seq<string>)
    ensures multiset(InsertText(t, ts)) == multiset{t} + multiset(ts)
    ensures SortedTexts(ts) ==> SortedTexts(InsertText(t, ts))
  {
    if ts != [] && !LexLeq(t, ts[0]) {
      InsertTextFacts(t, ts[1..]);
      LexTotal(t, ts[0]);
      assert ts == [ts[0]] + ts[1..];
      assert InsertText(t, ts)[1..] == InsertText(t, ts[1..]);
    } else {
      assert ([t] + ts)[1..] == ts;
    }
  }

  lemma {:induction false} SortTextsFacts(ts: seq<string>)
    ensures multiset(SortTexts(ts)) == multiset(ts) && SortedTexts(SortTexts(ts))
  {
    if ts != [] {
      SortTextsFacts(ts[1..]);
      InsertTextFacts(ts[0], SortTexts(ts[1..]));
      assert ts == [ts[0]] + ts[1..];
    }
  }

  lemma {:induction false} HeadIsLeast(ts: seq<string>, t: string)
    requires SortedTexts(ts) && t in ts
    ensures LexLeq(ts[0], t)
  {
    LexTotal(ts[0], ts[0]);
    if t != ts[0] {
      assert ts == [ts[0]] + ts[1..];
      HeadIsLeast(ts[1..], t);
      LexTransitive(ts[0], ts[1], t);
    }
  }

  lemma TailMultiset(ts: seq<string>)
    requires ts != []
    ensures ts == [ts[0]] + ts[1..] && multiset(ts[1..]) == multiset(ts) - multiset{ts[0]}
  {
    assert ts == [ts[0]] + ts[1..];
  }

  /** Two sorted lists of the same texts are one list. */
  lemma {:induction false} SortedIsUnique(ts: seq<string>, us: seq<string>)
    requires SortedTexts(ts) && SortedTexts(us) && multiset(ts) == multiset(us)
    ensures ts == us
  {
    if ts == [] || us == [] {
      assert |multiset(ts)| == |ts| && |multiset(us)| == |us|;
    } else {
      assert ts[0] in multiset(us) && us[0] in multiset(ts);
      HeadIsLeast(us, ts[0]);
      HeadIsLeast(ts, us[0]);
      LexTotal(ts[0], us[0]);
      TailMultiset(ts);
      TailMultiset(us);
      SortedIsUnique(ts[1..], us[1..]);
    }
  }

  /** Reordering a site's routes keeps its key. */
  lemma KeyIgnoresOrder(xs: seq<Candidate>, ys: seq<Candidate>)
    requires multiset(Descriptors(xs)) == multiset(Descriptors(ys))
    ensures KeyText(xs) == KeyText(ys)
  {
    SortTextsFacts(Descriptors(xs));
    SortTextsFacts(Descriptors(ys));
    SortedIsUnique(SortTexts(Descriptors(xs)), SortTexts(Descriptors(ys)));
  }

  // ---------------------------------------------------------------------------
  // What a key says about labels
  // ---------------------------------------------------------------------------

  /** Neither separator of the key occurs where it would be misread. */
  ghost predicate PlainCandidate(c: Candidate) {
    && Lacks(c.route, '|') && Lacks(c.route, ';')
    && Lacks(c.host, ';') && Lacks(HopText(c.hop), ';')
  }

  ghost predicate PlainCandidates(cands: seq<Candidate>) {
    cands == [] || (PlainCandidate(cands[0]) && PlainCandidates(cands[1..]))
  }

  lemma {:induction false} DecimalLacks(n: nat, c: char)
    requires !('0' <= c <= '9')
    ensures Lacks(Decimal(n), c)
  {
    if n >= 10 {
      DecimalLacks(n / 10, c);
    }
  }

  /** A descriptor holds no separator of descriptors, and its label is what stands before the first bar. */
  lemma PlainDescriptor(c: Candidate)
    requires PlainCandidate(c)
    ensures Lacks(Descriptor(c), ';') && Split(Descriptor(c), '|')[0] == c.route
  {
    DecimalLacks(c.port, ';');
    SplitFront(c.route, '|', Endpoint(c));
  }

  function LabelOf(descriptor: string): (l: string) {
    Split(descriptor, '|')[0]
  }

  function LabelsOf(ds: seq<string>): (ls: seq<string>) {
    if ds == [] then [] else [LabelOf(ds[0])] + LabelsOf(ds[1..])
  }

  lemma {:induction false} PlainDescriptors(cands: seq<Candidate>)
    requires PlainCandidates(cands)
    ensures AllLack(Descriptors(cands), ';') && LabelsOf(Descriptors(cands)) == CandidateLabels(cands)
  {
    if cands != [] {
      PlainDescriptor(cands[0]);
      PlainDescriptors(cands[1..]);
      assert Descriptors(cands)[1..] == Descriptors(cands[1..]);
    }
  }

  lemma {:induction false} AllLackMembers(ts: seq<string>, c: char)
    ensures AllLack(ts, c) <==> forall t :: t in multiset(ts) ==> Lacks(t, c)
  {
    if ts != [] {
      AllLackMembers(ts[1..], c);
      assert ts == [ts[0]] + ts[1..];
    }
  }

  /** Sorting descriptors only reorders their labels. */
  lemma {:induction false} LabelsOfSorted(ds: seq<string>)
    ensures multiset(LabelsOf(SortTexts(ds))) == multiset(LabelsOf(ds))
  {
    if ds != [] {
      LabelsOfSorted(ds[1..]);
      LabelsOfInserted(ds[0], SortTexts(ds[1..]));
    }
  }

  lemma {:induction false} LabelsOfInserted(t: string, ts: seq<string>)
    ensures multiset(LabelsOf(InsertText(t, ts))) == multiset{LabelOf(t)} + multiset(LabelsOf(ts))
  {
    if ts != [] && !LexLeq(t, ts[0]) {
      LabelsOfInserted(t, ts[1..]);
      assert InsertText(t, ts)[1..] == InsertText(t, ts[1..]);
    } else {
      assert ([t] + ts)[1..] == ts;
    }
  }

  lemma {:induction false} DescriptorCount(cands: seq<Candidate>)
    ensures |Descriptors(cands)| == |cands| == |CandidateLabels(cands)|
    ensures |ProbedLabels(cands)| <= |cands|
    ensures multiset(ProbedLabels(cands)) <= multiset(CandidateLabels(cands))
  {
    if cands != [] {
      DescriptorCount(cands[1..]);
    }
  }

  /** Plain candidate lists with one key text have the same descriptors, so the same labels. */
  lemma KeyFixesLabels(xs: seq<Candidate>, ys: seq<Candidate>)
    requires xs != [] && ys != [] && PlainCandidates(xs) && PlainCandidates(ys)
    ensures KeyText(xs) == KeyText(ys) <==> multiset(Descriptors(xs)) == multiset(Descriptors(ys))
    ensures KeyText(xs) == KeyText(ys) ==> multiset(CandidateLabels(xs)) == multiset(CandidateLabels(ys))
  {
    if multiset(Descriptors(xs)) == multiset(Descriptors(ys)) {
      KeyIgnoresOrder(xs, ys);
    }
    if KeyText(xs) == KeyText(ys) {
      KeySplits(xs);
      KeySplits(ys);
      SortTextsFacts(Descriptors(xs));
      SortTextsFacts(Descriptors(ys));
      LabelsOfSorted(Descriptors(xs));
      LabelsOfSorted(Descriptors(ys));
      PlainDescriptors(xs);
      PlainDescriptors(ys);
    }
  }

  /** No separator of the key occurs in it. */
  ghost predicate Separable(c: Candidate) {
    && PlainCandidate(c) && Lacks(c.host, '|') && (!c.hop.NoHop? ==> Lacks(c.hop.host, '|'))
  }

  ghost predicate AllSeparable(cands: seq<Candidate>) {
    forall c :: c in cands ==> Separable(c)
  }

  lemma HopTextFixes(g: Hop, h: Hop)
    requires HopText(g) == HopText(h)
    ensures g == h
  {
    assert HopText(g)[0] == HopText(h)[0];
    if !g.NoHop? {
      var n := if g.ThroughJump? then 5 else 6;
      assert HopText(g)[n..] == g.host && HopText(h)[n..] == h.host;
    }
  }

  lemma {:induction false} DecimalFixes(m: nat, n: nat)
    requires Decimal(m) == Decimal(n)
    ensures m == n
  {
    if m >= 10 && n >= 10 {
      LastDigit(m);
      LastDigit(n);
      DecimalFixes(m / 10, n / 10);
    } else if m >= 10 || n >= 10 {
      LastDigit(m);
      LastDigit(n);
    }
  }

  lemma LastDigit(n: nat)
    ensures |Decimal(n)| >= 1 && (n >= 10 ==> |Decimal(n)| >= 2)
    ensures n >= 10 ==> Decimal(n)[..|Decimal(n)| - 1] == Decimal(n / 10)
    ensures Decimal(n)[|Decimal(n)| - 1] == '0' + (n % 10) as char
  {
  }

  /** The parts of a descriptor. */
  lemma DescriptorParts(c: Candidate)
    requires Separable(c)
    ensures Split(Descriptor(c), '|') == [c.route, c.host, Decimal(c.port), HopText(c.hop)]
  {
    var rest := Decimal(c.port) + "|" + HopText(c.hop);
    DecimalLacks(c.port, '|');
    SplitFront(c.route, '|', Endpoint(c));
    assert Endpoint(c) == c.host + ['|'] + rest;
    SplitFront(c.host, '|', rest);
    SplitFront(Decimal(c.port), '|', HopText(c.hop));
    HopTextLacks(c.hop);
    SplitPart(HopText(c.hop), '|');
  }

  lemma HopTextLacks(h: Hop)
    requires !h.NoHop? ==> Lacks(h.host, '|')
    ensures Lacks(HopText(h), '|')
  {
  }

  /** A descriptor says everything about its candidate. */
  lemma DescriptorFixes(c: Candidate, d: Candidate)
    requires Separable(c) && Separable(d) && Descriptor(c) == Descriptor(d)
    ensures c == d
  {
    DescriptorParts(c);
    DescriptorParts(d);
    FourAlike(c.route, c.host, Decimal(c.port), HopText(c.hop), d.route, d.host, Decimal(d.port), HopText(d.hop));
    DecimalFixes(c.port, d.port);
    HopTextFixes(c.hop, d.hop);
  }

  lemma FourAlike(a: string, b: string, c: string, d: string, w: string, x: string, y: string, z: string)
    requires [a, b, c, d] == [w, x, y, z]
    ensures a == w && b == x && c == y && d == z
  {
    assert [a, b, c, d][0] == a && [a, b, c, d][1] == b && [a, b, c, d][2] == c && [a, b, c, d][3] == d;
  }

  lemma {:induction false} SameCount(cands: seq<Candidate>, c: Candidate)
    requires AllSeparable(cands) && Separable(c)
    ensures multiset(Descriptors(cands))[Descriptor(c)] == multiset(cands)[c]
  {
    if cands != [] {
      assert cands == [cands[0]] + cands[1..];
      SameCount(cands[1..], c);
      if Descriptor(cands[0]) == Descriptor(c) {
        DescriptorFixes(cands[0], c);
      }
    }
  }

  lemma {:induction false} SeparableArePlain(cands: seq<Candidate>)
    requires AllSeparable(cands)
    ensures PlainCandidates(cands)
  {
    if cands != [] {
      assert cands[0] in cands && Separable(cands[0]);
      SeparableArePlain(cands[1..]);
    }
  }

  /** Two sites whose labels and hosts hold no separator have one key text exactly when their candidates are the same
      but for the order: any other label, host, port or first hop makes another text. */
  lemma KeyTextExactlyWhen(xs: seq<Candidate>, ys: seq<Candidate>)
    requires xs != [] && ys != [] && AllSeparable(xs) && AllSeparable(ys)
    ensures KeyText(xs) == KeyText(ys) <==> multiset(xs) == multiset(ys)
  {
    SeparableArePlain(xs);
    SeparableArePlain(ys);
    KeyFixesLabels(xs, ys);
    if multiset(Descriptors(xs)) == multiset(Descriptors(ys)) {
      forall c ensures multiset(xs)[c] == multiset(ys)[c] {
        if c in xs || c in ys {
          SameCount(xs, c);
          SameCount(ys, c);
        }
      }
    }
    if multiset(xs) == multiset(ys) {
      SameDescriptors(xs, ys);
    }
  }

  lemma {:induction false} Described(cands: seq<Candidate>, d: string) returns (c: Candidate)
    requires d in Descriptors(cands)
    ensures c in cands && Descriptor(c) == d
  {
    if Descriptor(cands[0]) == d {
      c := cands[0];
    } else {
      c := Described(cands[1..], d);
    }
  }

  lemma SameDescriptors(xs: seq<Candidate>, ys: seq<Candidate>)
    requires AllSeparable(xs) && AllSeparable(ys) && multiset(xs) == multiset(ys)
    ensures multiset(Descriptors(xs)) == multiset(Descriptors(ys))
  {
    forall d ensures multiset(Descriptors(xs))[d] == multiset(Descriptors(ys))[d] {
      if d in Descriptors(xs) {
        var c := Described(xs, d);
        SameCount(xs, c);
        SameCount(ys, c);
      } else if d in Descriptors(ys) {
        var c := Described(ys, d);
        SameCount(xs, c);
        SameCount(ys, c);
      }
    }
  }

  lemma KeySplits(cands: seq<Candidate>)
    requires cands != [] && PlainCandidates(cands)
    ensures Split(KeyText(cands), ';') == SortTexts(Descriptors(cands))
  {
    var ds := Descriptors(cands);
    PlainDescriptors(cands);
    SortTextsFacts(ds);
    AllLackMembers(ds, ';');
    AllLackMembers(SortTexts(ds), ';');
    assert SortTexts(ds) != [] by {
      DescriptorCount(cands);
      assert |multiset(SortTexts(ds))| == |multiset(ds)| == |ds|;
    }
    SplitUndoesJoin(SortTexts(ds), ';');
  }

  const FRONT: string := "x|h|22|direct"
  const BACK: string := "y|h|22|direct"

  function AtH(route: string): (c: Candidate) {
    Candidate(route, "h", 22, NoHop)
  }

  lemma EndpointAtH(route: string)
    ensures Descriptor(AtH(route)) == route + "|h|22|direct"
  {
    assert Decimal(22) == Decimal(2) + "2";
    assert Endpoint(AtH(route)) == "h|22|direct";
  }

  lemma KeyOfTwo(a: Candidate, b: Candidate)
    requires LexLeq(Descriptor(a), Descriptor(b))
    ensures Descriptors([b, a]) == [Descriptor(b), Descriptor(a)]
    ensures KeyText([b, a]) == Descriptor(a) + [';'] + Descriptor(b)
  {
    var d, e := Descriptor(a), Descriptor(b);
    assert [b, a][1..] == [a] && [a][1..] == [];
    assert Descriptors([a]) == [d];
    assert Descriptors([b, a]) == [e, d];
    SortedIsUnique(SortTexts([e, d]), [d, e]) by {
      SortTextsFacts([e, d]);
      assert multiset([e, d]) == multiset([d, e]);
    }
    assert Join([';'], [d, e][1..]) == e;
  }

  lemma KeyOfThree(a: Candidate, b: Candidate, c: Candidate)
    requires LexLeq(Descriptor(a), Descriptor(b)) && LexLeq(Descriptor(b), Descriptor(c))
    ensures KeyText([c, a, b]) == Descriptor(a) + [';'] + (Descriptor(b) + [';'] + Descriptor(c))
  {
    var d, e, f := Descriptor(a), Descriptor(b), Descriptor(c);
    assert [c, a, b][1..] == [a, b] && [a, b][1..] == [b] && [b][1..] == [];
    assert Descriptors([b]) == [e];
    assert Descriptors([a, b]) == [d, e];
    assert Descriptors([c, a, b]) == [f, d, e];
    SortOfThree(d, e, f);
    JoinOfThree(d, e, f);
  }

  lemma SortOfThree(d: string, e: string, f: string)
    requires LexLeq(d, e) && LexLeq(e, f)
    ensures SortTexts([f, d, e]) == [d, e, f]
  {
    SortTextsFacts([f, d, e]);
    assert multiset([f, d, e]) == multiset([d, e, f]);
    assert [d, e, f][1..] == [e, f] && [e, f][1..] == [f];
    assert SortedTexts([e, f]);
    SortedIsUnique(SortTexts([f, d, e]), [d, e, f]);
  }

  lemma JoinOfThree(d: string, e: string, f: string)
    ensures Join([';'], [d, e, f]) == d + [';'] + (e + [';'] + f)
  {
    assert [d, e, f][1..] == [e, f] && [e, f][1..] == [f];
    assert Join([';'], [f]) == f;
    assert Join([';'], [e, f]) == e + [';'] + f;
  }

  /** Labels are free text, so plainness can fail: one route can spell the key of two. */
  lemma CraftedLabelSharesKey()
    ensures KeyText([AtH(""), AtH("x|h|22|direct;y")]) == KeyText([AtH(""), AtH("x"), AtH("y")])
  {
    var p, one, x, y := AtH(""), AtH("x|h|22|direct;y"), AtH("x"), AtH("y");
    EndpointAtH("");
    EndpointAtH("x");
    EndpointAtH("y");
    EndpointAtH("x|h|22|direct;y");
    assert Descriptor(p)[0] == '|' && Descriptor(x)[0] == 'x' && Descriptor(y)[0] == 'y' && Descriptor(one)[0] == 'x';
    KeyOfTwo(one, p);
    KeyOfThree(x, y, p);
    assert Descriptor(x) == FRONT && Descriptor(y) == BACK;
    assert Descriptor(one) == FRONT + [';'] + BACK;
    JoinThree(FRONT, BACK, Descriptor(p));
  }

  lemma JoinThree(a: string, b: string, c: string)
    ensures (a + [';'] + b) + [';'] + c == a + [';'] + (b + [';'] + c)
  {
  }

  lemma AllThreeProbed()
    ensures |ProbedLabels([AtH(""), AtH("x"), AtH("y")])| == 3
  {
    TrimmedExactlyWhenFixed("h");
    assert Probeable(AtH("")) && Probeable(AtH("x")) && Probeable(AtH("y"));
    assert [AtH(""), AtH("x"), AtH("y")][1..] == [AtH("x"), AtH("y")] && [AtH("x"), AtH("y")][1..] == [AtH("y")];
    assert ProbedLabels([AtH("y")]) == ["y"];
    assert ProbedLabels([AtH("x"), AtH("y")]) == ["x", "y"];
  }

  /** Then a round of the two routes, served to the one, is longer than the candidate list, and the
      source indexes past its end. */
  lemma CraftedLabelOverruns(hash: string -> string, rs: seq<ProbeResult>)
    requires ResultLabels(rs) == ProbedLabels([AtH(""), AtH("x"), AtH("y")])
    ensures var taken, served := CacheKey(hash, [AtH(""), AtH("x"), AtH("y")]),
                                 CacheKey(hash, [AtH(""), AtH("x|h|22|direct;y")]);
            var cached := FreshProbes(Replay([Probed(taken, rs, 0)]), served, 300, 10);
            cached.Some? && |cached.value| > |[AtH(""), AtH("x|h|22|direct;y")]|
  {
    CraftedLabelSharesKey();
    var key := CacheKey(hash, [AtH(""), AtH("x"), AtH("y")]);
    var log := [Probed(key, rs, 0)];
    assert log[..|log| - 1] == [];
    FreshRefinesLog(log, key, 300, 10);
    LengthOfLabels(rs, []);
    LengthOfLabels(CoarseAll(rs), []);
    AllThreeProbed();
  }

  // ---------------------------------------------------------------------------
  // Cached probe vectors fit their candidates
  // ---------------------------------------------------------------------------

  /** The probes cached under the key are, label by label, among the candidates' labels. */
  ghost predicate Fits(es: Entries, key: string, cands: seq<Candidate>) {
    multiset(Labels(EntryOf(es, key).probes)) <= multiset(CandidateLabels(cands))
  }

  /** The cache fits every candidate list in use. */
  ghost predicate Bounded(es: Entries, hash: string -> string, lists: set<seq<Candidate>>) {
    forall cands :: cands in lists ==> Fits(es, CacheKey(hash, cands), cands)
  }

  /** Among the lists in use, one key stands for one multiset of labels. */
  ghost predicate Faithful(hash: string -> string, lists: set<seq<Candidate>>) {
    forall xs, ys :: xs in lists && ys in lists && CacheKey(hash, xs) == CacheKey(hash, ys) ==>
                       multiset(CandidateLabels(xs)) == multiset(CandidateLabels(ys))
  }

  /** What is probed for one list, and every label of it, are labels of all lists of its key. */
  ghost predicate Compatible(hash: string -> string, lists: set<seq<Candidate>>) {
    forall xs, ys :: xs in lists && ys in lists && CacheKey(hash, xs) == CacheKey(hash, ys) ==> Contained(xs, ys)
  }

  ghost predicate Contained(xs: seq<Candidate>, ys: seq<Candidate>) {
    && multiset(ProbedLabels(xs)) <= multiset(CandidateLabels(ys))
    && forall l :: l in CandidateLabels(xs) ==> l in CandidateLabels(ys)
  }

  lemma FaithfulIsCompatible(hash: string -> string, lists: set<seq<Candidate>>)
    requires Faithful(hash, lists)
    ensures Compatible(hash, lists)
  {
    forall xs, ys | xs in lists && ys in lists && CacheKey(hash, xs) == CacheKey(hash, ys) ensures Contained(xs, ys) {
      SameLabelsContain(xs, ys);
    }
  }

  lemma SameLabelsContain(xs: seq<Candidate>, ys: seq<Candidate>)
    requires multiset(CandidateLabels(xs)) == multiset(CandidateLabels(ys))
    ensures Contained(xs, ys)
  {
    DescriptorCount(xs);
    forall l | l in CandidateLabels(xs) ensures l in CandidateLabels(ys) {
      assert l in multiset(CandidateLabels(xs));
    }
  }

  /** The hash has no collision among the texts in use. */
  ghost predicate CollisionFree(hash: string -> string, lists: set<seq<Candidate>>) {
    forall xs, ys :: xs in lists && ys in lists && hash(KeyText(xs)) == hash(KeyText(ys)) ==> KeyText(xs) == KeyText(ys)
  }

  /** Without hash collisions, keys of plain lists are faithful, so the lists of one key are compatible. */
  lemma PlainKeysAreFaithful(hash: string -> string, lists: set<seq<Candidate>>)
    requires CollisionFree(hash, lists)
    requires forall cands :: cands in lists ==> cands != [] && PlainCandidates(cands)
    ensures Faithful(hash, lists) && Compatible(hash, lists)
  {
    forall xs, ys | xs in lists && ys in lists && CacheKey(hash, xs) == CacheKey(hash, ys)
      ensures multiset(CandidateLabels(xs)) == multiset(CandidateLabels(ys))
    {
      KeyFixesLabels(xs, ys);
    }
    FaithfulIsCompatible(hash, lists);
  }

  /** What a step of `connect_routed` for these candidates may record. */
  ghost predicate Recordable(ev: Event, key: string, cands: seq<Candidate>) {
    && ev.key == key
    && match ev
       case Probed(_, rs, _) => ResultLabels(rs) == ProbedLabels(cands)
       case Failed(_, route, _) => route in CandidateLabels(cands)
       case Succeeded(_, route) => true
  }

  /** A step for one list keeps the cache fitting another of its key. */
  lemma FitsStep(es: Entries, ev: Event, key: string, cands: seq<Candidate>, other: seq<Candidate>)
    requires Recordable(ev, key, cands) && Contained(cands, other) && Fits(es, key, other)
    ensures Fits(Apply(es, ev), key, other)
  {
    var ps := EntryOf(es, key).probes;
    match ev {
      case Probed(_, rs, _) =>
        RoundOnList(rs, ps, "");
      case Failed(_, route, now) =>
        FailureOnList(ps, route, now, "");
        assert route in multiset(CandidateLabels(other));
      case Succeeded(_, route) =>
        SuccessOnList(ps, route, "");
    }
  }

  /** A step for one list keeps the cache fitting all of them. */
  lemma BoundedStep(es: Entries, ev: Event, hash: string -> string, lists: set<seq<Candidate>>, cands: seq<Candidate>)
    requires Bounded(es, hash, lists) && Compatible(hash, lists) && cands in lists
    requires Recordable(ev, CacheKey(hash, cands), cands)
    ensures Bounded(Apply(es, ev), hash, lists)
  {
    var key := CacheKey(hash, cands);
    var after := Apply(es, ev);
    forall other | other in lists ensures Fits(after, CacheKey(hash, other), other) {
      assert Fits(es, CacheKey(hash, other), other);
      if CacheKey(hash, other) == key {
        assert Contained(cands, other);
        FitsStep(es, ev, key, cands, other);
      } else {
        assert EntryOf(after, CacheKey(hash, other)) == EntryOf(es, CacheKey(hash, other));
      }
    }
  }

  /** Each event is one that some list in use may record under its key. */
  ghost predicate AllRecordable(log: seq<Event>, hash: string -> string, lists: set<seq<Candidate>>) {
    forall ev :: ev in log ==> exists cands :: cands in lists && Recordable(ev, CacheKey(hash, cands), cands)
  }

  ghost predicate AlwaysBounded(hash: string -> string, lists: set<seq<Candidate>>) {
    forall log :: AllRecordable(log, hash, lists) ==> Bounded(Replay(log), hash, lists)
  }

  lemma {:induction false} BoundedReplay(log: seq<Event>, hash: string -> string, lists: set<seq<Candidate>>)
    requires AllRecordable(log, hash, lists) && Compatible(hash, lists)
    ensures Bounded(Replay(log), hash, lists)
  {
    if log != [] {
      var init, ev := log[..|log| - 1], log[|log| - 1];
      assert forall e :: e in init ==> e in log;
      BoundedReplay(init, hash, lists);
      assert ev in log;
      var cands :| cands in lists && Recordable(ev, CacheKey(hash, cands), cands);
      BoundedStep(Replay(init), ev, hash, lists, cands);
    }
  }

  lemma OneEvent(ev: Event)
    ensures Replay([ev]) == Apply(map[], ev)
  {
    var log := [ev];
    assert log[..|log| - 1] == [];
  }

  /** Whatever the sites in use record, in any order, every cached vector fits every site of its key exactly when
      the lists of one key are compatible. */
  lemma BoundedExactlyWhen(hash: string -> string, lists: set<seq<Candidate>>)
    ensures AlwaysBounded(hash, lists) <==> Compatible(hash, lists)
  {
    if AlwaysBounded(hash, lists) {
      forall xs, ys | xs in lists && ys in lists && CacheKey(hash, xs) == CacheKey(hash, ys)
        ensures Contained(xs, ys)
      {
        BoundedContains(hash, lists, xs, ys);
      }
    }
    if Compatible(hash, lists) {
      forall log | AllRecordable(log, hash, lists) ensures Bounded(Replay(log), hash, lists) {
        BoundedReplay(log, hash, lists);
      }
    }
  }

  lemma BoundedContains(hash: string -> string, lists: set<seq<Candidate>>, xs: seq<Candidate>, ys: seq<Candidate>)
    requires AlwaysBounded(hash, lists)
    requires xs in lists && ys in lists && CacheKey(hash, xs) == CacheKey(hash, ys)
    ensures Contained(xs, ys)
  {
    var key, rs := CacheKey(hash, xs), ResultsFor(ProbedLabels(xs));
    FitsAfter(hash, lists, xs, ys, Probed(key, rs, 0));
    RoundOnList(rs, [], "");
    forall l | l in CandidateLabels(xs) ensures l in CandidateLabels(ys) {
      FitsAfter(hash, lists, xs, ys, Failed(key, l, 0));
      FailureOnList([], l, 0, "");
      assert l in multiset(CandidateLabels(ys));
    }
  }

  lemma FitsAfter(hash: string -> string, lists: set<seq<Candidate>>, xs: seq<Candidate>, ys: seq<Candidate>, ev: Event)
    requires AlwaysBounded(hash, lists) && xs in lists && ys in lists
    requires Recordable(ev, CacheKey(hash, xs), xs)
    ensures Fits(Apply(map[], ev), CacheKey(hash, ys), ys)
  {
    var log := [ev];
    assert AllRecordable(log, hash, lists);
    OneEvent(ev);
    assert Bounded(Replay(log), hash, lists);
  }

  /** A cache that fits never serves more probes than there are candidates. */
  lemma FittingProbes(es: Entries, hash: string -> string, lists: set<seq<Candidate>>, cands: seq<Candidate>,
                      ttlSecs: nat, now: int)
    requires Bounded(es, hash, lists) && cands in lists
    ensures var cached := FreshProbes(es, CacheKey(hash, cands), ttlSecs, now);
            cached.Some? ==> |cached.value| <= |cands|
  {
    var ps, labels := EntryOf(es, CacheKey(hash, cands)).probes, CandidateLabels(cands);
    assert Fits(es, CacheKey(hash, cands), cands);
    LengthOfLabels([], ps);
    DescriptorCount(cands);
    SmallerMultiset(Labels(ps), labels);
  }

  lemma SmallerMultiset(xs: seq<string>, ys: seq<string>)
    requires multiset(xs) <= multiset(ys)
    ensures |xs| <= |ys|
  {
    assert multiset(ys) == multiset(xs) + (multiset(ys) - multiset(xs));
    assert |multiset(ys)| == |multiset(xs)| + |multiset(ys) - multiset(xs)|;
    assert |multiset(xs)| == |xs| && |multiset(ys)| == |ys|;
  }
}
