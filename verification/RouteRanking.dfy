/** Ranking of probed routes (`rank_probes` of the core crate's `route.rs`). */
module RouteRanking {
  import opened Text
  import opened RouteCaching

  const STICKY_MIN_GAIN_NANOS: int := 5_000_000

  // ---------------------------------------------------------------------------
  // Stable sorting
  // ---------------------------------------------------------------------------

  function Insert(key: nat -> int, x: nat, xs: seq<nat>): (ys: seq<nat>) {
    if xs == [] || key(x) <= key(xs[0]) then [x] + xs else [xs[0]] + Insert(key, x, xs[1..])
  }

  /** `sort_by_key`: a stable sort. */
  function SortBy(key: nat -> int, xs: seq<nat>): (ys: seq<nat>) {
    if xs == [] then [] else Insert(key, xs[0], SortBy(key, xs[1..]))
  }

  function Keep(p: nat -> bool, xs: seq<nat>): (ys: seq<nat>) {
    if xs == [] then [] else (if p(xs[0]) then [xs[0]] else []) + Keep(p, xs[1..])
  }

  function Occurrences(xs: seq<nat>, x: nat): (n: nat) {
    multiset(xs)[x]
  }

  predicate SortedBy(key: nat -> int, xs: seq<nat>) {
    |xs| < 2 || (key(xs[0]) <= key(xs[1]) && SortedBy(key, xs[1..]))
  }

  lemma {:induction false} InsertFacts(key: nat -> int, x: nat, xs: seq<nat>)
    ensures multiset(Insert(key, x, xs)) == multiset{x} + multiset(xs)
    ensures SortedBy(key, xs) ==> SortedBy(key, Insert(key, x, xs))
  {
    if xs != [] && key(x) > key(xs[0]) {
      var rest := Insert(key, x, xs[1..]);
      InsertFacts(key, x, xs[1..]);
      assert xs == [xs[0]] + xs[1..];
      assert ([xs[0]] + rest)[1..] == rest;
    } else {
      assert ([x] + xs)[1..] == xs;
    }
  }

  lemma {:induction false} SortFacts(key: nat -> int, xs: seq<nat>)
    ensures multiset(SortBy(key, xs)) == multiset(xs) && SortedBy(key, SortBy(key, xs))
  {
    if xs != [] {
      var rest := SortBy(key, xs[1..]);
      SortFacts(key, xs[1..]);
      InsertFacts(key, xs[0], rest);
      assert multiset(SortBy(key, xs)) == multiset{xs[0]} + multiset(xs[1..]);
      assert xs == [xs[0]] + xs[1..];
    }
  }

  function HasKey(key: nat -> int, k: int): nat -> bool {
    (x: nat) => key(x) == k
  }

  lemma {:induction false} InsertIsStable(key: nat -> int, x: nat, xs: seq<nat>, k: int)
    ensures Keep(HasKey(key, k), Insert(key, x, xs)) ==
            (if key(x) == k then [x] else []) + Keep(HasKey(key, k), xs)
  {
    if xs != [] && key(x) > key(xs[0]) {
      InsertIsStable(key, x, xs[1..], k);
      var rest := Insert(key, x, xs[1..]);
      assert ([xs[0]] + rest)[1..] == rest;
    } else {
      assert ([x] + xs)[1..] == xs;
    }
  }

  /** Stability: elements with the same key keep their order. */
  lemma {:induction false} SortIsStable(key: nat -> int, xs: seq<nat>, k: int)
    ensures Keep(HasKey(key, k), SortBy(key, xs)) == Keep(HasKey(key, k), xs)
  {
    if xs != [] {
      SortIsStable(key, xs[1..], k);
      InsertIsStable(key, xs[0], SortBy(key, xs[1..]), k);
    }
  }

  // ---------------------------------------------------------------------------
  // Ranking
  // ---------------------------------------------------------------------------

  /** 0 reachable on the LAN, 1 reachable elsewhere, 2 unprobeable, 3 unreachable. */
  function Class(r: ProbeResult): (c: nat)
    ensures c < 4
  {
    match r.status
    case Reachable(_, isLan) => if isLan then 0 else 1
    case Unprobeable => 2
    case Unreachable => 3
  }

  function Latency(rs: seq<ProbeResult>): nat -> int {
    (i: nat) => if i < |rs| && rs[i].status.Reachable? then rs[i].status.nanos else 0
  }

  function NameOf(rs: seq<ProbeResult>): nat -> string {
    (i: nat) => if i < |rs| then rs[i].route else ""
  }

  function InClass(rs: seq<ProbeResult>, c: nat): nat -> bool {
    (i: nat) => i < |rs| && Class(rs[i]) == c
  }

  function UpTo(n: nat): (ns: seq<nat>) {
    if n == 0 then [] else UpTo(n - 1) + [n - 1]
  }

  /** The indices of one class, in input order. */
  function Members(rs: seq<ProbeResult>, c: nat): (ms: seq<nat>) {
    Keep(InClass(rs, c), UpTo(|rs|))
  }

  function Position(name: nat -> string, order: seq<nat>, route: string): (p: Option<nat>)
    ensures p.Some? ==> p.value < |order| && name(order[p.value]) == route
    ensures p.None? ==> forall i :: i in order ==> name(i) != route
  {
    if order == [] then None
    else if name(order[0]) == route then Some(0)
    else
      match Position(name, order[1..], route)
      case None => None
      case Some(k) => Some(k + 1)
  }

  /** Some other route of the class beats the sticky one by more than 20% and by more than 5 ms. */
  predicate Beaten(latency: nat -> int, order: seq<nat>, p: nat)
    requires p < |order|
  {
    exists j :: 0 <= j < |order| && j != p
      && 5 * latency(order[j]) < 4 * latency(order[p])
      && latency(order[p]) - latency(order[j]) > STICKY_MIN_GAIN_NANOS
  }

  /** `apply_sticky_within_class`. */
  function WithSticky(name: nat -> string, latency: nat -> int, order: seq<nat>, sticky: Option<string>)
    : (o: seq<nat>)
  {
    if sticky.None? then order
    else
      match Position(name, order, sticky.value)
      case None => order
      case Some(p) => if Beaten(latency, order, p) then order else [order[p]] + (order[..p] + order[p + 1..])
  }

  /** One class in its final order. */
  function Ranked(rs: seq<ProbeResult>, c: nat, sticky: Option<string>): (o: seq<nat>) {
    var members := Members(rs, c);
    if c < 2 then WithSticky(NameOf(rs), Latency(rs), SortBy(Latency(rs), members), sticky) else members
  }

  /** `rank_probes`. */
  function RankProbes(rs: seq<ProbeResult>, sticky: Option<string>): (o: seq<nat>) {
    Ranked(rs, 0, sticky) + Ranked(rs, 1, sticky) + Ranked(rs, 2, sticky) + Ranked(rs, 3, sticky)
  }

  lemma StickyPermutes(name: nat -> string, latency: nat -> int, order: seq<nat>, sticky: Option<string>)
    ensures multiset(WithSticky(name, latency, order, sticky)) == multiset(order)
  {
    if sticky.Some? && Position(name, order, sticky.value).Some? {
      var p := Position(name, order, sticky.value).value;
      assert order == order[..p] + ([order[p]] + order[p + 1..]);
    }
  }

  lemma RankedPermutes(rs: seq<ProbeResult>, c: nat, sticky: Option<string>)
    ensures multiset(Ranked(rs, c, sticky)) == multiset(Members(rs, c))
  {
    var members := Members(rs, c);
    SortFacts(Latency(rs), members);
    StickyPermutes(NameOf(rs), Latency(rs), SortBy(Latency(rs), members), sticky);
  }

  lemma {:induction false} UpToCount(n: nat, i: nat)
    ensures Occurrences(UpTo(n), i) == if i < n then 1 else 0
  {
    if n > 0 {
      UpToCount(n - 1, i);
    }
  }

  lemma {:induction false} KeepCount(p: nat -> bool, xs: seq<nat>, i: nat)
    ensures Occurrences(Keep(p, xs), i) == if p(i) then Occurrences(xs, i) else 0
  {
    if xs != [] {
      KeepCount(p, xs[1..], i);
      assert xs == [xs[0]] + xs[1..];
    }
  }

  lemma MembersCount(rs: seq<ProbeResult>, c: nat, i: nat)
    ensures Occurrences(Members(rs, c), i) == if i < |rs| && Class(rs[i]) == c then 1 else 0
  {
    UpToCount(|rs|, i);
    KeepCount(InClass(rs, c), UpTo(|rs|), i);
  }

  /** The ranking holds every probed route exactly once. */
  lemma RankIsPermutation(rs: seq<ProbeResult>, sticky: Option<string>, i: nat)
    ensures Occurrences(RankProbes(rs, sticky), i) == if i < |rs| then 1 else 0
  {
    RankedPermutes(rs, 0, sticky);
    RankedPermutes(rs, 1, sticky);
    RankedPermutes(rs, 2, sticky);
    RankedPermutes(rs, 3, sticky);
    MembersCount(rs, 0, i);
    MembersCount(rs, 1, i);
    MembersCount(rs, 2, i);
    MembersCount(rs, 3, i);
  }

  /** An index of the ranking is in the class its position says. */
  lemma RankedClass(rs: seq<ProbeResult>, c: nat, sticky: Option<string>, i: nat)
    requires i in Ranked(rs, c, sticky)
    ensures i < |rs| && Class(rs[i]) == c
  {
    RankedPermutes(rs, c, sticky);
    MembersCount(rs, c, i);
    assert i in multiset(Ranked(rs, c, sticky));
  }

  /** Every reachable LAN route precedes every other reachable one, those precede the unprobeable,
      and the unreachable come last, whatever route is sticky. */
  lemma RankRespectsClasses(rs: seq<ProbeResult>, sticky: Option<string>, a: nat, b: nat)
    requires a < b < |RankProbes(rs, sticky)|
    ensures var o := RankProbes(rs, sticky);
            o[a] < |rs| && o[b] < |rs| && Class(rs[o[a]]) <= Class(rs[o[b]])
  {
    var o := RankProbes(rs, sticky);
    var c0, c1, c2, c3 := Ranked(rs, 0, sticky), Ranked(rs, 1, sticky), Ranked(rs, 2, sticky), Ranked(rs, 3, sticky);
    ClassAt(rs, sticky, a);
    ClassAt(rs, sticky, b);
  }

  function ClassOfPosition(rs: seq<ProbeResult>, sticky: Option<string>, a: nat): (c: nat) {
    var n0, n1, n2 := |Ranked(rs, 0, sticky)|, |Ranked(rs, 1, sticky)|, |Ranked(rs, 2, sticky)|;
    if a < n0 then 0 else if a < n0 + n1 then 1 else if a < n0 + n1 + n2 then 2 else 3
  }

  lemma ClassAt(rs: seq<ProbeResult>, sticky: Option<string>, a: nat)
    requires a < |RankProbes(rs, sticky)|
    ensures RankProbes(rs, sticky)[a] < |rs|
    ensures Class(rs[RankProbes(rs, sticky)[a]]) == ClassOfPosition(rs, sticky, a)
  {
    var c := ClassOfPosition(rs, sticky, a);
    assert RankProbes(rs, sticky)[a] in Ranked(rs, c, sticky);
    RankedClass(rs, c, sticky, RankProbes(rs, sticky)[a]);
  }

  /** Inside a class, routes come by latency; only an unbeaten sticky route moves, to the front. */
  lemma RankedByLatency(rs: seq<ProbeResult>, c: nat, sticky: Option<string>)
    requires c < 2
    ensures var o, sorted := Ranked(rs, c, sticky), SortBy(Latency(rs), Members(rs, c));
            && SortedBy(Latency(rs), sorted)
            && (o == sorted
                || (sticky.Some? && o != [] && NameOf(rs)(o[0]) == sticky.value
                    && exists p :: 0 <= p < |sorted| && o == [sorted[p]] + (sorted[..p] + sorted[p + 1..])
                                   && !Beaten(Latency(rs), sorted, p)))
  {
    SortFacts(Latency(rs), Members(rs, c));
    var sorted := SortBy(Latency(rs), Members(rs, c));
    if sticky.Some? && Position(NameOf(rs), sorted, sticky.value).Some? {
      var p := Position(NameOf(rs), sorted, sticky.value).value;
      assert !Beaten(Latency(rs), sorted, p) ==> Ranked(rs, c, sticky) == [sorted[p]] + (sorted[..p] + sorted[p + 1..]);
    }
  }

  /** A sticky route of the class that does not come first was beaten by some route of the class. */
  lemma StickyFirstUnlessBeaten(rs: seq<ProbeResult>, c: nat, sticky: string, i: nat)
    requires c < 2 && i in Ranked(rs, c, Some(sticky)) && NameOf(rs)(i) == sticky
    ensures var o := Ranked(rs, c, Some(sticky));
            NameOf(rs)(o[0]) == sticky
            || exists p, j :: 0 <= p < |o| && 0 <= j < |o| && NameOf(rs)(o[p]) == sticky
                 && 5 * Latency(rs)(o[j]) < 4 * Latency(rs)(o[p])
                 && Latency(rs)(o[p]) - Latency(rs)(o[j]) > STICKY_MIN_GAIN_NANOS
  {
    var sorted := SortBy(Latency(rs), Members(rs, c));
    StickyPermutes(NameOf(rs), Latency(rs), sorted, Some(sticky));
    assert i in multiset(Ranked(rs, c, Some(sticky)));
    assert i in multiset(sorted);
  }

  // ---------------------------------------------------------------------------
  // What comes before what
  // ---------------------------------------------------------------------------

  predicate OnLan(r: ProbeResult) {
    r.status.Reachable? && r.status.isLan
  }

  /** Both reachable, and both on the LAN or neither. */
  predicate Peers(rs: seq<ProbeResult>, x: nat, y: nat) {
    && x < |rs| && y < |rs| && rs[x].status.Reachable? && rs[y].status.Reachable?
    && rs[x].status.isLan == rs[y].status.isLan
  }

  /** Faster, or as fast and probed earlier. */
  predicate Sooner(rs: seq<ProbeResult>, x: nat, y: nat)
    requires Peers(rs, x, y)
  {
    rs[x].status.nanos < rs[y].status.nanos || (rs[x].status.nanos == rs[y].status.nanos && x < y)
  }

  /** More than a fifth and more than 5 ms faster. */
  predicate Beats(rs: seq<ProbeResult>, y: nat, x: nat)
    requires Peers(rs, x, y)
  {
    && 5 * rs[y].status.nanos < 4 * rs[x].status.nanos
    && rs[x].status.nanos - rs[y].status.nanos > 5_000_000
  }

  /** The route the sticky label stands for among its peers, unless one of them beats it. */
  ghost predicate Champion(rs: seq<ProbeResult>, sticky: Option<string>, x: nat) {
    && x < |rs| && rs[x].status.Reachable? && sticky == Some(rs[x].route)
    && forall y: nat {:trigger Peers(rs, x, y)} :: Peers(rs, x, y) && y != x ==>
         !Beats(rs, y, x) && (rs[y].route == rs[x].route ==> Sooner(rs, x, y))
  }

  /** The LAN before the rest, what is reachable before what is not, what could not be probed before what did not
      answer; among peers the sticky route first and then the faster; all else as probed. */
  ghost predicate Before(rs: seq<ProbeResult>, sticky: Option<string>, x: nat, y: nat)
    requires x < |rs| && y < |rs|
  {
    if OnLan(rs[x]) != OnLan(rs[y]) then OnLan(rs[x])
    else if rs[x].status.Reachable? != rs[y].status.Reachable? then rs[x].status.Reachable?
    else if rs[x].status.Reachable? then
      if Champion(rs, sticky, x) != Champion(rs, sticky, y) then Champion(rs, sticky, x) else Sooner(rs, x, y)
    else if rs[x].status.Unprobeable? != rs[y].status.Unprobeable? then rs[x].status.Unprobeable?
    else x < y
  }

  predicate Increasing(xs: seq<nat>) {
    forall i, j :: 0 <= i < j < |xs| ==> xs[i] < xs[j]
  }

  lemma {:induction false} UpToIncreases(n: nat)
    ensures |UpTo(n)| == n && forall i :: 0 <= i < n ==> UpTo(n)[i] == i
  {
    if n > 0 {
      UpToIncreases(n - 1);
    }
  }

  lemma ConsIncreasing(x: nat, rest: seq<nat>)
    requires Increasing(rest) && forall y :: y in rest ==> x < y
    ensures Increasing([x] + rest)
  {
    assert forall i :: 0 <= i < |rest| ==> rest[i] in rest;
  }

  lemma TailIncreasing(xs: seq<nat>)
    requires Increasing(xs) && xs != []
    ensures Increasing(xs[1..]) && forall y :: y in xs[1..] ==> xs[0] < y && y in xs
  {
  }

  lemma {:induction false} KeepIncreases(p: nat -> bool, xs: seq<nat>)
    requires Increasing(xs)
    ensures Increasing(Keep(p, xs)) && forall y: nat :: y in Keep(p, xs) ==> y in xs
  {
    if xs != [] {
      TailIncreasing(xs);
      KeepIncreases(p, xs[1..]);
      ConsIncreasing(xs[0], Keep(p, xs[1..]));
      assert [] + Keep(p, xs[1..]) == Keep(p, xs[1..]);
    }
  }

  /** Smaller keys first, and among equal keys smaller numbers. */
  predicate KeyedBefore(key: nat -> int, x: nat, y: nat) {
    key(x) < key(y) || (key(x) == key(y) && x < y)
  }

  predicate Keyed(key: nat -> int, xs: seq<nat>) {
    forall i, j :: 0 <= i < j < |xs| ==> KeyedBefore(key, xs[i], xs[j])
  }

  lemma ConsKeyed(key: nat -> int, x: nat, rest: seq<nat>)
    requires Keyed(key, rest) && forall y: nat :: y in rest ==> KeyedBefore(key, x, y)
    ensures Keyed(key, [x] + rest)
  {
    assert forall i :: 0 <= i < |rest| ==> rest[i] in rest;
  }

  lemma TailKeyed(key: nat -> int, xs: seq<nat>)
    requires Keyed(key, xs) && xs != []
    ensures Keyed(key, xs[1..]) && forall y: nat :: y in xs[1..] ==> KeyedBefore(key, xs[0], y)
  {
    assert forall i :: 0 <= i < |xs[1..]| ==> xs[1..][i] == xs[i + 1];
  }

  lemma {:induction false} InsertKeyed(key: nat -> int, x: nat, xs: seq<nat>)
    requires Keyed(key, xs) && forall y :: y in xs ==> x < y
    ensures Keyed(key, Insert(key, x, xs)) && forall y :: y in Insert(key, x, xs) <==> y == x || y in xs
  {
    if xs == [] {
    } else if key(x) <= key(xs[0]) {
      TailKeyed(key, xs);
      forall y: nat | y in xs ensures KeyedBefore(key, x, y) {
        assert y == xs[0] || y in xs[1..];
      }
      ConsKeyed(key, x, xs);
    } else {
      TailKeyed(key, xs);
      assert forall y :: y in xs <==> y == xs[0] || y in xs[1..];
      InsertKeyed(key, x, xs[1..]);
      ConsKeyed(key, xs[0], Insert(key, x, xs[1..]));
    }
  }

  lemma {:induction false} SortKeyed(key: nat -> int, xs: seq<nat>)
    requires Increasing(xs)
    ensures Keyed(key, SortBy(key, xs)) && forall y :: y in SortBy(key, xs) <==> y in xs
  {
    if xs != [] {
      TailIncreasing(xs);
      assert forall y :: y in xs <==> y == xs[0] || y in xs[1..];
      SortKeyed(key, xs[1..]);
      InsertKeyed(key, xs[0], SortBy(key, xs[1..]));
    }
  }

  lemma MembersFacts(rs: seq<ProbeResult>, c: nat)
    ensures Increasing(Members(rs, c)) && forall i: nat :: i in Members(rs, c) <==> i < |rs| && Class(rs[i]) == c
  {
    UpToIncreases(|rs|);
    KeepIncreases(InClass(rs, c), UpTo(|rs|));
    forall i: nat ensures i in Members(rs, c) <==> i < |rs| && Class(rs[i]) == c {
      MembersCount(rs, c, i);
      assert i in Members(rs, c) <==> i in multiset(Members(rs, c));
    }
  }

  /** A class in the order of `Sooner`. */
  ghost predicate Settled(rs: seq<ProbeResult>, c: nat, o: seq<nat>) {
    && (forall i: nat :: i in o <==> i < |rs| && Class(rs[i]) == c)
    && (forall i, j :: 0 <= i < j < |o| ==> Peers(rs, o[i], o[j]) && Sooner(rs, o[i], o[j]))
  }

  lemma SortedClass(rs: seq<ProbeResult>, c: nat)
    requires c < 2
    ensures Settled(rs, c, SortBy(Latency(rs), Members(rs, c)))
  {
    MembersFacts(rs, c);
    SortKeyed(Latency(rs), Members(rs, c));
    var o := SortBy(Latency(rs), Members(rs, c));
    forall i, j | 0 <= i < j < |o| ensures Peers(rs, o[i], o[j]) && Sooner(rs, o[i], o[j]) {
      assert o[i] in o && o[j] in o && KeyedBefore(Latency(rs), o[i], o[j]);
    }
  }

  lemma ChampionIsOne(rs: seq<ProbeResult>, sticky: Option<string>, x: nat, y: nat)
    requires Champion(rs, sticky, x) && Champion(rs, sticky, y) && Peers(rs, x, y)
    ensures x == y
  {
    assert Peers(rs, y, x);
  }

  lemma PeersOfOneClass(rs: seq<ProbeResult>, x: nat, y: nat)
    requires x < |rs| && y < |rs| && Class(rs[x]) < 2
    ensures Peers(rs, x, y) <==> Class(rs[x]) == Class(rs[y])
  {
  }

  lemma {:induction false} PositionIsFirst(name: nat -> string, order: seq<nat>, route: string)
    requires Position(name, order, route).Some?
    ensures forall i :: 0 <= i < Position(name, order, route).value ==> name(order[i]) != route
  {
    if name(order[0]) != route {
      PositionIsFirst(name, order[1..], route);
    }
  }

  /** The sticky label's first place in the sorted class holds the champion, unless that is beaten. */
  lemma BeatenIsNotChampion(rs: seq<ProbeResult>, c: nat, o: seq<nat>, sticky: Option<string>, p: nat)
    requires c < 2 && Settled(rs, c, o) && p < |o| && Beaten(Latency(rs), o, p)
    ensures !Champion(rs, sticky, o[p])
  {
    var j :| 0 <= j < |o| && j != p && 5 * Latency(rs)(o[j]) < 4 * Latency(rs)(o[p])
             && Latency(rs)(o[p]) - Latency(rs)(o[j]) > STICKY_MIN_GAIN_NANOS;
    assert o[j] in o && o[p] in o;
    PeersOfOneClass(rs, o[p], o[j]);
  }

  lemma UnbeatenIsChampion(rs: seq<ProbeResult>, c: nat, o: seq<nat>, sticky: string, p: nat)
    requires c < 2 && Settled(rs, c, o)
    requires Position(NameOf(rs), o, sticky) == Some(p) && !Beaten(Latency(rs), o, p)
    ensures Champion(rs, Some(sticky), o[p])
  {
    var x := o[p];
    PositionIsFirst(NameOf(rs), o, sticky);
    assert x in o;
    forall y: nat | Peers(rs, x, y) && y != x
      ensures !Beats(rs, y, x) && (rs[y].route == rs[x].route ==> Sooner(rs, x, y))
    {
      PeersOfOneClass(rs, x, y);
      assert y in o;
      var j :| 0 <= j < |o| && o[j] == y;
      assert j < p ==> NameOf(rs)(o[j]) != sticky;
    }
  }

  /** A champion of the class is where the sticky label is found. */
  lemma ChampionIsThere(rs: seq<ProbeResult>, c: nat, o: seq<nat>, sticky: Option<string>, x: nat)
    requires c < 2 && Settled(rs, c, o) && x in o && Champion(rs, sticky, x)
    ensures var p := Position(NameOf(rs), o, sticky.value); p.Some? && o[p.value] == x
  {
    assert NameOf(rs)(x) == sticky.value;
    var p := Position(NameOf(rs), o, sticky.value).value;
    PositionIsFirst(NameOf(rs), o, sticky.value);
    var k :| 0 <= k < |o| && o[k] == x;
    if p < k {
      assert Peers(rs, o[p], o[k]) && Sooner(rs, o[p], o[k]) && Peers(rs, x, o[p]);
    }
  }

  lemma NoChampion(rs: seq<ProbeResult>, c: nat, o: seq<nat>, sticky: Option<string>, x: nat)
    requires c < 2 && Settled(rs, c, o) && x in o
    requires sticky.Some? ==>
               var p := Position(NameOf(rs), o, sticky.value); p.Some? ==> Beaten(Latency(rs), o, p.value)
    ensures !Champion(rs, sticky, x)
  {
    if Champion(rs, sticky, x) {
      ChampionIsThere(rs, c, o, sticky, x);
      BeatenIsNotChampion(rs, c, o, sticky, Position(NameOf(rs), o, sticky.value).value);
    }
  }

  lemma SoonerIsBefore(rs: seq<ProbeResult>, sticky: Option<string>, x: nat, y: nat)
    requires Peers(rs, x, y) && !Champion(rs, sticky, y) && (Champion(rs, sticky, x) || Sooner(rs, x, y))
    ensures Before(rs, sticky, x, y)
  {
  }

  /** One reachable class in its final order. */
  lemma RankedBefore(rs: seq<ProbeResult>, c: nat, sticky: Option<string>, i: nat, j: nat)
    requires c < 2 && i < j < |Ranked(rs, c, sticky)|
    ensures var o := Ranked(rs, c, sticky); o[i] < |rs| && o[j] < |rs| && Before(rs, sticky, o[i], o[j])
  {
    var sorted := SortBy(Latency(rs), Members(rs, c));
    SortedClass(rs, c);
    if sticky.Some? && Position(NameOf(rs), sorted, sticky.value).Some?
       && !Beaten(Latency(rs), sorted, Position(NameOf(rs), sorted, sticky.value).value) {
      var p := Position(NameOf(rs), sorted, sticky.value).value;
      UnbeatenIsChampion(rs, c, sorted, sticky.value, p);
      MovedBefore(rs, c, sorted, sticky, p, i, j);
    } else {
      assert sorted[j] in sorted;
      NoChampion(rs, c, sorted, sticky, sorted[j]);
      SoonerIsBefore(rs, sticky, sorted[i], sorted[j]);
    }
  }

  lemma MovedBefore(rs: seq<ProbeResult>, c: nat, sorted: seq<nat>, sticky: Option<string>, p: nat, i: nat, j: nat)
    requires c < 2 && Settled(rs, c, sorted) && p < |sorted| && i < j < |sorted| && Champion(rs, sticky, sorted[p])
    ensures var o := [sorted[p]] + (sorted[..p] + sorted[p + 1..]);
            o[i] < |rs| && o[j] < |rs| && Before(rs, sticky, o[i], o[j])
  {
    var o := [sorted[p]] + (sorted[..p] + sorted[p + 1..]);
    var k, l := MovedToFront(sorted, p, i, j);
    assert sorted[l] in sorted && sorted[p] in sorted;
    OthersAreNot(rs, c, sorted, sticky, p, l);
    SoonerIsBefore(rs, sticky, o[i], o[j]);
  }

  lemma OthersAreNot(rs: seq<ProbeResult>, c: nat, o: seq<nat>, sticky: Option<string>, p: nat, l: nat)
    requires c < 2 && Settled(rs, c, o) && p < |o| && l < |o| && l != p && Champion(rs, sticky, o[p])
    ensures Peers(rs, o[p], o[l]) && !Champion(rs, sticky, o[l])
  {
    var i, j := if p < l then p else l, if p < l then l else p;
    assert Peers(rs, o[i], o[j]) && Sooner(rs, o[i], o[j]);
    if Champion(rs, sticky, o[l]) {
      ChampionIsOne(rs, sticky, o[p], o[l]);
    }
  }

  /** Where the elements behind the one moved to the front came from. */
  lemma MovedToFront(xs: seq<nat>, p: nat, i: nat, j: nat) returns (k: nat, l: nat)
    requires p < |xs| && i < j < |xs|
    ensures var o := [xs[p]] + (xs[..p] + xs[p + 1..]);
            && l < |xs| && l != p && o[j] == xs[l]
            && (if i == 0 then o[i] == xs[p] else k < l && o[i] == xs[k])
  {
    k, l := if i == 0 || i > p then i else i - 1, if j <= p then j - 1 else j;
  }

  /** The ranking in terms of the probes alone: whatever stands earlier comes before. With `RankIsPermutation` this
      fixes it, since of two routes only one comes before the other. */
  lemma RankDecides(rs: seq<ProbeResult>, sticky: Option<string>, a: nat, b: nat)
    requires a < b < |RankProbes(rs, sticky)|
    ensures var o := RankProbes(rs, sticky);
            o[a] < |rs| && o[b] < |rs| && Before(rs, sticky, o[a], o[b])
  {
    var o, r := RankProbes(rs, sticky), RankedOf(rs, sticky);
    RankInParts(rs, sticky);
    var c, i := InParts(r, a);
    var d, j := InParts(r, b);
    RankedClass(rs, c, sticky, o[a]);
    RankedClass(rs, d, sticky, o[b]);
    if c == d && c < 2 {
      RankedBefore(rs, c, sticky, i, j);
    } else if c == d {
      MembersFacts(rs, c);
    }
  }

  function RankedOf(rs: seq<ProbeResult>, sticky: Option<string>): nat -> seq<nat> {
    (c: nat) => Ranked(rs, c, sticky)
  }

  function Parts(r: nat -> seq<nat>): (o: seq<nat>) {
    r(0) + r(1) + r(2) + r(3)
  }

  lemma RankInParts(rs: seq<ProbeResult>, sticky: Option<string>)
    ensures RankProbes(rs, sticky) == Parts(RankedOf(rs, sticky))
  {
  }

  /** Where the part with number `c` begins. */
  function Start(r: nat -> seq<nat>, c: nat): (a: nat) {
    if c == 0 then 0
    else if c == 1 then |r(0)|
    else if c == 2 then |r(0)| + |r(1)|
    else |r(0)| + |r(1)| + |r(2)|
  }

  /** The part a position is in, and its place there. */
  lemma InParts(r: nat -> seq<nat>, a: nat) returns (c: nat, i: nat)
    requires a < |Parts(r)|
    ensures c < 4 && a == Start(r, c) + i && i < |r(c)| && Parts(r)[a] == r(c)[i]
  {
    c := if a < |r(0)| then 0 else if a < |r(0)| + |r(1)| then 1
         else if a < |r(0)| + |r(1)| + |r(2)| then 2 else 3;
    i := a - Start(r, c);
  }

  lemma OnlyOneBefore(rs: seq<ProbeResult>, sticky: Option<string>, x: nat, y: nat)
    requires x < |rs| && y < |rs| && x != y
    ensures Before(rs, sticky, x, y) <==> !Before(rs, sticky, y, x)
  {
    if Champion(rs, sticky, x) && Champion(rs, sticky, y) && Peers(rs, x, y) {
      ChampionIsOne(rs, sticky, x, y);
    }
  }
}
