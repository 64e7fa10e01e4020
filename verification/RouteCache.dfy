/** The persisted probe cache of `routing.rs`: first-hop probes with a time to live, failure
    backoff and the last good route, compared with the log of events it was told about. */
module RouteCaching {
  import opened Text

  /** Seconds a failed route stays demoted. */
  const FAILURE_BACKOFF: int := 60
  const NANOS_PER_MILLI: nat := 1_000_000

  datatype ProbeStatus = Reachable(nanos: nat, isLan: bool) | Unreachable | Unprobeable

  datatype ProbeResult = ProbeResult(route: string, status: ProbeStatus)

  datatype CachedProbe = CachedProbe(
    route: string, reachable: bool, latencyMs: Option<nat>, isLan: bool, failureAt: Option<int>)

  datatype CacheEntry = CacheEntry(updatedAt: int, lastGood: Option<string>, probes: seq<CachedProbe>)

  type Entries = map<string, CacheEntry>

  const DefaultEntry := CacheEntry(0, None, [])

  function EntryOf(es: Entries, key: string): (e: CacheEntry) {
    if key in es then es[key] else DefaultEntry
  }

  // ---------------------------------------------------------------------------
  // The cached probe list
  // ---------------------------------------------------------------------------

  /** The failure mark of the first probe with this route. */
  function Mark(ps: seq<CachedProbe>, route: string): (m: Option<int>) {
    if ps == [] then None
    else if ps[0].route == route then ps[0].failureAt
    else Mark(ps[1..], route)
  }

  /** The mark a map collected from the list holds: that of the last probe with this route. */
  function LastMark(ps: seq<CachedProbe>, route: string): (m: Option<int>) {
    if ps == [] then None
    else
      var last := ps[|ps| - 1];
      if last.route == route then last.failureAt else LastMark(ps[..|ps| - 1], route)
  }

  function Labels(ps: seq<CachedProbe>): (ls: seq<string>) {
    if ps == [] then [] else [ps[0].route] + Labels(ps[1..])
  }

  function ResultLabels(rs: seq<ProbeResult>): (ls: seq<string>) {
    if rs == [] then [] else [rs[0].route] + ResultLabels(rs[1..])
  }

  /** `record_failure` on a probe list: mark the first probe with the route, or append one. */
  function WithFailure(ps: seq<CachedProbe>, route: string, now: int): (qs: seq<CachedProbe>) {
    if ps == [] then [CachedProbe(route, false, None, false, Some(now))]
    else if ps[0].route == route then [ps[0].(failureAt := Some(now))] + ps[1..]
    else [ps[0]] + WithFailure(ps[1..], route, now)
  }

  /** `record_success` on a probe list: clear the first probe with the route, if any. */
  function WithSuccess(ps: seq<CachedProbe>, route: string): (qs: seq<CachedProbe>) {
    if ps == [] then []
    else if ps[0].route == route then [ps[0].(failureAt := None)] + ps[1..]
    else [ps[0]] + WithSuccess(ps[1..], route)
  }

  function Cached(r: ProbeResult, mark: Option<int>): (p: CachedProbe) {
    match r.status
    case Reachable(nanos, isLan) => CachedProbe(r.route, true, Some(nanos / NANOS_PER_MILLI), isLan, mark)
    case _ => CachedProbe(r.route, false, None, false, mark)
  }

  /** `record_probes` on a probe list: the new results, keeping each route's old failure mark. */
  function WithProbes(rs: seq<ProbeResult>, previous: seq<CachedProbe>): (qs: seq<CachedProbe>) {
    if rs == [] then []
    else [Cached(rs[0], LastMark(previous, rs[0].route))] + WithProbes(rs[1..], previous)
  }

  /** A cached probe as `fresh_probes` hands it out. */
  function Read(p: CachedProbe): (r: ProbeResult) {
    var millis := if p.latencyMs.Some? then p.latencyMs.value else 0xFFFF_FFFF_FFFF_FFFF;
    ProbeResult(p.route, if p.reachable then Reachable(millis * NANOS_PER_MILLI, p.isLan) else Unreachable)
  }

  function ReadAll(ps: seq<CachedProbe>): (rs: seq<ProbeResult>) {
    if ps == [] then [] else [Read(ps[0])] + ReadAll(ps[1..])
  }

  /** What caching does to a result: latency cut to whole milliseconds, unprobeable read as unreachable. */
  function Coarse(r: ProbeResult): (c: ProbeResult) {
    match r.status
    case Reachable(nanos, isLan) =>
      ProbeResult(r.route, Reachable(nanos - nanos % NANOS_PER_MILLI, isLan))
    case _ => ProbeResult(r.route, Unreachable)
  }

  function CoarseAll(rs: seq<ProbeResult>): (cs: seq<ProbeResult>) {
    if rs == [] then [] else [Coarse(rs[0])] + CoarseAll(rs[1..])
  }

  function Recent(ps: seq<CachedProbe>, now: int): (ls: seq<string>) {
    if ps == [] then []
    else
      (if ps[0].failureAt.Some? && now - ps[0].failureAt.value < FAILURE_BACKOFF then [ps[0].route] else [])
      + Recent(ps[1..], now)
  }

  // ---------------------------------------------------------------------------
  // Events
  // ---------------------------------------------------------------------------

  datatype Event =
    | Probed(key: string, results: seq<ProbeResult>, now: int)
    | Failed(key: string, route: string, now: int)
    | Succeeded(key: string, route: string)

  /** What one event does to the entry of its key. */
  function ApplyToEntry(e: CacheEntry, ev: Event): (e': CacheEntry) {
    match ev
    case Probed(_, rs, now) => e.(updatedAt := now, probes := WithProbes(rs, e.probes))
    case Failed(_, route, now) => e.(probes := WithFailure(e.probes, route, now))
    case Succeeded(_, route) => e.(probes := WithSuccess(e.probes, route), lastGood := Some(route))
  }

  function Apply(es: Entries, ev: Event): (es': Entries) {
    es[ev.key := ApplyToEntry(EntryOf(es, ev.key), ev)]
  }

  /** The cache after a run. */
  function Replay(log: seq<Event>): (es: Entries) {
    if log == [] then map[] else Apply(Replay(log[..|log| - 1]), log[|log| - 1])
  }

  // ---------------------------------------------------------------------------
  // What the log says
  // ---------------------------------------------------------------------------

  /** The event settles a route's failure mark: an outcome of the route, or a probe round without it. */
  predicate Settles(ev: Event, key: string, route: string) {
    && ev.key == key
    && match ev
       case Probed(_, rs, _) => route !in ResultLabels(rs)
       case Failed(_, l, _) => l == route
       case Succeeded(_, l) => l == route
  }

  /** The i-th event is the last one that settles the route's mark. */
  predicate LastSettling(log: seq<Event>, i: nat, key: string, route: string) {
    i < |log| && Settles(log[i], key, route) && forall j :: i < j < |log| ==> !Settles(log[j], key, route)
  }

  function MarkFromLog(log: seq<Event>, key: string, route: string): (m: Option<int>) {
    if log == [] then None
    else
      var ev := log[|log| - 1];
      if Settles(ev, key, route) then (if ev.Failed? then Some(ev.now) else None)
      else MarkFromLog(log[..|log| - 1], key, route)
  }

  /** The mark is that of the last settling event, which has to be a failure. */
  lemma {:induction false} MarkIsLastFailure(log: seq<Event>, key: string, route: string, at: int)
    ensures MarkFromLog(log, key, route) == Some(at) <==>
            exists i: nat :: LastSettling(log, i, key, route) && log[i] == Failed(key, route, at)
  {
    if log != [] {
      var last := |log| - 1;
      var init := log[..last];
      MarkIsLastFailure(init, key, route, at);
      if Settles(log[last], key, route) {
        assert LastSettling(log, last, key, route);
        forall i: nat | LastSettling(log, i, key, route) ensures i == last {
        }
      } else {
        forall i: nat ensures LastSettling(log, i, key, route) <==> LastSettling(init, i, key, route) {
        }
        if i: nat :| LastSettling(init, i, key, route) && init[i] == Failed(key, route, at) {
          assert LastSettling(log, i, key, route) && log[i] == Failed(key, route, at);
        }
        if i: nat :| LastSettling(log, i, key, route) && log[i] == Failed(key, route, at) {
          assert LastSettling(init, i, key, route) && init[i] == Failed(key, route, at);
        }
      }
    }
  }

  /** The last probe round of a key. */
  function LastRound(log: seq<Event>, key: string): (r: Option<Event>)
    ensures r.Some? ==> r.value.Probed? && r.value.key == key
  {
    if log == [] then None
    else
      var ev := log[|log| - 1];
      if ev.Probed? && ev.key == key then Some(ev) else LastRound(log[..|log| - 1], key)
  }

  /** The routes of the key's last probe round, in its order; none before the first. */
  function RoundLabels(log: seq<Event>, key: string): (ls: seq<string>) {
    match LastRound(log, key)
    case Some(Probed(_, rs, _)) => ResultLabels(rs)
    case _ => []
  }

  /** The last success of a key. */
  function LastGood(log: seq<Event>, key: string): (r: Option<string>) {
    if log == [] then None
    else
      var ev := log[|log| - 1];
      if ev.Succeeded? && ev.key == key then Some(ev.route) else LastGood(log[..|log| - 1], key)
  }

  /** The routes that failed since the key's last probe round although it did not cover them, in the
      order of their first failure. */
  function StrayLabels(log: seq<Event>, key: string): (ls: seq<string>) {
    if log == [] then []
    else
      var init, ev := log[..|log| - 1], log[|log| - 1];
      if ev.key != key then StrayLabels(init, key)
      else if ev.Probed? then []
      else if ev.Failed? && ev.route !in RoundLabels(init, key) + StrayLabels(init, key)
        then StrayLabels(init, key) + [ev.route]
      else StrayLabels(init, key)
  }

  /** How often a name stands in a list. */
  function Times(ls: seq<string>, l: string): (n: nat) {
    if ls == [] then 0 else (if ls[0] == l then 1 else 0) + Times(ls[1..], l)
  }

  /** No probe round of the key names the route twice. */
  ghost predicate NamedOnce(log: seq<Event>, key: string, route: string) {
    forall ev :: ev in log && ev.Probed? && ev.key == key ==> Times(ResultLabels(ev.results), route) <= 1
  }

  // ---------------------------------------------------------------------------
  // Facts about probe lists
  // ---------------------------------------------------------------------------

  lemma {:induction false} TimesIsMembership(ls: seq<string>, l: string)
    ensures Times(ls, l) == multiset(ls)[l]
    ensures Times(ls, l) > 0 <==> l in ls
  {
    if ls != [] {
      TimesIsMembership(ls[1..], l);
      assert ls == [ls[0]] + ls[1..];
    }
  }

  lemma {:induction false} FailureOnList(ps: seq<CachedProbe>, route: string, now: int, other: string)
    ensures var qs := WithFailure(ps, route, now);
            && Mark(qs, other) == (if other == route then Some(now) else Mark(ps, other))
            && Labels(qs) == (if route in Labels(ps) then Labels(ps) else Labels(ps) + [route])
            && ReadAll(ps) <= ReadAll(qs)
  {
    if ps != [] {
      FailureOnList(ps[1..], route, now, other);
      assert ([ps[0]] + WithFailure(ps[1..], route, now))[1..] == WithFailure(ps[1..], route, now);
      assert ([ps[0].(failureAt := Some(now))] + ps[1..])[1..] == ps[1..];
    }
  }

  lemma {:induction false} SuccessOnList(ps: seq<CachedProbe>, route: string, other: string)
    ensures var qs := WithSuccess(ps, route);
            && Mark(qs, other) == (if other == route then None else Mark(ps, other))
            && Labels(qs) == Labels(ps) && ReadAll(qs) == ReadAll(ps)
  {
    if ps != [] {
      SuccessOnList(ps[1..], route, other);
      assert ([ps[0]] + WithSuccess(ps[1..], route))[1..] == WithSuccess(ps[1..], route);
      assert ([ps[0].(failureAt := None)] + ps[1..])[1..] == ps[1..];
    }
  }

  /** A route named once has one mark, from whichever end it is read. */
  lemma {:induction false} LastMarkIsMark(ps: seq<CachedProbe>, route: string)
    requires Times(Labels(ps), route) <= 1
    ensures LastMark(ps, route) == Mark(ps, route)
  {
    LastMarkFromFront(ps, route);
    if ps != [] {
      LastMarkIsMark(ps[1..], route);
      TimesIsMembership(Labels(ps[1..]), route);
    }
  }

  /** Reading the last mark from the front: the rest wins over the head. */
  lemma {:induction false} LastMarkFromFront(ps: seq<CachedProbe>, route: string)
    ensures ps != [] && route in Labels(ps[1..]) ==> LastMark(ps, route) == LastMark(ps[1..], route)
    ensures ps != [] && route !in Labels(ps[1..]) ==>
              LastMark(ps, route) == if ps[0].route == route then ps[0].failureAt else None
    ensures route !in Labels(ps) ==> LastMark(ps, route) == None && Mark(ps, route) == None
  {
    if ps != [] {
      var init, last := ps[..|ps| - 1], ps[|ps| - 1];
      LastMarkFromFront(init, route);
      LabelsAppend(init, last);
      if |ps| > 1 {
        assert ps[1..] == init[1..] + [last] && ps[1..][..|ps| - 2] == init[1..];
        LabelsAppend(init[1..], last);
      }
      assert init + [last] == ps;
      MarkAbsent(ps, route);
    }
  }

  lemma {:induction false} MarkAbsent(ps: seq<CachedProbe>, route: string)
    ensures route !in Labels(ps) ==> Mark(ps, route) == None
  {
    if ps != [] {
      MarkAbsent(ps[1..], route);
    }
  }

  lemma {:induction false} LabelsAppend(ps: seq<CachedProbe>, p: CachedProbe)
    ensures Labels(ps + [p]) == Labels(ps) + [p.route]
  {
    if ps == [] {
      assert ps + [p] == [p];
    } else {
      LabelsAppend(ps[1..], p);
      assert (ps + [p])[1..] == ps[1..] + [p];
    }
  }

  lemma {:induction false} RoundOnList(rs: seq<ProbeResult>, previous: seq<CachedProbe>, route: string)
    ensures var qs := WithProbes(rs, previous);
            && Mark(qs, route) == (if route in ResultLabels(rs) then LastMark(previous, route) else None)
            && Labels(qs) == ResultLabels(rs) && ReadAll(qs) == CoarseAll(rs)
  {
    if rs != [] {
      RoundOnList(rs[1..], previous, route);
      var c := Cached(rs[0], LastMark(previous, rs[0].route));
      assert ([c] + WithProbes(rs[1..], previous))[1..] == WithProbes(rs[1..], previous);
      assert Read(c) == Coarse(rs[0]);
    }
  }

  lemma {:induction false} LengthOfLabels(rs: seq<ProbeResult>, ps: seq<CachedProbe>)
    ensures |Labels(ps)| == |ps| && |ResultLabels(rs)| == |rs| && |ReadAll(ps)| == |ps| && |CoarseAll(rs)| == |rs|
  {
    if ps != [] {
      LengthOfLabels(rs, ps[1..]);
    } else if rs != [] {
      LengthOfLabels(rs[1..], ps);
    }
  }

  lemma {:induction false} LabelsOfRead(ps: seq<CachedProbe>)
    ensures ResultLabels(ReadAll(ps)) == Labels(ps)
  {
    if ps != [] {
      LabelsOfRead(ps[1..]);
      assert ReadAll(ps)[1..] == ReadAll(ps[1..]);
    }
  }

  predicate RecentMark(m: Option<int>, now: int) {
    m.Some? && now - m.value < FAILURE_BACKOFF
  }

  /** A recent mark on the first probe puts a route in backoff; for a route named once it is the only way. */
  lemma {:induction false} RecentIsMarked(ps: seq<CachedProbe>, route: string, now: int)
    ensures RecentMark(Mark(ps, route), now) ==> route in Recent(ps, now)
    ensures Times(Labels(ps), route) <= 1 ==> (route in Recent(ps, now) <==> RecentMark(Mark(ps, route), now))
    ensures route in Recent(ps, now) ==> route in Labels(ps)
  {
    if ps != [] {
      RecentIsMarked(ps[1..], route, now);
      TimesIsMembership(Labels(ps[1..]), route);
      MarkAbsent(ps[1..], route);
    }
  }

  // ---------------------------------------------------------------------------
  // Refinement: the cache after a run against the log of the run
  // ---------------------------------------------------------------------------

  /** All of an entry but its failure marks is what the log says. */
  ghost predicate Tracks(e: CacheEntry, log: seq<Event>, key: string) {
    && e.lastGood == LastGood(log, key)
    && Labels(e.probes) == RoundLabels(log, key) + StrayLabels(log, key)
    && match LastRound(log, key)
       case Some(Probed(_, rs, at)) => e.updatedAt == at && CoarseAll(rs) <= ReadAll(e.probes)
       case _ => e.updatedAt == 0
  }

  /** After every run, every key's entry tracks the log, whatever the rounds name. */
  lemma {:induction false} ReplayTracks(log: seq<Event>, key: string)
    ensures Tracks(EntryOf(Replay(log), key), log, key)
  {
    if log != [] {
      var init, ev := log[..|log| - 1], log[|log| - 1];
      ReplayTracks(init, key);
      TracksStep(EntryOf(Replay(init), key), init, ev, key);
      assert log == init + [ev];
    }
  }

  lemma TracksStep(e: CacheEntry, init: seq<Event>, ev: Event, key: string)
    requires Tracks(e, init, key)
    ensures Tracks(if ev.key == key then ApplyToEntry(e, ev) else e, init + [ev], key)
  {
    var log := init + [ev];
    assert log[..|log| - 1] == init;
    if ev.key == key {
      match ev {
        case Probed(_, rs, _) =>
          RoundOnList(rs, e.probes, "");
          assert ResultLabels(rs) + [] == ResultLabels(rs);
        case Failed(_, route, now) =>
          FailureOnList(e.probes, route, now, "");
          var stray := StrayLabels(init, key);
          assert RoundLabels(init, key) + (stray + [route]) == RoundLabels(init, key) + stray + [route];
        case Succeeded(_, route) =>
          SuccessOnList(e.probes, route, "");
      }
    }
  }

  /** The failure mark of one route is what the log says. */
  ghost predicate MarkAgrees(ps: seq<CachedProbe>, log: seq<Event>, key: string, route: string) {
    Times(Labels(ps), route) <= 1 && Mark(ps, route) == MarkFromLog(log, key, route)
  }

  lemma MarkStep(e: CacheEntry, init: seq<Event>, ev: Event, route: string)
    requires MarkAgrees(e.probes, init, ev.key, route)
    requires ev.Probed? ==> Times(ResultLabels(ev.results), route) <= 1
    ensures MarkAgrees(ApplyToEntry(e, ev).probes, init + [ev], ev.key, route)
  {
    var log := init + [ev];
    assert log[..|log| - 1] == init;
    match ev {
      case Probed(_, rs, _) =>
        RoundOnList(rs, e.probes, route);
        LastMarkIsMark(e.probes, route);
      case Failed(_, failed, now) =>
        FailureOnList(e.probes, failed, now, route);
        TimesAfterFailure(e.probes, failed, now, route);
      case Succeeded(_, good) =>
        SuccessOnList(e.probes, good, route);
    }
  }

  lemma TimesAfterFailure(ps: seq<CachedProbe>, failed: string, now: int, route: string)
    ensures var before, after := Times(Labels(ps), route), Times(Labels(WithFailure(ps, failed, now)), route);
            after == if failed == route && before == 0 then 1 else before
  {
    FailureOnList(ps, failed, now, route);
    TimesIsMembership(Labels(ps), route);
    TimesIsMembership(Labels(WithFailure(ps, failed, now)), route);
  }

  /** After every run, the mark of a route that no round of its key names twice agrees with the log. */
  lemma {:induction false} ReplayAgrees(log: seq<Event>, key: string, route: string)
    requires NamedOnce(log, key, route)
    ensures MarkAgrees(EntryOf(Replay(log), key).probes, log, key, route)
  {
    if log != [] {
      var init, ev := log[..|log| - 1], log[|log| - 1];
      assert log == init + [ev] && ev in log;
      assert forall x :: x in init ==> x in log;
      ReplayAgrees(init, key, route);
      if ev.key == key {
        MarkStep(EntryOf(Replay(init), key), init, ev, route);
      }
    }
  }

  // ---------------------------------------------------------------------------
  // Queries
  // ---------------------------------------------------------------------------

  /** `fresh_probes`. */
  function FreshProbes(es: Entries, key: string, ttlSecs: nat, now: int): (r: Option<seq<ProbeResult>>) {
    if key !in es || now - es[key].updatedAt > Max(ttlSecs, 1) then None else Some(ReadAll(es[key].probes))
  }

  /** `sticky_label`. */
  function StickyLabel(es: Entries, key: string): (r: Option<string>) {
    if key !in es then None else es[key].lastGood
  }

  /** `backoff_labels`. */
  function BackoffLabels(es: Entries, key: string, now: int): (ls: seq<string>) {
    if key !in es then [] else Recent(es[key].probes, now)
  }

  /** What backoff is for: the last event that settled the route is a failure less than a minute ago. */
  ghost predicate Demoted(log: seq<Event>, key: string, route: string, now: int) {
    exists i: nat :: LastSettling(log, i, key, route) && log[i].Failed? && now - log[i].now < 60
  }

  lemma DemotedIsRecentMark(log: seq<Event>, key: string, route: string, now: int)
    ensures Demoted(log, key, route, now) <==> RecentMark(MarkFromLog(log, key, route), now)
  {
    var m := MarkFromLog(log, key, route);
    if m.Some? {
      MarkIsLastFailure(log, key, route, m.value);
    }
    forall i: nat | LastSettling(log, i, key, route) && log[i].Failed? ensures m == Some(log[i].now) {
      MarkIsLastFailure(log, key, route, log[i].now);
    }
  }

  /** A route that no round of the key names twice is backed off exactly when it is demoted: no
      success of it, and no probe round without it, came after a recent failure. */
  lemma BackoffRefinesLog(log: seq<Event>, key: string, route: string, now: int)
    requires NamedOnce(log, key, route)
    ensures route in BackoffLabels(Replay(log), key, now) <==> Demoted(log, key, route, now)
  {
    ReplayAgrees(log, key, route);
    DemotedIsRecentMark(log, key, route, now);
    RecentIsMarked(EntryOf(Replay(log), key).probes, route, now);
  }

  predicate IsOutcome(ev: Event, key: string, route: string) {
    ev.key == key && !ev.Probed? && ev.route == route
  }

  predicate LastOutcome(log: seq<Event>, i: nat, key: string, route: string) {
    i < |log| && IsOutcome(log[i], key, route) && forall j :: i < j < |log| ==> !IsOutcome(log[j], key, route)
  }

  /** When every round names the route exactly once, probing never settles anything: the last outcome
      of the route alone decides. */
  lemma BackoffIsLastOutcome(log: seq<Event>, key: string, route: string, now: int)
    requires forall ev :: ev in log && ev.Probed? && ev.key == key ==> Times(ResultLabels(ev.results), route) == 1
    ensures route in BackoffLabels(Replay(log), key, now) <==>
            exists i: nat :: LastOutcome(log, i, key, route) && log[i].Failed? && now - log[i].now < 60
  {
    BackoffRefinesLog(log, key, route, now);
    forall i: nat | i < |log| ensures Settles(log[i], key, route) <==> IsOutcome(log[i], key, route) {
      assert log[i] in log;
      if log[i].Probed? {
        TimesIsMembership(ResultLabels(log[i].results), route);
      }
    }
    forall i: nat ensures LastSettling(log, i, key, route) <==> LastOutcome(log, i, key, route) {
    }
  }

  lemma StickyIsLastSuccess(log: seq<Event>, key: string)
    ensures StickyLabel(Replay(log), key) == LastGood(log, key)
  {
    ReplayTracks(log, key);
  }

  /** After a probe round the cache serves it for max(ttl, 1) seconds counted from the round alone,
      coarsened, with the routes that failed since without being covered appended to it. */
  lemma FreshRefinesLog(log: seq<Event>, key: string, ttlSecs: nat, now: int)
    requires LastRound(log, key).Some?
    ensures var round, r := LastRound(log, key).value, FreshProbes(Replay(log), key, ttlSecs, now);
            && (r.Some? <==> now - round.now <= Max(ttlSecs, 1))
            && (r.Some? ==> CoarseAll(round.results) <= r.value)
            && (r.Some? ==> ResultLabels(r.value) == ResultLabels(round.results) + StrayLabels(log, key))
            && (r.Some? ==> (r.value == CoarseAll(round.results) <==> StrayLabels(log, key) == []))
  {
    ReplayTracks(log, key);
    ProbedIsKept(log, key);
    var e, round := EntryOf(Replay(log), key), LastRound(log, key).value;
    LengthOfLabels(round.results, e.probes);
    LabelsOfRead(e.probes);
  }

  /** The round's own results come first, each under its label: a latency is served cut to whole milliseconds, and a
      route that could not be probed as one that could not be reached. */
  lemma FreshServesRound(log: seq<Event>, key: string, ttlSecs: nat, now: int, i: nat)
    requires LastRound(log, key).Some? && FreshProbes(Replay(log), key, ttlSecs, now).Some?
    requires i < |LastRound(log, key).value.results|
    ensures var probed := LastRound(log, key).value.results[i];
            var served := FreshProbes(Replay(log), key, ttlSecs, now).value;
            && i < |served| && served[i].route == probed.route
            && served[i].status == match probed.status
                                   case Reachable(nanos, isLan) => Reachable(nanos / 1_000_000 * 1_000_000, isLan)
                                   case _ => Unreachable
  {
    var rs, served := LastRound(log, key).value.results, FreshProbes(Replay(log), key, ttlSecs, now).value;
    FreshRefinesLog(log, key, ttlSecs, now);
    LengthOfLabels(rs, []);
    CoarseAt(rs, i);
    assert served[i] == CoarseAll(rs)[i];
  }

  lemma {:induction false} CoarseAt(rs: seq<ProbeResult>, i: nat)
    requires i < |rs|
    ensures |CoarseAll(rs)| == |rs| && CoarseAll(rs)[i] == Coarse(rs[i])
  {
    LengthOfLabels(rs, []);
    if i > 0 {
      CoarseAt(rs[1..], i - 1);
    }
  }

  lemma {:induction false} ProbedIsKept(log: seq<Event>, key: string)
    requires LastRound(log, key).Some?
    ensures key in Replay(log)
  {
    if !(log[|log| - 1].Probed? && log[|log| - 1].key == key) {
      ProbedIsKept(log[..|log| - 1], key);
    }
  }

  /** Before its first probe round, a key is served only at times within the ttl of the epoch. */
  lemma NothingFreshBeforeProbing(log: seq<Event>, key: string, ttlSecs: nat, now: int)
    requires LastRound(log, key).None? && now > Max(ttlSecs, 1)
    ensures FreshProbes(Replay(log), key, ttlSecs, now).None?
  {
    ReplayTracks(log, key);
  }

  /** Outcomes never extend a round's life: dropping them from the log changes no freshness. */
  lemma OutcomesNeverRefresh(log: seq<Event>, ev: Event, ttlSecs: nat, now: int)
    requires !ev.Probed? && LastRound(log, ev.key).Some?
    ensures FreshProbes(Replay(log + [ev]), ev.key, ttlSecs, now).Some? <==>
            FreshProbes(Replay(log), ev.key, ttlSecs, now).Some?
  {
    var longer := log + [ev];
    assert longer[..|longer| - 1] == log;
    FreshRefinesLog(log, ev.key, ttlSecs, now);
    FreshRefinesLog(longer, ev.key, ttlSecs, now);
  }

  // ---------------------------------------------------------------------------
  // Rounds that name a route twice
  // ---------------------------------------------------------------------------

  /** The run `log`, then a round with these results, then a continuation. */
  function Continued(log: seq<Event>, key: string, rs: seq<ProbeResult>, at: int, rest: seq<Event>): (run: seq<Event>) {
    log + [Probed(key, rs, at)] + rest
  }

  /** Some continuation, whose rounds name the route at most once, ends at a time at which the log
      demotes the route and the cache has forgotten it. */
  ghost predicate LosesBackoff(log: seq<Event>, key: string, route: string, rs: seq<ProbeResult>, at: int) {
    exists rest, now ::
      var run := Continued(log, key, rs, at, rest);
      NamedOnce(rest, key, route) && Demoted(run, key, route, now) && route !in BackoffLabels(Replay(run), key, now)
  }

  /** Some continuation ends with the route in backoff although the log does not demote it. */
  ghost predicate KeepsBackoff(log: seq<Event>, key: string, route: string, rs: seq<ProbeResult>, at: int) {
    exists rest, now ::
      var run := Continued(log, key, rs, at, rest);
      NamedOnce(rest, key, route) && !Demoted(run, key, route, now) && route in BackoffLabels(Replay(run), key, now)
  }

  lemma NamedOnceWhole(log: seq<Event>, key: string, route: string, rs: seq<ProbeResult>, at: int, rest: seq<Event>)
    requires NamedOnce(log, key, route) && NamedOnce(rest, key, route) && Times(ResultLabels(rs), route) <= 1
    ensures NamedOnce(Continued(log, key, rs, at, rest), key, route)
  {
  }

  lemma ReplayMore(log: seq<Event>, ev: Event)
    ensures Replay(log + [ev]) == Apply(Replay(log), ev)
  {
    var longer := log + [ev];
    assert longer[..|longer| - 1] == log;
  }

  lemma MarkMore(log: seq<Event>, ev: Event, key: string, route: string)
    ensures MarkFromLog(log + [ev], key, route) ==
            if Settles(ev, key, route) then (if ev.Failed? then Some(ev.now) else None)
            else MarkFromLog(log, key, route)
  {
    var longer := log + [ev];
    assert longer[..|longer| - 1] == log;
  }

  /** The failure mark is put on the first probe of a route and carried over from the last, so a
      round makes the cache forget later failures exactly when it names the route twice. */
  lemma BackoffLostExactlyWhen(log: seq<Event>, key: string, route: string, rs: seq<ProbeResult>, at: int)
    requires NamedOnce(log, key, route)
    ensures LosesBackoff(log, key, route, rs, at) <==> Times(ResultLabels(rs), route) > 1
  {
    if Times(ResultLabels(rs), route) > 1 {
      FailureForgotten(log, key, route, rs, at);
    } else if LosesBackoff(log, key, route, rs, at) {
      var rest, now :|
        var run := Continued(log, key, rs, at, rest);
        NamedOnce(rest, key, route) && Demoted(run, key, route, now) && route !in BackoffLabels(Replay(run), key, now);
      NamedOnceWhole(log, key, route, rs, at, rest);
      BackoffRefinesLog(Continued(log, key, rs, at, rest), key, route, now);
    }
  }

  /** A list in which the route stands twice: marking its first probe leaves the last mark alone. */
  lemma {:induction false} LastMarkAfterFailure(ps: seq<CachedProbe>, route: string, now: int)
    requires Times(Labels(ps), route) > 1
    ensures LastMark(WithFailure(ps, route, now), route) == LastMark(ps, route)
  {
    var qs := WithFailure(ps, route, now);
    LastMarkFromFront(ps, route);
    LastMarkFromFront(qs, route);
    TimesIsMembership(Labels(ps[1..]), route);
    FailureOnList(ps[1..], route, now, route);
    assert qs[1..] == if ps[0].route == route then ps[1..] else WithFailure(ps[1..], route, now);
    if ps[0].route != route {
      LastMarkAfterFailure(ps[1..], route, now);
    }
  }

  lemma {:induction false} LastMarkOfRound(rs: seq<ProbeResult>, previous: seq<CachedProbe>, route: string)
    requires route in ResultLabels(rs)
    ensures LastMark(WithProbes(rs, previous), route) == LastMark(previous, route)
  {
    var qs := WithProbes(rs, previous);
    LastMarkFromFront(qs, route);
    RoundOnList(rs[1..], previous, route);
    assert qs[1..] == WithProbes(rs[1..], previous);
    if route in ResultLabels(rs[1..]) {
      LastMarkOfRound(rs[1..], previous, route);
    }
  }

  /** The continuation that forgets: the route fails, and the next round names it once. */
  function Forgetting(key: string, route: string, t: int): (rest: seq<Event>) {
    [Failed(key, route, t), Probed(key, [ProbeResult(route, Unreachable)], t)]
  }

  lemma FailureForgotten(log: seq<Event>, key: string, route: string, rs: seq<ProbeResult>, at: int)
    requires NamedOnce(log, key, route) && Times(ResultLabels(rs), route) > 1
    ensures LosesBackoff(log, key, route, rs, at)
  {
    var mark := MarkFromLog(log, key, route);
    var t := if mark.Some? then mark.value + FAILURE_BACKOFF else 0;
    var failed, again := Failed(key, route, t), Probed(key, [ProbeResult(route, Unreachable)], t);
    var run0, rest := log + [Probed(key, rs, at)], Forgetting(key, route, t);
    var run1 := run0 + [failed];
    var run := run1 + [again];
    assert run == Continued(log, key, rs, at, rest);
    RoundOfOne(route, [], t);
    assert NamedOnce(rest, key, route);
    assert Demoted(run, key, route, t) by {
      MarkMore(run0, failed, key, route);
      MarkMore(run1, again, key, route);
      DemotedIsRecentMark(run, key, route, t);
    }
    assert route !in BackoffLabels(Replay(run), key, t) by {
      ReplayMore(log, Probed(key, rs, at));
      ReplayMore(run0, failed);
      ReplayMore(run1, again);
      ReplayAgrees(log, key, route);
      ForgottenMark(rs, EntryOf(Replay(log), key).probes, route, t, mark);
    }
  }

  lemma ForgottenMark(rs: seq<ProbeResult>, previous: seq<CachedProbe>, route: string, t: int, mark: Option<int>)
    requires Times(ResultLabels(rs), route) > 1 && Times(Labels(previous), route) <= 1 && Mark(previous, route) == mark
    requires mark.Some? ==> t == mark.value + FAILURE_BACKOFF
    ensures var marked := WithFailure(WithProbes(rs, previous), route, t);
            route !in Recent(WithProbes([ProbeResult(route, Unreachable)], marked), t)
  {
    var ps := WithProbes(rs, previous);
    RoundOnList(rs, previous, route);
    LastMarkAfterFailure(ps, route, t);
    TimesIsMembership(ResultLabels(rs), route);
    LastMarkOfRound(rs, previous, route);
    LastMarkIsMark(previous, route);
    RoundOfOne(route, WithFailure(ps, route, t), t);
  }

  lemma RoundOfOne(route: string, previous: seq<CachedProbe>, now: int)
    ensures var ones := [ProbeResult(route, Unreachable)];
            && Times(ResultLabels(ones), route) == 1
            && (route in Recent(WithProbes(ones, previous), now) <==> RecentMark(LastMark(previous, route), now))
  {
    var ones := [ProbeResult(route, Unreachable)];
    assert ones[1..] == [];
    var c := Cached(ones[0], LastMark(previous, route));
    assert WithProbes(ones, previous) == [c] && [c][1..] == [];
    assert ResultLabels(ones) == [route] && [route][1..] == [];
  }

  /** A success clears the first probe of a route only. So it leaves a route in backoff exactly when
      a round names the route twice while it is marked: both probes then carry the mark. */
  lemma BackoffKeptExactlyWhen(log: seq<Event>, key: string, route: string, rs: seq<ProbeResult>, at: int)
    requires NamedOnce(log, key, route)
    ensures KeepsBackoff(log, key, route, rs, at) <==>
            Times(ResultLabels(rs), route) > 1 && MarkFromLog(log, key, route).Some?
  {
    if Times(ResultLabels(rs), route) > 1 && MarkFromLog(log, key, route).Some? {
      SuccessIgnored(log, key, route, rs, at);
    } else if KeepsBackoff(log, key, route, rs, at) {
      var rest, now :|
        var run := Continued(log, key, rs, at, rest);
        && NamedOnce(rest, key, route)
        && !Demoted(run, key, route, now) && route in BackoffLabels(Replay(run), key, now);
      var run := Continued(log, key, rs, at, rest);
      if Times(ResultLabels(rs), route) <= 1 {
        NamedOnceWhole(log, key, route, rs, at, rest);
        BackoffRefinesLog(run, key, route, now);
      } else {
        FrontMarkedContinued(log, key, route, rs, at, rest);
        RecentIsFrontMarked(EntryOf(Replay(run), key).probes, route, now, MarkFromLog(run, key, route));
        DemotedIsRecentMark(run, key, route, now);
      }
    }
  }

  /** Only the first probe of the route may be marked, and only as the log says. */
  predicate FrontMarked(ps: seq<CachedProbe>, route: string, mark: Option<int>) {
    ps == []
    || (if ps[0].route == route
        then (ps[0].failureAt == None || ps[0].failureAt == mark) && FrontMarked(ps[1..], route, None)
        else FrontMarked(ps[1..], route, mark))
  }

  lemma {:induction false} RecentIsFrontMarked(ps: seq<CachedProbe>, route: string, now: int, mark: Option<int>)
    requires FrontMarked(ps, route, mark)
    ensures route in Recent(ps, now) ==> RecentMark(mark, now)
  {
    if ps != [] {
      RecentIsFrontMarked(ps[1..], route, now, if ps[0].route == route then None else mark);
    }
  }

  lemma {:induction false} FrontMarkedLast(ps: seq<CachedProbe>, route: string, mark: Option<int>)
    requires FrontMarked(ps, route, mark)
    ensures LastMark(ps, route) == None || LastMark(ps, route) == mark
  {
    LastMarkFromFront(ps, route);
    if ps != [] {
      FrontMarkedLast(ps[1..], route, if ps[0].route == route then None else mark);
    }
  }

  lemma {:induction false} FrontMarkedAfterFailure(
    ps: seq<CachedProbe>, route: string, mark: Option<int>, failed: string, t: int)
    requires FrontMarked(ps, route, mark)
    ensures FrontMarked(WithFailure(ps, failed, t), route, if failed == route then Some(t) else mark)
  {
    if ps != [] && ps[0].route != failed {
      FrontMarkedAfterFailure(ps[1..], route, if ps[0].route == route then None else mark, failed, t);
      assert WithFailure(ps, failed, t)[1..] == WithFailure(ps[1..], failed, t);
    } else if ps != [] {
      assert WithFailure(ps, failed, t)[1..] == ps[1..];
    }
  }

  lemma {:induction false} FrontMarkedAfterSuccess(
    ps: seq<CachedProbe>, route: string, mark: Option<int>, good: string)
    requires FrontMarked(ps, route, mark)
    ensures FrontMarked(WithSuccess(ps, good), route, if good == route then None else mark)
  {
    if ps != [] && ps[0].route != good {
      FrontMarkedAfterSuccess(ps[1..], route, if ps[0].route == route then None else mark, good);
      assert WithSuccess(ps, good)[1..] == WithSuccess(ps[1..], good);
    } else if ps != [] {
      assert WithSuccess(ps, good)[1..] == ps[1..];
    }
  }

  /** A round names the route once, or the route's mark to carry over is none. */
  lemma {:induction false} FrontMarkedAfterRound(
    rs: seq<ProbeResult>, previous: seq<CachedProbe>, route: string, mark: Option<int>)
    requires LastMark(previous, route) == None
             || (LastMark(previous, route) == mark && Times(ResultLabels(rs), route) <= 1)
    ensures FrontMarked(WithProbes(rs, previous), route, mark)
  {
    if rs != [] {
      assert WithProbes(rs, previous)[1..] == WithProbes(rs[1..], previous);
      if rs[0].route == route && LastMark(previous, route) != None {
        TimesIsMembership(ResultLabels(rs[1..]), route);
        FrontMarkedWithout(rs[1..], previous, route);
      } else {
        FrontMarkedAfterRound(rs[1..], previous, route, if rs[0].route == route then None else mark);
      }
    }
  }

  lemma {:induction false} FrontMarkedWithout(rs: seq<ProbeResult>, previous: seq<CachedProbe>, route: string)
    requires route !in ResultLabels(rs)
    ensures FrontMarked(WithProbes(rs, previous), route, None)
  {
    if rs != [] {
      assert WithProbes(rs, previous)[1..] == WithProbes(rs[1..], previous);
      FrontMarkedWithout(rs[1..], previous, route);
    }
  }

  lemma FrontMarkedStep(e: CacheEntry, init: seq<Event>, ev: Event, route: string)
    requires FrontMarked(e.probes, route, MarkFromLog(init, ev.key, route))
    requires ev.Probed? ==> Times(ResultLabels(ev.results), route) <= 1
    ensures FrontMarked(ApplyToEntry(e, ev).probes, route, MarkFromLog(init + [ev], ev.key, route))
  {
    var mark := MarkFromLog(init, ev.key, route);
    MarkMore(init, ev, ev.key, route);
    match ev {
      case Probed(_, rs, _) =>
        FrontMarkedLast(e.probes, route, mark);
        if route in ResultLabels(rs) {
          FrontMarkedAfterRound(rs, e.probes, route, mark);
        } else {
          FrontMarkedWithout(rs, e.probes, route);
        }
      case Failed(_, failed, t) => FrontMarkedAfterFailure(e.probes, route, mark, failed, t);
      case Succeeded(_, good) => FrontMarkedAfterSuccess(e.probes, route, mark, good);
    }
  }

  lemma FrontMarkedAtRound(log: seq<Event>, key: string, route: string, rs: seq<ProbeResult>, at: int)
    requires NamedOnce(log, key, route) && MarkFromLog(log, key, route).None?
    ensures var run := log + [Probed(key, rs, at)];
            FrontMarked(EntryOf(Replay(run), key).probes, route, MarkFromLog(run, key, route))
  {
    ReplayAgrees(log, key, route);
    var before := EntryOf(Replay(log), key).probes;
    LastMarkIsMark(before, route);
    FrontMarkedAfterRound(rs, before, route, None);
    ReplayMore(log, Probed(key, rs, at));
    MarkMore(log, Probed(key, rs, at), key, route);
  }

  /** Whatever follows a round that doubles an unmarked route, no stale mark shows up. */
  lemma {:induction false} FrontMarkedContinued(
    log: seq<Event>, key: string, route: string, rs: seq<ProbeResult>, at: int, rest: seq<Event>)
    requires NamedOnce(log, key, route) && MarkFromLog(log, key, route).None? && NamedOnce(rest, key, route)
    ensures var run := Continued(log, key, rs, at, rest);
            FrontMarked(EntryOf(Replay(run), key).probes, route, MarkFromLog(run, key, route))
    decreases |rest|
  {
    if rest == [] {
      assert Continued(log, key, rs, at, rest) == log + [Probed(key, rs, at)];
      FrontMarkedAtRound(log, key, route, rs, at);
    } else {
      var init, ev := rest[..|rest| - 1], rest[|rest| - 1];
      assert rest == init + [ev] && ev in rest;
      assert forall x :: x in init ==> x in rest;
      FrontMarkedContinued(log, key, route, rs, at, init);
      var run := Continued(log, key, rs, at, init);
      assert Continued(log, key, rs, at, rest) == run + [ev];
      FrontMarkedMore(run, ev, key, route);
    }
  }

  lemma FrontMarkedMore(run: seq<Event>, ev: Event, key: string, route: string)
    requires FrontMarked(EntryOf(Replay(run), key).probes, route, MarkFromLog(run, key, route))
    requires ev.Probed? && ev.key == key ==> Times(ResultLabels(ev.results), route) <= 1
    ensures FrontMarked(EntryOf(Replay(run + [ev]), key).probes, route, MarkFromLog(run + [ev], key, route))
  {
    ReplayMore(run, ev);
    MarkMore(run, ev, key, route);
    if ev.key == key {
      FrontMarkedStep(EntryOf(Replay(run), key), run, ev, route);
    }
  }

  /** The continuation that a success does not help: the route connects, and stays demoted. */
  lemma SuccessIgnored(log: seq<Event>, key: string, route: string, rs: seq<ProbeResult>, at: int)
    requires NamedOnce(log, key, route)
    requires Times(ResultLabels(rs), route) > 1 && MarkFromLog(log, key, route).Some?
    ensures KeepsBackoff(log, key, route, rs, at)
  {
    var previous, mark := EntryOf(Replay(log), key).probes, MarkFromLog(log, key, route);
    var round, good := Probed(key, rs, at), Succeeded(key, route);
    ReplayMore(log, round);
    ReplayMore(log + [round], good);
    ReplayAgrees(log, key, route);
    LastMarkIsMark(previous, route);
    var ps := WithProbes(rs, previous);
    RoundOnList(rs, previous, route);
    SecondMarkStays(ps, previous, rs, route, mark.value);
    MarkMore(log + [round], good, key, route);
    var run, rest := log + [round] + [good], [good];
    DemotedIsRecentMark(run, key, route, mark.value);
    assert run == Continued(log, key, rs, at, rest);
    assert NamedOnce(rest, key, route);
  }

  lemma {:induction false} SecondMarkStays(
    ps: seq<CachedProbe>, previous: seq<CachedProbe>, rs: seq<ProbeResult>, route: string, t: int)
    requires ps == WithProbes(rs, previous) && LastMark(previous, route) == Some(t)
    requires Times(ResultLabels(rs), route) > 1
    ensures route in Recent(WithSuccess(ps, route), t)
  {
    var rest := WithProbes(rs[1..], previous);
    assert ps[1..] == rest;
    if rs[0].route == route {
      assert WithSuccess(ps, route)[1..] == rest;
      TimesIsMembership(ResultLabels(rs[1..]), route);
      RoundOnList(rs[1..], previous, route);
      RecentIsMarked(rest, route, t);
    } else {
      assert WithSuccess(ps, route)[1..] == WithSuccess(rest, route);
      SecondMarkStays(rest, previous, rs[1..], route, t);
    }
  }

  // ---------------------------------------------------------------------------
  // Rounds of one list
  // ---------------------------------------------------------------------------

  /** A run as one site makes it: every round of its key names the same routes, and failures come after a round. */
  ghost predicate OneList(log: seq<Event>, key: string, labels: seq<string>) {
    log == []
    || (var init, ev := log[..|log| - 1], log[|log| - 1];
        && OneList(init, key, labels)
        && (ev.key == key && ev.Probed? ==> ResultLabels(ev.results) == labels)
        && (ev.key == key && ev.Failed? ==> LastRound(init, key).Some?))
  }

  /** The route's failure since the last round of the key, if no success followed. */
  function MarkSinceRound(log: seq<Event>, key: string, route: string): (m: Option<int>) {
    if log == [] then None
    else
      var ev := log[|log| - 1];
      if ev.key == key && ev.Probed? then None
      else if IsOutcome(ev, key, route) then (if ev.Failed? then Some(ev.now) else None)
      else MarkSinceRound(log[..|log| - 1], key, route)
  }

  lemma {:induction false} MarkSinceRoundIsMark(log: seq<Event>, key: string, route: string)
    ensures MarkSinceRound(log, key, route).Some? ==>
              MarkFromLog(log, key, route) == MarkSinceRound(log, key, route)
  {
    if log != [] {
      MarkSinceRoundIsMark(log[..|log| - 1], key, route);
    }
  }

  /** Where only the first of several probes of a route may be marked, the last one is not. */
  lemma {:induction false} DoubledLastMark(ps: seq<CachedProbe>, route: string, mark: Option<int>)
    requires FrontMarked(ps, route, mark) && (Times(Labels(ps), route) > 1 || mark.None?)
    ensures LastMark(ps, route) == None
  {
    LastMarkFromFront(ps, route);
    if ps != [] {
      TimesIsMembership(Labels(ps[1..]), route);
      DoubledLastMark(ps[1..], route, if ps[0].route == route then None else mark);
    }
  }

  lemma {:induction false} TimesAppend(ls: seq<string>, l: string, other: string)
    ensures Times(ls + [l], other) == Times(ls, other) + if l == other then 1 else 0
  {
    if ls == [] {
      assert ls + [l] == [l] && [l][1..] == [];
    } else {
      assert (ls + [l])[1..] == ls[1..] + [l];
      TimesAppend(ls[1..], l, other);
    }
  }

  /** The probes of a doubled route: the first carries the failure since the last round, the others no mark. */
  ghost predicate Doubled(ps: seq<CachedProbe>, route: string, mark: Option<int>, probed: bool) {
    && FrontMarked(ps, route, mark) && Mark(ps, route) == mark
    && if probed then Times(Labels(ps), route) > 1 else ps == []
  }

  lemma DoubledStep(e: CacheEntry, ev: Event, labels: seq<string>, route: string, mark: Option<int>, probed: bool)
    requires Times(labels, route) > 1 && Doubled(e.probes, route, mark, probed)
    requires ev.Probed? ==> ResultLabels(ev.results) == labels
    requires ev.Failed? ==> probed
    ensures var after := if ev.Probed? then None
                         else if ev.route == route then (if ev.Failed? then Some(ev.now) else None) else mark;
            Doubled(ApplyToEntry(e, ev).probes, route, after, probed || ev.Probed?)
  {
    var ps := e.probes;
    match ev {
      case Probed(_, rs, _) =>
        DoubledLastMark(ps, route, mark);
        FrontMarkedAfterRound(rs, ps, route, None);
        RoundOnList(rs, ps, route);
      case Failed(_, failed, t) =>
        FrontMarkedAfterFailure(ps, route, mark, failed, t);
        FailureOnList(ps, failed, t, route);
        TimesAppend(Labels(ps), failed, route);
      case Succeeded(_, good) =>
        FrontMarkedAfterSuccess(ps, route, mark, good);
        SuccessOnList(ps, good, route);
    }
  }

  lemma {:induction false} DoubledReplay(log: seq<Event>, key: string, labels: seq<string>, route: string)
    requires OneList(log, key, labels) && Times(labels, route) > 1
    ensures Doubled(EntryOf(Replay(log), key).probes, route, MarkSinceRound(log, key, route),
                    LastRound(log, key).Some?)
  {
    if log != [] {
      var init, ev := log[..|log| - 1], log[|log| - 1];
      DoubledReplay(init, key, labels, route);
      if ev.key == key {
        DoubledStep(EntryOf(Replay(init), key), ev, labels, route, MarkSinceRound(init, key, route),
                    LastRound(init, key).Some?);
      }
    }
  }

  /** A route its site names twice is in backoff exactly for a recent failure since the last round. */
  lemma DoubledBackoff(log: seq<Event>, key: string, labels: seq<string>, route: string, now: int)
    requires OneList(log, key, labels) && Times(labels, route) > 1
    ensures route in BackoffLabels(Replay(log), key, now) <==> RecentMark(MarkSinceRound(log, key, route), now)
  {
    DoubledReplay(log, key, labels, route);
    var ps, mark := EntryOf(Replay(log), key).probes, MarkSinceRound(log, key, route);
    if RecentMark(mark, now) {
      RecentIsMarked(ps, route, now);
    }
    if route in Recent(ps, now) {
      RecentIsFrontMarked(ps, route, now, mark);
    }
  }

  lemma {:induction false} OneListNamesOnce(log: seq<Event>, key: string, labels: seq<string>, route: string)
    requires OneList(log, key, labels) && Times(labels, route) <= 1
    ensures NamedOnce(log, key, route)
  {
    if log != [] {
      var init := log[..|log| - 1];
      OneListNamesOnce(init, key, labels, route);
      assert log == init + [log[|log| - 1]];
    }
  }

  /** In runs of one list no route ever stays in backoff: what is in backoff is demoted by the log. */
  lemma NothingStaysInBackoff(log: seq<Event>, key: string, labels: seq<string>, route: string, now: int)
    requires OneList(log, key, labels) && route in BackoffLabels(Replay(log), key, now)
    ensures Demoted(log, key, route, now)
  {
    if Times(labels, route) > 1 {
      DoubledBackoff(log, key, labels, route, now);
      MarkSinceRoundIsMark(log, key, route);
      DemotedIsRecentMark(log, key, route, now);
    } else {
      OneListNamesOnce(log, key, labels, route);
      BackoffRefinesLog(log, key, route, now);
    }
  }

  ghost predicate AlwaysRefines(key: string, labels: seq<string>, route: string) {
    forall log, now :: OneList(log, key, labels) ==>
                         (route in BackoffLabels(Replay(log), key, now) <==> Demoted(log, key, route, now))
  }

  /** In runs of one list backoff is what the log says, always, exactly when the list names the route at most once. */
  lemma BackoffRefinesExactlyWhen(key: string, labels: seq<string>, route: string)
    ensures AlwaysRefines(key, labels, route) <==> Times(labels, route) <= 1
  {
    if Times(labels, route) <= 1 {
      forall log, now | OneList(log, key, labels)
        ensures route in BackoffLabels(Replay(log), key, now) <==> Demoted(log, key, route, now)
      {
        OneListNamesOnce(log, key, labels, route);
        BackoffRefinesLog(log, key, route, now);
      }
    } else {
      ForgottenByOneList(key, labels, route);
    }
  }

  /** The run that forgets: a round, a failure, the same round again. */
  lemma ForgottenByOneList(key: string, labels: seq<string>, route: string)
    requires Times(labels, route) > 1
    ensures !AlwaysRefines(key, labels, route)
  {
    var rs := ResultsFor(labels);
    var one := [Probed(key, rs, 0)];
    var two := one + [Failed(key, route, 1)];
    var run := two + [Probed(key, rs, 2)];
    assert one[..0] == [] && two[..1] == one && run[..2] == two;
    assert OneList(one[..0], key, labels);
    assert OneList(one, key, labels);
    assert OneList(two, key, labels);
    assert OneList(run, key, labels);
    DoubledBackoff(run, key, labels, route, 3);
    TimesIsMembership(labels, route);
    MarkMore(one, two[1], key, route);
    MarkMore(two, run[2], key, route);
    DemotedIsRecentMark(run, key, route, 3);
  }

  /** A round with these labels. */
  function ResultsFor(ls: seq<string>): (rs: seq<ProbeResult>)
    ensures ResultLabels(rs) == ls
  {
    if ls == [] then [] else [ProbeResult(ls[0], Unreachable)] + ResultsFor(ls[1..])
  }

  /** The first of the two inputs at its smallest: the doubled route fails, and the next round forgets it. */
  lemma DuplicateRouteLosesBackoff()
    ensures exists rs: seq<ProbeResult> ::
              "a" !in BackoffLabels(Replay([Probed("k", rs, 0), Failed("k", "a", 1), Probed("k", rs, 2)]), "k", 3)
  {
    var rs := [ProbeResult("a", Unreachable), ProbeResult("a", Unreachable)];
    var c := CachedProbe("a", false, None, false, None);
    var marked := [c.(failureAt := Some(1)), c];
    assert WithProbes(rs, []) == [c, c] by {
      assert WithProbes(rs[1..], []) == [c];
    }
    assert WithFailure([c, c], "a", 1) == marked;
    assert WithProbes(rs, marked) == [c, c] by {
      assert WithProbes(rs[1..], marked) == [c];
    }
    assert Recent([c, c], 3) == [] by {
      assert Recent([c, c][1..], 3) == [];
    }
    var log := [Probed("k", rs, 0), Failed("k", "a", 1), Probed("k", rs, 2)];
    assert log[..2] == [log[0], log[1]] && log[..2][..1] == [log[0]];
    assert Replay([log[0]])["k"].probes == [c, c] by {
      assert Replay([log[0]][..0]) == map[];
    }
    assert Replay(log[..2])["k"].probes == marked;
    assert Replay(log)["k"].probes == [c, c];
  }

  /** The second: the doubled route connects, and stays in backoff. */
  lemma DuplicateRouteStaysInBackoff()
    ensures exists one: seq<ProbeResult>, two: seq<ProbeResult> ::
              "a" in BackoffLabels(Replay([Probed("k", one, 0), Failed("k", "a", 1), Probed("k", two, 2),
                                           Succeeded("k", "a")]), "k", 3)
  {
    var r := ProbeResult("a", Unreachable);
    var one, two := [r], [r, r];
    var c := CachedProbe("a", false, None, false, None);
    var m := c.(failureAt := Some(1));
    assert WithProbes(one, []) == [c] by {
      assert one[1..] == [];
    }
    assert WithFailure([c], "a", 1) == [m];
    assert WithProbes(two, [m]) == [m, m] by {
      assert two[1..] == one && one[1..] == [];
      assert WithProbes(one, [m]) == [m];
    }
    assert WithSuccess([m, m], "a") == [c, m];
    assert Recent([c, m], 3) == ["a"] by {
      assert [c, m][1..] == [m] && [m][1..] == [];
      assert Recent([m], 3) == ["a"] + Recent([], 3);
    }
    var log := [Probed("k", one, 0), Failed("k", "a", 1), Probed("k", two, 2), Succeeded("k", "a")];
    assert log[..3] == [log[0], log[1], log[2]] && log[..3][..2] == [log[0], log[1]];
    assert [log[0], log[1]][..1] == [log[0]] && [log[0]][..0] == [];
    assert Replay([log[0]])["k"].probes == [c];
    assert Replay([log[0], log[1]])["k"].probes == [m];
    assert Replay(log[..3])["k"].probes == [m, m];
    assert Replay(log)["k"].probes == [c, m];
  }

  // ---------------------------------------------------------------------------
  // The cache object
  // ---------------------------------------------------------------------------

  class RouteCache {
    var entries: Entries

    constructor (entries: Entries)
      ensures this.entries == entries
    {
      this.entries := entries;
    }

    method RecordProbes(key: string, probes: seq<ProbeResult>, now: int)
      modifies this
      ensures entries == Apply(old(entries), Probed(key, probes, now))
    {
      var entry := EntryOf(entries, key);
      var previous: map<string, Option<int>> := map[];
      var i := 0;
      while i < |entry.probes|
        invariant 0 <= i <= |entry.probes|
        invariant forall l :: LastMark(entry.probes[..i], l) == if l in previous then previous[l] else None
      {
        assert entry.probes[..i + 1][..i] == entry.probes[..i];
        previous := previous[entry.probes[i].route := entry.probes[i].failureAt];
        i := i + 1;
      }
      assert entry.probes[..i] == entry.probes;
      var cached := [];
      i := 0;
      while i < |probes|
        invariant 0 <= i <= |probes|
        invariant cached + WithProbes(probes[i..], entry.probes) == WithProbes(probes, entry.probes)
      {
        var r := probes[i];
        cached := cached + [Cached(r, if r.route in previous then previous[r.route] else None)];
        assert probes[i..][1..] == probes[i + 1..];
        i := i + 1;
      }
      assert cached + [] == cached;
      entries := entries[key := CacheEntry(now, entry.lastGood, cached)];
    }

    /** What `save` keeps and a later `load` finds. */
    method Prune(cutoff: int)
      modifies this
      ensures forall key :: key in entries <==> key in old(entries) && old(entries)[key].updatedAt >= cutoff
      ensures forall key :: key in entries ==> entries[key] == old(entries)[key]
    {
      entries := map key | key in entries && entries[key].updatedAt >= cutoff :: entries[key];
    }

    method RecordFailure(key: string, route: string, now: int)
      modifies this
      ensures entries == Apply(old(entries), Failed(key, route, now))
    {
      var entry := EntryOf(entries, key);
      var i := Find(entry.probes, route);
      WithFailureAt(entry.probes, i, route, now);
      var probes := if i < |entry.probes| then entry.probes[i := entry.probes[i].(failureAt := Some(now))]
                    else entry.probes + [CachedProbe(route, false, None, false, Some(now))];
      entries := entries[key := entry.(probes := probes)];
    }

    method RecordSuccess(key: string, route: string)
      modifies this
      ensures entries == Apply(old(entries), Succeeded(key, route))
    {
      var entry := EntryOf(entries, key);
      var i := Find(entry.probes, route);
      WithSuccessAt(entry.probes, i, route);
      var probes := if i < |entry.probes| then entry.probes[i := entry.probes[i].(failureAt := None)] else entry.probes;
      entries := entries[key := entry.(probes := probes, lastGood := Some(route))];
    }
  }

  /** The position of the first probe with this name, or the length of the list. */
  predicate FirstAt(ps: seq<CachedProbe>, i: nat, route: string) {
    i <= |ps| && (forall j :: 0 <= j < i ==> ps[j].route != route) && (i < |ps| ==> ps[i].route == route)
  }

  method Find(ps: seq<CachedProbe>, route: string) returns (i: nat)
    ensures FirstAt(ps, i, route)
  {
    i := 0;
    while i < |ps| && ps[i].route != route
      invariant i <= |ps| && forall j :: 0 <= j < i ==> ps[j].route != route
    {
      i := i + 1;
    }
  }

  lemma {:induction false} WithFailureAt(ps: seq<CachedProbe>, i: nat, route: string, now: int)
    requires FirstAt(ps, i, route)
    ensures WithFailure(ps, route, now) ==
            if i < |ps| then ps[i := ps[i].(failureAt := Some(now))]
            else ps + [CachedProbe(route, false, None, false, Some(now))]
  {
    if i > 0 {
      WithFailureAt(ps[1..], i - 1, route, now);
    }
  }

  lemma {:induction false} WithSuccessAt(ps: seq<CachedProbe>, i: nat, route: string)
    requires FirstAt(ps, i, route)
    ensures WithSuccess(ps, route) == if i < |ps| then ps[i := ps[i].(failureAt := None)] else ps
  {
    if i > 0 {
      WithSuccessAt(ps[1..], i - 1, route);
    }
  }
}
