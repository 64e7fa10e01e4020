/** Probing, attempt order and the failover loop of `connect_routed` in `routing.rs`. */
module Failover {
  import opened Text
  import opened RouteCaching
  import opened RouteKeys
  import opened RouteRanking

  function DisplayLabel(c: Candidate): (l: string) {
    if c.route == "" then c.host else c.route
  }

  datatype ConnectError = Cancelled | Failure(message: string)

  /** What the probe of a route told: its latency, and whether it is on the LAN. */
  datatype Meta = Meta(nanos: Option<nat>, isLan: bool)

  datatype Choice = Choice(route: string, host: string, failedLabels: seq<string>, meta: Meta)

  const UNKNOWN: Meta := Meta(None, false)

  function Told(s: ProbeStatus): (m: Meta) {
    if s.Reachable? then Meta(Some(s.nanos), s.isLan) else UNKNOWN
  }

  /** By label; of two probes with one label the later counts. */
  function MetaOf(rs: seq<ProbeResult>): (metas: map<string, Meta>) {
    if rs == [] then map[]
    else
      var last := rs[|rs| - 1];
      MetaOf(rs[..|rs| - 1])[last.route := Told(last.status)]
  }

  function MetaFor(metas: map<string, Meta>, route: string): (m: Meta) {
    if route in metas then metas[route] else UNKNOWN
  }

  /** A route is described by its own last probe. */
  lemma {:induction false} MetaIsLastProbe(rs: seq<ProbeResult>, i: nat)
    requires i < |rs| && forall j :: i < j < |rs| ==> rs[j].route != rs[i].route
    ensures MetaFor(MetaOf(rs), rs[i].route) ==
            match rs[i].status
            case Reachable(nanos, isLan) => Meta(Some(nanos), isLan)
            case _ => Meta(None, false)
  {
    if i < |rs| - 1 {
      MetaIsLastProbe(rs[..|rs| - 1], i);
    }
  }

  /** And without a probe by nothing. */
  lemma {:induction false} NoMetaWithoutProbe(rs: seq<ProbeResult>, route: string)
    requires forall j :: 0 <= j < |rs| ==> rs[j].route != route
    ensures MetaFor(MetaOf(rs), route) == Meta(None, false)
  {
    if rs != [] {
      NoMetaWithoutProbe(rs[..|rs| - 1], route);
    }
  }

  method CollectMeta(rs: seq<ProbeResult>) returns (metas: map<string, Meta>)
    ensures metas == MetaOf(rs)
  {
    metas := map[];
    for i := 0 to |rs|
      invariant metas == MetaOf(rs[..i])
    {
      assert rs[..i + 1][..i] == rs[..i];
      metas := metas[rs[i].route := Told(rs[i].status)];
    }
    assert rs[..|rs|] == rs;
  }

  // ---------------------------------------------------------------------------
  // Probing
  // ---------------------------------------------------------------------------

  lemma NextProbed(cands: seq<Candidate>, i: nat, labels: seq<string>)
    requires i < |cands|
    ensures labels + ProbedLabels(cands[i..]) ==
            (if Probeable(cands[i]) then labels + [cands[i].route] else labels) + ProbedLabels(cands[i + 1..])
  {
    assert cands[i..][1..] == cands[i + 1..];
  }

  method ScheduledLabels(cands: seq<Candidate>) returns (labels: seq<string>)
    ensures labels == ProbedLabels(cands)
  {
    labels := [];
    var i := 0;
    while i < |cands|
      invariant 0 <= i <= |cands| && labels + ProbedLabels(cands[i..]) == ProbedLabels(cands)
    {
      NextProbed(cands, i, labels);
      if Probeable(cands[i]) {
        labels := labels + [cands[i].route];
      }
      i := i + 1;
    }
    assert cands[i..] == [] && labels + [] == labels;
  }

  /** `run_probes`: one result per candidate with a first hop, in candidate order. The results come
      back by label, so a label used twice is answered once. */
  method RunProbes(cands: seq<Candidate>, probe: string -> ProbeStatus) returns (rs: seq<ProbeResult>)
    ensures ResultLabels(rs) == ProbedLabels(cands) && Answered(rs, probe)
    ensures Distinct(ProbedLabels(cands)) ==> forall i :: 0 <= i < |rs| ==> rs[i].status == probe(rs[i].route)
  {
    var labels := ScheduledLabels(cands);
    rs := AnswerByLabel(labels, probe);
    LabelsOfResults(rs, labels);
    if Distinct(labels) {
      forall i | 0 <= i < |rs| ensures !Repeated(rs, i) {
        assert forall j :: 0 <= j < i ==> labels[j] != labels[i];
      }
    }
  }

  /** Another result before this one has its label. */
  predicate Repeated(rs: seq<ProbeResult>, i: nat)
    requires i < |rs|
  {
    exists j :: 0 <= j < i && rs[j].route == rs[i].route
  }

  /** Each result is what probing its label told; a label that came before has no answer left. */
  ghost predicate Answered(rs: seq<ProbeResult>, probe: string -> ProbeStatus) {
    forall i :: 0 <= i < |rs| ==> rs[i].status == if Repeated(rs, i) then Unprobeable else probe(rs[i].route)
  }

  method AnswerByLabel(labels: seq<string>, probe: string -> ProbeStatus) returns (rs: seq<ProbeResult>)
    ensures |rs| == |labels| && forall j :: 0 <= j < |rs| ==> rs[j].route == labels[j]
    ensures Answered(rs, probe)
  {
    var unanswered := set l | l in labels;
    rs := [];
    while |rs| < |labels|
      invariant |rs| <= |labels| && forall j :: 0 <= j < |rs| ==> rs[j].route == labels[j]
      invariant forall l :: l in labels ==> (l in unanswered <==> forall j :: 0 <= j < |rs| ==> rs[j].route != l)
      invariant Answered(rs, probe)
    {
      var l := labels[|rs|];
      ghost var before := rs;
      rs := rs + [ProbeResult(l, if l in unanswered then probe(l) else Unprobeable)];
      unanswered := unanswered - {l};
      AnsweredGrows(before, rs[|rs| - 1], probe);
    }
  }

  lemma AnsweredGrows(rs: seq<ProbeResult>, r: ProbeResult, probe: string -> ProbeStatus)
    requires Answered(rs, probe)
    requires r.status == if exists j :: 0 <= j < |rs| && rs[j].route == r.route then Unprobeable else probe(r.route)
    ensures Answered(rs + [r], probe)
  {
    var more := rs + [r];
    assert forall j :: 0 <= j < |rs| ==> more[j] == rs[j];
    forall i | 0 <= i < |more|
      ensures more[i].status == if Repeated(more, i) then Unprobeable else probe(more[i].route)
    {
      if j :| 0 <= j < i && more[j].route == more[i].route {
        assert rs[j].route == more[i].route;
        assert i < |rs| ==> Repeated(rs, i);
      } else {
        forall j | 0 <= j < i ensures rs[j].route != more[i].route {
          assert more[j].route != more[i].route;
        }
      }
    }
  }

  lemma {:induction false} LabelsOfResults(rs: seq<ProbeResult>, ls: seq<string>)
    requires |rs| == |ls| && forall j :: 0 <= j < |ls| ==> rs[j].route == ls[j]
    ensures ResultLabels(rs) == ls
  {
    if ls != [] {
      LabelsOfResults(rs[1..], ls[1..]);
    }
  }

  // ---------------------------------------------------------------------------
  // Attempt order
  // ---------------------------------------------------------------------------

  function Demotion(cands: seq<Candidate>, backoff: set<string>): nat -> int {
    (i: nat) => if i < |cands| && cands[i].route in backoff then 1 else 0
  }

  /** The ranked order with recently failed routes demoted. */
  function AttemptOrder(cands: seq<Candidate>, rs: seq<ProbeResult>, sticky: Option<string>, backoff: set<string>)
    : (o: seq<nat>)
  {
    if backoff == {} then RankProbes(rs, sticky) else SortBy(Demotion(cands, backoff), RankProbes(rs, sticky))
  }

  lemma KeepHead(p: nat -> bool, xs: seq<nat>)
    requires xs != []
    ensures Keep(p, xs) == if p(xs[0]) then [xs[0]] + Keep(p, xs[1..]) else Keep(p, xs[1..])
  {
  }

  /** A stable sort on a two-valued key is a stable partition. */
  lemma {:induction false} SortByTwoValues(key: nat -> int, xs: seq<nat>)
    requires forall i :: i in xs ==> key(i) == 0 || key(i) == 1
    ensures SortBy(key, xs) == Keep(HasKey(key, 0), xs) + Keep(HasKey(key, 1), xs)
  {
    if xs != [] {
      var x, rest := xs[0], xs[1..];
      var zeros, ones := Keep(HasKey(key, 0), rest), Keep(HasKey(key, 1), rest);
      SortByTwoValues(key, rest);
      KeepIsKept(HasKey(key, 0), rest);
      KeepIsKept(HasKey(key, 1), rest);
      InsertIntoPartition(key, x, zeros, ones);
      KeepHead(HasKey(key, 0), xs);
      KeepHead(HasKey(key, 1), xs);
    }
  }

  lemma {:induction false} KeepIsKept(p: nat -> bool, xs: seq<nat>)
    ensures forall i :: 0 <= i < |Keep(p, xs)| ==> p(Keep(p, xs)[i])
  {
    if xs != [] {
      KeepIsKept(p, xs[1..]);
    }
  }

  lemma {:induction false} InsertIntoPartition(key: nat -> int, x: nat, zeros: seq<nat>, ones: seq<nat>)
    requires key(x) == 0 || key(x) == 1
    requires forall i :: 0 <= i < |zeros| ==> key(zeros[i]) == 0
    requires forall i :: 0 <= i < |ones| ==> key(ones[i]) == 1
    ensures Insert(key, x, zeros + ones) == if key(x) == 0 then ([x] + zeros) + ones else zeros + ([x] + ones)
  {
    if key(x) == 0 || zeros == [] {
      assert zeros == [] ==> zeros + ones == ones;
    } else {
      InsertIntoPartition(key, x, zeros[1..], ones);
      assert (zeros + ones)[1..] == zeros[1..] + ones;
    }
  }

  lemma {:induction false} KeepAlike(p: nat -> bool, q: nat -> bool, xs: seq<nat>)
    requires forall i :: p(i) == q(i)
    ensures Keep(p, xs) == Keep(q, xs)
  {
    if xs != [] {
      KeepAlike(p, q, xs[1..]);
    }
  }

  /** The candidate's route is in backoff. */
  function Avoided(cands: seq<Candidate>, backoff: set<string>): (p: nat -> bool) {
    (i: nat) => i < |cands| && cands[i].route in backoff
  }

  function GoodStanding(cands: seq<Candidate>, backoff: set<string>): (p: nat -> bool) {
    (i: nat) => i < |cands| ==> cands[i].route !in backoff
  }

  /** The attempt order is the ranking, stably partitioned into routes that are not backed off and
      then those that are. */
  lemma OrderIsPartitionedRanking(
    cands: seq<Candidate>, rs: seq<ProbeResult>, sticky: Option<string>, backoff: set<string>)
    ensures var rank := RankProbes(rs, sticky);
            AttemptOrder(cands, rs, sticky, backoff) ==
            Keep(GoodStanding(cands, backoff), rank) + Keep(Avoided(cands, backoff), rank)
  {
    var rank, key := RankProbes(rs, sticky), Demotion(cands, backoff);
    KeepAlike(HasKey(key, 0), GoodStanding(cands, backoff), rank);
    KeepAlike(HasKey(key, 1), Avoided(cands, backoff), rank);
    if backoff == {} {
      KeepAll(HasKey(key, 0), rank);
      KeepNone(HasKey(key, 1), rank);
      assert rank + [] == rank;
    } else {
      SortByTwoValues(key, rank);
    }
  }

  /** Every probed route is scheduled exactly once. */
  lemma OrderIsPermutation(
    cands: seq<Candidate>, rs: seq<ProbeResult>, sticky: Option<string>, backoff: set<string>, i: nat)
    ensures Occurrences(AttemptOrder(cands, rs, sticky, backoff), i) == if i < |rs| then 1 else 0
  {
    SortFacts(Demotion(cands, backoff), RankProbes(rs, sticky));
    RankIsPermutation(rs, sticky, i);
  }

  lemma {:induction false} KeepAll(p: nat -> bool, xs: seq<nat>)
    requires forall i :: p(i)
    ensures Keep(p, xs) == xs
  {
    if xs != [] {
      KeepAll(p, xs[1..]);
    }
  }

  lemma {:induction false} KeepNone(p: nat -> bool, xs: seq<nat>)
    requires forall i :: !p(i)
    ensures Keep(p, xs) == []
  {
    if xs != [] {
      KeepNone(p, xs[1..]);
    }
  }

  // ---------------------------------------------------------------------------
  // The failover loop
  // ---------------------------------------------------------------------------

  /** What one connect attempt returned. */
  type Attempt<T> = Result<T, ConnectError>

  predicate InRange(order: seq<nat>, n: nat) {
    forall k :: 0 <= k < |order| ==> order[k] < n
  }

  /** The events the attempts leave in the cache: a failure per abandoned route, then possibly a success. */
  function Failures(cands: seq<Candidate>, tried: seq<nat>, key: string, now: int): (evs: seq<Event>)
    requires InRange(tried, |cands|)
  {
    if tried == [] then []
    else
      Failures(cands, tried[..|tried| - 1], key, now) + [Failed(key, cands[tried[|tried| - 1]].route, now)]
  }

  function ApplyAll(es: Entries, evs: seq<Event>): (es': Entries) {
    if evs == [] then es else Apply(ApplyAll(es, evs[..|evs| - 1]), evs[|evs| - 1])
  }

  function Displayed(cands: seq<Candidate>, tried: seq<nat>): (ls: seq<string>)
    requires InRange(tried, |cands|)
  {
    if tried == [] then []
    else Displayed(cands, tried[..|tried| - 1]) + [DisplayLabel(cands[tried[|tried| - 1]])]
  }

  /** The attempts form a prefix of the order in which every attempt but the last failed with a
      failover-class error, and the last one succeeded, failed otherwise, or was the last route. */
  ghost predicate Schedule<T(!new)>(
    order: seq<nat>, attempts: nat, connect: (nat, nat) -> Attempt<T>, failsOver: ConnectError -> bool)
  {
    && attempts <= |order|
    && (attempts == 0 ==> order == [])
    && (forall k :: 0 <= k < attempts - 1 ==> connect(k, order[k]).Err? && failsOver(connect(k, order[k]).error))
    && (0 < attempts < |order| ==>
          var last := connect(attempts - 1, order[attempts - 1]);
          last.Ok? || !failsOver(last.error))
  }

  const NO_ROUTE: ConnectError := Failure("No route to the server.")

  /** The cache after the attempts of one call: a failure per abandoned route, then possibly a success. */
  function Remembered(mid: Entries, cands: seq<Candidate>, order: seq<nat>, attempts: nat, connected: bool, key: string,
                      now: int): (es: Entries)
    requires InRange(order, |cands|) && attempts <= |order|
  {
    if attempts == 0 then mid
    else
      var failed := ApplyAll(mid, Failures(cands, order[..attempts - 1], key, now));
      if connected then Apply(failed, Succeeded(key, cands[order[attempts - 1]].route)) else failed
  }

  /** What the call returns: the outcome of its last attempt. */
  function Reported<T>(cands: seq<Candidate>, order: seq<nat>, attempts: nat, connect: (nat, nat) -> Attempt<T>,
                       metas: map<string, Meta>)
    : (r: Result<(T, Choice), ConnectError>)
    requires InRange(order, |cands|) && attempts <= |order|
  {
    if attempts == 0 then Err(NO_ROUTE)
    else
      var last, tried := order[attempts - 1], order[..attempts - 1];
      match connect(attempts - 1, last)
      case Ok(value) =>
        var route := cands[last].route;
        Ok((value, Choice(route, cands[last].host, Displayed(cands, tried), MetaFor(metas, route))))
      case Err(error) => Err(error)
  }

  /** What the result tells, of the attempts that were made: the last one decides. A success names its route and its
      host, and every route given up before it, in order, by its label or, for the primary, by its host. */
  ghost predicate TellsAttempts<T(!new)>(cands: seq<Candidate>, order: seq<nat>, attempts: nat,
                                         connect: (nat, nat) -> Attempt<T>, r: Result<(T, Choice), ConnectError>)
    requires InRange(order, |cands|) && attempts <= |order|
  {
    if attempts == 0 then r == Err(Failure("No route to the server."))
    else
      var last := order[attempts - 1];
      match r
      case Err(error) => connect(attempts - 1, last) == Err(error)
      case Ok((value, choice)) =>
        && connect(attempts - 1, last) == Ok(value)
        && choice.route == cands[last].route && choice.host == cands[last].host
        && |choice.failedLabels| == attempts - 1
        && forall k :: 0 <= k < attempts - 1 ==>
             var tried := cands[order[k]];
             choice.failedLabels[k] == if tried.route == "" then tried.host else tried.route
  }

  /** What the cache learnt from the attempts: a route that connected is the sticky one and is not backed off, every
      other route that was given up is, for a minute from now, and no other site's entry changed. */
  ghost predicate Learnt(mid: Entries, after: Entries, cands: seq<Candidate>, givenUp: seq<nat>, good: Option<string>,
                         key: string, now: int)
    requires InRange(givenUp, |cands|)
  {
    && OthersKept(mid, after, key)
    && StickyLabel(after, key) == (if good.Some? then good else StickyLabel(mid, key))
    && (good.Some? ==> Mark(EntryOf(after, key).probes, good.value) == None)
    && AllBackedOff(after, cands, givenUp, good, key, now)
  }

  /** The last attempt apart, whose route either connected or is not marked. */
  ghost predicate LearntFrom(mid: Entries, after: Entries, cands: seq<Candidate>, order: seq<nat>, attempts: nat,
                             good: Option<string>, key: string, now: int)
    requires InRange(order, |cands|) && attempts <= |order|
  {
    if attempts == 0 then after == mid else Learnt(mid, after, cands, order[..attempts - 1], good, key, now)
  }

  ghost predicate OthersKept(mid: Entries, after: Entries, key: string) {
    forall other :: other != key ==> EntryOf(after, other) == EntryOf(mid, other)
  }

  ghost predicate AllBackedOff(es: Entries, cands: seq<Candidate>, givenUp: seq<nat>, good: Option<string>, key: string,
                               now: int)
    requires InRange(givenUp, |cands|)
  {
    forall k :: 0 <= k < |givenUp| && Some(cands[givenUp[k]].route) != good ==>
                  BackedOff(es, key, cands[givenUp[k]].route, now)
  }

  ghost predicate BackedOff(es: Entries, key: string, route: string, now: int) {
    forall later :: later - now < 60 ==> route in BackoffSet(es, key, later)
  }

  lemma {:induction false} DisplayedAt(cands: seq<Candidate>, tried: seq<nat>)
    requires InRange(tried, |cands|)
    ensures |Displayed(cands, tried)| == |tried|
    ensures forall k :: 0 <= k < |tried| ==>
              Displayed(cands, tried)[k] ==
              if cands[tried[k]].route == "" then cands[tried[k]].host else cands[tried[k]].route
  {
    if tried != [] {
      DisplayedAt(cands, tried[..|tried| - 1]);
    }
  }

  lemma ReportedTells<T(!new)>(cands: seq<Candidate>, order: seq<nat>, attempts: nat, connect: (nat, nat) -> Attempt<T>,
                         metas: map<string, Meta>)
    requires InRange(order, |cands|) && attempts <= |order|
    ensures TellsAttempts(cands, order, attempts, connect, Reported(cands, order, attempts, connect, metas))
  {
    if attempts > 0 {
      DisplayedAt(cands, order[..attempts - 1]);
    }
  }

  /** The attempt loop of `connect_routed`. `connect(k, i)` is the outcome of the k-th attempt, made
      on candidate i. `cache` is present on the automatic path only. */
  method TryInOrder<T(!new)>(cands: seq<Candidate>, order: seq<nat>, connect: (nat, nat) -> Attempt<T>,
                             failsOver: ConnectError -> bool, metas: map<string, Meta>, cache: RouteCache?,
                             key: string, now: int)
    returns (r: Result<(T, Choice), ConnectError>, attempts: nat)
    requires InRange(order, |cands|)
    modifies cache
    ensures Schedule(order, attempts, connect, failsOver)
    ensures r == Reported(cands, order, attempts, connect, metas)
    ensures cache != null ==>
              cache.entries == Remembered(old(cache.entries), cands, order, attempts, r.Ok?, key, now)
  {
    var failedLabels: seq<string> := [];
    var lastErr: Option<ConnectError> := None;
    attempts := 0;
    while attempts < |order|
      invariant attempts <= |order| && (attempts == 0 || attempts < |order|) && (attempts == 0 ==> lastErr.None?)
      invariant forall k :: 0 <= k < attempts ==> connect(k, order[k]).Err? && failsOver(connect(k, order[k]).error)
      invariant failedLabels == Displayed(cands, order[..attempts])
      invariant cache != null ==>
                  cache.entries == ApplyAll(old(cache.entries), Failures(cands, order[..attempts], key, now))
    {
      var i := order[attempts];
      var outcome := connect(attempts, i);
      assert order[..attempts + 1][..attempts] == order[..attempts];
      attempts := attempts + 1;
      match outcome {
        case Ok(value) =>
          if cache != null {
            cache.RecordSuccess(key, cands[i].route);
          }
          var route := cands[i].route;
          return Ok((value, Choice(route, cands[i].host, failedLabels, MetaFor(metas, route)))), attempts;
        case Err(err) =>
          if attempts < |order| && failsOver(err) {
            if cache != null {
              ghost var evs := Failures(cands, order[..attempts - 1], key, now);
              var failed := Failed(key, cands[i].route, now);
              assert (evs + [failed])[..|evs|] == evs;
              cache.RecordFailure(key, cands[i].route, now);
            }
            failedLabels := failedLabels + [DisplayLabel(cands[i])];
            lastErr := Some(err);
          } else {
            return Err(err), attempts;
          }
      }
    }
    return Err(if lastErr.Some? then lastErr.value else NO_ROUTE), attempts;
  }

  /** What one run teaches the next: every route it gave up on is backed off for the following
      minute, so `OrderIsPartitionedRanking` puts it behind every route that did not fail. */
  lemma {:induction false} GivenUpRoutesAreDemoted(
    mid: Entries, cands: seq<Candidate>, tried: seq<nat>, key: string, now: int, later: int, k: nat)
    requires InRange(tried, |cands|) && k < |tried| && later - now < FAILURE_BACKOFF
    ensures cands[tried[k]].route in BackoffSet(ApplyAll(mid, Failures(cands, tried, key, now)), key, later)
  {
    var after := ApplyAll(mid, Failures(cands, tried, key, now));
    MarkedAfterFailures(mid, cands, tried, key, now, k);
    RecentIsMarked(after[key].probes, cands[tried[k]].route, later);
  }

  lemma {:induction false} MarkedAfterFailures(
    mid: Entries, cands: seq<Candidate>, tried: seq<nat>, key: string, now: int, k: nat)
    requires InRange(tried, |cands|) && k < |tried|
    ensures var after := ApplyAll(mid, Failures(cands, tried, key, now));
            key in after && Mark(after[key].probes, cands[tried[k]].route) == Some(now)
  {
    var init, last := tried[..|tried| - 1], tried[|tried| - 1];
    var evs, route := Failures(cands, init, key, now), cands[tried[k]].route;
    ApplyOneMore(mid, evs, Failed(key, cands[last].route, now));
    FailureMarks(ApplyAll(mid, evs), key, cands[last].route, now, route);
    if k < |init| {
      assert init[k] == tried[k];
      MarkedAfterFailures(mid, cands, init, key, now, k);
    }
  }

  lemma FailureMarks(es: Entries, key: string, failed: string, now: int, route: string)
    ensures var after := Apply(es, Failed(key, failed, now));
            key in after
            && Mark(after[key].probes, route) == if route == failed then Some(now)
                                                 else Mark(EntryOf(es, key).probes, route)
  {
    FailureOnList(EntryOf(es, key).probes, failed, now, route);
  }

  lemma ApplyOneMore(es: Entries, evs: seq<Event>, ev: Event)
    ensures ApplyAll(es, evs + [ev]) == Apply(ApplyAll(es, evs), ev)
  {
    assert (evs + [ev])[..|evs|] == evs;
  }

  lemma {:induction false} FailuresLeaveTheRest(
    mid: Entries, cands: seq<Candidate>, tried: seq<nat>, key: string, now: int, other: string)
    requires InRange(tried, |cands|)
    ensures var after := ApplyAll(mid, Failures(cands, tried, key, now));
            && StickyLabel(after, key) == StickyLabel(mid, key)
            && (other != key ==> EntryOf(after, other) == EntryOf(mid, other))
  {
    if tried != [] {
      var init, last := tried[..|tried| - 1], tried[|tried| - 1];
      FailuresLeaveTheRest(mid, cands, init, key, now, other);
      ApplyOneMore(mid, Failures(cands, init, key, now), Failed(key, cands[last].route, now));
    }
  }

  lemma FailureBacksOff(mid: Entries, cands: seq<Candidate>, tried: seq<nat>, key: string, now: int, k: nat)
    requires InRange(tried, |cands|) && k < |tried|
    ensures BackedOff(ApplyAll(mid, Failures(cands, tried, key, now)), key, cands[tried[k]].route, now)
  {
    forall later | later - now < 60
      ensures cands[tried[k]].route in BackoffSet(ApplyAll(mid, Failures(cands, tried, key, now)), key, later)
    {
      GivenUpRoutesAreDemoted(mid, cands, tried, key, now, later, k);
    }
  }

  /** A success clears the mark of its own route and no other. */
  lemma SuccessKeepsOthersBackedOff(mid: Entries, cands: seq<Candidate>, tried: seq<nat>, good: string, key: string,
                                    now: int, k: nat)
    requires InRange(tried, |cands|) && k < |tried| && cands[tried[k]].route != good
    ensures BackedOff(Apply(ApplyAll(mid, Failures(cands, tried, key, now)), Succeeded(key, good)), key,
                      cands[tried[k]].route, now)
  {
    var failed, route := ApplyAll(mid, Failures(cands, tried, key, now)), cands[tried[k]].route;
    var after := Apply(failed, Succeeded(key, good));
    MarkedAfterFailures(mid, cands, tried, key, now, k);
    SuccessOnList(failed[key].probes, good, route);
    forall later | later - now < 60 ensures route in BackoffSet(after, key, later) {
      RecentIsMarked(after[key].probes, route, later);
    }
  }

  lemma SuccessIsSticky(es: Entries, key: string, good: string, other: string)
    ensures var after := Apply(es, Succeeded(key, good));
            && StickyLabel(after, key) == Some(good) && Mark(EntryOf(after, key).probes, good) == None
            && (other != key ==> EntryOf(after, other) == EntryOf(es, other))
  {
    SuccessOnList(EntryOf(es, key).probes, good, good);
  }

  lemma FailuresLearnt(mid: Entries, cands: seq<Candidate>, tried: seq<nat>, key: string, now: int)
    requires InRange(tried, |cands|)
    ensures Learnt(mid, ApplyAll(mid, Failures(cands, tried, key, now)), cands, tried, None, key, now)
  {
    var after := ApplyAll(mid, Failures(cands, tried, key, now));
    FailuresLeaveTheRest(mid, cands, tried, key, now, key);
    forall other | other != key ensures EntryOf(after, other) == EntryOf(mid, other) {
      FailuresLeaveTheRest(mid, cands, tried, key, now, other);
    }
    forall k | 0 <= k < |tried| ensures BackedOff(after, key, cands[tried[k]].route, now) {
      FailureBacksOff(mid, cands, tried, key, now, k);
    }
  }

  lemma SuccessLearnt(mid: Entries, cands: seq<Candidate>, tried: seq<nat>, good: string, key: string, now: int)
    requires InRange(tried, |cands|)
    ensures Learnt(mid, Apply(ApplyAll(mid, Failures(cands, tried, key, now)), Succeeded(key, good)), cands, tried,
                   Some(good), key, now)
  {
    var failed := ApplyAll(mid, Failures(cands, tried, key, now));
    var after := Apply(failed, Succeeded(key, good));
    forall other | other != key ensures EntryOf(after, other) == EntryOf(mid, other) {
      FailuresLeaveTheRest(mid, cands, tried, key, now, other);
      SuccessIsSticky(failed, key, good, other);
    }
    SuccessIsSticky(failed, key, good, key);
    forall k | 0 <= k < |tried| && cands[tried[k]].route != good
      ensures BackedOff(after, key, cands[tried[k]].route, now)
    {
      SuccessKeepsOthersBackedOff(mid, cands, tried, good, key, now, k);
    }
  }

  /** Whatever the last attempt came to. */
  lemma AttemptsAreLearnt(mid: Entries, cands: seq<Candidate>, order: seq<nat>, attempts: nat, connected: bool,
                          key: string, now: int)
    requires InRange(order, |cands|) && attempts <= |order|
    ensures LearntFrom(mid, Remembered(mid, cands, order, attempts, connected, key, now), cands, order, attempts,
                       if connected && attempts > 0 then Some(cands[order[attempts - 1]].route) else None, key, now)
  {
    if attempts > 0 {
      if connected {
        SuccessLearnt(mid, cands, order[..attempts - 1], cands[order[attempts - 1]].route, key, now);
      } else {
        FailuresLearnt(mid, cands, order[..attempts - 1], key, now);
      }
    }
  }

  // ---------------------------------------------------------------------------
  // The whole connect
  // ---------------------------------------------------------------------------

  function IndexOf(cands: seq<Candidate>, route: string): (i: Option<nat>)
    ensures i.Some? ==> i.value < |cands| && cands[i.value].route == route
    ensures i.None? ==> forall k :: 0 <= k < |cands| ==> cands[k].route != route
  {
    if cands == [] then None
    else if cands[0].route == route then Some(0)
    else
      match IndexOf(cands[1..], route)
      case None => None
      case Some(k) => Some(k + 1)
  }

  /** `pinned_order`: the pinned route alone, or the primary when the pin is blank or unknown. */
  function PinnedOrder(cands: seq<Candidate>, pin: Option<string>): (o: seq<nat>)
    requires cands != []
    ensures |o| == 1 && InRange(o, |cands|)
    ensures if pin.Some? && Trim(pin.value) != "" && exists k :: 0 <= k < |cands| && cands[k].route == Trim(pin.value)
            then cands[o[0]].route == Trim(pin.value) else o == [0]
  {
    if pin.None? || Trim(pin.value) == "" then [0]
    else match IndexOf(cands, Trim(pin.value)) case None => [0] case Some(i) => [i]
  }

  function BackoffSet(es: Entries, key: string, now: int): (s: set<string>) {
    set l | l in BackoffLabels(es, key, now)
  }

  /** Fresh probes leave the cache alone; otherwise a round over the candidates is recorded. */
  ghost predicate Obtained(before: Entries, cands: seq<Candidate>, key: string, ttlSecs: nat, now: int,
                           probe: string -> ProbeStatus, rs: seq<ProbeResult>, after: Entries)
  {
    var cached := FreshProbes(before, key, ttlSecs, now);
    if cached.Some? then rs == cached.value && after == before
    else
      ResultLabels(rs) == ProbedLabels(cands) && Answered(rs, probe) && after == Apply(before, Probed(key, rs, now))
  }

  /** The first half of the automatic path: serve the probes from the cache, or probe and record. */
  method ObtainProbes(cands: seq<Candidate>, cache: RouteCache, key: string, ttlSecs: nat, now: int,
                      probe: string -> ProbeStatus)
    returns (rs: seq<ProbeResult>)
    modifies cache
    ensures Obtained(old(cache.entries), cands, key, ttlSecs, now, probe, rs, cache.entries)
  {
    var cached := FreshProbes(cache.entries, key, ttlSecs, now);
    if cached.Some? {
      return cached.value;
    }
    rs := RunProbes(cands, probe);
    cache.RecordProbes(key, rs, now);
  }

  lemma OrderInRange(cands: seq<Candidate>, rs: seq<ProbeResult>, sticky: Option<string>, backoff: set<string>)
    ensures InRange(AttemptOrder(cands, rs, sticky, backoff), |rs|)
  {
    var o := AttemptOrder(cands, rs, sticky, backoff);
    forall k | 0 <= k < |o| ensures o[k] < |rs| {
      OrderIsPermutation(cands, rs, sticky, backoff, o[k]);
      assert o[k] in multiset(o);
    }
  }

  /** The automatic path: several candidates, no pin, and the setting on. */
  predicate Automatic(cands: seq<Candidate>, manual: bool, autoEnabled: bool) {
    !manual && autoEnabled && |cands| >= 2
  }

  /** Which candidates are tried in which order. `mid` is the cache between probing and connecting. */
  ghost predicate Chosen(before: Entries, cands: seq<Candidate>, manual: bool, pin: Option<string>, autoEnabled: bool,
                         key: string, ttlSecs: nat, now: int, probe: string -> ProbeStatus, order: seq<nat>,
                         probes: seq<ProbeResult>, mid: Entries)
    requires cands != []
  {
    if Automatic(cands, manual, autoEnabled) then
      && Obtained(before, cands, key, ttlSecs, now, probe, probes, mid)
      && order == AttemptOrder(cands, probes, StickyLabel(mid, key), BackoffSet(mid, key, now))
    else mid == before && order == if manual then PinnedOrder(cands, pin) else [0]
  }

  method ChooseOrder(
    cands: seq<Candidate>, manual: bool, pin: Option<string>, autoEnabled: bool, cache: RouteCache,
    hash: string -> string, ttlSecs: nat, now: int, probe: string -> ProbeStatus, ghost lists: set<seq<Candidate>>)
    returns (order: seq<nat>, metas: map<string, Meta>, ghost probes: seq<ProbeResult>)
    requires cands != [] && cands in lists && Compatible(hash, lists) && Bounded(cache.entries, hash, lists)
    modifies cache
    ensures Bounded(cache.entries, hash, lists) && InRange(order, |cands|)
    ensures Chosen(old(cache.entries), cands, manual, pin, autoEnabled, CacheKey(hash, cands), ttlSecs, now,
                   probe, order, probes, cache.entries)
    ensures metas == MetaOf(probes) && (!Automatic(cands, manual, autoEnabled) ==> probes == [])
  {
    metas, probes := map[], [];
    if manual {
      order := PinnedOrder(cands, pin);
    } else if !autoEnabled || |cands| < 2 {
      order := [0];
    } else {
      var key := CacheKey(hash, cands);
      ghost var before := cache.entries;
      var rs := ObtainProbes(cands, cache, key, ttlSecs, now, probe);
      BoundedAfterProbing(before, cache.entries, rs, hash, lists, cands, ttlSecs, now, probe);
      OrderInRange(cands, rs, StickyLabel(cache.entries, key), BackoffSet(cache.entries, key, now));
      order := AttemptOrder(cands, rs, StickyLabel(cache.entries, key), BackoffSet(cache.entries, key, now));
      metas := CollectMeta(rs);
      probes := rs;
    }
  }

  /** `connect_routed`. The source indexes the candidates by the probes it was served, so it needs the
      cache to fit the candidate lists in use; the call keeps it fitting. */
  method ConnectRouted<T(!new)>(
    cands: seq<Candidate>, manual: bool, pin: Option<string>, autoEnabled: bool,
    cache: RouteCache, hash: string -> string, ttlSecs: nat, now: int,
    probe: string -> ProbeStatus, connect: (nat, nat) -> Attempt<T>, failsOver: ConnectError -> bool,
    ghost lists: set<seq<Candidate>>)
    returns (r: Result<(T, Choice), ConnectError>, ghost order: seq<nat>, ghost attempts: nat,
             ghost probes: seq<ProbeResult>, ghost mid: Entries)
    requires cands != [] && cands in lists && Compatible(hash, lists) && Bounded(cache.entries, hash, lists)
    modifies cache
    ensures Bounded(cache.entries, hash, lists)
    ensures Chosen(old(cache.entries), cands, manual, pin, autoEnabled, CacheKey(hash, cands), ttlSecs, now,
                   probe, order, probes, mid)
    ensures InRange(order, |cands|) && Schedule(order, attempts, connect, failsOver)
    ensures r == Reported(cands, order, attempts, connect, MetaOf(probes))
    ensures TellsAttempts(cands, order, attempts, connect, r)
    ensures r.Ok? ==> r.value.1.meta == MetaFor(MetaOf(probes), r.value.1.route)
    ensures manual || !autoEnabled || |cands| < 2 ==>
              probes == [] && cache.entries == mid == old(cache.entries)
              && order == if manual then PinnedOrder(cands, pin) else [0]
    ensures !manual && autoEnabled && |cands| >= 2 ==>
              LearntFrom(mid, cache.entries, cands, order, attempts, if r.Ok? then Some(r.value.1.route) else None,
                         CacheKey(hash, cands), now)
    ensures !manual && autoEnabled && |cands| >= 2 ==>
              cache.entries == Remembered(mid, cands, order, attempts, r.Ok?, CacheKey(hash, cands), now)
  {
    var o, metas;
    o, metas, probes := ChooseOrder(cands, manual, pin, autoEnabled, cache, hash, ttlSecs, now, probe, lists);
    mid, order := cache.entries, o;
    var used: RouteCache? := if Automatic(cands, manual, autoEnabled) then cache else null;
    r, attempts := TryInOrder(cands, o, connect, failsOver, metas, used, CacheKey(hash, cands), now);
    ReportedTells(cands, o, attempts, connect, metas);
    if used != null {
      AttemptsAreLearnt(mid, cands, order, attempts, r.Ok?, CacheKey(hash, cands), now);
      BoundedAfterAttempts(mid, cands, order, attempts, r.Ok?, hash, now, lists);
    }
  }

  lemma BoundedAfterProbing(before: Entries, mid: Entries, rs: seq<ProbeResult>, hash: string -> string,
                            lists: set<seq<Candidate>>, cands: seq<Candidate>, ttlSecs: nat, now: int,
                            probe: string -> ProbeStatus)
    requires cands in lists && Compatible(hash, lists) && Bounded(before, hash, lists)
    requires Obtained(before, cands, CacheKey(hash, cands), ttlSecs, now, probe, rs, mid)
    ensures Bounded(mid, hash, lists) && |rs| <= |cands|
  {
    var key := CacheKey(hash, cands);
    if FreshProbes(before, key, ttlSecs, now).Some? {
      FittingProbes(before, hash, lists, cands, ttlSecs, now);
    } else {
      BoundedStep(before, Probed(key, rs, now), hash, lists, cands);
      DescriptorCount(cands);
      LengthOfLabels(rs, []);
    }
  }

  lemma {:induction false} BoundedAfterFailures(mid: Entries, cands: seq<Candidate>, tried: seq<nat>,
                                                hash: string -> string, now: int, lists: set<seq<Candidate>>)
    requires InRange(tried, |cands|) && cands in lists && Compatible(hash, lists) && Bounded(mid, hash, lists)
    ensures Bounded(ApplyAll(mid, Failures(cands, tried, CacheKey(hash, cands), now)), hash, lists)
  {
    if tried != [] {
      var key, init, last := CacheKey(hash, cands), tried[..|tried| - 1], tried[|tried| - 1];
      var evs, ev := Failures(cands, init, key, now), Failed(key, cands[last].route, now);
      assert (evs + [ev])[..|evs|] == evs;
      BoundedAfterFailures(mid, cands, init, hash, now, lists);
      LabelOfCandidate(cands, last);
      BoundedStep(ApplyAll(mid, evs), ev, hash, lists, cands);
    }
  }

  lemma {:induction false} LabelOfCandidate(cands: seq<Candidate>, i: nat)
    requires i < |cands|
    ensures |CandidateLabels(cands)| == |cands| && CandidateLabels(cands)[i] == cands[i].route
  {
    DescriptorCount(cands);
    if i > 0 {
      LabelOfCandidate(cands[1..], i - 1);
    }
  }

  lemma BoundedAfterAttempts(mid: Entries, cands: seq<Candidate>, order: seq<nat>, attempts: nat, connected: bool,
                             hash: string -> string, now: int, lists: set<seq<Candidate>>)
    requires InRange(order, |cands|) && attempts <= |order|
    requires cands in lists && Compatible(hash, lists) && Bounded(mid, hash, lists)
    ensures Bounded(Remembered(mid, cands, order, attempts, connected, CacheKey(hash, cands), now), hash, lists)
  {
    if attempts > 0 {
      var key, tried := CacheKey(hash, cands), order[..attempts - 1];
      BoundedAfterFailures(mid, cands, tried, hash, now, lists);
      var failed := ApplyAll(mid, Failures(cands, tried, key, now));
      BoundedStep(failed, Succeeded(key, cands[order[attempts - 1]].route), hash, lists, cands);
    }
  }

  // ---------------------------------------------------------------------------
  // Runs
  // ---------------------------------------------------------------------------

  /** What uses the cache: a connect, the site manager probing a site ahead of time, and the pruning
      of old entries when the cache is written. */
  datatype Use<!T> =
    | Connect(cands: seq<Candidate>, manual: bool, pin: Option<string>, autoEnabled: bool, ttlSecs: nat, now: int,
              probe: string -> ProbeStatus, connect: (nat, nat) -> Attempt<T>, failsOver: ConnectError -> bool)
    | Warm(cands: seq<Candidate>, now: int, probe: string -> ProbeStatus)
    | Prune(cutoff: int)

  predicate UsesOf<T>(u: Use<T>, lists: set<seq<Candidate>>) {
    u.Prune? || (u.cands != [] && u.cands in lists)
  }

  /** Whatever is connected, warmed and pruned in whatever order, starting from no cache file, every
      vector served fits its candidates: the indexing of `connect_routed` stays in range. */
  method UseAll<T(!new)>(uses: seq<Use<T>>, hash: string -> string, ghost lists: set<seq<Candidate>>)
    returns (cache: RouteCache, results: seq<Result<(T, Choice), ConnectError>>)
    requires Compatible(hash, lists) && forall u :: u in uses ==> UsesOf(u, lists)
    ensures fresh(cache) && Bounded(cache.entries, hash, lists)
    ensures forall cands, ttlSecs, now :: cands in lists ==>
              var served := FreshProbes(cache.entries, CacheKey(hash, cands), ttlSecs, now);
              served.Some? ==> |served.value| <= |cands|
  {
    cache := new RouteCache(map[]);
    results := [];
    var i := 0;
    while i < |uses|
      invariant 0 <= i <= |uses| && fresh(cache) && Bounded(cache.entries, hash, lists)
    {
      assert UsesOf(uses[i], lists);
      match uses[i] {
        case Connect(cands, manual, pin, autoEnabled, ttlSecs, now, probe, connect, failsOver) =>
          var r, _, _, _, _ := ConnectRouted(
            cands, manual, pin, autoEnabled, cache, hash, ttlSecs, now, probe, connect, failsOver, lists);
          results := results + [r];
        case Warm(cands, now, probe) =>
          var rs := RunProbes(cands, probe);
          BoundedStep(cache.entries, Probed(CacheKey(hash, cands), rs, now), hash, lists, cands);
          cache.RecordProbes(CacheKey(hash, cands), rs, now);
        case Prune(cutoff) =>
          cache.Prune(cutoff);
      }
      i := i + 1;
    }
    forall cands, ttlSecs, now | cands in lists
      ensures var served := FreshProbes(cache.entries, CacheKey(hash, cands), ttlSecs, now);
              served.Some? ==> |served.value| <= |cands|
    {
      FittingProbes(cache.entries, hash, lists, cands, ttlSecs, now);
    }
  }
}
