/** The directory watcher (`debounce_loop`, `settle` and `set_path` of `watcher.rs`) over a timed list of
    wake-ups; callbacks take no time. */
module Debounce {
  import opened Text

  const DEBOUNCE: nat := 400

  datatype Wake = Changed | Stop

  /** A wake-up and when it reaches the channel, in milliseconds. */
  datatype Event = Event(at: nat, wake: Wake)

  datatype Received = Got(wake: Wake) | TimedOut | Disconnected

  // ---------------------------------------------------------------------------
  // What the two loops do
  // ---------------------------------------------------------------------------

  /** The stop flag as a change at time `t` finds it. */
  predicate Flagged(stopAt: Option<nat>, t: nat) {
    stopAt.Some? && stopAt.value <= t
  }

  /** Callback times of the outer loop, waiting for the next event. */
  function Idle(events: seq<Event>, stopAt: Option<nat>, closes: Option<nat>): (fires: seq<nat>)
    decreases |events|, 1
  {
    if events == [] || events[0].wake == Stop then []
    else Settling(events[1..], events[0].at, stopAt, closes)
  }

  /** Callback times once a change came at time `t`. */
  function Settling(events: seq<Event>, t: nat, stopAt: Option<nat>, closes: Option<nat>): (fires: seq<nat>)
    decreases |events|, 2
  {
    if events != [] && events[0].at < t + DEBOUNCE then
      if events[0].wake == Stop || Flagged(stopAt, events[0].at) then []
      else Settling(events[1..], events[0].at, stopAt, closes)
    else if events == [] && closes.Some? && closes.value < t + DEBOUNCE then []
    else [t + DEBOUNCE] + Idle(events, stopAt, closes)
  }

  /** The receiving end of the channel. */
  class Channel {
    var events: seq<Event>
    var now: nat
    const closes: Option<nat>

    constructor (events: seq<Event>, closes: Option<nat>)
      ensures this.events == events && this.closes == closes && now == 0
    {
      this.events := events;
      this.closes := closes;
      now := 0;
    }

    /** Waits as long as it takes; `Disconnected` also stands for waiting forever. */
    method Recv() returns (r: Received)
      modifies this
      ensures old(events) == [] ==> r == Disconnected && events == []
      ensures old(events) != [] ==>
                r == Got(old(events)[0].wake) && events == old(events)[1..] && now == old(events)[0].at
    {
      if events == [] {
        return Disconnected;
      }
      r := Got(events[0].wake);
      now := events[0].at;
      events := events[1..];
    }

    /** Waits at most `limit` from now. */
    method RecvTimeout(limit: nat) returns (r: Received)
      modifies this
      ensures var inTime := old(events) != [] && old(events)[0].at < old(now) + limit;
              var hungUp := old(events) == [] && closes.Some? && closes.value < old(now) + limit;
              && r == (if inTime then Got(old(events)[0].wake) else if hungUp then Disconnected else TimedOut)
              && events == (if inTime then old(events)[1..] else old(events))
              && now == (if inTime then old(events)[0].at else if hungUp then old(now) else old(now) + limit)
    {
      if events != [] && events[0].at < now + limit {
        r := Got(events[0].wake);
        now := events[0].at;
        events := events[1..];
      } else if events == [] && closes.Some? && closes.value < now + limit {
        r := Disconnected;
      } else {
        r := TimedOut;
        now := now + limit;
      }
    }
  }

  /** Blocks until one quiet interval has passed; false when the watcher was stopped or the channel hung up. */
  method Settle(channel: Channel, stopAt: Option<nat>) returns (quiet: bool)
    modifies channel
    ensures Settling(old(channel.events), old(channel.now), stopAt, channel.closes)
         == if quiet then [channel.now] + Idle(channel.events, stopAt, channel.closes) else []
    ensures |channel.events| <= |old(channel.events)|
  {
    while true
      invariant |channel.events| <= |old(channel.events)|
      invariant Settling(channel.events, channel.now, stopAt, channel.closes)
             == Settling(old(channel.events), old(channel.now), stopAt, channel.closes)
      decreases |channel.events|
    {
      var r := channel.RecvTimeout(DEBOUNCE);
      match r
      case Got(wake) =>
        if wake == Stop {
          return false;
        }
        if Flagged(stopAt, channel.now) {
          return false;
        }
      case Disconnected => return false;
      case TimedOut => return true;
    }
  }

  method DebounceLoop(channel: Channel, stopAt: Option<nat>) returns (fires: seq<nat>)
    modifies channel
    ensures fires == Idle(old(channel.events), stopAt, channel.closes)
  {
    fires := [];
    while true
      invariant fires + Idle(channel.events, stopAt, channel.closes)
                == Idle(old(channel.events), stopAt, channel.closes)
      decreases |channel.events|
    {
      ghost var before := channel.events;
      var r := channel.Recv();
      if r != Got(Changed) {
        assert fires + [] == fires;
        return;
      }
      var quiet := Settle(channel, stopAt);
      if !quiet {
        assert fires + [] == fires;
        return;
      }
      FireFirst(fires, channel.now, Idle(channel.events, stopAt, channel.closes));
      fires := fires + [channel.now];
    }
  }

  lemma FireFirst(fires: seq<nat>, t: nat, rest: seq<nat>)
    ensures fires + ([t] + rest) == (fires + [t]) + rest
  {
  }

  // ---------------------------------------------------------------------------
  // Bursts
  // ---------------------------------------------------------------------------

  /** Change times cut into maximal bursts: neighbours closer than one quiet interval belong together. */
  function Bursts(times: seq<nat>): (bursts: seq<seq<nat>>)
    ensures times != [] ==> bursts != [] && bursts[0] != [] && bursts[0][0] == times[0]
  {
    if times == [] then []
    else if |times| == 1 then [[times[0]]]
    else
      var rest := Bursts(times[1..]);
      if times[1] < times[0] + DEBOUNCE then [[times[0]] + rest[0]] + rest[1..] else [[times[0]]] + rest
  }

  predicate Increasing(times: seq<nat>) {
    if |times| <= 1 then true else times[0] <= times[1] && Increasing(times[1..])
  }

  function Last(s: seq<nat>): (t: nat) {
    if s == [] then 0 else s[|s| - 1]
  }

  /** One callback per burst, 400 milliseconds after its last change. */
  function OncePerBurst(bursts: seq<seq<nat>>): (fires: seq<nat>) {
    if bursts == [] then [] else [Last(bursts[0]) + 400] + OncePerBurst(bursts[1..])
  }

  /** The bursts that are over, quiet interval included, by time `s`. */
  function OverBy(bursts: seq<seq<nat>>, s: nat): (over: seq<seq<nat>>) {
    if bursts == [] then []
    else (if Last(bursts[0]) + DEBOUNCE <= s then [bursts[0]] else []) + OverBy(bursts[1..], s)
  }

  function Changes(times: seq<nat>): (events: seq<Event>)
    ensures |events| == |times|
  {
    if times == [] then [] else [Event(times[0], Changed)] + Changes(times[1..])
  }

  lemma OverFirst(burst: seq<nat>, rest: seq<seq<nat>>, s: nat)
    ensures OncePerBurst(OverBy([burst] + rest, s))
         == (if Last(burst) + DEBOUNCE <= s then [Last(burst) + DEBOUNCE] else []) + OncePerBurst(OverBy(rest, s))
  {
    var bursts := [burst] + rest;
    assert bursts[1..] == rest;
    var over := OverBy(rest, s);
    assert [] + over == over && [] + OncePerBurst(over) == OncePerBurst(over);
  }

  lemma OnceFirst(burst: seq<nat>, rest: seq<seq<nat>>)
    ensures OncePerBurst([burst] + rest) == [Last(burst) + DEBOUNCE] + OncePerBurst(rest)
  {
    assert ([burst] + rest)[1..] == rest;
  }

  /** An earlier change in front of a burst changes nothing about its callback. */
  lemma FirstGrows(t: nat, bursts: seq<seq<nat>>, s: nat)
    requires bursts != [] && bursts[0] != []
    ensures OncePerBurst([[t] + bursts[0]] + bursts[1..]) == OncePerBurst(bursts)
    ensures OncePerBurst(OverBy([[t] + bursts[0]] + bursts[1..], s)) == OncePerBurst(OverBy(bursts, s))
  {
    var first, rest := bursts[0], bursts[1..];
    assert Last([t] + first) == Last(first);
    assert bursts == [first] + rest;
    OnceFirst([t] + first, rest);
    OnceFirst(first, rest);
    OverFirst([t] + first, rest, s);
    OverFirst(first, rest, s);
  }

  lemma SingleBurst(t: nat, s: nat)
    ensures OncePerBurst([[t]]) == [t + DEBOUNCE]
    ensures OncePerBurst(OverBy([[t]], s)) == if t + DEBOUNCE <= s then [t + DEBOUNCE] else []
  {
    var none: seq<seq<nat>> := [];
    OverFirst([t], none, s);
    assert [[t]] + none == [[t]];
  }

  /** While nothing stops it, the watcher fires exactly once per maximal burst. */
  lemma {:induction false} FiresOncePerBurst(t: nat, times: seq<nat>)
    ensures Settling(Changes(times), t, None, None) == OncePerBurst(Bursts([t] + times))
    decreases |times|
  {
    if times == [] {
      SingleBurst(t, 0);
      assert Idle([], None, None) == [];
    } else {
      FiresOncePerBurst(times[0], times[1..]);
      assert [times[0]] + times[1..] == times;
      assert Changes(times)[1..] == Changes(times[1..]);
      if times[0] < t + DEBOUNCE {
        FirstGrows(t, Bursts(times), 0);
      } else {
        assert Idle(Changes(times), None, None) == Settling(Changes(times[1..]), times[0], None, None);
      }
    }
  }

  lemma WatcherFiresOncePerBurst(times: seq<nat>)
    ensures Idle(Changes(times), None, None) == OncePerBurst(Bursts(times))
  {
    if times != [] {
      FiresOncePerBurst(times[0], times[1..]);
      assert [times[0]] + times[1..] == times;
      assert Changes(times)[1..] == Changes(times[1..]);
    }
  }

  // ---------------------------------------------------------------------------
  // Stopping
  // ---------------------------------------------------------------------------

  /** When the watcher notices that it is to stop: at the first change inside a burst that finds the flag
      raised, or else when it consumes `Stop`. */
  function Noticed(t: nat, times: seq<nat>, s: nat, stopAt: nat): (at: nat)
    decreases |times|
  {
    if times == [] then s
    else if times[0] < t + DEBOUNCE && stopAt <= times[0] then times[0]
    else Noticed(times[0], times[1..], s, stopAt)
  }

  lemma {:induction false} NoneOver(t: nat, times: seq<nat>, s: nat)
    requires Increasing([t] + times) && s < t + DEBOUNCE
    ensures OncePerBurst(OverBy(Bursts([t] + times), s)) == []
    decreases |times|
  {
    if times == [] {
      SingleBurst(t, s);
    } else {
      assert ([t] + times)[1..] == times && times == [times[0]] + times[1..];
      NoneOver(times[0], times[1..], s);
      if times[0] < t + DEBOUNCE {
        FirstGrows(t, Bursts(times), s);
      } else {
        OverFirst([t], Bursts(times), s);
      }
    }
  }

  lemma {:induction false} NoticedInOrder(t: nat, times: seq<nat>, s: nat, stopAt: nat)
    requires Increasing([t] + times) && Last([t] + times) <= s
    ensures t <= Noticed(t, times, s, stopAt) <= s
    decreases |times|
  {
    if times != [] {
      assert ([t] + times)[1..] == times && times == [times[0]] + times[1..];
      NoticedInOrder(times[0], times[1..], s, stopAt);
    }
  }

  lemma StopNext(t: nat, s: nat, more: seq<Event>, stopAt: nat, closes: Option<nat>)
    ensures Settling([Event(s, Stop)] + more, t, Some(stopAt), closes) == OncePerBurst(OverBy(Bursts([t] + []), s))
  {
    assert [t] + [] == [t];
    SingleBurst(t, s);
    assert Idle([Event(s, Stop)] + more, Some(stopAt), closes) == [];
  }

  lemma NextChange(t: nat, at: nat, rest: seq<Event>, stopAt: nat, closes: Option<nat>)
    ensures Settling([Event(at, Changed)] + rest, t, Some(stopAt), closes)
         == if at < t + DEBOUNCE then (if stopAt <= at then [] else Settling(rest, at, Some(stopAt), closes))
            else [t + DEBOUNCE] + Settling(rest, at, Some(stopAt), closes)
  {
    var events := [Event(at, Changed)] + rest;
    assert events[1..] == rest;
    assert Idle(events, Some(stopAt), closes) == Settling(rest, at, Some(stopAt), closes);
  }

  /** Whenever the flag was raised, the watcher fires once per burst that was over when it noticed, and never
      after, whatever is still queued. */
  lemma {:induction false} StopEndsFiring(
    t: nat, times: seq<nat>, s: nat, stopAt: nat, more: seq<Event>, closes: Option<nat>)
    requires Increasing([t] + times) && Last([t] + times) <= s
    ensures Settling(Changes(times) + ([Event(s, Stop)] + more), t, Some(stopAt), closes)
         == OncePerBurst(OverBy(Bursts([t] + times), Noticed(t, times, s, stopAt)))
    decreases |times|
  {
    var tail := [Event(s, Stop)] + more;
    var events := Changes(times) + tail;
    if times == [] {
      assert events == tail;
      StopNext(t, s, more, stopAt, closes);
    } else {
      assert events == [Event(times[0], Changed)] + (Changes(times[1..]) + tail);
      NextChange(t, times[0], Changes(times[1..]) + tail, stopAt, closes);
      if times[0] < t + DEBOUNCE && stopAt <= times[0] {
        NoneOver(t, times, times[0]);
      } else {
        assert ([t] + times)[1..] == times && times == [times[0]] + times[1..];
        StopEndsFiring(times[0], times[1..], s, stopAt, more, closes);
        NextBurst(t, times, Noticed(t, times, s, stopAt), s, stopAt);
      }
    }
  }

  /** The bursts over by a time at or after the next change, with and without the first change. */
  lemma NextBurst(t: nat, times: seq<nat>, at: nat, s: nat, stopAt: nat)
    requires times != [] && Increasing([t] + times) && Last([t] + times) <= s
    requires at == Noticed(times[0], times[1..], s, stopAt)
    ensures OncePerBurst(OverBy(Bursts([t] + times), at))
         == (if times[0] < t + DEBOUNCE then [] else [t + DEBOUNCE]) + OncePerBurst(OverBy(Bursts(times), at))
  {
    assert ([t] + times)[1..] == times && times == [times[0]] + times[1..];
    NoticedInOrder(times[0], times[1..], s, stopAt);
    if times[0] < t + DEBOUNCE {
      FirstGrows(t, Bursts(times), at);
      assert [] + OncePerBurst(OverBy(Bursts(times), at)) == OncePerBurst(OverBy(Bursts(times), at));
    } else {
      OverFirst([t], Bursts(times), at);
    }
  }

  // ---------------------------------------------------------------------------
  // The watched directory
  // ---------------------------------------------------------------------------

  datatype WatchResult = Watched | PathNotFound | Failed

  /** The directory in use and the directories the system watches. */
  class WatchState {
    var current: Option<string>
    var watched: set<string>

    /** Exactly the current directory is watched. */
    ghost predicate Valid()
      reads this
    {
      watched == if current.Some? then {current.value} else {}
    }

    constructor (path: string)
      ensures Valid() && current == Some(path)
    {
      current := Some(path);
      watched := {path};
    }

    /** Switches the watched directory; a directory that is gone leaves nothing watched, any other failure
        leaves things as they were. */
    method SetPath(path: string, result: WatchResult) returns (ok: bool)
      requires Valid()
      modifies this
      ensures Valid()
      ensures current == if old(current) == Some(path) || result == Watched then Some(path)
                         else if result == PathNotFound then None else old(current)
      ensures !ok <==> old(current) != Some(path) && result == Failed
    {
      if current == Some(path) {
        return true;
      }
      match result
      case Watched =>
        var before := current;
        watched := watched + {path};
        current := Some(path);
        if before.Some? {
          watched := watched - {before.value};
        }
        return true;
      case PathNotFound =>
        var before := current;
        current := None;
        if before.Some? {
          watched := watched - {before.value};
        }
        return true;
      case Failed =>
        return false;
    }
  }
}
