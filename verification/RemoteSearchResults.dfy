/** `search_remote_recursive` of `remote.rs` as a whole, and what its results are in terms of the server's listings:
    which directories it goes through, and which entries it reports under which names. */
module RemoteSearchResults {
  import opened Text
  import opened RemotePaths
  import opened TreeWalk
  import opened RemoteSearch
  import opened RemoteSearchNames

  // ---------------------------------------------------------------------------
  // Ways and matches
  // ---------------------------------------------------------------------------

  predicate Shown(q: Query, name: string) {
    name != "" && name != "." && name != ".." && (q.includeHidden || name[0] != '.')
  }

  /** A directory proper, not a link to one. */
  predicate Entered(q: Query, e: FileInfo) {
    Shown(q, e.name) && e.isDir && e.mode & 0xA000 != 0xA000
  }

  predicate Reported(q: Query, e: FileInfo) {
    Shown(q, e.name) && q.matches(e.name)
  }

  /** From the base down. */
  function PathTo(q: Query, names: seq<string>): (path: string)
    decreases |names|
  {
    if names == [] then q.Base() else Head(PathTo(q, names[..|names| - 1])) + names[|names| - 1]
  }

  ghost predicate Lists(q: Query, dir: string, e: FileInfo) {
    q.list(dir).Some? && e in q.list(dir).value
  }

  /** Below the depth cap, each name is listed, in the directory before it, as a directory to enter. */
  ghost predicate Way(q: Query, names: seq<string>)
    decreases |names|
  {
    names == [] || (
      var init, last := names[..|names| - 1], names[|names| - 1];
      |names| < q.maxDepth && Way(q, init) && OnWay(q, init, last))
  }

  ghost predicate OnWay(q: Query, init: seq<string>, last: string) {
    exists e :: Lists(q, PathTo(q, init), e) && Entered(q, e) && e.name == last
  }

  ghost predicate HasWay(q: Query, dir: string) {
    exists names :: Way(q, names) && dir == PathTo(q, names)
  }

  /** A matching entry of a directory with a way to it, and its names from the base on. */
  ghost predicate Matched(q: Query, hit: string) {
    exists names, e {:trigger Way(q, names), Reported(q, e)} ::
      Way(q, names) && Lists(q, PathTo(q, names), e) && Reported(q, e) && hit == Join("/", names + [e.name])
  }

  /** The names of the matching entries of one listing, in its order. */
  function ReportedNames(q: Query, es: seq<FileInfo>): (names: seq<string>) {
    if es == [] then []
    else (if Reported(q, es[0]) then [es[0].name] else []) + ReportedNames(q, es[1..])
  }

  // ---------------------------------------------------------------------------
  // Paths of names
  // ---------------------------------------------------------------------------

  lemma {:induction false} JoinLast(names: seq<string>, name: string)
    requires names != []
    ensures Join("/", names + [name]) == Join("/", names) + "/" + name
  {
    assert (names + [name])[1..] == names[1..] + [name];
    if |names| == 1 {
      assert names[1..] + [name] == [name];
    } else {
      JoinLast(names[1..], name);
      var x, y := names[0], Join("/", names[1..]);
      assert x + "/" + (y + "/" + name) == (x + "/" + y) + "/" + name;
    }
  }

  lemma OneMore(q: Query, names: seq<string>, name: string)
    requires NormalForm(PathTo(q, names))
    ensures PathTo(q, names + [name]) == JoinPath(PathTo(q, names), name)
  {
    assert (names + [name])[..|names|] == names;
  }

  /** Entries on a way have plain names, so its paths are what the search makes of them. */
  lemma {:induction false} WayIsNormal(q: Query, names: seq<string>)
    requires PlainServer(q) && Way(q, names)
    ensures NormalForm(PathTo(q, names)) && Head(q.Base()) <= Head(PathTo(q, names))
    decreases |names|
  {
    if names == [] {
      NormalizeMakesNormal(q.base);
    } else {
      WayIsNormal(q, names[..|names| - 1]);
      PlainLast(q, names[..|names| - 1], names[|names| - 1]);
      OneBelow(PathTo(q, names[..|names| - 1]), names[|names| - 1]);
    }
  }

  lemma OneBelow(dir: string, name: string)
    requires NormalForm(dir) && PlainName(name)
    ensures JoinPath(dir, name) == Head(dir) + name && NormalForm(Head(dir) + name)
    ensures Head(dir) <= Head(Head(dir) + name) && Head(dir) + name != "/"
  {
    JoinIsNormal(dir, name);
  }

  /** Behind the base, a path is its names with slashes between them. */
  lemma {:induction false} PathIsJoined(q: Query, names: seq<string>)
    requires PlainServer(q) && Way(q, names) && names != []
    ensures PathTo(q, names) == Head(q.Base()) + Join("/", names)
    decreases |names|
  {
    var init, last := names[..|names| - 1], names[|names| - 1];
    assert names == init + [last];
    if init == [] {
      assert names == [last];
    } else {
      PathIsJoined(q, init);
      JoinLast(init, last);
      NotRoot(q, init);
      LastSlash(Head(q.Base()), Join("/", init), last);
    }
  }

  lemma LastSlash(head: string, init: string, last: string)
    ensures (head + init) + "/" + last == head + (init + "/" + last)
  {
  }

  lemma NotRoot(q: Query, names: seq<string>)
    requires PlainServer(q) && Way(q, names) && names != []
    ensures PathTo(q, names) != "/"
  {
    WayIsNormal(q, names[..|names| - 1]);
    PlainLast(q, names[..|names| - 1], names[|names| - 1]);
    OneBelow(PathTo(q, names[..|names| - 1]), names[|names| - 1]);
  }

  lemma PlainLast(q: Query, init: seq<string>, last: string)
    requires PlainServer(q) && OnWay(q, init, last)
    ensures PlainName(last)
  {
    var e :| Lists(q, PathTo(q, init), e) && Entered(q, e) && e.name == last;
    assert q.Visible(e);
  }

  // ---------------------------------------------------------------------------
  // One listing
  // ---------------------------------------------------------------------------

  lemma FirstSubdir(q: Query, dir: string, e: FileInfo, d: string)
    requires NormalForm(dir) && (q.Visible(e) ==> PlainName(e.name))
    ensures d in OptionSeq(EffectOf(q, dir, e).subdir) <==> Entered(q, e) && d == JoinPath(dir, e.name)
  {
    if q.Visible(e) {
      JoinIsNormal(dir, e.name);
    }
  }

  ghost predicate SomeEntered(q: Query, dir: string, es: seq<FileInfo>, d: string) {
    exists e :: e in es && Entered(q, e) && d == JoinPath(dir, e.name)
  }

  lemma {:induction false} SubdirsAre(q: Query, dir: string, es: seq<FileInfo>, d: string)
    requires NormalForm(dir) && PlainListing(q, es)
    ensures d in Subdirs(Effects(q, dir, es)) <==> SomeEntered(q, dir, es, d)
  {
    if es != [] {
      SubdirsAre(q, dir, es[1..], d);
      assert es[0] in es;
      FirstSubdir(q, dir, es[0], d);
      if SomeEntered(q, dir, es, d) {
        var e :| e in es && Entered(q, e) && d == JoinPath(dir, e.name);
        assert e == es[0] || e in es[1..];
      }
    }
  }

  lemma FirstHit(q: Query, dir: string, e: FileInfo, h: string)
    requires NormalForm(dir) && (q.Visible(e) ==> PlainName(e.name))
    ensures h in OptionSeq(EffectOf(q, dir, e).hit) <==>
            Reported(q, e) && h == Relative(q.Base(), JoinPath(dir, e.name), e.name)
  {
    if q.Visible(e) {
      JoinIsNormal(dir, e.name);
    }
  }

  ghost predicate SomeReported(q: Query, dir: string, es: seq<FileInfo>, h: string) {
    exists e :: e in es && Reported(q, e) && h == Relative(q.Base(), JoinPath(dir, e.name), e.name)
  }

  lemma {:induction false} HitsAre(q: Query, dir: string, es: seq<FileInfo>, h: string)
    requires PlainListing(q, es) && NormalForm(dir)
    ensures h in Hits(Effects(q, dir, es)) <==> SomeReported(q, dir, es, h)
  {
    if es != [] {
      HitsAre(q, dir, es[1..], h);
      assert es[0] in es;
      FirstHit(q, dir, es[0], h);
      if SomeReported(q, dir, es, h) {
        var e :| e in es && Reported(q, e) && h == Relative(q.Base(), JoinPath(dir, e.name), e.name);
        assert e == es[0] || e in es[1..];
      }
    }
  }

  lemma CancelHead(h: string, a: string, b: string)
    requires h + a == h + b
    ensures a == b
  {
    assert a == (h + a)[|h|..] && b == (h + b)[|h|..];
  }

  /** The name a hit is reported under. */
  lemma RelativeIsNames(q: Query, names: seq<string>, name: string)
    requires PlainServer(q) && Way(q, names) && PlainName(name)
    ensures Relative(q.Base(), JoinPath(PathTo(q, names), name), name) == Join("/", names + [name])
  {
    var r := Relative(q.Base(), JoinPath(PathTo(q, names), name), name);
    WayIsNormal(q, names);
    RelativeIsSuffix(q, PathTo(q, names), name);
    OneBelow(PathTo(q, names), name);
    if names == [] {
      assert names + [name] == [name];
    } else {
      NotRoot(q, names);
      PathIsJoined(q, names);
      JoinLast(names, name);
      LastSlash(Head(q.Base()), Join("/", names), name);
    }
    CancelHead(Head(q.Base()), r, Join("/", names + [name]));
  }

  // ---------------------------------------------------------------------------
  // Ways and chains
  // ---------------------------------------------------------------------------

  /** What a directory on a way queues is one name further. */
  lemma NextName(q: Query, names: seq<string>, next: string) returns (name: string)
    requires PlainServer(q) && Way(q, names) && |names| + 1 < q.maxDepth
    requires var listing := ProblemOf(q).expand(PathTo(q, names)); listing.Some? && next in Subdirs(listing.value)
    ensures Way(q, names + [name]) && PathTo(q, names + [name]) == next
  {
    var dir := PathTo(q, names);
    WayIsNormal(q, names);
    SubdirsAre(q, dir, q.list(dir).value, next);
    var e :| e in q.list(dir).value && Entered(q, e) && next == JoinPath(dir, e.name);
    OneMore(q, names, e.name);
    WayGoesOn(q, names, e);
    name := e.name;
  }

  lemma WayGoesOn(q: Query, names: seq<string>, e: FileInfo)
    requires Way(q, names) && |names| + 1 < q.maxDepth && Lists(q, PathTo(q, names), e) && Entered(q, e)
    ensures Way(q, names + [e.name])
  {
    assert (names + [e.name])[..|names|] == names;
  }

  lemma LastName(q: Query, init: seq<string>, last: string)
    requires PlainServer(q) && Way(q, init) && OnWay(q, init, last)
    ensures var listing := ProblemOf(q).expand(PathTo(q, init));
            listing.Some? && Head(PathTo(q, init)) + last in Subdirs(listing.value)
  {
    var dir := PathTo(q, init);
    var e :| Lists(q, dir, e) && Entered(q, e) && e.name == last;
    WayIsNormal(q, init);
    PlainLast(q, init, last);
    OneBelow(dir, last);
    SubdirsAre(q, dir, q.list(dir).value, JoinPath(dir, last));
  }

  /** A chain below a way spells a longer way. */
  lemma {:induction false} ChainIsWay(q: Query, p: Problem, names: seq<string>, chain: seq<string>, left: nat)
    returns (more: seq<string>)
    requires PlainServer(q) && Way(q, names) && p == ProblemOf(q) && left + |names| == p.Depth()
    requires Leads(p, PathTo(q, names), chain, left)
    ensures Way(q, more) && PathTo(q, more) == End(PathTo(q, names), chain)
    decreases |chain|
  {
    more := names;
    if chain != [] {
      FirstLink(p, PathTo(q, names), chain, left);
      var name := NextName(q, names, chain[0]);
      more := ChainIsWay(q, p, names + [name], chain[1..], left - 1);
    }
  }

  lemma FirstLink(p: Problem, dir: string, chain: seq<string>, left: nat)
    requires Leads(p, dir, chain, left) && chain != []
    ensures left > 1 && p.expand(dir).Some? && chain[0] in Subdirs(p.expand(dir).value)
    ensures Leads(p, chain[0], chain[1..], left - 1) && End(chain[0], chain[1..]) == End(dir, chain)
  {
  }

  lemma {:induction false} LeadsOn(p: Problem, dir: string, chain: seq<string>, left: nat, next: string)
    requires Leads(p, dir, chain, left) && left > |chain| + 1
    requires p.expand(End(dir, chain)).Some? && next in Subdirs(p.expand(End(dir, chain)).value)
    ensures Leads(p, dir, chain + [next], left)
    decreases |chain|
  {
    if chain == [] {
      assert [] + [next] == [next] && [next][1..] == [];
    } else {
      assert End(chain[0], chain[1..]) == End(dir, chain);
      LeadsOn(p, chain[0], chain[1..], left - 1, next);
      assert (chain + [next])[1..] == chain[1..] + [next];
    }
  }

  ghost predicate Reaches(p: Problem, start: string, chain: seq<string>, length: nat, end: string) {
    Leads(p, start, chain, p.Depth()) && |chain| == length && End(start, chain) == end
  }

  lemma {:induction false} WayIsChain(q: Query, p: Problem, names: seq<string>) returns (chain: seq<string>)
    requires PlainServer(q) && Way(q, names) && p == ProblemOf(q)
    ensures Reaches(p, q.Base(), chain, |names|, PathTo(q, names))
    decreases |names|
  {
    chain := [];
    if names != [] {
      var up := WayIsChain(q, p, names[..|names| - 1]);
      chain := OneFurther(q, p, names, up);
    }
  }

  lemma OneFurther(q: Query, p: Problem, names: seq<string>, up: seq<string>) returns (chain: seq<string>)
    requires PlainServer(q) && names != [] && Way(q, names) && p == ProblemOf(q)
    requires Reaches(p, q.Base(), up, |names| - 1, PathTo(q, names[..|names| - 1]))
    ensures Reaches(p, q.Base(), chain, |names|, PathTo(q, names))
  {
    LastName(q, names[..|names| - 1], names[|names| - 1]);
    LeadsOn(p, q.Base(), up, p.Depth(), PathTo(q, names));
    chain := up + [PathTo(q, names)];
  }

  // ---------------------------------------------------------------------------
  // What is gone through and what is found
  // ---------------------------------------------------------------------------

  /** On a server with plain names the directories listed are exactly those with a way to them: through entries that
      are directories and no links, shown, and above the depth cap. */
  lemma ListedExactly(q: Query, dir: string)
    requires PlainServer(q)
    ensures dir in WholeTree(ProblemOf(q)).dirs <==> HasWay(q, dir)
  {
    var p := ProblemOf(q);
    TreeIsWhatChainsReach(p, p.start, p.Depth(), false, dir);
    if dir in WholeTree(p).dirs {
      var chain :| Leads(p, p.start, chain, p.Depth()) && dir in Own(p, End(p.start, chain), false);
      var names := ChainIsWay(q, p, [], chain, p.Depth());
    }
    forall names | Way(q, names) && dir == PathTo(q, names)
      ensures dir in WholeTree(p).dirs
    {
      var chain := WayIsChain(q, p, names);
      assert dir in Own(p, End(p.start, chain), false);
    }
  }

  /** And the hits are exactly the shown and matching entries of those directories, by their names from the base on. */
  lemma FoundExactly(q: Query, hit: string)
    requires PlainServer(q)
    ensures hit in WholeTree(ProblemOf(q)).hits <==> Matched(q, hit)
  {
    var p := ProblemOf(q);
    TreeIsWhatChainsReach(p, p.start, p.Depth(), true, hit);
    if hit in WholeTree(p).hits {
      var chain :| Leads(p, p.start, chain, p.Depth()) && hit in Own(p, End(p.start, chain), true);
      var names := ChainIsWay(q, p, [], chain, p.Depth());
      OwnHits(q, names, hit);
    }
    if Matched(q, hit) {
      var names, e :| Way(q, names) && Lists(q, PathTo(q, names), e) && Reported(q, e)
                      && hit == Join("/", names + [e.name]);
      var chain := WayIsChain(q, p, names);
      OwnHits(q, names, hit);
      assert hit in Own(p, End(p.start, chain), true);
    }
  }

  lemma OwnHits(q: Query, names: seq<string>, hit: string)
    requires PlainServer(q) && Way(q, names)
    ensures hit in Own(ProblemOf(q), PathTo(q, names), true) <==>
            exists e :: Lists(q, PathTo(q, names), e) && Reported(q, e) && hit == Join("/", names + [e.name])
  {
    var dir := PathTo(q, names);
    if q.list(dir).Some? {
      WayIsNormal(q, names);
      HitsAre(q, dir, q.list(dir).value, hit);
      forall e | Lists(q, dir, e) && Reported(q, e)
        ensures Relative(q.Base(), JoinPath(dir, e.name), e.name) == Join("/", names + [e.name])
      {
        assert q.Visible(e);
        RelativeIsNames(q, names, e.name);
      }
    }
  }

  /** Without recursion: the names of the base's matching entries, in the order listed. */
  lemma {:induction false} FlatHits(q: Query, es: seq<FileInfo>)
    requires PlainServer(q) && PlainListing(q, es)
    ensures Hits(Effects(q, q.Base(), es)) == ReportedNames(q, es)
  {
    if es != [] {
      FlatHits(q, es[1..]);
      if q.Visible(es[0]) {
        NormalizeMakesNormal(q.base);
        JoinIsNormal(q.Base(), es[0].name);
        RelativeIsNames(q, [], es[0].name);
        assert [] + [es[0].name] == [es[0].name];
      }
    }
  }

  // ---------------------------------------------------------------------------
  // The search
  // ---------------------------------------------------------------------------

  datatype Outcome = Outcome(matches: seq<string>, truncated: bool, scanErrors: nat, canceled: bool)

  /** What a search may report at all, wherever it stops. */
  ghost predicate OnlyMatches(q: Query, recursive: bool, matches: seq<string>) {
    && Distinct(matches)
    && if recursive then forall hit :: hit in matches ==> Matched(q, hit)
       else q.list(q.Base()).Some? && matches <= ReportedNames(q, q.list(q.Base()).value)
  }

  /** What a search that nothing cut short reports. */
  ghost predicate AllMatches(q: Query, recursive: bool, matches: seq<string>) {
    if recursive then forall hit :: hit in matches <==> Matched(q, hit)
    else q.list(q.Base()).Some? && matches == ReportedNames(q, q.list(q.Base()).value)
  }

  /** The flag stays raised once it is. */
  ghost predicate StaysRaised(q: Query) {
    forall i, j :: 0 <= i <= j && q.cancelled(i) ==> q.cancelled(j)
  }

  lemma RepeatedCount(xs: seq<string>, i: nat, j: nat)
    requires i < j < |xs| && xs[i] == xs[j]
    ensures multiset(xs)[xs[i]] >= 2
  {
    assert xs == xs[..i] + [xs[i]] + xs[i + 1..j] + [xs[j]] + xs[j + 1..];
  }

  lemma DistinctPart(some: seq<string>, all: seq<string>)
    requires multiset(some) <= multiset(all) && Distinct(all)
    ensures Distinct(some) && forall x :: x in some ==> x in all
  {
    forall i, j | 0 <= i < |some| && i < j < |some| ensures some[i] != some[j] {
      if some[i] == some[j] {
        RepeatedCount(some, i, j);
        DistinctCount(all, some[i]);
      }
    }
    forall x | x in some ensures x in all {
      assert x in multiset(some);
    }
  }

  ghost predicate Unseen(q: Query, loads: nat) {
    forall n :: 0 <= n < loads ==> !q.cancelled(n)
  }

  /** The result stays within the cap; `canceled` is only set on a load that saw the flag. A flag that stays raised
      ends the search at the second load from the one that saw it, and is reported exactly when the search `stopped`
      with work left. */
  ghost predicate Heeds(q: Query, o: Outcome, loads: nat, stopped: bool) {
    && |o.matches| <= MAX_SEARCH_MATCHES && (o.truncated <==> |o.matches| == MAX_SEARCH_MATCHES)
    && (o.canceled ==> loads > 0 && q.cancelled(loads - 1))
    && (StaysRaised(q) ==>
          && (forall k :: 0 <= k < loads && q.cancelled(k) ==> loads <= k + 2)
          && (o.canceled <==> stopped && !Unseen(q, loads)))
  }

  /** On a server with plain names nothing else is reported, and everything when the search was not cut short. */
  ghost predicate Answers(q: Query, recursive: bool, o: Outcome, loads: nat) {
    PlainServer(q) ==>
      && OnlyMatches(q, recursive, o.matches)
      && (!o.truncated && Unseen(q, loads) ==> AllMatches(q, recursive, o.matches) && !o.canceled)
  }

  /** On any server in whose tree no directory has two paths. */
  ghost predicate Exact(q: Query, recursive: bool, o: Outcome, loads: nat) {
    !o.truncated && Unseen(q, loads) ==>
      if recursive then
        Distinct(WholeTree(ProblemOf(q)).dirs) ==>
          && multiset(o.matches) == multiset(WholeTree(ProblemOf(q)).hits)
          && o.scanErrors == Weigh(FailedOne(ProblemOf(q)), WholeTree(ProblemOf(q)).dirs) && !o.canceled
      else
        q.list(q.Base()).Some?
        && o == Outcome(Hits(Effects(q, q.Base(), q.list(q.Base()).value)), false, 0, false)
  }

  lemma RecursiveMatches(q: Query, matches: seq<string>)
    requires PlainServer(q) && multiset(matches) <= multiset(WholeTree(ProblemOf(q)).hits)
    ensures OnlyMatches(q, true, matches)
    ensures multiset(matches) == multiset(WholeTree(ProblemOf(q)).hits) ==> AllMatches(q, true, matches)
  {
    var hits := WholeTree(ProblemOf(q)).hits;
    OnePathEach(q);
    DistinctPart(matches, hits);
    forall hit ensures hit in hits <==> Matched(q, hit) {
      FoundExactly(q, hit);
    }
    if multiset(matches) == multiset(hits) {
      forall hit | hit in hits ensures hit in matches {
        assert hit in multiset(hits);
      }
    }
  }

  function Failing(q: Query): string -> nat {
    dir => if q.list(dir).None? then 1 else 0
  }

  /** The directories listed: none twice, each with a way to it, and all of these when the search was not cut short;
      the errors are the listings of them that failed. */
  ghost predicate Listings(q: Query, o: Outcome, dirs: seq<string>, loads: nat) {
    && Distinct(dirs) && o.scanErrors == Weigh(Failing(q), dirs)
    && (PlainServer(q) ==>
          && (forall dir :: dir in dirs ==> HasWay(q, dir))
          && (!o.truncated && Unseen(q, loads) ==> forall dir :: HasWay(q, dir) ==> dir in dirs))
  }

  lemma {:induction false} SameErrors(q: Query, dirs: seq<string>)
    ensures Weigh(Failing(q), dirs) == Weigh(FailedOne(ProblemOf(q)), dirs)
  {
    if dirs != [] {
      SameErrors(q, dirs[1..]);
    }
  }

  lemma ListedAreReached(q: Query, w: Walk)
    requires Delivers(ProblemOf(q), w)
    ensures Listings(q, Outcome(w.matches, w.truncated, w.scanErrors, w.canceled), w.visited, w.loads)
  {
    SameErrors(q, w.visited);
    if PlainServer(q) {
      OnePathEach(q);
      var all := WholeTree(ProblemOf(q)).dirs;
      forall dir ensures dir in all <==> HasWay(q, dir) {
        ListedExactly(q, dir);
      }
      forall dir ensures dir in w.visited <==> dir in multiset(w.visited)
                 ensures dir in all <==> dir in multiset(all)
      {
      }
    }
  }

  lemma RecursiveResult(q: Query, w: Walk)
    requires Delivers(ProblemOf(q), w)
    ensures var o := Outcome(w.matches, w.truncated, w.scanErrors, w.canceled);
            Heeds(q, o, w.loads, w.stopped) && Answers(q, true, o, w.loads) && Exact(q, true, o, w.loads)
  {
    RecursiveAnswers(q, w);
  }

  lemma RecursiveAnswers(q: Query, w: Walk)
    requires Delivers(ProblemOf(q), w)
    ensures Answers(q, true, Outcome(w.matches, w.truncated, w.scanErrors, w.canceled), w.loads)
  {
    if PlainServer(q) {
      OnePathEach(q);
      RecursiveMatches(q, w.matches);
    }
  }

  /** What the scan of the base's listing delivers without recursion. */
  lemma FlatResult(q: Query, es: seq<FileInfo>, s: Scan)
    requires q.list(q.Base()) == Some(es)
    requires s == ScanListing(q.cancelled, Effects(q, q.Base(), es), Scan([], false, [], 0))
    ensures var o := Outcome(s.matches, s.truncated, 0, false);
            Heeds(q, o, s.loads, false) && Answers(q, false, o, s.loads) && Exact(q, false, o, s.loads)
  {
    var fs, s0 := Effects(q, q.Base(), es), Scan([], false, [], 0);
    ScanKeepsCap(q.cancelled, fs, s0);
    ScanIsPrompt(q.cancelled, fs, s0);
    FlatIsWhole(q, fs, s);
    FlatAnswers(q, es, s);
  }

  lemma FlatIsWhole(q: Query, fs: seq<Effect>, s: Scan)
    requires s == ScanListing(q.cancelled, fs, Scan([], false, [], 0))
    ensures s.matches <= Hits(fs)
    ensures !s.truncated && Unseen(q, s.loads) ==> s.matches == Hits(fs)
  {
    var s0 := Scan([], false, [], 0);
    ScanTakesFront(q.cancelled, fs, s0);
    assert s.matches[|s0.matches|..] == s.matches;
    if !s.truncated && Unseen(q, s.loads) {
      ScanIsWhole(q.cancelled, fs, s0);
      assert [] + Hits(fs) == Hits(fs);
    }
  }

  lemma FlatAnswers(q: Query, es: seq<FileInfo>, s: Scan)
    requires q.list(q.Base()) == Some(es)
    requires s == ScanListing(q.cancelled, Effects(q, q.Base(), es), Scan([], false, [], 0))
    ensures Answers(q, false, Outcome(s.matches, s.truncated, 0, false), s.loads)
  {
    FlatIsWhole(q, Effects(q, q.Base(), es), s);
    if PlainServer(q) {
      FlatHits(q, es);
      NormalizeMakesNormal(q.base);
      ListingHitsDistinct(q, q.Base(), es);
    }
  }

  /** `search_remote_recursive`: with `recursive` off, one listing of the base. `loads` counts how
      often the cancel flag was read. */
  method SearchRemote(q: Query, recursive: bool) returns (r: Result<Outcome, ()>, loads: nat, ghost walk: Option<Walk>)
    ensures r.Err? <==> !recursive && q.list(q.Base()).None?
    ensures recursive <==> walk.Some?
    ensures recursive ==> Delivers(ProblemOf(q), walk.value) && loads == walk.value.loads
    ensures r.Ok? ==> |r.value.matches| <= 5000 && (r.value.truncated <==> |r.value.matches| == 5000)
    ensures r.Ok? && recursive ==> Listings(q, r.value, walk.value.visited, loads)
    ensures r.Ok? ==>
              && Heeds(q, r.value, loads, recursive && walk.value.stopped)
              && Answers(q, recursive, r.value, loads)
              && Exact(q, recursive, r.value, loads)
  {
    if recursive {
      var w := SearchRecursive(q);
      RecursiveResult(q, w);
      ListedAreReached(q, w);
      return Ok(Outcome(w.matches, w.truncated, w.scanErrors, w.canceled)), w.loads, Some(w);
    }
    var entries := q.list(q.Base());
    if entries.None? {
      return Err(()), 0, None;
    }
    var s := ProcessEntries(q, q.Base(), entries.value, [], false, 0);
    FlatResult(q, entries.value, s);
    return Ok(Outcome(s.matches, s.truncated, 0, false)), s.loads, None;
  }
}
