/** Recursive delete on a tree with symbolic links: exactly when it changes nothing outside what it was asked to
    delete, and exactly when it succeeds, whatever order the server lists directories in. */
module RemoteDeleteLinks {
  import opened RemoteTree
  import opened RemoteDelete

  ghost predicate NeverFails(env: Env) {
    forall k :: !env.fails(k)
  }

  function Quiet(listing: Listing, limit: nat): (env: Env) {
    Env(listing, (k: nat) => false, limit)
  }

  // ---------------------------------------------------------------------------
  // Nothing outside changes
  // ---------------------------------------------------------------------------

  function Roots(parent: Path, names: set<string>): (roots: set<Path>) {
    set n | n in names :: Child(parent, n)
  }

  /** A name at or below the named entries stands for something outside of them that can be removed: the way to
      it leads through a link to a directory. */
  ghost predicate Escapes(limit: nat, skip: bool, nodes: Nodes, parent: Path, names: set<string>) {
    exists n, p :: n in names && |p| <= limit && CanGo(skip, nodes, Child(parent, n), p)
                   && !AtNames(Reach(nodes, parent), names, Locate(nodes, p))
  }

  /** A directory of nothing but links that dangle, or will once the entries `names` of `d` are gone. */
  ghost predicate HangsOn(nodes: Nodes, d: Path, names: set<string>, t: Path) {
    IsDir(nodes, t) && forall r :: r in nodes && t < r ==> Hangs(nodes, d, names, r)
  }

  predicate Hangs(nodes: Nodes, d: Path, names: set<string>, r: Path) {
    r in nodes && nodes[r].Link? && (nodes[r].target in nodes ==> AtNames(d, names, nodes[r].target))
  }

  /** Like `CanGo`, but for an entry of a directory that may yet become hollow. */
  ghost predicate CouldGo(skip: bool, nodes: Nodes, d: Path, names: set<string>, root: Path, p: Path) {
    && root <= p
    && (Loose(nodes, Locate(nodes, p))
        || (skip && root < p && Locate(nodes, p) in nodes && HangsOn(nodes, d, names, Reach(nodes, p[..|p| - 1]))))
  }

  ghost predicate MayEscape(limit: nat, skip: bool, nodes: Nodes, parent: Path, names: set<string>) {
    exists n, p :: n in names && |p| <= limit
                   && CouldGo(skip, nodes, Reach(nodes, parent), names, Child(parent, n), p)
                   && !AtNames(Reach(nodes, parent), names, Locate(nodes, p))
  }

  /** No link outside the named entries leads into them. */
  ghost predicate NoReturn(nodes: Nodes, d: Path, names: set<string>) {
    forall l :: l in nodes && nodes[l].Link? && nodes[l].target in nodes && AtNames(d, names, nodes[l].target) ==>
                  AtNames(d, names, l)
  }

  ghost predicate OutsideKept(before: Nodes, after: Nodes, d: Path, names: set<string>) {
    forall q :: q in before && !AtNames(d, names, q) ==> q in after && after[q] == before[q]
  }

  /** As long as names lead below an entry, its parent name leads to the same directory. */
  lemma ParentStays(part: Nodes, whole: Nodes, parent: Path, n: string, p: Path)
    requires WellFormed(part) && Subset(part, whole) && Child(parent, n) <= p && Locate(part, p) in part
    ensures Reach(part, parent) == Reach(whole, parent) && Child(Reach(whole, parent), n) in part
    ensures IsDir(part, Reach(whole, parent))
  {
    WayExists(part, p, Child(parent, n));
    LocateChild(part, parent, n);
    assert parent <= Child(parent, n) <= p;
    WayExists(part, p, parent);
    LocateUp(part, whole, parent);
  }

  /** What holds something below `d` holds every entry of `d`, or is below the same entry. */
  lemma AncestorHolds(q: Path, d: Path, n: string, x: Path)
    requires q < x && d < x
    ensures (q <= d && q < Child(d, n)) || (d < q && q[|d|] == x[|d|])
  {
    assert |q| <= |d| ==> q <= d;
    assert |q| > |d| ==> d < q;
  }

  /** A directory outside that holds an entry it is not below is not emptied by removing something inside. */
  lemma NotEmptied(nodes: Nodes, x: Path, d: Path, names: set<string>, n: string, q: Path)
    requires AtNames(d, names, x) && n in names && Child(d, n) in nodes - {x}
    requires IsEmptyDir(nodes - {x}, q) && !AtNames(d, names, q)
    ensures IsEmptyDir(nodes, q)
  {
    if r :| r in nodes && q < r {
      assert r == x by {
        assert r != x ==> r in nodes - {x};
      }
      AncestorHolds(q, d, n, x);
    }
  }

  /** A directory of hanging links is not on the way to the named entries: the entry the way goes through leads
      to a directory. */
  lemma HangingIsAside(nodes: Nodes, parent: Path, n: string, names: set<string>, p: Path)
    requires WellFormed(nodes) && Child(parent, n) < p && Locate(nodes, p) in nodes
    requires HangsOn(nodes, Reach(nodes, parent), names, Reach(nodes, p[..|p| - 1]))
    ensures !(Reach(nodes, p[..|p| - 1]) <= Reach(nodes, parent))
  {
    var d, t := Reach(nodes, parent), Reach(nodes, p[..|p| - 1]);
    if t <= d {
      ParentStays(nodes, nodes, parent, n, p);
      WayExists(nodes, p, Child(parent, n));
      LocateChild(nodes, parent, n);
      assert IsDir(nodes, d);
      NoEntryLeadsToAnother(nodes, d, names, n);
    }
  }

  /** Were all entries hanging links, one of them could not lead to something below another. */
  lemma NoEntryLeadsToAnother(nodes: Nodes, d: Path, names: set<string>, n: string)
    requires WellFormed(nodes) && HangsOn(nodes, d, names, d)
    ensures !IsDir(nodes, Resolve(nodes, Child(d, n)))
  {
    assert d < Child(d, n);
  }

  /** So what is inside is not in it. */
  lemma AsideHoldsNothingInside(t: Path, d: Path, names: set<string>, x: Path)
    requires AtNames(d, names, x) && t < x && !(t <= d)
    ensures AtNames(d, names, t)
  {
    AncestorHolds(t, d, x[|d|], x);
  }

  lemma EntryInside(d: Path, names: set<string>, t: Path, n: string)
    requires AtNames(d, names, t)
    ensures AtNames(d, names, Child(t, n))
  {
    assert Child(t, n)[|d|] == t[|d|];
  }

  /** What could go after something inside was removed could go before, or is inside: an outside directory that
      it emptied would hold the very entries it works on. */
  lemma CouldGoBefore(skip: bool, nodes: Nodes, x: Path, parent: Path, names: set<string>, n: string, p: Path)
    requires WellFormed(nodes) && WellFormed(nodes - {x}) && AtNames(Reach(nodes, parent), names, x) && n in names
    requires Reach(nodes - {x}, parent) == Reach(nodes, parent)
    requires CouldGo(skip, nodes - {x}, Reach(nodes, parent), names, Child(parent, n), p)
    requires !AtNames(Reach(nodes, parent), names, Locate(nodes - {x}, p))
    ensures Locate(nodes, p) == Locate(nodes - {x}, p)
    ensures CouldGo(skip, nodes, Reach(nodes, parent), names, Child(parent, n), p)
  {
    var rest, d, q := nodes - {x}, Reach(nodes, parent), Locate(nodes - {x}, p);
    ParentStays(rest, nodes, parent, n, p);
    LocateUp(rest, nodes, p);
    if Loose(rest, q) {
      if IsEmptyDir(rest, q) {
        NotEmptied(nodes, x, d, names, n, q);
      }
    } else {
      var up := p[..|p| - 1];
      HangingIsAside(rest, parent, n, names, p);
      WayExists(rest, p, up);
      LocateUp(rest, nodes, up);
      var t := Reach(rest, up);
      assert q == Child(t, p[|p| - 1]);
      forall r | r in nodes && t < r ensures Hangs(nodes, d, names, r) {
        if r == x {
          AsideHoldsNothingInside(t, d, names, x);
          EntryInside(d, names, t, p[|p| - 1]);
        } else {
          assert Hangs(rest, d, names, r);
        }
      }
    }
  }

  /** What is takeable is inside, unless something may escape. */
  lemma TakenInside(
    limit: nat, skip: bool, nodes: Nodes, parent: Path, names: set<string>, p: Path) returns (n: string)
    requires Takeable(limit, skip, Roots(parent, names), nodes, p)
    ensures n in names && CanGo(skip, nodes, Child(parent, n), p)
    ensures !MayEscape(limit, skip, nodes, parent, names) ==> AtNames(Reach(nodes, parent), names, Locate(nodes, p))
  {
    var root :| root in Roots(parent, names) && CanGo(skip, nodes, root, p);
    n :| n in names && root == Child(parent, n);
    assert CouldGo(skip, nodes, Reach(nodes, parent), names, Child(parent, n), p);
  }

  lemma {:induction false} StepsStayInside(
    limit: nat, skip: bool, nodes: Nodes, log: seq<Path>, after: Nodes, parent: Path, names: set<string>)
    requires WellFormed(nodes) && Steps(limit, skip, Roots(parent, names), nodes, log, after)
    requires !MayEscape(limit, skip, nodes, parent, names)
    ensures OutsideKept(nodes, after, Reach(nodes, parent), names)
  {
    if log != [] {
      var x := Locate(nodes, log[0]);
      var rest := nodes - {x};
      var _ := TakenInside(limit, skip, nodes, parent, names, log[0]);
      TakenGoes(limit, skip, Roots(parent, names), nodes, log[0]);
      if log[1..] == [] {
        assert after == rest;
      } else {
        var n := TakenInside(limit, skip, rest, parent, names, log[1]);
        ParentStays(rest, nodes, parent, n, log[1]);
        StillNoEscape(limit, skip, nodes, x, parent, names);
        StepsStayInside(limit, skip, rest, log[1..], after, parent, names);
      }
    }
  }

  lemma StillNoEscape(limit: nat, skip: bool, nodes: Nodes, x: Path, parent: Path, names: set<string>)
    requires WellFormed(nodes) && WellFormed(nodes - {x}) && AtNames(Reach(nodes, parent), names, x)
    requires Reach(nodes - {x}, parent) == Reach(nodes, parent)
    requires !MayEscape(limit, skip, nodes, parent, names)
    ensures !MayEscape(limit, skip, nodes - {x}, parent, names)
  {
    var d := Reach(nodes, parent);
    if n, p :| n in names && |p| <= limit && CouldGo(skip, nodes - {x}, d, names, Child(parent, n), p)
                && !AtNames(d, names, Locate(nodes - {x}, p)) {
      CouldGoBefore(skip, nodes, x, parent, names, n, p);
    }
  }

  /** Where no link leads back into the named entries, what may escape does: a hanging link hangs already. */
  lemma MayIsDoes(limit: nat, skip: bool, nodes: Nodes, parent: Path, names: set<string>)
    requires WellFormed(nodes) && (skip ==> NoReturn(nodes, Reach(nodes, parent), names))
    ensures MayEscape(limit, skip, nodes, parent, names) <==> Escapes(limit, skip, nodes, parent, names)
  {
    var d := Reach(nodes, parent);
    if n, p :| n in names && |p| <= limit && CouldGo(skip, nodes, d, names, Child(parent, n), p)
                && !AtNames(d, names, Locate(nodes, p)) {
      HangsAlready(skip, nodes, parent, names, n, p);
    }
    if n, p :| n in names && |p| <= limit && CanGo(skip, nodes, Child(parent, n), p)
                && !AtNames(d, names, Locate(nodes, p)) {
      assert CouldGo(skip, nodes, d, names, Child(parent, n), p);
    }
  }

  lemma HangsAlready(skip: bool, nodes: Nodes, parent: Path, names: set<string>, n: string, p: Path)
    requires WellFormed(nodes) && (skip ==> NoReturn(nodes, Reach(nodes, parent), names))
    requires CouldGo(skip, nodes, Reach(nodes, parent), names, Child(parent, n), p)
    requires !AtNames(Reach(nodes, parent), names, Locate(nodes, p))
    ensures CanGo(skip, nodes, Child(parent, n), p)
  {
    var d := Reach(nodes, parent);
    if !Loose(nodes, Locate(nodes, p)) {
      var t := Reach(nodes, p[..|p| - 1]);
      HangingIsAside(nodes, parent, n, names, p);
      forall r | r in nodes && t < r ensures Dangles(nodes, r) {
        assert Hangs(nodes, d, names, r);
        if AtNames(d, names, r) {
          AsideHoldsNothingInside(t, d, names, r);
          EntryInside(d, names, t, p[|p| - 1]);
        }
      }
    }
  }

  // ---------------------------------------------------------------------------
  // A server that lists a given way first
  // ---------------------------------------------------------------------------

  /** The listing with one name moved to the front. */
  function Front(es: seq<DirEntry>, n: string): (fs: seq<DirEntry>) {
    if es == [] then []
    else if es[0].name == n then es
    else
      var rest := Front(es[1..], n);
      if rest != [] && rest[0].name == n then [rest[0], es[0]] + rest[1..] else es
  }

  function Fronted(listing: Listing, road: Path): (l: Listing) {
    (nodes: Nodes, p: Path) => if p < road then Front(listing(nodes, p), road[|p|]) else listing(nodes, p)
  }

  /** On these nodes the way is listed first. */
  ghost predicate Fronts(fronted: Listing, listing: Listing, nodes: Nodes, road: Path) {
    forall r :: r < road ==> fronted(nodes, r) == Front(listing(nodes, r), road[|r|])
  }

  ghost predicate Leads(env: Env, listing: Listing, nodes: Nodes, road: Path) {
    Lawful(listing) && Lawful(env.listing) && Fronts(env.listing, listing, nodes, road)
  }

  lemma {:induction false} FrontPermutes(es: seq<DirEntry>, n: string)
    ensures multiset(Front(es, n)) == multiset(es)
  {
    if es != [] && es[0].name != n {
      var rest := Front(es[1..], n);
      FrontPermutes(es[1..], n);
      assert es == [es[0]] + es[1..];
      if rest != [] {
        assert rest == [rest[0]] + rest[1..];
      }
    }
  }

  lemma {:induction false} FrontIsFirst(es: seq<DirEntry>, n: string, i: nat)
    requires i < |es| && es[i].name == n
    ensures Front(es, n) != [] && Front(es, n)[0].name == n
  {
    if es[0].name != n {
      FrontIsFirst(es[1..], n, i - 1);
    }
  }

  /** Reordering keeps a listing one. */
  lemma PermutedEntries(nodes: Nodes, d: Path, es: seq<DirEntry>, fs: seq<DirEntry>)
    requires Entries(nodes, d, es) && multiset(fs) == multiset(es)
    ensures Entries(nodes, d, fs)
  {
    forall i | 0 <= i < |fs| ensures exists j :: 0 <= j < |es| && es[j] == fs[i] {
      assert fs[i] in multiset(es);
    }
    forall n | n in ChildNames(nodes, d) ensures exists i :: 0 <= i < |fs| && fs[i].name == n {
      var j :| 0 <= j < |es| && es[j].name == n;
      assert es[j] in multiset(fs);
    }
    forall i, j | 0 <= i < j < |fs| ensures fs[i].name != fs[j].name {
      NamesStayDistinct(es, fs, i, j);
    }
  }

  lemma NamesStayDistinct(es: seq<DirEntry>, fs: seq<DirEntry>, i: nat, j: nat)
    requires forall a, b :: 0 <= a < b < |es| ==> es[a].name != es[b].name
    requires multiset(fs) == multiset(es) && i < j < |fs|
    ensures fs[i].name != fs[j].name
  {
    assert fs[i] in multiset(es) && fs[j] in multiset(es);
    var a :| 0 <= a < |es| && es[a] == fs[i];
    var b :| 0 <= b < |es| && es[b] == fs[j];
    if fs[i].name == fs[j].name {
      assert a == b;
      var e := fs[i];
      TwiceIn(fs, i, j);
      OnceIn(es, a);
    }
  }

  lemma TwiceIn(fs: seq<DirEntry>, i: nat, j: nat)
    requires i < j < |fs| && fs[i] == fs[j]
    ensures multiset(fs)[fs[i]] >= 2
  {
    assert fs == fs[..i] + ([fs[i]] + (fs[i + 1..j] + ([fs[j]] + fs[j + 1..])));
  }

  lemma OnceIn(es: seq<DirEntry>, a: nat)
    requires a < |es| && forall i, j :: 0 <= i < j < |es| ==> es[i].name != es[j].name
    ensures multiset(es)[es[a]] == 1
  {
    var e, front, back := es[a], es[..a], es[a + 1..];
    assert es == front + ([e] + back);
    assert e !in multiset(front) by {
      assert forall i :: 0 <= i < |front| ==> front[i] == es[i];
    }
    assert e !in multiset(back) by {
      assert forall i :: 0 <= i < |back| ==> back[i] == es[a + 1 + i];
    }
  }

  lemma FrontedIsLawful(listing: Listing, road: Path)
    requires Lawful(listing)
    ensures Lawful(Fronted(listing, road))
  {
    forall nodes, p | WellFormed(nodes) && IsDir(nodes, Reach(nodes, p))
      ensures Entries(nodes, Reach(nodes, p), Fronted(listing, road)(nodes, p))
    {
      var es := listing(nodes, p);
      assert Entries(nodes, Reach(nodes, p), es);
      if p < road {
        FrontPermutes(es, road[|p|]);
        PermutedEntries(nodes, Reach(nodes, p), es, Front(es, road[|p|]));
      }
    }
  }

  /** The first thing this run removed is what the name stands for. */
  ghost predicate StartsWith(before: State, after: State, p: Path) {
    before.removed + [p] <= after.removed
  }

  lemma {:induction false} SweepAppends(env: Env, st: State, path: Path, es: seq<DirEntry>)
    ensures var after := SweepRun(env, st, path, es).st; st.removed <= after.removed && st.calls <= after.calls
    decreases |es|
  {
    if es != [] {
      if IsDots(es[0].name) {
        SweepAppends(env, st, path, es[1..]);
      } else {
        SweepAppends(env, RemoveFileAt(env, st, Child(path, es[0].name)).st, path, es[1..]);
      }
    }
  }

  lemma {:induction false} DrainAppends(env: Env, st: State, path: Path, es: seq<DirEntry>)
    ensures var after := DrainRun(env, st, path, es).st; st.removed <= after.removed && st.calls <= after.calls
    decreases |es|
  {
    if es != [] {
      if IsDots(es[0].name) || es[0].isDir {
        DrainAppends(env, st, path, es[1..]);
      } else {
        DrainAppends(env, RemoveFileAt(env, st, Child(path, es[0].name)).st, path, es[1..]);
      }
    }
  }

  lemma VisitAppends(env: Env, st: State, path: Path)
    ensures var after := VisitRun(env, st, path).st; st.removed <= after.removed && st.calls <= after.calls
  {
    DrainAppends(env, Tick(st), path, env.listing(st.nodes, path));
  }

  lemma {:induction false} ClimbAppends(env: Env, st: State, dirs: seq<Path>)
    ensures var after := ClimbRun(env, st, dirs).st; st.removed <= after.removed && st.calls <= after.calls
    decreases |dirs|
  {
    if dirs != [] {
      ClimbAppends(env, RmdirAt(env, st, dirs[|dirs| - 1]).st, dirs[..|dirs| - 1]);
    }
  }

  lemma {:induction false} DescendAppends(env: Env, st: State, level: seq<Path>, next: seq<Path>, dirs: seq<Path>,
                                          n: nat)
    requires TwoDepths(env, level, next, n)
    ensures var after := DescendRun(env, st, level, next, dirs, n).st;
            st.removed <= after.removed && st.calls <= after.calls
    decreases Room(env, n), |level|
  {
    if level != [] {
      var l := VisitRun(env, st, level[0]);
      VisitAppends(env, st, level[0]);
      if l.ok {
        DepthsAfter(env, st, level, next, n);
        DescendAppends(env, l.st, level[1..], next + l.subdirs, dirs + [level[0]], n);
      }
    } else if next != [] {
      DescendAppends(env, st, next, [], dirs, n + 1);
    } else {
      ClimbAppends(env, st, dirs);
    }
  }

  lemma RemoveDirAppends(env: Env, skip: bool, st: State, path: Path)
    ensures var after := RemoveDirAt(env, skip, st, path).st; st.removed <= after.removed && st.calls <= after.calls
  {
    var start := if Crowded(env, skip, st, path) then st.(descents := st.descents + 1) else st;
    DescendAppends(env, start, [path], [], [], |path|);
  }

  /** Entries none of which leads anywhere: all skipped. */
  lemma {:induction false} AllSkipped(env: Env, skip: bool, st: State, path: Path, es: seq<DirEntry>)
    requires |path| <= env.limit && NeverFails(env)
    requires forall i :: 0 <= i < |es| && !IsDots(es[i].name) ==>
                           skip && |path| < env.limit && Found(st.nodes, Child(path, es[i].name)).None?
    ensures var o := EntriesRun(env, skip, st, path, es);
            o.ok && o.st.nodes == st.nodes && o.st.removed == st.removed
    decreases |es|
  {
    if es != [] {
      if IsDots(es[0].name) {
        AllSkipped(env, skip, st, path, es[1..]);
      } else {
        var o := DeleteRun(env, skip, st, Child(path, es[0].name));
        assert o == Outcome(Tick(st), true);
        AllSkipped(env, skip, o.st, path, es[1..]);
      }
    }
  }

  /** What may be left in a directory is skipped on the way through it. */
  lemma LeavableIsSkipped(env: Env, skip: bool, st: State, path: Path)
    requires WellFormed(st.nodes) && Lawful(env.listing) && NeverFails(env) && |path| <= env.limit
    requires IsDir(st.nodes, Reach(st.nodes, path)) && Leavable(st.nodes, Reach(st.nodes, path), skip)
    requires |path| < env.limit || IsEmptyDir(st.nodes, Reach(st.nodes, path))
    ensures var o := EntriesRun(env, skip, st, path, env.listing(st.nodes, path));
            o.ok && o.st.nodes == st.nodes && o.st.removed == st.removed
  {
    var d, es := Reach(st.nodes, path), env.listing(st.nodes, path);
    assert Entries(st.nodes, d, es);
    forall i | 0 <= i < |es| && !IsDots(es[i].name)
      ensures skip && |path| < env.limit && Found(st.nodes, Child(path, es[i].name)).None?
    {
      assert d < Child(d, es[i].name);
      LocateChild(st.nodes, path, es[i].name);
    }
    AllSkipped(env, skip, st, path, es);
  }

  /** The road's own end: what is loose goes at once. */
  lemma LooseIsTaken(env: Env, skip: bool, st: State, p: Path)
    requires WellFormed(st.nodes) && Lawful(env.listing) && NeverFails(env)
    requires |p| <= env.limit && Loose(st.nodes, Locate(st.nodes, p))
    ensures StartsWith(st, DeleteRun(env, skip, st, p).st, p)
  {
    var q := Locate(st.nodes, p);
    if IsDir(st.nodes, q) {
      var es := env.listing(st.nodes, p);
      var st1 := Tick(Tick(st));
      LeavableIsSkipped(env, skip, st1, p);
      var mid := EntriesRun(env, skip, st1, p, es).st;
      assert Entries(st.nodes, q, es);
      assert IsEmptyDir(mid.nodes, q);
      EmptyIsSwept(env, Tick(mid), p, es);
      RemoveDirOfLeavable(env, skip, mid, p);
      assert RemoveDirAt(env, skip, mid, p) == RmdirAt(env, Tick(mid), p);
    }
  }

  lemma {:induction false} EmptyIsSwept(env: Env, st: State, path: Path, es: seq<DirEntry>)
    requires IsEmptyDir(st.nodes, Reach(st.nodes, path))
    requires forall i :: 0 <= i < |es| && !IsDots(es[i].name) ==> Child(Reach(st.nodes, path), es[i].name) in st.nodes
    ensures SweepRun(env, st, path, es) == Outcome(st, true)
    decreases |es|
  {
    if es != [] {
      var d := Reach(st.nodes, path);
      assert d < Child(d, es[0].name);
      EmptyIsSwept(env, st, path, es[1..]);
    }
  }

  /** The entries of a hollow directory go when it is asked to be removed, in the order they are listed. */
  lemma HollowIsSwept(env: Env, skip: bool, st: State, path: Path)
    requires WellFormed(st.nodes) && Lawful(env.listing) && NeverFails(env)
    requires skip && |path| < env.limit && Hollow(st.nodes, Reach(st.nodes, path))
    requires var es := env.listing(st.nodes, path); es != [] && !IsDots(es[0].name)
    ensures StartsWith(st, DeleteRun(env, skip, st, path).st, Child(path, env.listing(st.nodes, path)[0].name))
  {
    var d, es := Reach(st.nodes, path), env.listing(st.nodes, path);
    var st1 := Tick(Tick(st));
    assert Entries(st.nodes, d, es);
    LeavableIsSkipped(env, skip, st1, path);
    var mid := EntriesRun(env, skip, st1, path, es).st;
    assert DeleteRun(env, skip, st, path) == RemoveDirAt(env, skip, mid, path);
    RemoveDirOfLeavable(env, skip, mid, path);
    FirstIsSwept(env, Tick(mid), path, es);
  }

  lemma FirstIsSwept(env: Env, st: State, path: Path, es: seq<DirEntry>)
    requires WellFormed(st.nodes) && NeverFails(env) && |path| < env.limit && es != [] && !IsDots(es[0].name)
    requires Dangles(st.nodes, Child(Reach(st.nodes, path), es[0].name))
    ensures StartsWith(st, SweepRun(env, st, path, es).st, Child(path, es[0].name))
  {
    LocateChild(st.nodes, path, es[0].name);
    var o := RemoveFileAt(env, st, Child(path, es[0].name));
    assert o.ok;
    SweepAppends(env, o.st, path, es[1..]);
  }

  /** The next entry on the way is listed first. */
  lemma EntryInFront(env: Env, listing: Listing, nodes: Nodes, path: Path, p: Path)
    requires WellFormed(nodes) && Leads(env, listing, nodes, p) && path < p
    requires IsDir(nodes, Reach(nodes, path)) && Child(Reach(nodes, path), p[|path|]) in nodes
    ensures var es := env.listing(nodes, path); es != [] && es[0].name == p[|path|] && !IsDots(es[0].name)
  {
    var n, es := p[|path|], listing(nodes, path);
    assert Entries(nodes, Reach(nodes, path), es);
    ChildNamesAreNodes(nodes, Reach(nodes, path), n);
    var i :| 0 <= i < |es| && es[i].name == n;
    FrontIsFirst(es, n, i);
  }

  /** A fault-free run on a server that lists the way to something that can go first takes that first. */
  lemma {:induction false} FirstTaken(env: Env, listing: Listing, skip: bool, st: State, path: Path, p: Path)
    requires WellFormed(st.nodes) && Leads(env, listing, st.nodes, p) && NeverFails(env)
    requires |p| <= env.limit && CanGo(skip, st.nodes, path, p)
    ensures StartsWith(st, DeleteRun(env, skip, st, path).st, p)
    decreases |p| - |path|
  {
    if path == p {
      LooseIsTaken(env, skip, st, p);
    } else {
      var n := p[|path|];
      WayToEntry(st.nodes, path, p);
      EntryInFront(env, listing, st.nodes, path, p);
      if !Loose(st.nodes, Locate(st.nodes, p)) && Child(path, n) == p {
        assert p[..|p| - 1] == path;
        HollowIsSwept(env, skip, st, path);
      } else {
        var st1 := Tick(Tick(st));
        assert Child(path, n) < p || Child(path, n) == p;
        FirstTaken(env, listing, skip, st1, Child(path, n), p);
        OnlyMoreEntries(env, skip, st1, path, env.listing(st.nodes, path), p);
        assert DeleteRun(env, skip, st, path) == DirectoryRun(env, skip, Tick(st), path);
      }
    }
  }

  lemma WayToEntry(nodes: Nodes, path: Path, p: Path)
    requires WellFormed(nodes) && path < p && Locate(nodes, p) in nodes
    ensures IsDir(nodes, Reach(nodes, path)) && Child(path, p[|path|]) <= p
    ensures Child(Reach(nodes, path), p[|path|]) in nodes
  {
    ExtendsByName(path, p[|path|], p);
    WayExists(nodes, p, path);
    WayExists(nodes, p, Child(path, p[|path|]));
    LocateChild(nodes, path, p[|path|]);
  }

  /** What the first entry removed first stays the first removal of the directory's run. */
  lemma OnlyMoreEntries(env: Env, skip: bool, st: State, path: Path, es: seq<DirEntry>, p: Path)
    requires WellFormed(st.nodes) && Lawful(env.listing)
    requires |path| <= env.limit && es != [] && !IsDots(es[0].name)
    requires StartsWith(st, DeleteRun(env, skip, st, Child(path, es[0].name)).st, p)
    ensures StartsWith(st, EntriesRun(env, skip, st, path, es).st, p)
    ensures var o := EntriesRun(env, skip, st, path, es);
            o.ok ==> StartsWith(st, RemoveDirAt(env, skip, o.st, path).st, p)
  {
    var child := Child(path, es[0].name);
    var kid := DeleteRun(env, skip, st, child);
    if kid.ok {
      var log := DeleteRan(env, skip, st, child);
      StepsFacts(env.limit, skip, {child}, st.nodes, log, kid.st.nodes);
      var more := EntriesRan(env, skip, kid.st, path, es[1..]);
      var o := EntriesRun(env, skip, st, path, es);
      assert o.st.removed == kid.st.removed + more;
      RemoveDirAppends(env, skip, o.st, path);
    }
  }

  // ---------------------------------------------------------------------------
  // Exactly when nothing outside changes
  // ---------------------------------------------------------------------------

  function NameSet(names: seq<string>): (s: set<string>) {
    set n | n in names
  }

  /** The removals of a whole batch. */
  lemma {:induction false} BatchRan(env: Env, skip: bool, st: State, parent: Path, names: seq<string>)
    returns (log: seq<Path>)
    requires WellFormed(st.nodes) && Lawful(env.listing)
    ensures var after := DeleteAll(env, skip, st, parent, names).st;
            && Steps(env.limit, skip, Roots(parent, NameSet(names)), st.nodes, log, after.nodes)
            && after.calls >= st.calls && after.descents == st.descents
            && WellFormed(after.nodes) && Subset(after.nodes, st.nodes) && LinksKept(st.nodes, after.nodes)
  {
    log := [];
    if names != [] {
      var init, path := names[..|names| - 1], Child(parent, names[|names| - 1]);
      var mid := DeleteAll(env, skip, st, parent, init).st;
      var log1 := BatchRan(env, skip, st, parent, init);
      var log2 := DeleteRan(env, skip, mid, path);
      var after := DeleteRun(env, skip, mid, path).st.nodes;
      BatchSteps(env.limit, skip, parent, names, st.nodes, log1, mid.nodes, log2, after);
      log := log1 + log2;
      StepsFacts(env.limit, skip, Roots(parent, NameSet(names)), st.nodes, log, after);
    }
  }

  lemma BatchSteps(limit: nat, skip: bool, parent: Path, names: seq<string>, a: Nodes, log1: seq<Path>, b: Nodes,
                   log2: seq<Path>, c: Nodes)
    requires names != [] && Steps(limit, skip, Roots(parent, NameSet(names[..|names| - 1])), a, log1, b)
    requires Steps(limit, skip, {Child(parent, names[|names| - 1])}, b, log2, c)
    ensures Steps(limit, skip, Roots(parent, NameSet(names)), a, log1 + log2, c)
  {
    var roots, narrow := Roots(parent, NameSet(names)), Roots(parent, NameSet(names[..|names| - 1]));
    assert forall r :: r in narrow ==> r in roots && r <= r;
    StepsWiden(limit, skip, narrow, roots, a, log1, b);
    var last := Child(parent, names[|names| - 1]);
    assert last in roots && last <= last;
    StepsWiden(limit, skip, {last}, roots, b, log2, c);
    StepsConcat(limit, skip, roots, a, log1, b, log2, c);
  }

  /** Unless something may escape, a batch leaves everything outside the named entries alone, whatever fails. */
  lemma BatchStaysInside(env: Env, skip: bool, st: State, parent: Path, names: seq<string>)
    requires WellFormed(st.nodes) && Lawful(env.listing)
    requires !MayEscape(env.limit, skip, st.nodes, parent, NameSet(names))
    ensures OutsideKept(st.nodes, DeleteAll(env, skip, st, parent, names).st.nodes, Reach(st.nodes, parent),
                        NameSet(names))
  {
    var log := BatchRan(env, skip, st, parent, names);
    var after := DeleteAll(env, skip, st, parent, names).st.nodes;
    StepsStayInside(env.limit, skip, st.nodes, log, after, parent, NameSet(names));
  }

  /** One fault-free batch, in this order of names and on a server that lists like this. */
  ghost predicate StaysInside(listing: Listing, order: seq<string>, limit: nat, skip: bool, st: State, parent: Path) {
    OutsideKept(st.nodes, DeleteAll(Quiet(listing, limit), skip, st, parent, order).st.nodes, Reach(st.nodes, parent),
                NameSet(order))
  }

  /** Whatever order the server lists in and the names come in, the fault-free batch keeps what is outside. */
  ghost predicate AlwaysStaysInside(limit: nat, skip: bool, st: State, parent: Path, names: set<string>) {
    forall listing, order ::
      Lawful(listing) && NameSet(order) == names ==> StaysInside(listing, order, limit, skip, st, parent)
  }

  /** `delete_entries` without faults changes nothing outside the named entries exactly when no name below
      them leads to something removable outside. With missing entries to be skipped, links from outside that
      lead into the named entries can start to dangle and go too, if they are all there is in a directory. */
  lemma StaysInsideExactlyWhen(listing: Listing, limit: nat, skip: bool, st: State, parent: Path, names: set<string>,
                               order: seq<string>)
    requires WellFormed(st.nodes) && Lawful(listing) && NameSet(order) == names
    ensures AlwaysStaysInside(limit, skip, st, parent, names) ==> !Escapes(limit, skip, st.nodes, parent, names)
    ensures AlwaysStaysInside(limit, skip, st, parent, names) <== !MayEscape(limit, skip, st.nodes, parent, names)
    ensures (skip ==> NoReturn(st.nodes, Reach(st.nodes, parent), names)) ==>
              (AlwaysStaysInside(limit, skip, st, parent, names) <==> !Escapes(limit, skip, st.nodes, parent, names))
  {
    if skip ==> NoReturn(st.nodes, Reach(st.nodes, parent), names) {
      MayIsDoes(limit, skip, st.nodes, parent, names);
    }
    if Escapes(limit, skip, st.nodes, parent, names) {
      SomeRunEscapes(listing, limit, skip, st, parent, names, order);
    }
    if !MayEscape(limit, skip, st.nodes, parent, names) {
      forall l: Listing, o: seq<string> | Lawful(l) && NameSet(o) == names
        ensures StaysInside(l, o, limit, skip, st, parent)
      {
        BatchStaysInside(Quiet(l, limit), skip, st, parent, o);
      }
    }
  }

  lemma SomeRunEscapes(listing: Listing, limit: nat, skip: bool, st: State, parent: Path, names: set<string>,
                       order: seq<string>)
    requires WellFormed(st.nodes) && Lawful(listing) && NameSet(order) == names
    requires Escapes(limit, skip, st.nodes, parent, names)
    ensures !AlwaysStaysInside(limit, skip, st, parent, names)
  {
    var n, p :| n in names && |p| <= limit && CanGo(skip, st.nodes, Child(parent, n), p)
                && !AtNames(Reach(st.nodes, parent), names, Locate(st.nodes, p));
    ShownToEscape(listing, limit, skip, st, parent, n, order, p);
    NotAlways(Fronted(listing, p), [n] + order, limit, skip, st, parent);
  }

  lemma NotAlways(listing: Listing, order: seq<string>, limit: nat, skip: bool, st: State, parent: Path)
    requires Lawful(listing) && !StaysInside(listing, order, limit, skip, st, parent)
    ensures !AlwaysStaysInside(limit, skip, st, parent, NameSet(order))
  {
  }

  lemma ShownToEscape(listing: Listing, limit: nat, skip: bool, st: State, parent: Path, n: string, order: seq<string>,
                      p: Path)
    requires WellFormed(st.nodes) && Lawful(listing) && n in order
    requires |p| <= limit && CanGo(skip, st.nodes, Child(parent, n), p)
    requires !AtNames(Reach(st.nodes, parent), NameSet(order), Locate(st.nodes, p))
    ensures !StaysInside(Fronted(listing, p), [n] + order, limit, skip, st, parent)
    ensures NameSet([n] + order) == NameSet(order) && Lawful(Fronted(listing, p))
  {
    FrontedIsLawful(listing, p);
    EscapeIsTaken(listing, limit, skip, st, parent, n, order, p);
    RepeatedName(order, n);
  }

  lemma RepeatedName(order: seq<string>, n: string)
    requires n in order
    ensures NameSet([n] + order) == NameSet(order)
  {
  }

  /** The counterexample: the name that leads outside comes first, and so does every entry on the way. */
  lemma EscapeIsTaken(listing: Listing, limit: nat, skip: bool, st: State, parent: Path, n: string, order: seq<string>,
                      p: Path)
    requires WellFormed(st.nodes) && Lawful(listing)
    requires |p| <= limit && CanGo(skip, st.nodes, Child(parent, n), p)
    ensures Locate(st.nodes, p) in st.nodes
    ensures Locate(st.nodes, p) !in
            DeleteAll(Quiet(Fronted(listing, p), limit), skip, st, parent, [n] + order).st.nodes
  {
    var env, path := Quiet(Fronted(listing, p), limit), Child(parent, n);
    FrontedIsLawful(listing, p);
    var _ := FirstIsGone(env, listing, skip, st, path, p);
    LaterNamesRemoveMore(env, skip, st, parent, n, order);
  }

  /** What a run took first, and the run from then on. */
  lemma FirstIsGone(env: Env, listing: Listing, skip: bool, st: State, path: Path, p: Path) returns (log: seq<Path>)
    requires WellFormed(st.nodes) && Leads(env, listing, st.nodes, p) && NeverFails(env)
    requires |p| <= env.limit && CanGo(skip, st.nodes, path, p)
    ensures var rest, after := st.nodes - {Locate(st.nodes, p)}, DeleteRun(env, skip, st, path).st.nodes;
            && Locate(st.nodes, p) in st.nodes && WellFormed(rest)
            && Steps(env.limit, skip, {path}, rest, log, after) && Subset(after, rest)
  {
    var o := DeleteRun(env, skip, st, path);
    FirstTaken(env, listing, skip, st, path, p);
    var whole := DeleteRan(env, skip, st, path);
    assert whole[0] == o.st.removed[|st.removed|] == p;
    log := whole[1..];
    TakenGoes(env.limit, skip, {path}, st.nodes, p);
    StepsFacts(env.limit, skip, {path}, st.nodes - {Locate(st.nodes, p)}, log, o.st.nodes);
  }

  lemma {:induction false} LaterNamesRemoveMore(env: Env, skip: bool, st: State, parent: Path, n: string,
                                                order: seq<string>)
    requires WellFormed(st.nodes) && Lawful(env.listing)
    ensures var after := DeleteAll(env, skip, st, parent, [n] + order).st.nodes;
            Subset(after, DeleteRun(env, skip, st, Child(parent, n)).st.nodes) && WellFormed(after)
  {
    var names := [n] + order;
    var last := names[|names| - 1];
    var t := DeleteAll(env, skip, st, parent, names[..|names| - 1]);
    if order == [] {
      assert names[..0] == [] && last == n;
      var _ := BatchRan(env, skip, st, parent, names);
    } else {
      assert names[..|names| - 1] == [n] + order[..|order| - 1];
      LaterNamesRemoveMore(env, skip, st, parent, n, order[..|order| - 1]);
      var log := DeleteRan(env, skip, t.st, Child(parent, last));
      var o := DeleteRun(env, skip, t.st, Child(parent, last));
      StepsFacts(env.limit, skip, {Child(parent, last)}, t.st.nodes, log, o.st.nodes);
    }
  }
}
