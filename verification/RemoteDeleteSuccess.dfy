/** Exactly when a recursive delete succeeds, what it has done then, and what it keeps on trees without links. */
module RemoteDeleteSuccess {
  import opened Text
  import opened RemoteTree
  import opened RemoteDelete
  import opened RemoteDeleteLinks

  // ---------------------------------------------------------------------------
  // Trees that can be deleted
  // ---------------------------------------------------------------------------

  /** No link of the tree leads to a directory; and, unless missing entries are skipped, every link leads to
      something, and that outside of the tree. */
  ghost predicate CleanLinks(nodes: Nodes, place: Path, skip: bool) {
    forall l :: l in nodes && place <= l && nodes[l].Link? ==> CleanTarget(nodes, place, skip, nodes[l].target)
  }

  predicate CleanTarget(nodes: Nodes, place: Path, skip: bool, target: Path) {
    !IsDir(nodes, target) && (skip || (target in nodes && !(place <= target)))
  }

  /** No call of the run failed in transport. */
  ghost predicate Smooth(env: Env, from: nat, to: nat) {
    forall k :: from <= k < to ==> !env.fails(k)
  }

  predicate Listed(es: seq<DirEntry>, n: string) {
    exists i :: 0 <= i < |es| && es[i].name == n
  }

  /** The directory is still in its place, and these entries, once each, are still in it. */
  ghost predicate Holds(nodes: Nodes, path: Path, place: Path, es: seq<DirEntry>) {
    && WellFormed(nodes) && Locate(nodes, path) == place && IsDir(nodes, place)
    && (forall i :: 0 <= i < |es| && !IsDots(es[i].name) ==> Child(place, es[i].name) in nodes)
    && (forall i, j :: 0 <= i < j < |es| ==> es[i].name != es[j].name)
  }

  /** Whatever else is in it may be left there. */
  ghost predicate OthersLeavable(nodes: Nodes, place: Path, es: seq<DirEntry>, skip: bool) {
    forall n :: Child(place, n) in nodes && !Listed(es, n) ==> skip && Dangles(nodes, Child(place, n))
  }

  lemma HoldsListing(nodes: Nodes, path: Path, es: seq<DirEntry>)
    requires WellFormed(nodes) && IsDir(nodes, Locate(nodes, path)) && Entries(nodes, Locate(nodes, path), es)
    ensures Holds(nodes, path, Locate(nodes, path), es) && OthersLeavable(nodes, Locate(nodes, path), es, false)
  {
    var place := Locate(nodes, path);
    forall n | Child(place, n) in nodes ensures Listed(es, n) {
      ChildNamesAreNodes(nodes, place, n);
    }
  }

  lemma SkipDots(nodes: Nodes, path: Path, place: Path, es: seq<DirEntry>, skip: bool)
    requires Holds(nodes, path, place, es) && OthersLeavable(nodes, place, es, skip)
    requires es != [] && IsDots(es[0].name)
    ensures Holds(nodes, path, place, es[1..]) && OthersLeavable(nodes, place, es[1..], skip)
  {
    forall n | Child(place, n) in nodes && Listed(es, n) ensures Listed(es[1..], n) {
      ListedLater(es, n);
    }
  }

  lemma ListedLater(es: seq<DirEntry>, n: string)
    requires es != [] && Listed(es, n) && es[0].name != n
    ensures Listed(es[1..], n)
  {
    var i :| 0 <= i < |es| && es[i].name == n;
    assert es[1..][i - 1] == es[i];
  }

  /** The next entry is there, and clean in its turn. */
  lemma NextEntry(nodes: Nodes, path: Path, place: Path, es: seq<DirEntry>, skip: bool, limit: nat)
    requires Holds(nodes, path, place, es) && CleanLinks(nodes, place, skip) && es != [] && !IsDots(es[0].name)
    ensures var child := Child(path, es[0].name);
            && Locate(nodes, child) == Child(place, es[0].name) && Locate(nodes, child) in nodes
            && CleanLinks(nodes, Locate(nodes, child), skip)
            && (FitsBelow(nodes, path, place, limit) ==> FitsBelow(nodes, child, Locate(nodes, child), limit))
  {
    var q := Child(place, es[0].name);
    LocateChild(nodes, path, es[0].name);
    assert place <= q;
    forall l | l in nodes && q <= l && nodes[l].Link? ensures CleanTarget(nodes, q, skip, nodes[l].target) {
      assert place <= l;
      PrefixTransitive(place, q, nodes[l].target);
    }
  }

  lemma PrefixTransitive(a: Path, b: Path, c: Path)
    requires a <= b
    ensures b <= c ==> a <= c
  {
  }

  /** With the entry's tree gone, or skipped, the rest is as it was. */
  lemma HoldsOn(nodes: Nodes, after: Nodes, path: Path, place: Path, es: seq<DirEntry>, skip: bool)
    requires Holds(nodes, path, place, es) && OthersLeavable(nodes, place, es, skip)
    requires es != [] && !IsDots(es[0].name)
    requires WellFormed(after) && Subset(after, nodes) && LinksKept(nodes, after)
    requires forall q :: q in nodes && q !in after ==> Child(place, es[0].name) <= q
    requires Child(place, es[0].name) in after ==> skip && Dangles(after, Child(place, es[0].name))
    ensures Holds(after, path, place, es[1..]) && OthersLeavable(after, place, es[1..], skip)
  {
    var q := Child(place, es[0].name);
    assert !(q <= place);
    assert IsDir(after, place);
    ReachStays(nodes, after, path);
    forall i | 0 <= i < |es[1..]| && !IsDots(es[1..][i].name) ensures Child(place, es[1..][i].name) in after {
      assert es[1..][i] == es[i + 1];
      ExtendsByName(place, es[0].name, Child(place, es[i + 1].name));
    }
    forall n | Child(place, n) in after && !Listed(es[1..], n) ensures skip && Dangles(after, Child(place, n)) {
      if Listed(es, n) {
        if es[0].name != n {
          ListedLater(es, n);
        }
      }
    }
  }

  lemma CleanLater(nodes: Nodes, after: Nodes, place: Path, q: Path, skip: bool)
    requires CleanLinks(nodes, place, skip) && Subset(after, nodes) && place <= q
    requires forall r :: r in nodes && r !in after ==> q <= r
    ensures CleanLinks(after, place, skip)
  {
    forall l | l in after && place <= l && after[l].Link? ensures CleanTarget(after, place, skip, after[l].target) {
      assert CleanTarget(nodes, place, skip, nodes[l].target);
      PrefixTransitive(place, q, nodes[l].target);
    }
  }

  /** When all listed entries are done with, nothing but what may be left is in the directory. */
  lemma DoneIsLeavable(nodes: Nodes, path: Path, place: Path, skip: bool)
    requires Holds(nodes, path, place, []) && OthersLeavable(nodes, place, [], skip)
    ensures Leavable(nodes, place, skip)
  {
    forall r | r in nodes && place < r ensures skip && Dangles(nodes, r) {
      var c := Child(place, r[|place|]);
      EntryOnTheWay(nodes, place, r);
      assert !Listed([], r[|place|]);
      ExtendsByName(place, r[|place|], r);
      if c != r {
        assert c < r;
        EntryOnTheWay(nodes, c, r);
      }
    }
  }

  /** Without faults the sweep of a directory with nothing else left in it takes every entry. */
  lemma {:induction false} SweepEmpties(env: Env, skip: bool, st: State, path: Path, es: seq<DirEntry>, place: Path)
    requires Holds(st.nodes, path, place, es) && OthersLeavable(st.nodes, place, es, false)
    requires Leavable(st.nodes, place, skip) && FitsBelow(st.nodes, path, place, env.limit)
    ensures var o := SweepRun(env, st, path, es);
            Smooth(env, st.calls, o.st.calls) ==>
              o.ok && IsEmptyDir(o.st.nodes, place) && Locate(o.st.nodes, path) == place
    decreases |es|
  {
    if es == [] {
      DoneIsLeavable(st.nodes, path, place, false);
    } else if IsDots(es[0].name) {
      SkipDots(st.nodes, path, place, es, false);
      SweepEmpties(env, skip, st, path, es[1..], place);
    } else {
      var q, child := Child(place, es[0].name), Child(path, es[0].name);
      LocateChild(st.nodes, path, es[0].name);
      assert place < q && |child| <= env.limit;
      var o := RemoveFileAt(env, st, child);
      SweepAppends(env, o.st, path, es[1..]);
      if o.ok {
        SweptOne(env.limit, skip, st, path, es[0].name);
        var only := [child];
        StepsFacts(env.limit, skip, {path}, st.nodes, only, o.st.nodes);
        HoldsOn(st.nodes, o.st.nodes, path, place, es, false);
        SweepEmpties(env, skip, o.st, path, es[1..], place);
      }
    }
  }

  lemma RemoveDirSucceeds(env: Env, skip: bool, st: State, path: Path, place: Path)
    requires Lawful(env.listing) && Holds(st.nodes, path, place, []) && OthersLeavable(st.nodes, place, [], skip)
    requires FitsBelow(st.nodes, path, place, env.limit)
    ensures var o := RemoveDirAt(env, skip, st, path); Smooth(env, st.calls, o.st.calls) ==> o.ok
  {
    var es := env.listing(st.nodes, path);
    var o := SweepRun(env, Tick(st), path, es);
    DoneIsLeavable(st.nodes, path, place, skip);
    HoldsListing(st.nodes, path, es);
    SweepEmpties(env, skip, Tick(st), path, es, place);
    SweepAppends(env, Tick(st), path, es);
    RemoveDirOfLeavable(env, skip, st, path);
    assert |path| + |place| - |place| <= env.limit;
  }

  /** What a run keeps. */
  lemma RunFacts(env: Env, skip: bool, st: State, path: Path)
    requires WellFormed(st.nodes) && Lawful(env.listing)
    ensures var after := DeleteRun(env, skip, st, path).st;
            && WellFormed(after.nodes) && Subset(after.nodes, st.nodes) && LinksKept(st.nodes, after.nodes)
            && after.calls >= st.calls
  {
    var log := DeleteRan(env, skip, st, path);
    StepsFacts(env.limit, skip, {path}, st.nodes, log, DeleteRun(env, skip, st, path).st.nodes);
  }

  /** Without faults a clean tree is deleted, in whatever order it is listed. */
  lemma {:induction false} CleanRun(env: Env, skip: bool, st: State, path: Path)
    requires WellFormed(st.nodes) && Lawful(env.listing) && Locate(st.nodes, path) in st.nodes
    requires CleanLinks(st.nodes, Locate(st.nodes, path), skip)
    requires FitsBelow(st.nodes, path, Locate(st.nodes, path), env.limit)
    ensures var o := DeleteRun(env, skip, st, path); Smooth(env, st.calls, o.st.calls) ==> o.ok
    decreases Room(env, |path|), 1, 0
  {
    var nodes, place, st1 := st.nodes, Locate(st.nodes, path), Tick(Tick(st));
    var o := DeleteRun(env, skip, st, path);
    RunFacts(env, skip, st, path);
    if !Broken(env, st.calls, path) && Found(nodes, path) == Some(true) && !Broken(env, st.calls + 1, path) {
      assert IsDir(nodes, place);
      var es := env.listing(nodes, path);
      HoldsListing(nodes, path, es);
      CleanEntries(env, skip, st1, path, es, place);
      var mid := EntriesRun(env, skip, st1, path, es);
      if mid.ok {
        RemoveDirSucceeds(env, skip, mid.st, path, place);
        RemoveDirAppends(env, skip, mid.st, path);
      }
    } else {
      assert |path| + |place| - |place| <= env.limit;
    }
  }

  lemma {:induction false} CleanEntries(env: Env, skip: bool, st: State, path: Path, es: seq<DirEntry>, place: Path)
    requires |path| <= env.limit && Lawful(env.listing)
    requires Holds(st.nodes, path, place, es) && OthersLeavable(st.nodes, place, es, skip)
    requires CleanLinks(st.nodes, place, skip) && FitsBelow(st.nodes, path, place, env.limit)
    ensures var o := EntriesRun(env, skip, st, path, es);
            && o.st.calls >= st.calls && (Smooth(env, st.calls, o.st.calls) ==> o.ok)
            && (o.ok ==> Holds(o.st.nodes, path, place, []) && OthersLeavable(o.st.nodes, place, [], skip)
                         && FitsBelow(o.st.nodes, path, place, env.limit))
    decreases Room(env, |path|), 0, |es|
  {
    if es == [] {
    } else if IsDots(es[0].name) {
      SkipDots(st.nodes, path, place, es, skip);
      CleanEntries(env, skip, st, path, es[1..], place);
    } else {
      var q, child := Child(place, es[0].name), Child(path, es[0].name);
      var o := DeleteRun(env, skip, st, child);
      NextEntry(st.nodes, path, place, es, skip, env.limit);
      CleanRun(env, skip, st, child);
      RunFacts(env, skip, st, child);
      if o.ok {
        SuccessDeletes(env, skip, st, child);
        assert place <= q && q <= q;
        HoldsOn(st.nodes, o.st.nodes, path, place, es, skip);
        CleanLater(st.nodes, o.st.nodes, place, q, skip);
        CleanEntries(env, skip, o.st, path, es[1..], place);
      }
    }
  }

  // ---------------------------------------------------------------------------
  // Exactly when it succeeds
  // ---------------------------------------------------------------------------

  /** The tree at the name has only names that the server takes, and no link in it gets in the way. */
  ghost predicate Deletable(limit: nat, skip: bool, nodes: Nodes, path: Path) {
    var place := Locate(nodes, path);
    FitsBelow(nodes, path, place, limit) && CleanLinks(nodes, place, skip)
  }

  /** Whatever order the server lists in, the fault-free delete succeeds. */
  ghost predicate AlwaysSucceeds(limit: nat, skip: bool, st: State, path: Path) {
    forall listing :: Lawful(listing) ==> DeleteRun(Quiet(listing, limit), skip, st, path).ok
  }

  /** Without faults `delete_one` succeeds in whatever order the server lists exactly when nothing is to be found
      and that is to be skipped, or the tree is deletable. */
  lemma SucceedsExactlyWhen(listing: Listing, limit: nat, skip: bool, st: State, path: Path)
    requires WellFormed(st.nodes) && Lawful(listing)
    ensures AlwaysSucceeds(limit, skip, st, path) <==>
            |path| <= limit && if Found(st.nodes, path).Some? then Deletable(limit, skip, st.nodes, path) else skip
  {
    if AlwaysSucceeds(limit, skip, st, path) {
      assert DeleteRun(Quiet(listing, limit), skip, st, path).ok;
      SuccessDeletes(Quiet(listing, limit), skip, st, path);
      if Found(st.nodes, path).Some? {
        SuccessIsClean(listing, limit, skip, st, path);
      }
    }
    if |path| <= limit && if Found(st.nodes, path).Some? then Deletable(limit, skip, st.nodes, path) else skip {
      forall l | Lawful(l) ensures DeleteRun(Quiet(l, limit), skip, st, path).ok {
        if Found(st.nodes, path).Some? {
          FoundIsThere(st.nodes, path);
          CleanRun(Quiet(l, limit), skip, st, path);
        }
      }
    }
  }

  lemma FoundIsThere(nodes: Nodes, path: Path)
    requires Found(nodes, path).Some?
    ensures Locate(nodes, path) in nodes
  {
    assert Locate(nodes, path) !in nodes ==> Reach(nodes, path) == Locate(nodes, path);
  }

  lemma SuccessIsClean(listing: Listing, limit: nat, skip: bool, st: State, path: Path)
    requires WellFormed(st.nodes) && Lawful(listing) && Found(st.nodes, path).Some?
    requires AlwaysSucceeds(limit, skip, st, path)
    ensures CleanLinks(st.nodes, Locate(st.nodes, path), skip)
  {
    var nodes, place := st.nodes, Locate(st.nodes, path);
    assert DeleteRun(Quiet(listing, limit), skip, st, path).ok;
    SuccessDeletes(Quiet(listing, limit), skip, st, path);
    forall l | l in nodes && place <= l && nodes[l].Link? ensures CleanTarget(nodes, place, skip, nodes[l].target) {
      if Stuck(nodes, skip, l) {
        StuckFirst(listing, limit, skip, st, path, l);
      } else if !skip && place <= nodes[l].target {
        TargetFirst(listing, limit, skip, st, path, l);
      }
    }
  }

  /** A link that no `delete_one` of its own name gets rid of: it leads to a directory, or it dangles and that is
      not to be skipped. */
  predicate Stuck(nodes: Nodes, skip: bool, l: Path) {
    && l in nodes && nodes[l].Link?
    && if nodes[l].target in nodes then IsDir(nodes, nodes[l].target) else !skip
  }

  /** A server that lists the way to such a link first makes the whole delete fail. */
  lemma {:induction false} StuckFails(env: Env, listing: Listing, skip: bool, st: State, path: Path, p: Path)
    requires WellFormed(st.nodes) && Leads(env, listing, st.nodes, p)
    requires path <= p && Stuck(st.nodes, skip, Locate(st.nodes, p))
    ensures !DeleteRun(env, skip, st, path).ok
    decreases |p| - |path|
  {
    if path == p {
      if DeleteRun(env, skip, st, path).ok {
        SuccessDeletes(env, skip, st, path);
      }
    } else {
      WayToEntry(st.nodes, path, p);
      EntryInFront(env, listing, st.nodes, path, p);
      StuckFails(env, listing, skip, Tick(Tick(st)), Child(path, p[|path|]), p);
      FirstEntryFails(env, skip, st, path);
    }
  }

  lemma FirstEntryFails(env: Env, skip: bool, st: State, path: Path)
    requires Found(st.nodes, path) == Some(true)
    requires var es := env.listing(st.nodes, path);
             es != [] && !IsDots(es[0].name) && !DeleteRun(env, skip, Tick(Tick(st)), Child(path, es[0].name)).ok
    ensures !DeleteRun(env, skip, st, path).ok
  {
    if |path| <= env.limit {
      assert !EntriesRun(env, skip, Tick(Tick(st)), path, env.listing(st.nodes, path)).ok;
    }
  }

  lemma StuckFirst(listing: Listing, limit: nat, skip: bool, st: State, path: Path, l: Path)
    requires WellFormed(st.nodes) && Lawful(listing) && Locate(st.nodes, path) <= l && Stuck(st.nodes, skip, l)
    ensures !AlwaysSucceeds(limit, skip, st, path)
  {
    var p := path + l[|Locate(st.nodes, path)|..];
    LocateBelow(st.nodes, path, l);
    FrontedIsLawful(listing, p);
    StuckFails(Quiet(Fronted(listing, p), limit), listing, skip, st, path, p);
  }

  /** A link to a file of the same tree: the server may list the file first, and then the link dangles and
      stays. */
  lemma TargetFirst(listing: Listing, limit: nat, skip: bool, st: State, path: Path, l: Path)
    requires WellFormed(st.nodes) && Lawful(listing) && Found(st.nodes, path).Some? && !skip
    requires var place := Locate(st.nodes, path);
             && l in st.nodes && place <= l && st.nodes[l].Link? && place <= st.nodes[l].target
             && !Stuck(st.nodes, skip, l) && FitsBelow(st.nodes, path, place, limit)
    ensures !AlwaysSucceeds(limit, skip, st, path)
  {
    var nodes, place := st.nodes, Locate(st.nodes, path);
    var y := nodes[l].target;
    assert nodes[y].Node? && !nodes[y].isDir;
    var p := path + y[|place|..];
    LocateBelow(nodes, path, y);
    var env := Quiet(Fronted(listing, p), limit);
    var o := DeleteRun(env, skip, st, path);
    assert |p| == |path| + |y| - |place|;
    assert Loose(nodes, y) && CanGo(skip, nodes, path, p);
    FrontedIsLawful(listing, p);
    var log := FirstIsGone(env, listing, skip, st, path, p);
    DanglingStays(limit, {path}, nodes - {y}, log, o.st.nodes, l);
    if o.ok {
      SuccessDeletes(env, skip, st, path);
    }
  }

  /** Nothing takes a dangling link, unless missing entries are skipped. */
  lemma {:induction false} DanglingStays(
    limit: nat, roots: set<Path>, nodes: Nodes, log: seq<Path>, after: Nodes, l: Path)
    requires WellFormed(nodes) && Steps(limit, false, roots, nodes, log, after) && Dangles(nodes, l)
    ensures l in after
  {
    if log != [] {
      TakenGoes(limit, false, roots, nodes, log[0]);
      DanglingStays(limit, roots, nodes - {Locate(nodes, log[0])}, log[1..], after, l);
    }
  }

  lemma LongerBy(path: Path, place: Path, up: Path, n: string)
    requires place <= up
    ensures path + Child(up, n)[|place|..] == Child(path + up[|place|..], n)
  {
    assert Child(up, n)[|place|..] == up[|place|..] + [n];
  }

  /** Below a directory that is no link, names and places run in parallel. */
  lemma {:induction false} LocateBelow(nodes: Nodes, path: Path, q: Path)
    requires WellFormed(nodes) && q in nodes && Locate(nodes, path) <= q
    ensures Locate(nodes, path + q[|Locate(nodes, path)|..]) == q
    decreases |q|
  {
    var place := Locate(nodes, path);
    if q == place {
      assert path + q[|place|..] == path;
    } else {
      var up, n := q[..|q| - 1], q[|q| - 1];
      assert q == Child(up, n) && place <= up;
      LocateBelow(nodes, path, up);
      LongerBy(path, place, up, n);
      LocateChild(nodes, path + up[|place|..], n);
    }
  }

  // ---------------------------------------------------------------------------
  // Batches
  // ---------------------------------------------------------------------------

  /** The first names went through: nothing but their trees is gone, and whatever still stands under them is a
      dangling link that was skipped. */
  ghost predicate AllGone(before: Nodes, after: Nodes, parent: Path, names: set<string>, skip: bool) {
    && OutsideKept(before, after, Reach(before, parent), names)
    && forall n :: n in names && Child(Reach(before, parent), n) in after ==>
                     skip && Dangles(after, Child(Reach(before, parent), n))
  }

  lemma {:induction false} BatchCounts(env: Env, skip: bool, st: State, parent: Path, names: seq<string>)
    ensures var t := DeleteAll(env, skip, st, parent, names); t.deleted + t.failed == |names|
  {
    if names != [] {
      BatchCounts(env, skip, st, parent, names[..|names| - 1]);
    }
  }

  /** A batch in which nothing failed, whatever links there are and whatever escapes. */
  lemma {:induction false} BatchSuccess(env: Env, skip: bool, st: State, parent: Path, names: seq<string>)
    requires WellFormed(st.nodes) && Lawful(env.listing) && DeleteAll(env, skip, st, parent, names).failed == 0
    ensures AllGone(st.nodes, DeleteAll(env, skip, st, parent, names).st.nodes, parent, NameSet(names), skip)
  {
    if names != [] {
      BatchSuccess(env, skip, st, parent, names[..|names| - 1]);
      LastSuccess(env, skip, st, parent, names);
    }
  }

  lemma LastSuccess(env: Env, skip: bool, st: State, parent: Path, names: seq<string>)
    requires WellFormed(st.nodes) && Lawful(env.listing) && names != []
    requires DeleteAll(env, skip, st, parent, names).failed == 0
    requires var init := names[..|names| - 1];
             AllGone(st.nodes, DeleteAll(env, skip, st, parent, init).st.nodes, parent, NameSet(init), skip)
    ensures AllGone(st.nodes, DeleteAll(env, skip, st, parent, names).st.nodes, parent, NameSet(names), skip)
  {
    var init, n := names[..|names| - 1], names[|names| - 1];
    LastName(names);
    NextSuccess(env, skip, st, parent, init, n);
  }

  lemma LastName(names: seq<string>)
    requires names != []
    ensures NameSet(names) == NameSet(names[..|names| - 1]) + {names[|names| - 1]}
  {
    assert names == names[..|names| - 1] + [names[|names| - 1]];
  }

  lemma NextSuccess(env: Env, skip: bool, st: State, parent: Path, init: seq<string>, n: string)
    requires WellFormed(st.nodes) && Lawful(env.listing)
    requires AllGone(st.nodes, DeleteAll(env, skip, st, parent, init).st.nodes, parent, NameSet(init), skip)
    requires DeleteRun(env, skip, DeleteAll(env, skip, st, parent, init).st, Child(parent, n)).ok
    ensures var mid := DeleteAll(env, skip, st, parent, init).st;
            AllGone(st.nodes, DeleteRun(env, skip, mid, Child(parent, n)).st.nodes, parent, NameSet(init) + {n}, skip)
  {
    var mid := DeleteAll(env, skip, st, parent, init).st;
    var _ := BatchRan(env, skip, st, parent, init);
    SuccessDeletes(env, skip, mid, Child(parent, n));
    RunFacts(env, skip, mid, Child(parent, n));
    var after := DeleteRun(env, skip, mid, Child(parent, n)).st.nodes;
    OneMoreGone(st.nodes, mid.nodes, after, parent, NameSet(init), n, skip, env.limit);
  }

  lemma OneMoreGone(before: Nodes, mid: Nodes, after: Nodes, parent: Path, names: set<string>, n: string, skip: bool,
                    limit: nat)
    requires WellFormed(before) && WellFormed(mid) && Subset(mid, before) && LinksKept(before, mid)
    requires Subset(after, mid)
    requires AllGone(before, mid, parent, names, skip) && Deleted(mid, after, Child(parent, n), skip, limit)
    ensures AllGone(before, after, parent, names + {n}, skip)
  {
    var d, path := Reach(before, parent), Child(parent, n);
    LocateChild(mid, parent, n);
    LocateChild(before, parent, n);
    if Locate(mid, path) in mid {
      LocateUp(mid, before, path);
    }
    forall q | q in before && !AtNames(d, names + {n}, q) ensures q in after && after[q] == before[q] {
      assert !AtNames(d, names, q);
      ExtendsByName(d, n, q);
    }
    if Child(d, n) in after && Child(d, n) in mid {
      ParentKept(before, mid, parent, n);
      assert Child(d, n) <= Child(d, n);
    }
  }

  /** The directory of a standing entry is still reached by its name. */
  lemma ParentKept(before: Nodes, mid: Nodes, parent: Path, n: string)
    requires WellFormed(before) && WellFormed(mid) && Subset(mid, before) && LinksKept(before, mid)
    requires Child(Reach(before, parent), n) in mid
    ensures Reach(mid, parent) == Reach(before, parent)
  {
    assert IsDir(mid, Reach(before, parent));
    ReachStays(before, mid, parent);
  }

  // ---------------------------------------------------------------------------
  // Trees without links
  // ---------------------------------------------------------------------------

  /** No link at or below the place: a caller can read that off the listings' modes. */
  ghost predicate LinkFree(nodes: Nodes, place: Path) {
    forall q :: q in nodes && place <= q ==> nodes[q].Node?
  }

  /** What a delete that failed may have removed: nodes strictly below the place. */
  ghost predicate OnlyDescendantsGone(before: Nodes, after: Nodes, place: Path) {
    Subset(after, before) && forall q :: q in before && !(place < q) ==> q in after
  }

  lemma ExtendedBy(place: Path, path: Path, p: Path)
    requires path <= p && path != p
    ensures path < p && path <= p[..|p| - 1]
    ensures Child(place + p[..|p| - 1][|path|..], p[|p| - 1]) == place + p[|path|..]
  {
    assert |path| == |p| ==> path == p;
    assert p[|path|..] == p[..|p| - 1][|path|..] + [p[|p| - 1]];
  }

  lemma {:induction false} LinkFreeLocate(nodes: Nodes, path: Path, p: Path)
    requires WellFormed(nodes) && path <= p && Locate(nodes, p) in nodes && LinkFree(nodes, Locate(nodes, path))
    ensures Locate(nodes, p) == Locate(nodes, path) + p[|path|..]
    decreases |p|
  {
    if p == path {
      assert p[|path|..] == [];
    } else {
      var place, up := Locate(nodes, path), p[..|p| - 1];
      ExtendedBy(place, path, p);
      WayExists(nodes, p, up);
      LinkFreeLocate(nodes, path, up);
      assert place <= Locate(nodes, up);
    }
  }

  lemma {:induction false} LinkFreeSteps(
    limit: nat, skip: bool, nodes: Nodes, log: seq<Path>, after: Nodes, path: Path)
    requires WellFormed(nodes) && Steps(limit, skip, {path}, nodes, log, after)
    requires LinkFree(nodes, Locate(nodes, path)) && AllBelow(path, log)
    ensures OnlyDescendantsGone(nodes, after, Locate(nodes, path))
  {
    if log != [] {
      var x, place := Locate(nodes, log[0]), Locate(nodes, path);
      var rest := nodes - {x};
      assert log[0] in log;
      TakenGoes(limit, skip, {path}, nodes, log[0]);
      LinkFreeLocate(nodes, path, log[0]);
      assert place < x;
      if log[1..] != [] {
        assert log[1] in log;
        PathStays(limit, skip, nodes, rest, log[1], path);
        assert forall p :: p in log[1..] ==> p in log;
        LinkFreeSteps(limit, skip, rest, log[1..], after, path);
      }
      OnlyDescendantsToo(nodes, x, after, place);
    }
  }

  lemma PathStays(limit: nat, skip: bool, nodes: Nodes, rest: Nodes, p: Path, path: Path)
    requires WellFormed(rest) && Subset(rest, nodes) && Takeable(limit, skip, {path}, rest, p)
    requires LinkFree(nodes, Locate(nodes, path))
    ensures Locate(rest, path) == Locate(nodes, path) && LinkFree(rest, Locate(rest, path))
  {
    assert CanGo(skip, rest, path, p);
    WayExists(rest, p, path);
    LocateUp(rest, nodes, path);
  }

  lemma OnlyDescendantsToo(nodes: Nodes, x: Path, after: Nodes, place: Path)
    requires place < x && (OnlyDescendantsGone(nodes - {x}, after, place) || after == nodes - {x})
    ensures OnlyDescendantsGone(nodes, after, place)
  {
    forall q | q in nodes && !(place < q) ensures q in after {
      assert q in nodes - {x};
    }
  }

  /** Without links in the tree: a success removes exactly the tree, a failure nothing but descendants, no
      directory is asked to be removed before it is empty, and without faults it succeeds. */
  lemma LinkFreeDelete(env: Env, skip: bool, st: State, path: Path)
    requires WellFormed(st.nodes) && Lawful(env.listing) && LinkFree(st.nodes, Locate(st.nodes, path))
    ensures var o, place := DeleteRun(env, skip, st, path), Locate(st.nodes, path);
            var smooth := Smooth(env, st.calls, o.st.calls);
            && (o.ok ==> o.st.nodes == st.nodes - Below(st.nodes, place))
            && (!o.ok ==> OnlyDescendantsGone(st.nodes, o.st.nodes, place))
            && o.st.descents == st.descents
            && (smooth && |path| <= env.limit && FitsBelow(st.nodes, path, place, env.limit) ==>
                  (o.ok <==> place in st.nodes || skip))
  {
    var o, place := DeleteRun(env, skip, st, path), Locate(st.nodes, path);
    var log := DeleteRan(env, skip, st, path);
    if o.ok {
      SuccessDeletes(env, skip, st, path);
    } else {
      LinkFreeSteps(env.limit, skip, st.nodes, log, o.st.nodes, path);
    }
    if place in st.nodes {
      if FitsBelow(st.nodes, path, place, env.limit) {
        CleanRun(env, skip, st, path);
      }
    } else {
      MissingIsEmpty(st.nodes, place);
      assert Found(st.nodes, path).None?;
    }
  }

  lemma MissingIsEmpty(nodes: Nodes, place: Path)
    requires WellFormed(nodes) && place !in nodes
    ensures nodes - Below(nodes, place) == nodes && forall q :: q in nodes ==> !(place <= q)
  {
    LeafHasNothingBelow(nodes, place);
    forall q | q in nodes ensures !(place <= q) {
      assert |q| == |place| && place <= q ==> q == place;
      assert |q| > |place| && place <= q ==> place < q;
    }
  }

  ghost predicate LinkFreeNames(nodes: Nodes, parent: Path, names: set<string>) {
    forall n :: n in names ==> LinkFree(nodes, Child(Reach(nodes, parent), n))
  }

  /** Nothing can escape from trees without links. */
  lemma LinkFreeNeverEscapes(limit: nat, skip: bool, nodes: Nodes, parent: Path, names: set<string>)
    requires WellFormed(nodes) && LinkFreeNames(nodes, parent, names)
    ensures !MayEscape(limit, skip, nodes, parent, names)
  {
    var d := Reach(nodes, parent);
    forall n, p | n in names && |p| <= limit && CouldGo(skip, nodes, d, names, Child(parent, n), p)
      ensures AtNames(d, names, Locate(nodes, p))
    {
      LocateChild(nodes, parent, n);
      LinkFreeLocate(nodes, Child(parent, n), p);
      ExtendsByName(d, n, Locate(nodes, p));
    }
  }

  /** In what is left, a name below the same parent stands for the same place or for nothing. */
  lemma StillLinkFree(before: Nodes, mid: Nodes, parent: Path, n: string)
    requires WellFormed(mid) && Subset(mid, before) && LinkFree(before, Child(Reach(before, parent), n))
    ensures LinkFree(mid, Locate(mid, Child(parent, n)))
  {
    var path := Child(parent, n);
    LocateChild(before, parent, n);
    if Locate(mid, path) in mid {
      LocateUp(mid, before, path);
    } else {
      MissingIsEmpty(mid, Locate(mid, path));
    }
  }

  /** A batch of trees without links: no directory is asked to be removed before it is empty, and nothing outside
      is touched, whatever fails. */
  lemma {:induction false} LinkFreeBatch(env: Env, skip: bool, st: State, parent: Path, names: seq<string>)
    requires WellFormed(st.nodes) && Lawful(env.listing) && LinkFreeNames(st.nodes, parent, NameSet(names))
    ensures var t := DeleteAll(env, skip, st, parent, names);
            && OutsideKept(st.nodes, t.st.nodes, Reach(st.nodes, parent), NameSet(names))
            && t.st.descents == st.descents
  {
    LinkFreeNeverEscapes(env.limit, skip, st.nodes, parent, NameSet(names));
    BatchStaysInside(env, skip, st, parent, names);
    if names != [] {
      var init, n := names[..|names| - 1], names[|names| - 1];
      var mid := DeleteAll(env, skip, st, parent, init).st;
      assert NameSet(init) <= NameSet(names);
      LinkFreeBatch(env, skip, st, parent, init);
      var _ := BatchRan(env, skip, st, parent, init);
      StillLinkFree(st.nodes, mid.nodes, parent, n);
      LinkFreeDelete(env, skip, mid, Child(parent, n));
    }
  }

  /** The server takes every name in the named trees. */
  ghost predicate FitNames(limit: nat, nodes: Nodes, parent: Path, names: set<string>) {
    && |parent| < limit
    && forall n :: n in names ==> FitsBelow(nodes, Child(parent, n), Child(Reach(nodes, parent), n), limit)
  }

  lemma StillFits(limit: nat, before: Nodes, mid: Nodes, parent: Path, n: string)
    requires WellFormed(mid) && Subset(mid, before)
    requires FitsBelow(before, Child(parent, n), Child(Reach(before, parent), n), limit)
    ensures FitsBelow(mid, Child(parent, n), Locate(mid, Child(parent, n)), limit)
  {
    var path := Child(parent, n);
    LocateChild(before, parent, n);
    if Locate(mid, path) in mid {
      LocateUp(mid, before, path);
    } else {
      MissingIsEmpty(mid, Locate(mid, path));
    }
  }

  /** Without faults, and with missing entries to be skipped, such a batch succeeds. */
  lemma {:induction false} LinkFreeBatchSucceeds(env: Env, st: State, parent: Path, names: seq<string>)
    requires WellFormed(st.nodes) && Lawful(env.listing) && LinkFreeNames(st.nodes, parent, NameSet(names))
    requires FitNames(env.limit, st.nodes, parent, NameSet(names))
    requires Smooth(env, st.calls, DeleteAll(env, true, st, parent, names).st.calls)
    ensures DeleteAll(env, true, st, parent, names).failed == 0
  {
    if names != [] {
      var init, n := names[..|names| - 1], names[|names| - 1];
      var mid := DeleteAll(env, true, st, parent, init).st;
      assert NameSet(init) <= NameSet(names);
      var _ := BatchRan(env, true, st, parent, init);
      RunFacts(env, true, mid, Child(parent, n));
      LinkFreeBatchSucceeds(env, st, parent, init);
      StillLinkFree(st.nodes, mid.nodes, parent, n);
      StillFits(env.limit, st.nodes, mid.nodes, parent, n);
      LinkFreeDelete(env, true, mid, Child(parent, n));
    }
  }

  // ---------------------------------------------------------------------------
  // Three inputs
  // ---------------------------------------------------------------------------

  const A: Path := ["a"]
  const B: Path := ["b"]

  /** A directory with a link to another directory, which holds one entry. */
  function LinkedDirectory(entry: Node): (nodes: Nodes) {
    map[[] := Node(true, 0), A := Node(true, 0), Child(A, "l") := Link(B), B := Node(true, 0), Child(B, "f") := entry]
  }

  lemma LinkedDirectoryIsWellFormed(entry: Node)
    requires entry.Link? ==> entry.target !in LinkedDirectory(entry)
    ensures WellFormed(LinkedDirectory(entry))
  {
    var nodes := LinkedDirectory(entry);
    forall p, n | Child(p, n) in nodes ensures !IsDots(n) && IsDir(nodes, p) {
      assert Child(p, n)[..|p|] == p && Child(p, n)[|p|] == n;
      assert p == [] || p == A || p == B;
    }
  }

  lemma LinkedPlaces(entry: Node)
    ensures var nodes := LinkedDirectory(entry);
            && Locate(nodes, A) == A && Reach(nodes, Child(A, "l")) == B
            && Locate(nodes, Child(Child(A, "l"), "f")) == Child(B, "f") && Reach(nodes, []) == []
  {
    var nodes := LinkedDirectory(entry);
    assert A == Child([], "a");
    LocateChild(nodes, [], "a");
    LocateChild(nodes, A, "l");
    LocateChild(nodes, Child(A, "l"), "f");
  }

  /** What lies in the other directory can go: a file, or with missing entries skipped a dangling link. */
  lemma LinkedEntryCanGo(entry: Node, skip: bool)
    requires if entry.Node? then !entry.isDir else skip && entry.target !in LinkedDirectory(entry)
    ensures CanGo(skip, LinkedDirectory(entry), A, Child(Child(A, "l"), "f"))
  {
    var nodes, p := LinkedDirectory(entry), Child(Child(A, "l"), "f");
    LinkedPlaces(entry);
    assert A < p && p[..|p| - 1] == Child(A, "l");
    if entry.Link? {
      forall r | r in nodes && B < r ensures r == Child(B, "f") {
      }
    }
  }

  /** Deleting the directory never succeeds, and on a server that lists the link first it deletes the other
      directory's entry before it fails. */
  lemma LinkToDirectoryExample(listing: Listing, limit: nat, skip: bool, entry: Node)
    requires Lawful(listing) && limit >= 3
    requires if entry.Node? then !entry.isDir else skip && entry.target !in LinkedDirectory(entry)
    ensures var st := State(LinkedDirectory(entry), 0, 0, []);
            && !DeleteRun(Quiet(listing, limit), skip, st, A).ok
            && exists l :: Lawful(l) && Child(B, "f") !in DeleteAll(Quiet(l, limit), skip, st, [], ["a"]).st.nodes
  {
    var nodes, st := LinkedDirectory(entry), State(LinkedDirectory(entry), 0, 0, []);
    var p := Child(Child(A, "l"), "f");
    LinkedDirectoryIsWellFormed(entry);
    LinkedPlaces(entry);
    LinkedEntryCanGo(entry, skip);
    assert Child([], "a") == A && A <= Child(A, "l") && !(A <= B);
    EscapeIsTaken(listing, limit, skip, st, [], "a", [], p);
    assert ["a"] + [] == ["a"];
    FrontedIsLawful(listing, p);
    LinkToDirectoryFails(Quiet(listing, limit), skip, st, A, Child(A, "l"));
  }

  /** A tree with a link to a directory outside of it is never deleted, in whatever order it is listed. */
  lemma LinkToDirectoryFails(env: Env, skip: bool, st: State, path: Path, l: Path)
    requires WellFormed(st.nodes) && Lawful(env.listing) && Locate(st.nodes, path) <= l && l in st.nodes
    requires st.nodes[l].Link? && IsDir(st.nodes, st.nodes[l].target)
    requires !(Locate(st.nodes, path) <= st.nodes[l].target) && Found(st.nodes, path).Some?
    ensures !DeleteRun(env, skip, st, path).ok
  {
    if DeleteRun(env, skip, st, path).ok {
      SuccessDeletes(env, skip, st, path);
      RunFacts(env, skip, st, path);
    }
  }

  /** A dangling link, with missing entries to be skipped: reported as deleted, and still there. */
  lemma DanglingLinkExample(env: Env, st: State, path: Path)
    requires Dangles(st.nodes, Locate(st.nodes, path)) && !Broken(env, st.calls, path)
    ensures DeleteRun(env, true, st, path) == Outcome(Tick(st), true)
    ensures Locate(st.nodes, path) in DeleteRun(env, true, st, path).st.nodes
  {
    assert Found(st.nodes, path).None?;
  }

  /** A directory with nothing in it but a dangling link: it goes, link and all, exactly when missing entries are
      skipped. */
  lemma DanglingInsideExample(listing: Listing, limit: nat, skip: bool)
    requires Lawful(listing) && limit >= 2
    ensures var st := State(map[[] := Node(true, 0), A := Node(true, 0), Child(A, "l") := Link(B)], 0, 0, []);
            && AlwaysSucceeds(limit, skip, st, A) <==> skip
  {
    var nodes := map[[] := Node(true, 0), A := Node(true, 0), Child(A, "l") := Link(B)];
    forall p, n | Child(p, n) in nodes ensures !IsDots(n) && IsDir(nodes, p) {
      assert Child(p, n)[..|p|] == p && Child(p, n)[|p|] == n;
      assert p == [] || p == A;
    }
    assert A == Child([], "a");
    LocateChild(nodes, [], "a");
    assert B !in nodes;
    assert A <= Child(A, "l");
    SucceedsExactlyWhen(listing, limit, skip, State(nodes, 0, 0, []), A);
  }
}
