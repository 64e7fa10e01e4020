/** Recursive delete (`delete_entries` and `delete_one` of `remote.rs`). */
module RemoteDelete {
  import opened Text
  import opened RemoteTree

  // ---------------------------------------------------------------------------
  // The run
  // ---------------------------------------------------------------------------

  /** `delete_one`: what it leaves, and whether it succeeded. */
  function DeleteRun(env: Env, skip: bool, st: State, path: Path): (o: Outcome)
    decreases Room(env, |path|), 1, 0
  {
    if Broken(env, st.calls, path) then Outcome(Tick(st), false)
    else match Found(st.nodes, path)
      case None => Outcome(Tick(st), skip)
      case Some(isDir) => if isDir then DirectoryRun(env, skip, Tick(st), path) else RemoveFileAt(env, Tick(st), path)
  }

  /** The directory branch: list it, delete entry by entry, then remove it. */
  function DirectoryRun(env: Env, skip: bool, st: State, path: Path): (o: Outcome)
    requires |path| <= env.limit
    decreases Room(env, |path|), 0, |env.listing(st.nodes, path)| + 1
  {
    if Broken(env, st.calls, path) then Outcome(Tick(st), false)
    else
      var o := EntriesRun(env, skip, Tick(st), path, env.listing(st.nodes, path));
      if o.ok then RemoveDirAt(env, skip, o.st, path) else o
  }

  function EntriesRun(env: Env, skip: bool, st: State, path: Path, es: seq<DirEntry>): (o: Outcome)
    requires |path| <= env.limit
    decreases Room(env, |path|), 0, |es|
  {
    if es == [] then Outcome(st, true)
    else if IsDots(es[0].name) then EntriesRun(env, skip, st, path, es[1..])
    else
      var o := DeleteRun(env, skip, st, Child(path, es[0].name));
      if o.ok then EntriesRun(env, skip, o.st, path, es[1..]) else o
  }

  datatype Tally = Tally(st: State, deleted: nat, failed: nat)

  /** `delete_entries`: every name is tried, whatever happens to the others. */
  function DeleteAll(env: Env, skip: bool, st: State, parent: Path, names: seq<string>): (t: Tally) {
    if names == [] then Tally(st, 0, 0)
    else
      var t := DeleteAll(env, skip, st, parent, names[..|names| - 1]);
      var o := DeleteRun(env, skip, t.st, Child(parent, names[|names| - 1]));
      if o.ok then Tally(o.st, t.deleted + 1, t.failed) else Tally(o.st, t.deleted, t.failed + 1)
  }

  // ---------------------------------------------------------------------------
  // The code
  // ---------------------------------------------------------------------------

  method DeleteOne(s: RemoteServer, path: Path, skipMissing: bool) returns (r: Result<(), string>)
    requires s.Valid()
    modifies s
    ensures s.Valid() && s.chmods == old(s.chmods)
    ensures Outcome(s.Now(), r.Ok?) == DeleteRun(s.env, skipMissing, old(s.Now()), path)
    decreases Room(s.env, |path|), 1, 0
  {
    var found := s.Exists(path);
    if found.Err? {
      return Err("transport");
    }
    match found.value {
      case None =>
        return if skipMissing then Ok(()) else Err("File or folder does not exist.");
      case Some(isDir) =>
        if isDir {
          r := DeleteDirectory(s, path, skipMissing);
        } else {
          var removed := s.RemoveFile(path);
          return if removed then Ok(()) else Err("transport");
        }
    }
  }

  method DeleteDirectory(s: RemoteServer, path: Path, skipMissing: bool) returns (r: Result<(), string>)
    requires s.Valid() && |path| <= s.env.limit && IsDir(s.nodes, Reach(s.nodes, path))
    modifies s
    ensures s.Valid() && s.chmods == old(s.chmods)
    ensures Outcome(s.Now(), r.Ok?) == DirectoryRun(s.env, skipMissing, old(s.Now()), path)
    decreases Room(s.env, |path|), 0, |s.env.listing(s.nodes, path)| + 1
  {
    var children := s.List(path);
    if children.Err? {
      return Err("transport");
    }
    r := DeleteEach(s, path, children.value, skipMissing);
    if r.Ok? {
      var removed := s.RemoveDir(path, skipMissing);
      return if removed then Ok(()) else Err("transport");
    }
  }

  /** The loop over one directory's entries. */
  method DeleteEach(s: RemoteServer, path: Path, es: seq<DirEntry>, skipMissing: bool) returns (r: Result<(), string>)
    requires s.Valid() && |path| <= s.env.limit
    modifies s
    ensures s.Valid() && s.chmods == old(s.chmods)
    ensures Outcome(s.Now(), r.Ok?) == EntriesRun(s.env, skipMissing, old(s.Now()), path, es)
    decreases Room(s.env, |path|), 0, |es|
  {
    var i := 0;
    while i < |es|
      invariant 0 <= i <= |es|
      invariant s.Valid() && s.chmods == old(s.chmods)
      invariant EntriesRun(s.env, skipMissing, s.Now(), path, es[i..]) ==
                EntriesRun(s.env, skipMissing, old(s.Now()), path, es)
    {
      assert es[i..][1..] == es[i + 1..];
      if !IsDots(es[i].name) {
        r := DeleteOne(s, Child(path, es[i].name), skipMissing);
        if r.Err? {
          return;
        }
      }
      i := i + 1;
    }
    return Ok(());
  }

  method DeleteEntries(s: RemoteServer, parent: Path, names: seq<string>, skipMissing: bool)
    returns (r: Result<nat, (nat, nat)>)
    requires s.Valid()
    modifies s
    ensures s.Valid() && s.chmods == old(s.chmods)
    ensures var t := DeleteAll(s.env, skipMissing, old(s.Now()), parent, names);
            s.Now() == t.st && r == if t.failed > 0 then Err((t.deleted, t.failed)) else Ok(t.deleted)
  {
    var ok, failed := 0, 0;
    var i := 0;
    while i < |names|
      invariant 0 <= i <= |names|
      invariant s.Valid() && s.chmods == old(s.chmods)
      invariant Tally(s.Now(), ok, failed) == DeleteAll(s.env, skipMissing, old(s.Now()), parent, names[..i])
    {
      assert names[..i + 1][..i] == names[..i];
      var deleted := DeleteOne(s, Child(parent, names[i]), skipMissing);
      if deleted.Ok? {
        ok := ok + 1;
      } else {
        failed := failed + 1;
      }
      i := i + 1;
    }
    assert names[..i] == names;
    return if failed > 0 then Err((ok, failed)) else Ok(ok);
  }

  // ---------------------------------------------------------------------------
  // What is removed
  // ---------------------------------------------------------------------------

  /** What a removal can take: a file, a link to something that is not a directory, an empty directory. */
  predicate Loose(nodes: Nodes, q: Path) {
    q in nodes && match nodes[q]
                  case Node(isDir, _) => isDir ==> IsEmptyDir(nodes, q)
                  case Link(target) => target in nodes && !IsDir(nodes, target)
  }

  /** A directory with nothing in it but dangling links: what is left when missing entries are skipped. */
  predicate Hollow(nodes: Nodes, d: Path) {
    IsDir(nodes, d) && Leavable(nodes, d, true)
  }

  /** The name is below a root and stands for something loose, or for an entry of a hollow directory. */
  predicate CanGo(skip: bool, nodes: Nodes, root: Path, p: Path) {
    && root <= p
    && (Loose(nodes, Locate(nodes, p))
        || (skip && root < p && Locate(nodes, p) in nodes && Hollow(nodes, Reach(nodes, p[..|p| - 1]))))
  }

  ghost predicate Takeable(limit: nat, skip: bool, roots: set<Path>, nodes: Nodes, p: Path) {
    |p| <= limit && exists root :: root in roots && CanGo(skip, nodes, root, p)
  }

  /** A run in which each removed name was takeable when its turn came. */
  ghost predicate Steps(limit: nat, skip: bool, roots: set<Path>, nodes: Nodes, log: seq<Path>, after: Nodes) {
    if log == [] then after == nodes
    else
      && Takeable(limit, skip, roots, nodes, log[0])
      && Steps(limit, skip, roots, nodes - {Locate(nodes, log[0])}, log[1..], after)
  }

  /** An entry of a hollow directory dangles. */
  lemma HollowEntry(nodes: Nodes, p: Path)
    requires p != [] && Locate(nodes, p) in nodes && Hollow(nodes, Reach(nodes, p[..|p| - 1]))
    ensures Dangles(nodes, Locate(nodes, p))
  {
    assert Reach(nodes, p[..|p| - 1]) < Locate(nodes, p);
  }

  /** What is taken had nothing below it, and no link that leads to a directory is ever taken. */
  lemma TakenGoes(limit: nat, skip: bool, roots: set<Path>, nodes: Nodes, p: Path)
    requires WellFormed(nodes) && Takeable(limit, skip, roots, nodes, p)
    ensures var rest := nodes - {Locate(nodes, p)};
            && Locate(nodes, p) in nodes && WellFormed(rest) && Subset(rest, nodes) && LinksKept(nodes, rest)
  {
    var q := Locate(nodes, p);
    if !Loose(nodes, q) {
      HollowEntry(nodes, p);
    }
    if !IsDir(nodes, q) {
      LeafHasNothingBelow(nodes, q);
    }
    WellFormedWithout(nodes, q);
  }

  lemma {:induction false} StepsConcat(
    limit: nat, skip: bool, roots: set<Path>, a: Nodes, log1: seq<Path>, b: Nodes, log2: seq<Path>, c: Nodes)
    requires Steps(limit, skip, roots, a, log1, b) && Steps(limit, skip, roots, b, log2, c)
    ensures Steps(limit, skip, roots, a, log1 + log2, c)
  {
    if log1 == [] {
      assert log1 + log2 == log2;
    } else {
      StepsConcat(limit, skip, roots, a - {Locate(a, log1[0])}, log1[1..], b, log2, c);
      assert (log1 + log2)[1..] == log1[1..] + log2;
    }
  }

  /** A run below narrow roots is a run below wider ones. */
  lemma {:induction false} StepsWiden(
    limit: nat, skip: bool, narrow: set<Path>, wide: set<Path>, nodes: Nodes, log: seq<Path>, after: Nodes)
    requires Steps(limit, skip, narrow, nodes, log, after)
    requires forall n :: n in narrow ==> exists w :: w in wide && w <= n
    ensures Steps(limit, skip, wide, nodes, log, after)
  {
    if log != [] {
      var n :| n in narrow && CanGo(skip, nodes, n, log[0]);
      var w :| w in wide && w <= n;
      assert w <= log[0] && (n < log[0] ==> w < log[0]);
      assert CanGo(skip, nodes, w, log[0]);
      StepsWiden(limit, skip, narrow, wide, nodes - {Locate(nodes, log[0])}, log[1..], after);
    }
  }

  lemma {:induction false} StepsFacts(
    limit: nat, skip: bool, roots: set<Path>, nodes: Nodes, log: seq<Path>, after: Nodes)
    requires WellFormed(nodes) && Steps(limit, skip, roots, nodes, log, after)
    ensures WellFormed(after) && Subset(after, nodes) && LinksKept(nodes, after)
  {
    if log != [] {
      TakenGoes(limit, skip, roots, nodes, log[0]);
      StepsFacts(limit, skip, roots, nodes - {Locate(nodes, log[0])}, log[1..], after);
    }
  }

  lemma {:induction false} StepsRoots(
    limit: nat, skip: bool, roots: set<Path>, nodes: Nodes, log: seq<Path>, after: Nodes, p: Path)
    requires Steps(limit, skip, roots, nodes, log, after) && p in log
    ensures exists root :: root in roots && root <= p
  {
    if p == log[0] {
      var root :| root in roots && CanGo(skip, nodes, root, p);
      assert root <= p;
    } else {
      StepsRoots(limit, skip, roots, nodes - {Locate(nodes, log[0])}, log[1..], after, p);
    }
  }

  /** What a run removed, each name takeable in its turn and, unless it succeeded, below the path; no directory
      was asked to be removed too early. */
  ghost predicate Ran(limit: nat, skip: bool, path: Path, before: State, o: Outcome, log: seq<Path>) {
    && o.st.removed == before.removed + log && o.st.calls >= before.calls && o.st.descents == before.descents
    && Steps(limit, skip, {path}, before.nodes, log, o.st.nodes)
    && (o.ok || AllBelow(path, log))
  }

  predicate AllBelow(path: Path, log: seq<Path>) {
    forall p :: p in log ==> path < p
  }

  lemma NothingRan(limit: nat, skip: bool, path: Path, before: State, o: Outcome)
    requires o.st.removed == before.removed && o.st.calls >= before.calls && o.st.descents == before.descents
    requires o.st.nodes == before.nodes
    ensures Ran(limit, skip, path, before, o, [])
  {
    assert before.removed + [] == before.removed;
  }

  lemma OneStep(limit: nat, skip: bool, root: Path, st: State, p: Path)
    requires |p| <= limit && CanGo(skip, st.nodes, root, p)
    ensures Steps(limit, skip, {root}, st.nodes, [p], WithRemoved(st, p).nodes)
  {
    assert root in {root};
    var only := [p];
    assert only[1..] == [];
  }

  /** Two parts of a run. */
  lemma RanTwice(limit: nat, skip: bool, path: Path, st: State, mid: State, end: Outcome, log: seq<Path>,
                 more: seq<Path>)
    requires mid.removed == st.removed + log && mid.calls >= st.calls && mid.descents == st.descents
    requires Steps(limit, skip, {path}, st.nodes, log, mid.nodes) && AllBelow(path, log)
    requires Ran(limit, skip, path, mid, end, more)
    ensures Ran(limit, skip, path, st, end, log + more)
    ensures AllBelow(path, more) ==> AllBelow(path, log + more)
  {
    StepsConcat(limit, skip, {path}, st.nodes, log, mid.nodes, more, end.st.nodes);
    assert st.removed + (log + more) == st.removed + log + more;
  }

  // ---------------------------------------------------------------------------
  // Sweeping
  // ---------------------------------------------------------------------------

  /** The dangling links left in a directory go one by one, each as an entry of a hollow directory. */
  lemma {:induction false} SweepRan(env: Env, skip: bool, st: State, path: Path, es: seq<DirEntry>)
    returns (log: seq<Path>)
    requires WellFormed(st.nodes) && IsDir(st.nodes, Reach(st.nodes, path))
    requires Leavable(st.nodes, Reach(st.nodes, path), skip)
    ensures var o := SweepRun(env, st, path, es);
            Ran(env.limit, skip, path, st, o, log) && AllBelow(path, log)
    decreases |es|
  {
    log := [];
    NothingRan(env.limit, skip, path, st, SweepRun(env, st, path, []));
    if es != [] {
      if IsDots(es[0].name) {
        log := SweepRan(env, skip, st, path, es[1..]);
      } else {
        var child := Child(path, es[0].name);
        var o := RemoveFileAt(env, st, child);
        if o.ok {
          SweptOne(env.limit, skip, st, path, es[0].name);
          var more := SweepRan(env, skip, o.st, path, es[1..]);
          RanTwice(env.limit, skip, path, st, o.st, SweepRun(env, o.st, path, es[1..]), [child], more);
          log := [child] + more;
        } else {
          NothingRan(env.limit, skip, path, st, o);
        }
      }
    }
  }

  /** One entry of a hollow directory: the directory stays where it is, hollow. */
  lemma SweptOne(limit: nat, skip: bool, st: State, path: Path, n: string)
    requires WellFormed(st.nodes) && IsDir(st.nodes, Reach(st.nodes, path))
    requires Leavable(st.nodes, Reach(st.nodes, path), skip)
    requires |Child(path, n)| <= limit && Locate(st.nodes, Child(path, n)) in st.nodes
    ensures var after := WithRemoved(st, Child(path, n)).nodes;
            && Steps(limit, skip, {path}, st.nodes, [Child(path, n)], after) && AllBelow(path, [Child(path, n)])
            && WellFormed(after) && Reach(after, path) == Reach(st.nodes, path)
            && IsDir(after, Reach(after, path)) && Leavable(after, Reach(after, path), skip)
  {
    var d, child := Reach(st.nodes, path), Child(path, n);
    LocateChild(st.nodes, path, n);
    assert d < Child(d, n) && path < child && child[..|child| - 1] == path;
    assert CanGo(skip, st.nodes, path, child);
    OneStep(limit, skip, path, st, child);
    assert path in {path};
    TakenGoes(limit, skip, {path}, st.nodes, child);
    ReachStays(st.nodes, st.nodes - {Child(d, n)}, path);
  }

  // ---------------------------------------------------------------------------
  // Runs
  // ---------------------------------------------------------------------------

  /** After its run went through, a name's place is gone, or it is a dangling link that was skipped. */
  ghost predicate Settled(before: Nodes, after: Nodes, q: Path, skip: bool) {
    q in before && q in after ==> skip && Dangles(after, q)
  }

  lemma {:induction false} DeleteRan(env: Env, skip: bool, st: State, path: Path) returns (log: seq<Path>)
    requires WellFormed(st.nodes) && Lawful(env.listing)
    ensures var o := DeleteRun(env, skip, st, path);
            && Ran(env.limit, skip, path, st, o, log)
            && (o.ok ==> Settled(st.nodes, o.st.nodes, Locate(st.nodes, path), skip))
    decreases Room(env, |path|), 1, 0
  {
    log := [];
    var o := DeleteRun(env, skip, st, path);
    if Broken(env, st.calls, path) || Found(st.nodes, path).None? {
      NothingRan(env.limit, skip, path, st, o);
    } else if Found(st.nodes, path).value {
      log := DirectoryRan(env, skip, Tick(st), path);
    } else if o.ok {
      log := [path];
      OneStep(env.limit, skip, path, Tick(st), path);
    } else {
      NothingRan(env.limit, skip, path, st, o);
    }
  }

  lemma {:induction false} DirectoryRan(env: Env, skip: bool, st: State, path: Path) returns (log: seq<Path>)
    requires WellFormed(st.nodes) && Lawful(env.listing)
    requires |path| <= env.limit && IsDir(st.nodes, Reach(st.nodes, path))
    ensures var o := DirectoryRun(env, skip, st, path);
            && Ran(env.limit, skip, path, st, o, log)
            && (o.ok ==> Locate(st.nodes, path) !in o.st.nodes)
    decreases Room(env, |path|), 0, |env.listing(st.nodes, path)| + 1
  {
    log := [];
    if Broken(env, st.calls, path) {
      NothingRan(env.limit, skip, path, st, DirectoryRun(env, skip, st, path));
    } else {
      var es := env.listing(st.nodes, path);
      var o := EntriesRun(env, skip, Tick(st), path, es);
      log := EntriesRan(env, skip, Tick(st), path, es);
      StepsFacts(env.limit, skip, {path}, st.nodes, log, o.st.nodes);
      if o.ok {
        LeftIsLeavable(st.nodes, o.st.nodes, path, es, skip);
        var more := RemoveDirRan(env, skip, o.st, path);
        var end := RemoveDirAt(env, skip, o.st, path);
        RanTwice(env.limit, skip, path, Tick(st), o.st, end, log, more);
        if end.ok {
          LocateUp(o.st.nodes, st.nodes, path);
        }
        log := log + more;
      }
    }
  }

  /** `remove_dir`, with nothing left but what may be left. */
  lemma RemoveDirRan(env: Env, skip: bool, st: State, path: Path) returns (log: seq<Path>)
    requires WellFormed(st.nodes) && Lawful(env.listing) && |path| <= env.limit
    requires IsDir(st.nodes, Reach(st.nodes, path)) ==> Leavable(st.nodes, Reach(st.nodes, path), skip)
    ensures var o := RemoveDirAt(env, skip, st, path);
            && Ran(env.limit, skip, path, st, o, log)
            && (o.ok ==> Locate(st.nodes, path) in st.nodes && Locate(st.nodes, path) !in o.st.nodes)
  {
    log := [];
    var o := RemoveDirAt(env, skip, st, path);
    RemoveDirOfLeavable(env, skip, st, path);
    if Broken(env, st.calls, path) || !IsDir(st.nodes, Reach(st.nodes, path)) {
      NothingRan(env.limit, skip, path, st, o);
    } else {
      var es := env.listing(st.nodes, path);
      var swept := SweepRun(env, Tick(st), path, es);
      log := SweepRan(env, skip, Tick(st), path, es);
      if swept.ok {
        StepsFacts(env.limit, skip, {path}, st.nodes, log, swept.st.nodes);
        var more := RmdirRan(env, skip, swept.st, path);
        RanTwice(env.limit, skip, path, Tick(st), swept.st, o, log, more);
        if o.ok {
          LocateUp(swept.st.nodes, st.nodes, path);
        }
        log := log + more;
      }
    }
  }

  lemma RmdirRan(env: Env, skip: bool, st: State, path: Path) returns (log: seq<Path>)
    ensures Ran(env.limit, skip, path, st, RmdirAt(env, st, path), log)
    ensures RmdirAt(env, st, path).ok ==>
              IsEmptyDir(st.nodes, Locate(st.nodes, path))
              && RmdirAt(env, st, path).st.nodes == st.nodes - {Locate(st.nodes, path)}
  {
    log := [];
    if RmdirAt(env, st, path).ok {
      log := [path];
      OneStep(env.limit, skip, path, st, path);
    } else {
      NothingRan(env.limit, skip, path, st, RmdirAt(env, st, path));
    }
  }

  /** What the entries' runs left behind, if they went through. */
  ghost predicate EntriesSettled(before: Nodes, after: Nodes, d: Path, es: seq<DirEntry>, skip: bool) {
    IsDir(after, d) ==>
      forall i :: 0 <= i < |es| && !IsDots(es[i].name) ==> Settled(before, after, Child(d, es[i].name), skip)
  }

  lemma {:induction false} EntriesRan(env: Env, skip: bool, st: State, path: Path, es: seq<DirEntry>)
    returns (log: seq<Path>)
    requires WellFormed(st.nodes) && Lawful(env.listing) && |path| <= env.limit
    ensures var o := EntriesRun(env, skip, st, path, es);
            && Ran(env.limit, skip, path, st, o, log) && AllBelow(path, log)
            && (o.ok ==> EntriesSettled(st.nodes, o.st.nodes, Reach(st.nodes, path), es, skip))
    decreases Room(env, |path|), 0, |es|
  {
    log := [];
    NothingRan(env.limit, skip, path, st, EntriesRun(env, skip, st, path, []));
    if es != [] {
      if IsDots(es[0].name) {
        log := EntriesRan(env, skip, st, path, es[1..]);
        DotsSettled(st.nodes, EntriesRun(env, skip, st, path, es).st.nodes, Reach(st.nodes, path), es, skip);
      } else {
        var child := Child(path, es[0].name);
        var o := DeleteRun(env, skip, st, child);
        log := DeleteRan(env, skip, st, child);
        KidSteps(env.limit, skip, path, es[0].name, st.nodes, log, o.st.nodes);
        if o.ok {
          StepsFacts(env.limit, skip, {child}, st.nodes, log, o.st.nodes);
          var end := EntriesRun(env, skip, o.st, path, es[1..]);
          var more := EntriesRan(env, skip, o.st, path, es[1..]);
          RanTwice(env.limit, skip, path, st, o.st, end, log, more);
          StepsFacts(env.limit, skip, {path}, o.st.nodes, more, end.st.nodes);
          if end.ok {
            KidSettled(st.nodes, o.st.nodes, end.st.nodes, path, es, skip);
          }
          log := log + more;
        }
      }
    }
  }

  lemma DotsSettled(before: Nodes, after: Nodes, d: Path, es: seq<DirEntry>, skip: bool)
    requires es != [] && IsDots(es[0].name)
    ensures EntriesSettled(before, after, d, es[1..], skip) ==> EntriesSettled(before, after, d, es, skip)
  {
    forall i | 0 < i < |es| ensures es[i] == es[1..][i - 1] {
    }
  }

  lemma KidSettled(before: Nodes, mid: Nodes, after: Nodes, path: Path, es: seq<DirEntry>, skip: bool)
    requires WellFormed(before) && WellFormed(mid) && es != []
    requires Subset(mid, before) && LinksKept(before, mid) && Subset(after, mid)
    requires Settled(before, mid, Locate(before, Child(path, es[0].name)), skip)
    requires EntriesSettled(mid, after, Reach(mid, path), es[1..], skip)
    ensures EntriesSettled(before, after, Reach(before, path), es, skip)
  {
    var d := Reach(before, path);
    LocateChild(before, path, es[0].name);
    if IsDir(after, d) {
      ReachStays(before, mid, path);
      forall i | 0 <= i < |es| && !IsDots(es[i].name)
        ensures Settled(before, after, Child(d, es[i].name), skip)
      {
        if i > 0 {
          assert es[i] == es[1..][i - 1];
          assert Settled(mid, after, Child(d, es[1..][i - 1].name), skip);
        }
      }
    }
  }

  lemma KidSteps(limit: nat, skip: bool, path: Path, n: string, nodes: Nodes, log: seq<Path>, after: Nodes)
    requires Steps(limit, skip, {Child(path, n)}, nodes, log, after)
    ensures Steps(limit, skip, {path}, nodes, log, after) && AllBelow(path, log)
  {
    var child := Child(path, n);
    assert path <= child && path in {path};
    StepsWiden(limit, skip, {child}, {path}, nodes, log, after);
    forall p | p in log ensures path < p {
      StepsRoots(limit, skip, {child}, nodes, log, after, p);
      ExtendsByName(path, n, p);
    }
  }

  /** Once the listed entries are settled, only skipped dangling links can be left in the directory, if it is
      still what the name leads to. */
  lemma LeftIsLeavable(before: Nodes, after: Nodes, path: Path, es: seq<DirEntry>, skip: bool)
    requires WellFormed(before) && WellFormed(after) && Subset(after, before) && LinksKept(before, after)
    requires Entries(before, Reach(before, path), es)
    requires EntriesSettled(before, after, Reach(before, path), es, skip)
    ensures IsDir(after, Reach(after, path)) ==> Leavable(after, Reach(after, path), skip)
  {
    var d := Reach(before, path);
    if IsDir(after, Reach(after, path)) {
      LocateUp(after, before, path);
      assert Reach(after, path) == d;
      forall r | r in after && d < r ensures skip && Dangles(after, r) {
        EntryLeft(before, after, d, es, skip, r);
      }
    }
  }

  lemma EntryLeft(before: Nodes, after: Nodes, d: Path, es: seq<DirEntry>, skip: bool, r: Path)
    requires WellFormed(before) && WellFormed(after) && Subset(after, before) && IsDir(after, d)
    requires Entries(before, d, es) && EntriesSettled(before, after, d, es, skip) && r in after && d < r
    ensures skip && Dangles(after, r)
  {
    var n := r[|d|];
    EntryOnTheWay(after, d, r);
    ChildNamesAreNodes(before, d, n);
    var i :| 0 <= i < |es| && es[i].name == n;
    assert Settled(before, after, Child(d, es[i].name), skip);
    ExtendsByName(d, n, r);
    if r != Child(d, n) {
      assert Child(d, n) < r;
      EntryOnTheWay(after, Child(d, n), r);
    }
  }

  // ---------------------------------------------------------------------------
  // What a success has done
  // ---------------------------------------------------------------------------

  /** Every node of the tree has a name that the server takes. */
  ghost predicate FitsBelow(nodes: Nodes, path: Path, place: Path, limit: nat) {
    forall q :: q in nodes && place <= q ==> |path| + |q| - |place| <= limit
  }

  /** A success removed exactly the tree at the name's place; or, with `skip`, there was nothing to be found,
      or a link that dangles, and nothing changed. */
  ghost predicate Deleted(before: Nodes, after: Nodes, path: Path, skip: bool, limit: nat) {
    if Found(before, path).Some? then
      && after == before - Below(before, Locate(before, path))
      && FitsBelow(before, path, Locate(before, path), limit)
    else skip && after == before
  }

  lemma {:induction false} SuccessDeletes(env: Env, skip: bool, st: State, path: Path)
    requires WellFormed(st.nodes) && Lawful(env.listing) && DeleteRun(env, skip, st, path).ok
    ensures Deleted(st.nodes, DeleteRun(env, skip, st, path).st.nodes, path, skip, env.limit)
    ensures Found(st.nodes, path) == Some(true) ==> IsDir(st.nodes, Locate(st.nodes, path))
    decreases Room(env, |path|), 1, 0
  {
    var nodes, place := st.nodes, Locate(st.nodes, path);
    if Found(nodes, path) == Some(false) {
      LeafHasNothingBelow(nodes, place);
      forall q | q in nodes && place <= q ensures q == place {
        assert q != place ==> place < q;
      }
      assert Below(nodes, place) == {place};
    } else if Found(nodes, path) == Some(true) {
      var st1 := Tick(Tick(st));
      var es := env.listing(nodes, path);
      var mid := EntriesRun(env, skip, st1, path, es).st;
      var log := EntriesRan(env, skip, st1, path, es);
      StepsFacts(env.limit, skip, {path}, nodes, log, mid.nodes);
      LeftIsLeavable(nodes, mid.nodes, path, es, skip);
      var swept := RemoveDirSweeps(env, skip, mid, path);
      LocateUp(mid.nodes, nodes, path);
      EntriesDelete(env, skip, st1, path, es, place);
      DirectoryDeleted(nodes, mid.nodes, swept, path, place, env.limit);
    }
  }

  /** A `remove_dir` that succeeds: the directory was swept and then empty. */
  lemma RemoveDirSweeps(env: Env, skip: bool, st: State, path: Path) returns (swept: Nodes)
    requires WellFormed(st.nodes) && Lawful(env.listing) && RemoveDirAt(env, skip, st, path).ok
    requires IsDir(st.nodes, Reach(st.nodes, path)) ==> Leavable(st.nodes, Reach(st.nodes, path), skip)
    ensures var place := Locate(st.nodes, path);
            && IsDir(st.nodes, place) && Subset(swept, st.nodes) && IsEmptyDir(swept, place)
            && Narrowed(st.nodes, swept, path, place, env.limit)
            && RemoveDirAt(env, skip, st, path).st.nodes == swept - {place}
  {
    var es := env.listing(st.nodes, path);
    var o := SweepRun(env, Tick(st), path, es);
    swept := o.st.nodes;
    RemoveDirOfLeavable(env, skip, st, path);
    var log := SweepRan(env, skip, Tick(st), path, es);
    StepsFacts(env.limit, skip, {path}, st.nodes, log, swept);
    LocateUp(swept, st.nodes, path);
    SweepNarrows(env, skip, Tick(st), path, es);
  }

  lemma {:induction false} SweepNarrows(env: Env, skip: bool, st: State, path: Path, es: seq<DirEntry>)
    requires WellFormed(st.nodes) && IsDir(st.nodes, Reach(st.nodes, path))
    requires Leavable(st.nodes, Reach(st.nodes, path), skip)
    ensures Narrowed(st.nodes, SweepRun(env, st, path, es).st.nodes, path, Reach(st.nodes, path), env.limit)
    decreases |es|
  {
    if es != [] {
      var child := Child(path, es[0].name);
      var o := RemoveFileAt(env, st, child);
      if IsDots(es[0].name) {
        SweepNarrows(env, skip, st, path, es[1..]);
      } else if o.ok {
        SweptOne(env.limit, skip, st, path, es[0].name);
        SweepNarrows(env, skip, o.st, path, es[1..]);
        LocateChild(st.nodes, path, es[0].name);
      }
    }
  }

  lemma DirectoryDeleted(nodes: Nodes, mid: Nodes, swept: Nodes, path: Path, place: Path, limit: nat)
    requires Subset(mid, nodes) && Subset(swept, mid) && IsEmptyDir(swept, place) && |path| <= limit
    requires Narrowed(nodes, mid, path, place, limit) && Narrowed(mid, swept, path, place, limit)
    ensures swept - {place} == nodes - Below(nodes, place) && FitsBelow(nodes, path, place, limit)
  {
    forall q | q in nodes && place <= q ensures q == place || q !in swept {
      assert q != place ==> place < q;
    }
    assert forall q :: q in nodes && !(place <= q) ==> q in swept;
    assert swept - {place} == nodes - Below(nodes, place);
  }

  /** Only nodes strictly below the place are gone, all of which had names that the server takes. */
  ghost predicate Narrowed(before: Nodes, after: Nodes, path: Path, place: Path, limit: nat) {
    forall q :: q in before && q !in after ==> place < q && |path| + |q| - |place| <= limit
  }

  lemma {:induction false} EntriesDelete(env: Env, skip: bool, st: State, path: Path, es: seq<DirEntry>, place: Path)
    requires WellFormed(st.nodes) && Lawful(env.listing) && |path| <= env.limit
    requires EntriesRun(env, skip, st, path, es).ok
    requires var end := EntriesRun(env, skip, st, path, es).st.nodes; Locate(end, path) == place && IsDir(end, place)
    ensures Narrowed(st.nodes, EntriesRun(env, skip, st, path, es).st.nodes, path, place, env.limit)
    decreases Room(env, |path|), 0, |es|
  {
    if es != [] {
      if IsDots(es[0].name) {
        EntriesDelete(env, skip, st, path, es[1..], place);
      } else {
        var child := Child(path, es[0].name);
        var o := DeleteRun(env, skip, st, child);
        var kidLog := DeleteRan(env, skip, st, child);
        StepsFacts(env.limit, skip, {child}, st.nodes, kidLog, o.st.nodes);
        SuccessDeletes(env, skip, st, child);
        EntriesDelete(env, skip, o.st, path, es[1..], place);
        var log := EntriesRan(env, skip, st, path, es);
        var end := EntriesRun(env, skip, st, path, es).st.nodes;
        StepsFacts(env.limit, skip, {path}, st.nodes, log, end);
        LocateUp(end, st.nodes, path);
        LocateChild(st.nodes, path, es[0].name);
        KidNarrows(st.nodes, o.st.nodes, path, es[0].name, place, skip, env.limit);
      }
    }
  }

  lemma KidNarrows(before: Nodes, after: Nodes, path: Path, n: string, place: Path, skip: bool, limit: nat)
    requires Deleted(before, after, Child(path, n), skip, limit)
    requires Locate(before, Child(path, n)) == Child(place, n)
    ensures Narrowed(before, after, path, place, limit)
  {
    forall q | q in before && q !in after ensures place < q && |path| + |q| - |place| <= limit {
      ExtendsByName(place, n, q);
    }
  }
}
