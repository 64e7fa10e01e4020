/** A server that holds a tree of files, directories and symbolic links and may fail any single call, as the
    SFTP backend shows it: `exists`, `stat`, `list` and `chmod` follow links, the removals do not, and the
    backend's `remove_dir` first removes what is left in the directory. */
module RemoteTree {
  import opened Text

  /** A path as its sequence of entry names; the parent of `p` is `p` without its last name. */
  type Path = seq<string>

  /** A link leads to the place it finally resolves to, or dangles when nothing is there. */
  datatype Node = Node(isDir: bool, mode: bv32) | Link(target: Path)

  type Nodes = map<Path, Node>

  datatype DirEntry = DirEntry(name: string, isDir: bool)

  /** `join_remote_path` on name sequences. */
  function Child(p: Path, n: string): (q: Path) {
    p + [n]
  }

  predicate IsDots(name: string) {
    name == "." || name == ".."
  }

  // ---------------------------------------------------------------------------
  // Names and places
  // ---------------------------------------------------------------------------

  /** Where a place leads. */
  function Resolve(nodes: Nodes, q: Path): (r: Path) {
    if q in nodes && nodes[q].Link? then nodes[q].target else q
  }

  /** The place a name stands for: links on the way are followed, one at the end is not. */
  function Locate(nodes: Nodes, p: Path): (q: Path)
    decreases |p|
  {
    if p == [] then [] else Child(Resolve(nodes, Locate(nodes, p[..|p| - 1])), p[|p| - 1])
  }

  /** Where a name leads. */
  function Reach(nodes: Nodes, p: Path): (r: Path) {
    Resolve(nodes, Locate(nodes, p))
  }

  lemma LocateChild(nodes: Nodes, p: Path, n: string)
    ensures Locate(nodes, Child(p, n)) == Child(Reach(nodes, p), n)
  {
    assert Child(p, n)[..|p|] == p;
  }

  predicate IsDir(nodes: Nodes, q: Path) {
    q in nodes && nodes[q].Node? && nodes[q].isDir
  }

  /** Every node but the root sits in a directory, none is called "." or "..", and no link leads to a link. */
  ghost predicate WellFormed(nodes: Nodes) {
    && (forall p, n :: Child(p, n) in nodes ==> !IsDots(n) && IsDir(nodes, p))
    && forall l :: l in nodes && nodes[l].Link? && nodes[l].target in nodes ==> nodes[nodes[l].target].Node?
  }

  ghost function Below(nodes: Nodes, p: Path): (s: set<Path>) {
    set q | q in nodes && p <= q
  }

  /** At or below one of the entries `names` of the directory `p`. */
  predicate AtNames(p: Path, names: set<string>, q: Path) {
    p < q && q[|p|] in names
  }

  ghost function ChildNames(nodes: Nodes, p: Path): (s: set<string>) {
    set q | q in nodes && |q| == |p| + 1 && p < q :: q[|p|]
  }

  /** A node below a place lies below one of its entries, that entry is a node, and the place a directory. */
  lemma {:induction false} EntryOnTheWay(nodes: Nodes, p: Path, q: Path)
    requires WellFormed(nodes) && q in nodes && p < q
    ensures Child(p, q[|p|]) in nodes && IsDir(nodes, p)
    decreases |q|
  {
    var up := q[..|q| - 1];
    assert q == Child(up, q[|q| - 1]);
    if |q| == |p| + 1 {
      assert up == p;
    } else {
      EntryOnTheWay(nodes, p, up);
    }
  }

  lemma ExtendsByName(p: Path, n: string, q: Path)
    ensures Child(p, n) <= q <==> p < q && q[|p|] == n
  {
    if Child(p, n) <= q {
      assert q[|p|] == Child(p, n)[|p|];
      assert q[..|p|] == Child(p, n)[..|p|] == p;
    }
    if p < q && q[|p|] == n {
      assert q[..|p| + 1] == Child(p, n);
    }
  }

  lemma ChildNamesAreNodes(nodes: Nodes, p: Path, n: string)
    requires WellFormed(nodes)
    ensures n in ChildNames(nodes, p) <==> Child(p, n) in nodes
    ensures Child(p, n) in nodes ==> !IsDots(n)
  {
    if n in ChildNames(nodes, p) {
      var q :| q in nodes && |q| == |p| + 1 && p < q && q[|p|] == n;
      assert q == Child(p, n);
    }
    if Child(p, n) in nodes {
      var q := Child(p, n);
      assert q[|p|] == n && p < q;
    }
  }

  /** Part of a tree: the same nodes, as far as they are left. */
  predicate Subset(part: Nodes, whole: Nodes) {
    forall p :: p in part ==> p in whole && part[p] == whole[p]
  }

  /** What a name stands for in a part of the tree it also stood for in the whole. */
  lemma {:induction false} LocateUp(part: Nodes, whole: Nodes, p: Path)
    requires WellFormed(part) && Subset(part, whole) && Locate(part, p) in part
    ensures Locate(whole, p) == Locate(part, p)
    decreases |p|
  {
    if p != [] {
      var up := p[..|p| - 1];
      var u := Locate(part, up);
      assert IsDir(part, Resolve(part, u));
      LocateUp(part, whole, up);
    }
  }

  /** Everything on the way to a node is a node. */
  lemma {:induction false} WayExists(nodes: Nodes, p: Path, up: Path)
    requires WellFormed(nodes) && Locate(nodes, p) in nodes && up <= p
    ensures Locate(nodes, up) in nodes && (up != p ==> IsDir(nodes, Reach(nodes, up)))
    decreases |p|
  {
    if up == p {
    } else {
      var init := p[..|p| - 1];
      assert IsDir(nodes, Reach(nodes, init));
      assert up <= init;
      assert Locate(nodes, init) in nodes;
      WayExists(nodes, init, up);
    }
  }

  /** The links that lead to a directory that is still there are still there. */
  ghost predicate LinksKept(before: Nodes, after: Nodes) {
    forall l :: l in before && before[l].Link? && IsDir(after, before[l].target) ==> l in after
  }

  /** Then the way to a directory stays the way to it. */
  lemma {:induction false} ReachStays(before: Nodes, after: Nodes, p: Path)
    requires WellFormed(before) && WellFormed(after) && Subset(after, before) && LinksKept(before, after)
    requires IsDir(after, Reach(before, p))
    ensures Locate(after, p) == Locate(before, p) && Reach(after, p) == Reach(before, p)
    decreases |p|
  {
    var u := Locate(before, p);
    assert u in after;
    if p != [] {
      ReachStays(before, after, p[..|p| - 1]);
    }
  }

  // ---------------------------------------------------------------------------
  // The server
  // ---------------------------------------------------------------------------

  /** A listing of the directory `d`: its entries once each with their own kind, plus possibly "." and "..". */
  ghost predicate Entries(nodes: Nodes, d: Path, es: seq<DirEntry>) {
    && (forall i :: 0 <= i < |es| && !IsDots(es[i].name) ==>
          Child(d, es[i].name) in nodes && (es[i].isDir <==> IsDir(nodes, Child(d, es[i].name))))
    && (forall n :: n in ChildNames(nodes, d) ==> exists i :: 0 <= i < |es| && es[i].name == n)
    && (forall i, j :: 0 <= i < j < |es| ==> es[i].name != es[j].name)
  }

  /** The order in which a server lists what a name leads to. */
  type Listing = (Nodes, Path) -> seq<DirEntry>

  ghost predicate Lawful(listing: Listing) {
    forall nodes, p :: WellFormed(nodes) && IsDir(nodes, Reach(nodes, p)) ==>
                         Entries(nodes, Reach(nodes, p), listing(nodes, p))
  }

  /** What the server decides: its listings, which calls fail in transport, counted from the first, and the
      longest name it takes. */
  datatype Env = Env(listing: Listing, fails: nat -> bool, limit: nat)

  /** The nodes, the number of calls, how often a directory was asked to be removed in which too much was left,
      and the names under which something was removed. */
  datatype State = State(nodes: Nodes, calls: nat, descents: nat, removed: seq<Path>)

  predicate Broken(env: Env, calls: nat, p: Path) {
    env.fails(calls) || |p| > env.limit
  }

  function Tick(st: State): (st': State) {
    st.(calls := st.calls + 1)
  }

  datatype Outcome = Outcome(st: State, ok: bool)

  function WithRemoved(st: State, p: Path): (st': State) {
    st.(nodes := st.nodes - {Locate(st.nodes, p)}, calls := st.calls + 1, removed := st.removed + [p])
  }

  /** `remove_file`: a file, or a link whatever it leads to. */
  function RemoveFileAt(env: Env, st: State, p: Path): (o: Outcome) {
    var q := Locate(st.nodes, p);
    if Broken(env, st.calls, p) || q !in st.nodes || IsDir(st.nodes, q) then Outcome(Tick(st), false)
    else Outcome(WithRemoved(st, p), true)
  }

  predicate IsEmptyDir(nodes: Nodes, q: Path) {
    IsDir(nodes, q) && forall r :: r in nodes ==> !(q < r)
  }

  /** The server's own removal of a directory: an empty one, not a link to one. */
  function RmdirAt(env: Env, st: State, p: Path): (o: Outcome) {
    if Broken(env, st.calls, p) || !IsEmptyDir(st.nodes, Locate(st.nodes, p)) then Outcome(Tick(st), false)
    else Outcome(WithRemoved(st, p), true)
  }

  predicate Dangles(nodes: Nodes, q: Path) {
    q in nodes && nodes[q].Link? && nodes[q].target !in nodes
  }

  /** What may be left in a directory that is to be removed: nothing, or dangling links that were skipped. */
  predicate Leavable(nodes: Nodes, d: Path, skip: bool) {
    forall r :: r in nodes && d < r ==> skip && Dangles(nodes, r)
  }

  /** The removal of what is left, entry by entry. */
  function SweepRun(env: Env, st: State, p: Path, es: seq<DirEntry>): (o: Outcome)
    decreases |es|
  {
    if es == [] then Outcome(st, true)
    else if IsDots(es[0].name) then SweepRun(env, st, p, es[1..])
    else
      var o := RemoveFileAt(env, st, Child(p, es[0].name));
      if o.ok then SweepRun(env, o.st, p, es[1..]) else o
  }

  datatype Listed = Listed(st: State, ok: bool, subdirs: seq<Path>)

  /** One listing of the backend's `remove_dir`: subdirectories are kept for later, the rest is removed. */
  function DrainRun(env: Env, st: State, p: Path, es: seq<DirEntry>): (l: Listed)
    decreases |es|
  {
    if es == [] then Listed(st, true, [])
    else if IsDots(es[0].name) then DrainRun(env, st, p, es[1..])
    else if es[0].isDir then
      var l := DrainRun(env, st, p, es[1..]);
      l.(subdirs := [Child(p, es[0].name)] + l.subdirs)
    else
      var o := RemoveFileAt(env, st, Child(p, es[0].name));
      if o.ok then DrainRun(env, o.st, p, es[1..]) else Listed(o.st, false, [])
  }

  /** A directory of the queue: it is listed, following a link, and emptied of what is no directory. */
  function VisitRun(env: Env, st: State, p: Path): (l: Listed) {
    if Broken(env, st.calls, p) || !IsDir(st.nodes, Reach(st.nodes, p)) then Listed(Tick(st), false, [])
    else DrainRun(env, Tick(st), p, env.listing(st.nodes, p))
  }

  /** The directories found, the last one first. */
  function ClimbRun(env: Env, st: State, dirs: seq<Path>): (o: Outcome)
    decreases |dirs|
  {
    if dirs == [] then Outcome(st, true)
    else
      var o := RmdirAt(env, st, dirs[|dirs| - 1]);
      if o.ok then ClimbRun(env, o.st, dirs[..|dirs| - 1]) else o
  }

  /** Paths of one depth, then paths of the next, which are there only if the server took the former. */
  predicate TwoDepths(env: Env, level: seq<Path>, next: seq<Path>, n: nat) {
    && (forall p :: p in level ==> |p| == n)
    && (forall p :: p in next ==> |p| == n + 1)
    && (next != [] ==> n <= env.limit)
  }

  lemma {:induction false} DrainDepth(env: Env, st: State, p: Path, es: seq<DirEntry>)
    ensures forall q :: q in DrainRun(env, st, p, es).subdirs ==> |q| == |p| + 1
    decreases |es|
  {
    if es != [] {
      if IsDots(es[0].name) || es[0].isDir {
        DrainDepth(env, st, p, es[1..]);
      } else {
        DrainDepth(env, RemoveFileAt(env, st, Child(p, es[0].name)).st, p, es[1..]);
      }
    }
  }

  /** A turn keeps the queue to two depths. */
  lemma DepthsAfter(env: Env, st: State, level: seq<Path>, next: seq<Path>, n: nat)
    requires TwoDepths(env, level, next, n) && level != [] && VisitRun(env, st, level[0]).ok
    ensures n <= env.limit && TwoDepths(env, level[1..], next + VisitRun(env, st, level[0]).subdirs, n)
  {
    assert level[0] in level;
    DrainDepth(env, Tick(st), level[0], env.listing(st.nodes, level[0]));
    forall p | p in level[1..] ensures |p| == n {
      assert p in level;
    }
  }

  function Room(env: Env, n: nat): (k: nat) {
    if n <= env.limit then env.limit - n + 1 else 0
  }

  /** The whole descent: the queue holds what is left of one depth and then what was found of the next. */
  function DescendRun(env: Env, st: State, level: seq<Path>, next: seq<Path>, dirs: seq<Path>, n: nat): (o: Outcome)
    requires TwoDepths(env, level, next, n)
    decreases Room(env, n), |level|
  {
    if level == [] then
      if next == [] then ClimbRun(env, st, dirs) else DescendRun(env, st, next, [], dirs, n + 1)
    else
      var l := VisitRun(env, st, level[0]);
      if l.ok then
        DepthsAfter(env, st, level, next, n);
        DescendRun(env, l.st, level[1..], next + l.subdirs, dirs + [level[0]], n)
      else Outcome(l.st, false)
  }

  /** A directory is asked to be removed in which too much is left. */
  predicate Crowded(env: Env, skip: bool, st: State, p: Path) {
    var d := Reach(st.nodes, p);
    !Broken(env, st.calls, p) && IsDir(st.nodes, d) && !Leavable(st.nodes, d, skip)
  }

  /** The backend's `remove_dir`. Asked to remove a directory in which too much is left it would delete what
      `delete_one` never listed, so that is counted. */
  function RemoveDirAt(env: Env, skip: bool, st: State, p: Path): (o: Outcome) {
    DescendRun(env, if Crowded(env, skip, st, p) then st.(descents := st.descents + 1) else st, [p], [], [], |p|)
  }

  lemma {:induction false} DrainIsSweep(env: Env, st: State, p: Path, es: seq<DirEntry>)
    requires forall i :: 0 <= i < |es| && !IsDots(es[i].name) ==> !es[i].isDir
    ensures var o := SweepRun(env, st, p, es); DrainRun(env, st, p, es) == Listed(o.st, o.ok, [])
    decreases |es|
  {
    if es != [] {
      assert forall i :: 0 <= i < |es[1..]| ==> es[1..][i] == es[i + 1];
      if IsDots(es[0].name) {
        DrainIsSweep(env, st, p, es[1..]);
      } else {
        var o := RemoveFileAt(env, st, Child(p, es[0].name));
        if o.ok {
          DrainIsSweep(env, o.st, p, es[1..]);
        }
      }
    }
  }

  /** Where only dangling links are left there is nothing to descend into: the loops come to removing those and
      then the directory. */
  lemma RemoveDirOfLeavable(env: Env, skip: bool, st: State, p: Path)
    requires WellFormed(st.nodes) && Lawful(env.listing) && !Crowded(env, skip, st, p)
    ensures RemoveDirAt(env, skip, st, p)
         == if Broken(env, st.calls, p) || !IsDir(st.nodes, Reach(st.nodes, p)) then Outcome(Tick(st), false)
            else
              var o := SweepRun(env, Tick(st), p, env.listing(st.nodes, p));
              if o.ok then RmdirAt(env, o.st, p) else o
  {
    if !Broken(env, st.calls, p) && IsDir(st.nodes, Reach(st.nodes, p)) {
      NothingToDescend(env, skip, st, p);
      var o := SweepRun(env, Tick(st), p, env.listing(st.nodes, p));
      DescendPops(env, st, [p], [], [], |p|, RemoveDirAt(env, skip, st, p));
      if o.ok {
        OneDirectory(env, o.st, p);
      }
    }
  }

  lemma NothingToDescend(env: Env, skip: bool, st: State, p: Path)
    requires WellFormed(st.nodes) && Lawful(env.listing) && !Broken(env, st.calls, p)
    requires IsDir(st.nodes, Reach(st.nodes, p)) && Leavable(st.nodes, Reach(st.nodes, p), skip)
    ensures var o := SweepRun(env, Tick(st), p, env.listing(st.nodes, p));
            VisitRun(env, st, p) == Listed(o.st, o.ok, [])
  {
    var d, es := Reach(st.nodes, p), env.listing(st.nodes, p);
    assert Entries(st.nodes, d, es);
    forall i | 0 <= i < |es| && !IsDots(es[i].name) ensures !es[i].isDir {
      assert d < Child(d, es[i].name);
    }
    DrainIsSweep(env, Tick(st), p, es);
  }

  lemma OneDirectory(env: Env, st: State, p: Path)
    ensures DescendRun(env, st, [], [], [p], |p|) == RmdirAt(env, st, p)
    ensures [p][1..] == [] && [] + [p] == [p]
  {
    assert [p][..0] == [];
    assert ClimbRun(env, st, [p]) == if RmdirAt(env, st, p).ok then ClimbRun(env, RmdirAt(env, st, p).st, [])
                                     else RmdirAt(env, st, p);
  }

  lemma PopAndPush<T>(a: seq<T>, b: seq<T>, c: seq<T>)
    requires a != []
    ensures (a + b)[0] == a[0] && (a + b)[1..] + c == a[1..] + (b + c)
  {
    assert (a + b)[1..] == a[1..] + b;
  }

  /** The descent from here comes to `goal`. */
  ghost predicate Descending(env: Env, st: State, level: seq<Path>, next: seq<Path>, dirs: seq<Path>, n: nat,
                             goal: Outcome) {
    TwoDepths(env, level, next, n) && DescendRun(env, st, level, next, dirs, n) == goal
  }

  /** A turn takes the front of the queue and, unless it fails, appends what it found. */
  lemma DescendPops(env: Env, st: State, level: seq<Path>, next: seq<Path>, dirs: seq<Path>, n: nat, goal: Outcome)
    requires Descending(env, st, level, next, dirs, n, goal) && level != []
    ensures var l := VisitRun(env, st, level[0]);
            if l.ok then
              && Descending(env, l.st, level[1..], next + l.subdirs, dirs + [level[0]], n, goal)
              && (level + next)[0] == level[0] && (level + next)[1..] + l.subdirs == level[1..] + (next + l.subdirs)
            else goal == Outcome(l.st, false) && (level + next)[0] == level[0]
  {
    var l := VisitRun(env, st, level[0]);
    PopAndPush(level, next, l.subdirs);
    if l.ok {
      DepthsAfter(env, st, level, next, n);
    }
  }

  /** When a depth is done the next one begins. */
  lemma NextDepth(env: Env, st: State, next: seq<Path>, dirs: seq<Path>, n: nat, goal: Outcome)
    requires Descending(env, st, [], next, dirs, n, goal) && next != []
    ensures Descending(env, st, next, [], dirs, n + 1, goal) && Room(env, n + 1) < Room(env, n)
    ensures [] + next == next == next + []
  {
  }

  lemma WellFormedWithout(nodes: Nodes, q: Path)
    requires WellFormed(nodes) && forall r :: r in nodes ==> !(q < r)
    ensures WellFormed(nodes - {q}) && Subset(nodes - {q}, nodes)
  {
    var rest := nodes - {q};
    forall p, n | Child(p, n) in rest ensures !IsDots(n) && IsDir(rest, p) {
      assert Child(p, n) in nodes;
      assert p == q ==> q < Child(p, n);
    }
  }

  /** What is not a directory has nothing below it. */
  lemma LeafHasNothingBelow(nodes: Nodes, q: Path)
    requires WellFormed(nodes) && !IsDir(nodes, q)
    ensures forall r :: r in nodes ==> !(q < r)
  {
    forall r | r in nodes && q < r ensures false {
      EntryOnTheWay(nodes, q, r);
    }
  }

  /** The loop over a listing, halfway: what is still to come, behind what was found. */
  ghost predicate Drained(env: Env, start: State, p: Path, es: seq<DirEntry>, now: State, rest: seq<DirEntry>,
                          found: seq<Path>) {
    var all, l := DrainRun(env, start, p, es), DrainRun(env, now, p, rest);
    all.st == l.st && all.ok == l.ok && (l.ok ==> all.subdirs == found + l.subdirs)
  }

  lemma DrainFound(env: Env, st: State, p: Path, es: seq<DirEntry>, found: seq<Path>)
    requires es != [] && !IsDots(es[0].name) && es[0].isDir
    requires found != [] && found[|found| - 1] == Child(p, es[0].name)
    ensures var l, m := DrainRun(env, st, p, es), DrainRun(env, st, p, es[1..]);
            l.st == m.st && l.ok == m.ok && found[..|found| - 1] + l.subdirs == found + m.subdirs
  {
    var m := DrainRun(env, st, p, es[1..]);
    var front, q := found[..|found| - 1], Child(p, es[0].name);
    assert found == front + [q];
    assert front + ([q] + m.subdirs) == (front + [q]) + m.subdirs;
  }

  class RemoteServer {
    const env: Env
    var nodes: Nodes
    var calls: nat
    var descents: nat
    var removed: seq<Path>
    /** The names under which a mode was changed, in order. */
    var chmods: seq<Path>

    ghost predicate Valid()
      reads this
    {
      WellFormed(nodes) && Lawful(env.listing)
    }

    function Now(): (st: State)
      reads this
    {
      State(nodes, calls, descents, removed)
    }

    constructor (nodes: Nodes, env: Env)
      requires WellFormed(nodes) && Lawful(env.listing)
      ensures Valid() && this.env == env && Now() == State(nodes, 0, 0, []) && chmods == []
    {
      this.nodes, this.env := nodes, env;
      calls, descents, removed, chmods := 0, 0, [], [];
    }

    /** Whether what the name leads to is there, and whether it is a directory. */
    method Exists(p: Path) returns (r: Result<Option<bool>, ()>)
      modifies this`calls
      ensures calls == old(calls) + 1
      ensures r == if Broken(env, old(calls), p) then Err(()) else Ok(Found(nodes, p))
    {
      calls := calls + 1;
      return if Broken(env, calls - 1, p) then Err(()) else Ok(Found(nodes, p));
    }

    method Stat(p: Path) returns (r: Result<Node, ()>)
      modifies this`calls
      ensures calls == old(calls) + 1
      ensures r == if Broken(env, old(calls), p) || Reach(nodes, p) !in nodes then Err(())
                   else Ok(nodes[Reach(nodes, p)])
    {
      calls := calls + 1;
      if Broken(env, calls - 1, p) || Reach(nodes, p) !in nodes {
        return Err(());
      }
      return Ok(nodes[Reach(nodes, p)]);
    }

    /** The entries of the directory a name leads to, each once, in the server's own order. */
    method List(p: Path) returns (r: Result<seq<DirEntry>, ()>)
      requires Valid()
      modifies this`calls
      ensures calls == old(calls) + 1
      ensures r.Ok? <==> !Broken(env, old(calls), p) && IsDir(nodes, Reach(nodes, p))
      ensures r.Ok? ==> r.value == env.listing(nodes, p) && Entries(nodes, Reach(nodes, p), r.value)
    {
      calls := calls + 1;
      if Broken(env, calls - 1, p) || !IsDir(nodes, Reach(nodes, p)) {
        return Err(());
      }
      return Ok(env.listing(nodes, p));
    }

    method RemoveFile(p: Path) returns (ok: bool)
      requires Valid()
      modifies this`calls, this`nodes, this`removed
      ensures Valid() && Outcome(Now(), ok) == RemoveFileAt(env, old(Now()), p)
    {
      calls := calls + 1;
      var q := Locate(nodes, p);
      if Broken(env, calls - 1, p) || q !in nodes || IsDir(nodes, q) {
        return false;
      }
      LeafHasNothingBelow(nodes, q);
      WellFormedWithout(nodes, q);
      nodes, removed := nodes - {q}, removed + [p];
      return true;
    }

    method Rmdir(p: Path) returns (ok: bool)
      requires Valid()
      modifies this`calls, this`nodes, this`removed
      ensures Valid() && Outcome(Now(), ok) == RmdirAt(env, old(Now()), p)
    {
      calls := calls + 1;
      var q := Locate(nodes, p);
      if Broken(env, calls - 1, p) || !IsEmptyDir(nodes, q) {
        return false;
      }
      WellFormedWithout(nodes, q);
      nodes, removed := nodes - {q}, removed + [p];
      return true;
    }

    /** The loop over one listing: the subdirectories, or none when something could not be removed. */
    method Drain(p: Path, es: seq<DirEntry>) returns (subdirs: Option<seq<Path>>)
      requires Valid()
      modifies this`calls, this`nodes, this`removed
      ensures Valid()
      ensures var l := DrainRun(env, old(Now()), p, es);
              Now() == l.st && (subdirs.Some? <==> l.ok) && (l.ok ==> subdirs == Some(l.subdirs))
    {
      var found: seq<Path> := [];
      var i := 0;
      while i < |es|
        invariant 0 <= i <= |es| && Valid()
        invariant Drained(env, old(Now()), p, es, Now(), es[i..], found)
      {
        ghost var before, rest := Now(), es[i..];
        assert rest[1..] == es[i + 1..];
        if IsDots(es[i].name) {
        } else if es[i].isDir {
          found := found + [Child(p, es[i].name)];
          DrainFound(env, before, p, rest, found);
        } else {
          var ok := RemoveFile(Child(p, es[i].name));
          if !ok {
            return None;
          }
        }
        i := i + 1;
      }
      assert es[i..] == [] && found + [] == found;
      return Some(found);
    }

    /** The backend's `remove_dir`. `skip` is whether dangling links may be left in the directory; it only says what
        is counted. */
    method RemoveDir(p: Path, skip: bool) returns (ok: bool)
      requires Valid()
      modifies this`calls, this`nodes, this`descents, this`removed
      ensures Valid() && Outcome(Now(), ok) == RemoveDirAt(env, skip, old(Now()), p)
    {
      if Crowded(env, skip, Now(), p) {
        descents := descents + 1;
      }
      ok := Descend(p);
    }

    method Visit(p: Path) returns (subdirs: Option<seq<Path>>)
      requires Valid()
      modifies this`calls, this`nodes, this`removed
      ensures Valid()
      ensures var l := VisitRun(env, old(Now()), p);
              Now() == l.st && (subdirs.Some? <==> l.ok) && (l.ok ==> subdirs == Some(l.subdirs))
    {
      var entries := List(p);
      if entries.Err? {
        return None;
      }
      subdirs := Drain(p, entries.value);
    }

    /** Breadth first: directories are collected top-down, then removed deepest first. */
    method Descend(p: Path) returns (ok: bool)
      requires Valid()
      modifies this`calls, this`nodes, this`removed
      ensures Valid() && Outcome(Now(), ok) == DescendRun(env, old(Now()), [p], [], [], |p|)
    {
      var queue, dirs: seq<Path> := [p], [];
      ghost var goal := DescendRun(env, Now(), [p], [], [], |p|);
      ghost var level: seq<Path>, next: seq<Path>, n: nat := [p], [], |p|;
      while queue != []
        invariant Valid() && queue == level + next && Descending(env, Now(), level, next, dirs, n, goal)
        decreases Room(env, n), |level|
      {
        if level == [] {
          NextDepth(env, Now(), next, dirs, n, goal);
          level, next, n := next, [], n + 1;
        }
        var current := queue[0];
        DescendPops(env, Now(), level, next, dirs, n, goal);
        var subdirs := Visit(current);
        if subdirs.None? {
          return false;
        }
        queue, dirs := queue[1..] + subdirs.value, dirs + [current];
        level, next := level[1..], next + subdirs.value;
      }
      ok := Climb(dirs);
    }

    method Climb(dirs: seq<Path>) returns (ok: bool)
      requires Valid()
      modifies this`calls, this`nodes, this`removed
      ensures Valid() && Outcome(Now(), ok) == ClimbRun(env, old(Now()), dirs)
    {
      var i := |dirs|;
      assert dirs[..i] == dirs;
      while i > 0
        invariant 0 <= i <= |dirs| && Valid()
        invariant ClimbRun(env, Now(), dirs[..i]) == ClimbRun(env, old(Now()), dirs)
      {
        i := i - 1;
        assert dirs[..i + 1][..i] == dirs[..i];
        ok := Rmdir(dirs[i]);
        if !ok {
          return;
        }
      }
      return true;
    }

    /** Changes the mode of what the name leads to. */
    method Chmod(p: Path, mode: bv32) returns (ok: bool)
      requires Valid()
      modifies this`calls, this`nodes, this`chmods
      ensures Valid() && calls == old(calls) + 1
      ensures ok <==> !Broken(env, old(calls), p) && Reach(old(nodes), p) in old(nodes)
      ensures ok ==> nodes == WithMode(old(nodes), Reach(old(nodes), p), mode)
                     && chmods == old(chmods) + [p]
      ensures !ok ==> nodes == old(nodes) && chmods == old(chmods)
    {
      calls := calls + 1;
      if Broken(env, calls - 1, p) || Reach(nodes, p) !in nodes {
        return false;
      }
      WellFormedWithMode(nodes, Reach(nodes, p), mode);
      chmods := chmods + [p];
      nodes := WithMode(nodes, Reach(nodes, p), mode);
      return true;
    }
  }

  function Found(nodes: Nodes, p: Path): (r: Option<bool>) {
    var q := Reach(nodes, p);
    if q in nodes then Some(IsDir(nodes, q)) else None
  }

  /** A changed mode; a link has none. */
  function WithMode(nodes: Nodes, q: Path, mode: bv32): (after: Nodes) {
    if q in nodes && nodes[q].Node? then nodes[q := nodes[q].(mode := mode)] else nodes
  }

  lemma WellFormedWithMode(nodes: Nodes, q: Path, mode: bv32)
    requires WellFormed(nodes)
    ensures WellFormed(WithMode(nodes, q, mode))
  {
    var after := WithMode(nodes, q, mode);
    assert after.Keys == nodes.Keys;
    forall p, n | Child(p, n) in after ensures !IsDots(n) && IsDir(after, p) {
      assert Child(p, n) in nodes;
    }
  }
}
