/** Recursive chmod (`change_permissions_recursive` of `remote.rs`) on a tree with symbolic links. A link in the
    tree is not descended into, but its chmod lands on what it leads to. */
module RemotePermissions {
  import opened Text
  import opened RemoteTree

  /** The mode applied: the requested permission bits on top of the stat'ed file-type bits. */
  function Compose(current: bv32, requested: bv32): (mode: bv32)
    ensures mode & 0x1FF == requested & 0x1FF
    ensures mode & !0x1FF == current & !0x1FF
  {
    (current & !0x1FF) | (requested & 0x1FF)
  }

  // ---------------------------------------------------------------------------
  // Names and places
  // ---------------------------------------------------------------------------

  /** The tree to work on: the name of its root, and the directory that name leads to. */
  datatype Tree = Tree(name: Path, top: Path)

  /** The name under which the walk comes to a place of the tree. */
  function NameOf(t: Tree, q: Path): (p: Path)
    requires t.top <= q
  {
    t.name + q[|t.top|..]
  }

  predicate AllBelow(t: Tree, places: seq<Path>) {
    forall i :: 0 <= i < |places| ==> t.top <= places[i]
  }

  function NamesOf(t: Tree, places: seq<Path>): (ps: seq<Path>)
    requires AllBelow(t, places)
  {
    if places == [] then [] else NamesOf(t, places[..|places| - 1]) + [NameOf(t, places[|places| - 1])]
  }

  lemma NamesOfPush(t: Tree, places: seq<Path>, q: Path)
    requires AllBelow(t, places) && t.top <= q
    ensures AllBelow(t, places + [q]) && NamesOf(t, places + [q]) == NamesOf(t, places) + [NameOf(t, q)]
  {
    assert (places + [q])[..|places|] == places;
  }

  lemma NameOfChild(t: Tree, q: Path, n: string)
    requires t.top <= q
    ensures t.top <= Child(q, n) && NameOf(t, Child(q, n)) == Child(NameOf(t, q), n)
  {
    assert Child(q, n)[|t.top|..] == q[|t.top|..] + [n];
  }

  /** The walk's names lead where their places lead. */
  lemma {:induction false} NameReaches(nodes: Nodes, t: Tree, q: Path)
    requires WellFormed(nodes) && Reach(nodes, t.name) == t.top && t.top in nodes && q in nodes && t.top <= q
    ensures Reach(nodes, NameOf(t, q)) == Resolve(nodes, q)
    decreases |q|
  {
    if q == t.top {
      assert NameOf(t, q) == t.name;
    } else {
      var up, n := q[..|q| - 1], q[|q| - 1];
      assert q == Child(up, n) && t.top <= up;
      NameReaches(nodes, t, up);
      NameOfChild(t, up, n);
      LocateChild(nodes, NameOf(t, up), n);
    }
  }

  // ---------------------------------------------------------------------------
  // What the chmods so far have done
  // ---------------------------------------------------------------------------

  function Count(log: seq<Path>, q: Path): (n: nat) {
    if log == [] then 0 else Count(log[..|log| - 1], q) + if log[|log| - 1] == q then 1 else 0
  }

  /** Some logged place leads to `q`. */
  predicate Hit(nodes: Nodes, log: seq<Path>, q: Path) {
    log != [] && (Resolve(nodes, log[|log| - 1]) == q || Hit(nodes, log[..|log| - 1], q))
  }

  function WithBits(n: Node, mode: bv32): (m: Node) {
    if n.Node? then n.(mode := mode) else n
  }

  /** The nodes after the logged chmods, and nothing else, were applied. */
  ghost predicate Applied(before: Nodes, after: Nodes, log: seq<Path>, mode: bv32) {
    && after.Keys == before.Keys
    && (forall q :: q in before ==> after[q] == if Hit(before, log, q) then WithBits(before[q], mode) else before[q])
    && (forall q :: Count(log, q) > 0 ==> q in before && Resolve(before, q) in before)
  }

  lemma CountPush(log: seq<Path>, p: Path, q: Path)
    ensures Count(log + [p], q) == Count(log, q) + if p == q then 1 else 0
  {
    assert (log + [p])[..|log|] == log;
  }

  /** The nodes after the logged chmods, one after the other. */
  function Chmodded(nodes: Nodes, log: seq<Path>, mode: bv32): (after: Nodes) {
    if log == [] then nodes
    else WithMode(Chmodded(nodes, log[..|log| - 1], mode), Resolve(nodes, log[|log| - 1]), mode)
  }

  /** Every logged place is one of the tree and leads somewhere. */
  ghost predicate Asked(nodes: Nodes, t: Tree, log: seq<Path>) {
    forall i :: 0 <= i < |log| ==> t.top <= log[i] && log[i] in nodes && Resolve(nodes, log[i]) in nodes
  }

  lemma {:induction false} ChmoddedFacts(nodes: Nodes, t: Tree, log: seq<Path>, mode: bv32)
    requires WellFormed(nodes) && Asked(nodes, t, log)
    ensures Applied(nodes, Chmodded(nodes, log, mode), log, mode) && WellFormed(Chmodded(nodes, log, mode))
  {
    if log != [] {
      var init, last := log[..|log| - 1], log[|log| - 1];
      ChmoddedFacts(nodes, t, init, mode);
      AppliedPush(nodes, Chmodded(nodes, init, mode), init, mode, last);
      WellFormedWithMode(Chmodded(nodes, init, mode), Resolve(nodes, last), mode);
      assert log == init + [last];
    }
  }

  lemma ChmoddedPush(nodes: Nodes, log: seq<Path>, mode: bv32, p: Path)
    ensures Chmodded(nodes, log + [p], mode) == WithMode(Chmodded(nodes, log, mode), Resolve(nodes, p), mode)
  {
    assert (log + [p])[..|log|] == log;
  }

  lemma AppliedPush(before: Nodes, mid: Nodes, log: seq<Path>, mode: bv32, p: Path)
    requires Applied(before, mid, log, mode) && p in before && Resolve(before, p) in before
    ensures Applied(before, WithMode(mid, Resolve(before, p), mode), log + [p], mode)
  {
    var after := WithMode(mid, Resolve(before, p), mode);
    assert (log + [p])[..|log|] == log;
    assert after.Keys == before.Keys;
    forall q ensures Count(log + [p], q) == Count(log, q) + if p == q then 1 else 0 {
      CountPush(log, p, q);
    }
  }

  /** Modes do not change where names lead. */
  lemma {:induction false} AppliedLocates(before: Nodes, after: Nodes, log: seq<Path>, mode: bv32, p: Path)
    requires Applied(before, after, log, mode)
    ensures Locate(after, p) == Locate(before, p) && Reach(after, p) == Reach(before, p)
    decreases |p|
  {
    if p != [] {
      AppliedLocates(before, after, log, mode, p[..|p| - 1]);
    }
  }

  lemma EntriesIgnoreModes(before: Nodes, after: Nodes, log: seq<Path>, mode: bv32, d: Path, es: seq<DirEntry>)
    requires Applied(before, after, log, mode) && Entries(after, d, es)
    ensures Entries(before, d, es)
  {
    assert ChildNames(after, d) == ChildNames(before, d);
  }

  // ---------------------------------------------------------------------------
  // The balance of the walk
  // ---------------------------------------------------------------------------

  /** How many of the stacked directories have `q` at or below them. */
  function Cover(stack: seq<Path>, q: Path): (n: nat) {
    if stack == [] then 0 else Cover(stack[..|stack| - 1], q) + if stack[|stack| - 1] <= q then 1 else 0
  }

  lemma CoverPush(stack: seq<Path>, p: Path, q: Path)
    ensures Cover(stack + [p], q) == Cover(stack, q) + if p <= q then 1 else 0
  {
    assert (stack + [p])[..|stack|] == stack;
  }

  /** How many of the listed entries, from the i-th on, have `q` at or below them. */
  function Rest(p: Path, es: seq<DirEntry>, i: nat, q: Path): (n: nat)
    requires i <= |es|
    decreases |es| - i
  {
    if i == |es| then 0
    else Rest(p, es, i + 1, q) + if !IsDots(es[i].name) && Child(p, es[i].name) <= q then 1 else 0
  }

  lemma {:induction false} RestIsOne(p: Path, es: seq<DirEntry>, i: nat, q: Path)
    requires i <= |es| && forall a, b :: 0 <= a < b < |es| ==> es[a].name != es[b].name
    ensures Rest(p, es, i, q) ==
            if p < q && !IsDots(q[|p|]) && exists a :: i <= a < |es| && es[a].name == q[|p|] then 1 else 0
    decreases |es| - i
  {
    if i < |es| {
      RestIsOne(p, es, i + 1, q);
      ExtendsByName(p, es[i].name, q);
    }
  }

  /** Conservation: every node of the tree is logged once, or waits below exactly one stacked directory or
      unprocessed entry. */
  ghost predicate Balanced(nodes: Nodes, top: Path, log: seq<Path>, stack: seq<Path>, p: Path, es: seq<DirEntry>,
                           i: nat)
    requires i <= |es|
  {
    forall q :: q in nodes ==>
      Count(log, q) + Cover(stack, q) + Rest(p, es, i, q) == if top <= q then 1 else 0
  }

  /** Popping a directory, applying the mode to it and listing it keeps the balance. */
  lemma BalancedAfterListing(nodes: Nodes, top: Path, log: seq<Path>, stack: seq<Path>, cur: Path, es: seq<DirEntry>)
    requires WellFormed(nodes) && cur in nodes && Entries(nodes, cur, es)
    requires Balanced(nodes, top, log, stack + [cur], [], [], 0)
    ensures Balanced(nodes, top, log + [cur], stack, cur, es, 0)
  {
    forall q | q in nodes
      ensures Count(log + [cur], q) + Cover(stack, q) + Rest(cur, es, 0, q) == if top <= q then 1 else 0
    {
      CountPush(log, cur, q);
      CoverPush(stack, cur, q);
      RestIsOne(cur, es, 0, q);
      if cur < q {
        EntryOnTheWay(nodes, cur, q);
        ChildNamesAreNodes(nodes, cur, q[|cur|]);
      } else {
        assert cur <= q ==> cur == q;
      }
    }
  }

  /** Handing an entry over to the stack, if it is a directory, or to the log, if it is a file or a link. */
  lemma BalancedAfterEntry(nodes: Nodes, top: Path, log: seq<Path>, stack: seq<Path>, cur: Path, es: seq<DirEntry>,
                           i: nat)
    requires WellFormed(nodes) && i < |es| && Entries(nodes, cur, es)
    requires Balanced(nodes, top, log, stack, cur, es, i)
    ensures IsDots(es[i].name) ==> Balanced(nodes, top, log, stack, cur, es, i + 1)
    ensures !IsDots(es[i].name) && es[i].isDir ==>
              Balanced(nodes, top, log, stack + [Child(cur, es[i].name)], cur, es, i + 1)
    ensures !IsDots(es[i].name) && !es[i].isDir ==>
              Balanced(nodes, top, log + [Child(cur, es[i].name)], stack, cur, es, i + 1)
  {
    var child := Child(cur, es[i].name);
    forall q | q in nodes
      ensures Rest(cur, es, i, q) == Rest(cur, es, i + 1, q) + if !IsDots(es[i].name) && child <= q then 1 else 0
      ensures Cover(stack + [child], q) == Cover(stack, q) + if child <= q then 1 else 0
      ensures Count(log + [child], q) == Count(log, q) + if child == q then 1 else 0
      ensures !IsDots(es[i].name) && !es[i].isDir && child <= q ==> child == q
    {
      CoverPush(stack, child, q);
      CountPush(log, child, q);
      if !IsDots(es[i].name) && !es[i].isDir && child < q {
        EntryOnTheWay(nodes, child, q);
      }
      assert child <= q ==> child == q || child < q;
    }
  }

  ghost function Unlogged(nodes: Nodes, log: seq<Path>): (s: set<Path>) {
    set q | q in nodes && Count(log, q) == 0
  }

  ghost predicate AtMostOnce(nodes: Nodes, top: Path, log: seq<Path>) {
    forall q :: q in nodes ==> Count(log, q) <= if top <= q then 1 else 0
  }

  ghost predicate ExactlyOnce(nodes: Nodes, top: Path, log: seq<Path>) {
    forall q :: q in nodes ==> Count(log, q) == if top <= q then 1 else 0
  }

  /** A stacked directory was not logged before: the worklist shrinks with every turn. */
  lemma PoppedIsNew(nodes: Nodes, top: Path, log: seq<Path>, stack: seq<Path>, cur: Path)
    requires cur in nodes && Balanced(nodes, top, log, stack + [cur], [], [], 0)
    ensures Unlogged(nodes, log + [cur]) < Unlogged(nodes, log)
    ensures AtMostOnce(nodes, top, log + [cur])
  {
    forall q | q in nodes
      ensures Count(log + [cur], q) == Count(log, q) + if cur == q then 1 else 0
      ensures Cover(stack + [cur], q) == Cover(stack, q) + if cur <= q then 1 else 0
    {
      CountPush(log, cur, q);
      CoverPush(stack, cur, q);
    }
    assert cur in Unlogged(nodes, log) && cur !in Unlogged(nodes, log + [cur]);
  }

  lemma {:induction false} LogGrows(nodes: Nodes, log: seq<Path>, more: seq<Path>)
    requires log <= more
    ensures Unlogged(nodes, more) <= Unlogged(nodes, log)
  {
    if log != more {
      var init, p := more[..|more| - 1], more[|more| - 1];
      LogGrows(nodes, log, init);
      assert more == init + [p];
      forall q | q in Unlogged(nodes, more) ensures q in Unlogged(nodes, init) {
        CountPush(init, p, q);
      }
    }
  }

  // ---------------------------------------------------------------------------
  // The code
  // ---------------------------------------------------------------------------

  /** The tree before the call: its root is there. */
  ghost predicate Rooted(nodes: Nodes, t: Tree) {
    WellFormed(nodes) && Reach(nodes, t.name) == t.top && t.top in nodes
  }

  ghost predicate Ready(nodes: Nodes, t: Tree, listing: Listing) {
    Rooted(nodes, t) && Lawful(listing)
  }

  /** What every chmod so far has done to the server. */
  ghost predicate Progress(s: RemoteServer, nodes: Nodes, t: Tree, start: seq<Path>, log: seq<Path>, mode: bv32)
    reads s
  {
    Asked(nodes, t, log) && s.nodes == Chmodded(nodes, log, mode) && s.chmods == start + NamesOf(t, log)
  }

  /** No call since `start` failed in transport. */
  ghost predicate Smooth(s: RemoteServer, start: nat)
    reads s
  {
    forall k :: start <= k < s.calls ==> !s.env.fails(k)
  }

  /** Every name of the tree is one the server takes. */
  ghost predicate Fits(nodes: Nodes, t: Tree, limit: nat) {
    forall q :: q in nodes && t.top <= q ==> |t.name| + |q| - |t.top| <= limit
  }

  /** No link of the tree dangles. */
  ghost predicate LinksLive(nodes: Nodes, t: Tree) {
    forall q :: q in nodes && t.top <= q && nodes[q].Link? ==> nodes[q].target in nodes
  }

  /** The tree is a directory in which no link dangles, and its names fit. */
  ghost predicate Changeable(nodes: Nodes, t: Tree, limit: nat) {
    IsDir(nodes, t.top) && Fits(nodes, t, limit) && LinksLive(nodes, t)
  }

  /** What may wait on the stack: the root, and directories. */
  ghost predicate Stackable(nodes: Nodes, t: Tree, q: Path) {
    t.top <= q && q in nodes && nodes[q].Node? && (IsDir(nodes, t.top) ==> IsDir(nodes, q))
  }

  ghost predicate Directories(nodes: Nodes, t: Tree, stack: seq<Path>) {
    forall i :: 0 <= i < |stack| ==> Stackable(nodes, t, stack[i])
  }

  /** One chmod of a place of the tree, under its name, with the log kept up to date. */
  method ChmodLogged(s: RemoteServer, p: Path, mode: bv32, ghost nodes: Nodes, ghost t: Tree, ghost start: seq<Path>,
                     ghost logged: seq<Path>, ghost q: Path)
    returns (ok: bool, ghost log: seq<Path>)
    requires Ready(nodes, t, s.env.listing) && q in nodes && t.top <= q && p == NameOf(t, q)
    requires Progress(s, nodes, t, start, logged, mode)
    modifies s
    ensures Progress(s, nodes, t, start, log, mode)
    ensures log == if ok then logged + [q] else logged
    ensures s.calls == old(s.calls) + 1
    ensures ok <==> !Broken(s.env, old(s.calls), p) && Resolve(nodes, q) in nodes
  {
    NameStillReaches(nodes, t, logged, mode, q);
    ok := s.Chmod(p, mode);
    log := logged;
    if ok {
      AskedPush(nodes, t, logged, mode, q);
      log := logged + [q];
      assert s.chmods == start + NamesOf(t, log) by {
        assert start + (NamesOf(t, logged) + [p]) == start + NamesOf(t, logged) + [p];
      }
    }
  }

  lemma AskedPush(nodes: Nodes, t: Tree, log: seq<Path>, mode: bv32, q: Path)
    requires Asked(nodes, t, log) && t.top <= q && q in nodes && Resolve(nodes, q) in nodes
    ensures Asked(nodes, t, log + [q]) && NamesOf(t, log + [q]) == NamesOf(t, log) + [NameOf(t, q)]
    ensures Chmodded(nodes, log + [q], mode) == WithMode(Chmodded(nodes, log, mode), Resolve(nodes, q), mode)
  {
    NamesOfPush(t, log, q);
    ChmoddedPush(nodes, log, mode, q);
  }

  /** After chmods in the tree, the name of a place still leads where the place leads. */
  lemma NameStillReaches(nodes: Nodes, t: Tree, log: seq<Path>, mode: bv32, q: Path)
    requires Rooted(nodes, t) && Asked(nodes, t, log) && q in nodes && t.top <= q
    ensures var after := Chmodded(nodes, log, mode);
            && WellFormed(after) && Reach(after, NameOf(t, q)) == Resolve(nodes, q)
            && (Resolve(nodes, q) in after <==> Resolve(nodes, q) in nodes)
            && (IsDir(after, Resolve(nodes, q)) <==> IsDir(nodes, Resolve(nodes, q)))
  {
    NameReaches(nodes, t, q);
    ChmoddedFacts(nodes, t, log, mode);
    AppliedLocates(nodes, Chmodded(nodes, log, mode), log, mode, NameOf(t, q));
  }

  lemma EntriesBefore(nodes: Nodes, t: Tree, log: seq<Path>, mode: bv32, q: Path, es: seq<DirEntry>)
    requires WellFormed(nodes) && Asked(nodes, t, log) && Entries(Chmodded(nodes, log, mode), q, es)
    ensures Entries(nodes, q, es)
  {
    ChmoddedFacts(nodes, t, log, mode);
    EntriesIgnoreModes(nodes, Chmodded(nodes, log, mode), log, mode, q, es);
  }

  /** The state of the walk: `places` are those of the stacked names. */
  ghost predicate Walking(nodes: Nodes, t: Tree, log: seq<Path>, stack: seq<Path>, places: seq<Path>, place: Path,
                          es: seq<DirEntry>, i: nat)
    requires i <= |es|
  {
    && Directories(nodes, t, places) && stack == NamesOf(t, places)
    && Balanced(nodes, t.top, log, places, place, es, i)
  }

  /** What an entry does to the stack, and to the log. */
  function Stacked(stack: seq<Path>, p: Path, e: DirEntry): (ps: seq<Path>) {
    if !IsDots(e.name) && e.isDir then stack + [Child(p, e.name)] else stack
  }

  function Logging(log: seq<Path>, p: Path, e: DirEntry): (ps: seq<Path>)
    ensures log <= ps
  {
    if !IsDots(e.name) && !e.isDir then log + [Child(p, e.name)] else log
  }

  function WithDirs(stack: seq<Path>, p: Path, es: seq<DirEntry>, i: nat): (ps: seq<Path>)
    requires i <= |es|
  {
    if i == 0 then stack else Stacked(WithDirs(stack, p, es, i - 1), p, es[i - 1])
  }

  function WithLeaves(log: seq<Path>, p: Path, es: seq<DirEntry>, i: nat): (ps: seq<Path>)
    requires i <= |es|
    ensures log <= ps
  {
    if i == 0 then log else Logging(WithLeaves(log, p, es, i - 1), p, es[i - 1])
  }

  /** Stacking the directories and logging the rest keeps what one entry keeps. */
  lemma {:induction false} CarriedThrough(kept: (seq<Path>, seq<Path>, nat) -> bool, log: seq<Path>, places: seq<Path>,
                                          place: Path, es: seq<DirEntry>, i: nat)
    requires i <= |es| && kept(log, places, 0) && CarriedOn(kept, place, es)
    ensures kept(WithLeaves(log, place, es, i), WithDirs(places, place, es, i), i)
  {
    if i > 0 {
      CarriedThrough(kept, log, places, place, es, i - 1);
      assert kept(WithLeaves(log, place, es, i - 1), WithDirs(places, place, es, i - 1), i - 1);
    }
  }

  ghost predicate CarriedOn(kept: (seq<Path>, seq<Path>, nat) -> bool, place: Path, es: seq<DirEntry>) {
    forall log, places, i: nat | i < |es| && kept(log, places, i) ::
      kept(Logging(log, place, es[i]), Stacked(places, place, es[i]), i + 1)
  }

  ghost function BalancedAt(nodes: Nodes, t: Tree, place: Path, es: seq<DirEntry>)
    : (seq<Path>, seq<Path>, nat) -> bool
  {
    (log: seq<Path>, places: seq<Path>, i: nat) => i <= |es| && Balanced(nodes, t.top, log, places, place, es, i)
  }

  lemma BalanceIsCarried(nodes: Nodes, t: Tree, place: Path, es: seq<DirEntry>)
    requires WellFormed(nodes) && Entries(nodes, place, es)
    ensures CarriedOn(BalancedAt(nodes, t, place, es), place, es)
  {
    var kept := BalancedAt(nodes, t, place, es);
    forall log, places, i: nat | i < |es| && kept(log, places, i)
      ensures kept(Logging(log, place, es[i]), Stacked(places, place, es[i]), i + 1)
    {
      BalancedAfterEntry(nodes, t.top, log, places, place, es, i);
    }
  }

  /** What is stacked are directories, under their names. */
  lemma {:induction false} StackedEntries(nodes: Nodes, t: Tree, stack: seq<Path>, places: seq<Path>, place: Path,
                                          es: seq<DirEntry>, i: nat)
    requires Entries(nodes, place, es) && t.top <= place && i <= |es|
    requires Directories(nodes, t, places) && stack == NamesOf(t, places)
    ensures var pushed := WithDirs(places, place, es, i);
            Directories(nodes, t, pushed) && WithDirs(stack, NameOf(t, place), es, i) == NamesOf(t, pushed)
  {
    if i > 0 {
      StackedEntries(nodes, t, stack, places, place, es, i - 1);
      StackedEntry(nodes, t, WithDirs(places, place, es, i - 1), place, es[i - 1]);
    }
  }

  lemma StackedEntry(nodes: Nodes, t: Tree, places: seq<Path>, place: Path, e: DirEntry)
    requires t.top <= place && Directories(nodes, t, places)
    requires !IsDots(e.name) && e.isDir ==> IsDir(nodes, Child(place, e.name))
    ensures Directories(nodes, t, Stacked(places, place, e))
    ensures Stacked(NamesOf(t, places), NameOf(t, place), e) == NamesOf(t, Stacked(places, place, e))
  {
    if !IsDots(e.name) && e.isDir {
      NameOfChild(t, place, e.name);
      NamesOfPush(t, places, Child(place, e.name));
    }
  }

  lemma WalkedEntries(nodes: Nodes, t: Tree, log: seq<Path>, stack: seq<Path>, places: seq<Path>, place: Path,
                      es: seq<DirEntry>, i: nat)
    requires WellFormed(nodes) && Entries(nodes, place, es) && t.top <= place && i <= |es|
    requires Walking(nodes, t, log, stack, places, place, es, 0)
    ensures Walking(nodes, t, WithLeaves(log, place, es, i), WithDirs(stack, NameOf(t, place), es, i),
                    WithDirs(places, place, es, i), place, es, i)
  {
    var kept := BalancedAt(nodes, t, place, es);
    BalanceIsCarried(nodes, t, place, es);
    CarriedThrough(kept, log, places, place, es, i);
    assert kept(WithLeaves(log, place, es, i), WithDirs(places, place, es, i), i);
    StackedEntries(nodes, t, stack, places, place, es, i);
  }

  /** One entry of a listing. */
  method ProcessChild(s: RemoteServer, cur: Path, e: DirEntry, newMode: bv32, before: seq<Path>,
                      ghost nodes: Nodes, ghost t: Tree, ghost start: seq<Path>, ghost logged: seq<Path>,
                      ghost place: Path)
    returns (stack: seq<Path>, ok: bool, ghost log: seq<Path>)
    requires Ready(nodes, t, s.env.listing) && t.top <= place && cur == NameOf(t, place)
    requires !IsDots(e.name) ==> Child(place, e.name) in nodes
    requires Progress(s, nodes, t, start, logged, newMode)
    modifies s
    ensures Progress(s, nodes, t, start, log, newMode) && s.calls >= old(s.calls)
    ensures stack == Stacked(before, cur, e) && log == if ok then Logging(logged, place, e) else logged
    ensures Changeable(nodes, t, s.env.limit) && Smooth(s, old(s.calls)) ==> ok
  {
    stack, ok, log := before, true, logged;
    if IsDots(e.name) {
    } else if e.isDir {
      stack := stack + [Child(cur, e.name)];
    } else {
      NameOfChild(t, place, e.name);
      ok, log := ChmodLogged(s, Child(cur, e.name), newMode, nodes, t, start, log, Child(place, e.name));
    }
  }

  /** The loop over one directory's entries: as far as it came, the directories are stacked and the rest is done. */
  method ProcessChildren(s: RemoteServer, cur: Path, es: seq<DirEntry>, newMode: bv32, before: seq<Path>,
                         ghost nodes: Nodes, ghost t: Tree, ghost start: seq<Path>, ghost logged: seq<Path>,
                         ghost place: Path)
    returns (stack: seq<Path>, ok: bool, ghost log: seq<Path>, ghost n: nat)
    requires Ready(nodes, t, s.env.listing) && t.top <= place && cur == NameOf(t, place) && Entries(nodes, place, es)
    requires Progress(s, nodes, t, start, logged, newMode)
    modifies s
    ensures Progress(s, nodes, t, start, log, newMode) && s.calls >= old(s.calls)
    ensures n <= |es| && log == WithLeaves(logged, place, es, n)
    ensures ok ==> n == |es| && stack == WithDirs(before, cur, es, n)
    ensures Changeable(nodes, t, s.env.limit) && Smooth(s, old(s.calls)) ==> ok
  {
    stack, ok, log, n := before, true, logged, 0;
    var i := 0;
    while i < |es| && ok
      invariant 0 <= i <= |es| && s.calls >= old(s.calls) && Progress(s, nodes, t, start, log, newMode)
      invariant n <= i && (ok ==> n == i) && log == WithLeaves(logged, place, es, n)
      invariant ok ==> stack == WithDirs(before, cur, es, i)
      invariant Changeable(nodes, t, s.env.limit) && Smooth(s, old(s.calls)) ==> ok
    {
      stack, ok, log := ProcessChild(s, cur, es[i], newMode, stack, nodes, t, start, log, place);
      i := i + 1;
      n := if ok then i else n;
    }
  }

  lemma ChildrenEnd(nodes: Nodes, t: Tree, log: seq<Path>, stack: seq<Path>, places: seq<Path>, place: Path,
                    es: seq<DirEntry>, i: nat)
    requires i <= |es| && Walking(nodes, t, log, stack, places, place, es, i)
    ensures AtMostOnce(nodes, t.top, log) && (i == |es| ==> Walking(nodes, t, log, stack, places, [], [], 0))
  {
  }

  /** Lists the directory at a place of the tree, under its name. */
  method ListLogged(s: RemoteServer, p: Path, ghost nodes: Nodes, ghost t: Tree, ghost start: seq<Path>,
                    ghost log: seq<Path>, ghost mode: bv32, ghost q: Path)
    returns (children: Result<seq<DirEntry>, ()>)
    requires Ready(nodes, t, s.env.listing) && Stackable(nodes, t, q) && p == NameOf(t, q)
    requires Progress(s, nodes, t, start, log, mode)
    modifies s
    ensures Progress(s, nodes, t, start, log, mode) && s.calls == old(s.calls) + 1
    ensures children.Ok? <==> !Broken(s.env, old(s.calls), p) && IsDir(nodes, q)
    ensures children.Ok? ==> Entries(nodes, q, children.value)
  {
    NameStillReaches(nodes, t, log, mode, q);
    children := s.List(p);
    if children.Ok? {
      EntriesBefore(nodes, t, log, mode, q, children.value);
    }
  }

  /** One turn of the walk: chmod a stacked directory, list it and deal with its entries. */
  method ProcessDirectory(s: RemoteServer, cur: Path, newMode: bv32, before: seq<Path>,
                          ghost nodes: Nodes, ghost t: Tree, ghost start: seq<Path>, ghost popped: seq<Path>,
                          ghost place: Path, ghost stacked: seq<Path>)
    returns (stack: seq<Path>, r: Result<(), ()>, ghost log: seq<Path>, ghost places: seq<Path>)
    requires Ready(nodes, t, s.env.listing) && Progress(s, nodes, t, start, popped, newMode)
    requires Stackable(nodes, t, place) && cur == NameOf(t, place)
    requires Directories(nodes, t, stacked) && before == NamesOf(t, stacked)
    requires Balanced(nodes, t.top, popped, stacked + [place], [], [], 0)
    modifies s
    ensures Progress(s, nodes, t, start, log, newMode)
    ensures AtMostOnce(nodes, t.top, log) && s.calls >= old(s.calls)
    ensures r.Ok? ==> Walking(nodes, t, log, stack, places, [], [], 0) && Unlogged(nodes, log) < Unlogged(nodes, popped)
    ensures r.Ok? ==> IsDir(nodes, place)
    ensures Changeable(nodes, t, s.env.limit) && Smooth(s, old(s.calls)) ==> r.Ok?
  {
    stack, r, places := before, Err(()), stacked;
    PoppedIsNew(nodes, t.top, popped, stacked, place);
    AtMostOnceBefore(nodes, t.top, popped, stacked, place);
    var changed;
    changed, log := ChmodLogged(s, cur, newMode, nodes, t, start, popped, place);
    if changed {
      var children := ListLogged(s, cur, nodes, t, start, log, newMode, place);
      if children.Ok? {
        ghost var n, logged := 0, log;
        var ok;
        stack, ok, log, n := ProcessChildren(s, cur, children.value, newMode, before, nodes, t, start, log, place);
        r := if ok then Ok(()) else Err(());
        places := WithDirs(stacked, place, children.value, n);
        TurnEnds(nodes, t, popped, before, stacked, place, children.value, n);
      }
    }
  }

  /** A turn, as far as it came. */
  lemma TurnEnds(nodes: Nodes, t: Tree, popped: seq<Path>, stack: seq<Path>, places: seq<Path>, place: Path,
                 es: seq<DirEntry>, n: nat)
    requires Rooted(nodes, t) && Stackable(nodes, t, place) && Entries(nodes, place, es) && n <= |es|
    requires Directories(nodes, t, places) && stack == NamesOf(t, places)
    requires Balanced(nodes, t.top, popped, places + [place], [], [], 0)
    ensures var log := WithLeaves(popped + [place], place, es, n);
            && AtMostOnce(nodes, t.top, log) && Unlogged(nodes, log) < Unlogged(nodes, popped)
            && (n == |es| ==>
                  Walking(nodes, t, log, WithDirs(stack, NameOf(t, place), es, n), WithDirs(places, place, es, n),
                          [], [], 0))
  {
    var log := WithLeaves(popped + [place], place, es, n);
    PoppedIsNew(nodes, t.top, popped, places, place);
    BalancedAfterListing(nodes, t.top, popped, places, place, es);
    WalkedEntries(nodes, t, popped + [place], stack, places, place, es, n);
    LogGrows(nodes, popped + [place], log);
    ChildrenEnd(nodes, t, log, WithDirs(stack, NameOf(t, place), es, n), WithDirs(places, place, es, n), place, es, n);
  }

  lemma AtMostOnceBefore(nodes: Nodes, top: Path, log: seq<Path>, stack: seq<Path>, cur: Path)
    requires Balanced(nodes, top, log, stack + [cur], [], [], 0)
    ensures AtMostOnce(nodes, top, log)
  {
  }

  /** The stack-driven walk of `change_permissions_recursive`. */
  method ChmodTree(s: RemoteServer, root: Path, newMode: bv32, ghost t: Tree)
    returns (r: Result<(), ()>, ghost log: seq<Path>)
    requires Ready(s.nodes, t, s.env.listing) && t.name == root
    modifies s
    ensures Progress(s, old(s.nodes), t, old(s.chmods), log, newMode) && s.calls >= old(s.calls)
    ensures AtMostOnce(old(s.nodes), t.top, log)
    ensures r.Ok? ==> ExactlyOnce(old(s.nodes), t.top, log) && IsDir(old(s.nodes), t.top)
    ensures Changeable(old(s.nodes), t, s.env.limit) && Smooth(s, old(s.calls)) ==> r.Ok?
  {
    ghost var nodes, start, places := s.nodes, s.chmods, [t.top];
    var stack := [root];
    log := [];
    r := Ok(());
    WalkStarts(nodes, t);
    while stack != [] && r.Ok?
      invariant Progress(s, nodes, t, start, log, newMode) && s.calls >= old(s.calls)
      invariant r.Ok? ==> Walking(nodes, t, log, stack, places, [], [], 0)
      invariant r.Ok? ==> IsDir(nodes, t.top) || places == [t.top]
      invariant AtMostOnce(nodes, t.top, log)
      invariant Changeable(nodes, t, s.env.limit) && Smooth(s, old(s.calls)) ==> r.Ok?
      decreases r.Ok?, Unlogged(nodes, log)
    {
      var cur := stack[|stack| - 1];
      stack := stack[..|stack| - 1];
      ghost var place, rest := places[|places| - 1], places[..|places| - 1];
      Popped(nodes, t, places);
      stack, r, log, places := ProcessDirectory(s, cur, newMode, stack, nodes, t, start, log, place, rest);
    }
    if r.Ok? {
      WalkEnds(nodes, t, log, places);
    }
  }

  lemma Popped(nodes: Nodes, t: Tree, places: seq<Path>)
    requires Directories(nodes, t, places) && places != []
    ensures var rest, place := places[..|places| - 1], places[|places| - 1];
            && places == rest + [place] && Stackable(nodes, t, place) && Directories(nodes, t, rest)
            && NamesOf(t, places) == NamesOf(t, rest) + [NameOf(t, place)]
  {
  }

  lemma WalkEnds(nodes: Nodes, t: Tree, log: seq<Path>, places: seq<Path>)
    requires Walking(nodes, t, log, [], places, [], [], 0)
    ensures places == [] && ExactlyOnce(nodes, t.top, log)
  {
  }

  lemma WalkStarts(nodes: Nodes, t: Tree)
    requires Rooted(nodes, t)
    ensures Walking(nodes, t, [], [t.name], [t.top], [], [], 0) && AtMostOnce(nodes, t.top, [])
  {
    assert NameOf(t, t.top) == t.name;
    var only := [t.top];
    assert only[..0] == [];
    assert NamesOf(t, only) == [] + [t.name];
  }

  // ---------------------------------------------------------------------------
  // What a recursive chmod does
  // ---------------------------------------------------------------------------

  /** What a recursive chmod did, given the places it was asked for: none twice, each place of the tree if it
      succeeded; the nodes those lead to have the composed mode, and nothing else changed. */
  ghost predicate Permissioned(before: Nodes, after: Nodes, t: Tree, requested: bv32, log: seq<Path>, ok: bool) {
    if t.top in before && before[t.top].Node? then
      && Applied(before, after, log, Compose(before[t.top].mode, requested))
      && AllBelow(t, log) && AtMostOnce(before, t.top, log)
      && (ok ==> ExactlyOnce(before, t.top, log) && IsDir(before, t.top))
    else !ok && after == before && log == []
  }

  /** `change_permissions_recursive`. */
  method ChangePermissionsRecursive(s: RemoteServer, root: Path, mode: bv32)
    returns (r: Result<(), ()>, ghost log: seq<Path>)
    requires s.Valid()
    modifies s
    ensures s.Valid() && s.calls >= old(s.calls)
    ensures var t := Tree(root, Reach(old(s.nodes), root));
            && Permissioned(old(s.nodes), s.nodes, t, mode, log, r.Ok?)
            && AllBelow(t, log) && s.chmods == old(s.chmods) + NamesOf(t, log)
            && (r.Ok? ==> IsDir(old(s.nodes), t.top) && LinksLive(old(s.nodes), t))
            && (|root| <= s.env.limit && Changeable(old(s.nodes), t, s.env.limit) && Smooth(s, old(s.calls)) ==> r.Ok?)
  {
    log := [];
    ghost var t := Tree(root, Reach(s.nodes, root));
    var stat := s.Stat(root);
    if stat.Err? {
      return Err(()), log;
    }
    var newMode := Compose(stat.value.mode, mode);
    r, log := ChmodTree(s, root, newMode, t);
    ChmoddedFacts(old(s.nodes), t, log, newMode);
    if r.Ok? {
      LoggedLinksLive(old(s.nodes), t, log);
    }
  }

  lemma {:induction false} Logged(log: seq<Path>, q: Path)
    ensures Count(log, q) > 0 <==> q in log
  {
    if log != [] {
      Logged(log[..|log| - 1], q);
      assert log == log[..|log| - 1] + [log[|log| - 1]];
    }
  }

  lemma LoggedLinksLive(nodes: Nodes, t: Tree, log: seq<Path>)
    requires Asked(nodes, t, log) && ExactlyOnce(nodes, t.top, log)
    ensures LinksLive(nodes, t)
  {
    forall q | q in nodes && t.top <= q && nodes[q].Link? ensures nodes[q].target in nodes {
      Logged(log, q);
    }
  }

  // ---------------------------------------------------------------------------
  // Outside the tree
  // ---------------------------------------------------------------------------

  lemma {:induction false} HitByLogged(nodes: Nodes, log: seq<Path>, q: Path)
    ensures Hit(nodes, log, q) <==> exists p :: p in log && Resolve(nodes, p) == q
  {
    if log != [] {
      var init, last := log[..|log| - 1], log[|log| - 1];
      HitByLogged(nodes, init, q);
      assert log == init + [last];
    }
  }

  ghost predicate OutsideKept(before: Nodes, after: Nodes, top: Path) {
    forall q :: q in before && !(top <= q) ==> q in after && after[q] == before[q]
  }

  /** The link leads outside of the tree, to something of another mode. */
  predicate Strays(nodes: Nodes, top: Path, mode: bv32, l: Path) {
    && l in nodes && nodes[l].Link? && !(top <= nodes[l].target)
    && nodes[l].target in nodes && nodes[nodes[l].target] != WithBits(nodes[nodes[l].target], mode)
  }

  /** Wherever the call ended, nothing outside the tree changed exactly when no link it was asked for led to
      something outside of another mode. */
  lemma OutsideKeptExactlyWhen(before: Nodes, after: Nodes, t: Tree, requested: bv32, log: seq<Path>, ok: bool)
    requires WellFormed(before) && t.top in before && before[t.top].Node?
    requires Permissioned(before, after, t, requested, log, ok)
    ensures OutsideKept(before, after, t.top) <==>
            forall l :: l in log ==> !Strays(before, t.top, Compose(before[t.top].mode, requested), l)
  {
    var mode := Compose(before[t.top].mode, requested);
    forall l | l in log && Strays(before, t.top, mode, l) ensures !OutsideKept(before, after, t.top) {
      HitByLogged(before, log, before[l].target);
    }
    if forall l :: l in log ==> !Strays(before, t.top, mode, l) {
      forall q | q in before && !(t.top <= q) ensures after[q] == before[q] {
        HitByLogged(before, log, q);
        if p :| p in log && Resolve(before, p) == q {
          assert t.top <= p;
          Logged(log, p);
          assert before[p].Link?;
        }
      }
    }
  }

  /** A successful call asked for every link of the tree: it changed nothing outside exactly when each of them
      leads into the tree or to something that had the mode already. */
  lemma SuccessStaysInsideExactlyWhen(before: Nodes, after: Nodes, t: Tree, requested: bv32, log: seq<Path>)
    requires WellFormed(before) && t.top in before && before[t.top].Node?
    requires Permissioned(before, after, t, requested, log, true)
    ensures OutsideKept(before, after, t.top) <==>
            forall l :: l in before && t.top <= l ==> !Strays(before, t.top, Compose(before[t.top].mode, requested), l)
  {
    OutsideKeptExactlyWhen(before, after, t, requested, log, true);
    forall l | l in before ensures l in log <==> t.top <= l {
      Logged(log, l);
    }
  }

  /** The input: a link in the tree to a file or directory outside. After a success that has the mode, and the
      link is as it was. */
  lemma LinkedTargetExample(before: Nodes, after: Nodes, t: Tree, requested: bv32, log: seq<Path>, l: Path)
    requires WellFormed(before) && t.top in before && before[t.top].Node?
    requires Permissioned(before, after, t, requested, log, true)
    requires l in before && t.top <= l && before[l].Link?
    ensures var target := before[l].target;
            && target in before && after[target] == WithBits(before[target], Compose(before[t.top].mode, requested))
            && after[l] == before[l]
  {
    Logged(log, l);
    HitByLogged(before, log, before[l].target);
    assert Resolve(before, l) == before[l].target;
  }
}
