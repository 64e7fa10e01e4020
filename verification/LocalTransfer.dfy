/** Whole-tree copy and move (`prescan`, `copy_local` and `move_local` of `local_fs.rs`). */
module LocalTransfer {
  import opened Text
  import opened LocalTree
  import opened LocalCopy

  // ---------------------------------------------------------------------------
  // Counting
  // ---------------------------------------------------------------------------

  lemma {:induction false} WeightPrefix(from: Nodes, items: seq<Path>, i: nat)
    requires forall j :: 0 <= j < |items| ==> items[j] in from
    requires i <= |items|
    ensures Weight(from, items[..i]) <= Weight(from, items)
    decreases |items| - i
  {
    if i < |items| {
      assert items[..i + 1][..i] == items[..i];
      WeightPrefix(from, items, i + 1);
    } else {
      assert items[..i] == items;
    }
  }

  lemma {:induction false} SameWeight(a: Nodes, b: Nodes, items: seq<Path>)
    requires forall j :: 0 <= j < |items| ==> items[j] in a && items[j] in b && a[items[j]] == b[items[j]]
    ensures Weight(a, items) == Weight(b, items)
  {
    if items != [] {
      SameWeight(a, b, items[..|items| - 1]);
    }
  }

  datatype Prescan = Prescan(dirs: nat, files: nat, bytes: nat)

  function Counted(from: Nodes, items: seq<Path>): (p: Prescan)
    requires forall i :: 0 <= i < |items| ==> items[i] in from
  {
    if items == [] then Prescan(0, 0, 0)
    else
      var p, n := Counted(from, items[..|items| - 1]), from[items[|items| - 1]];
      CountNode(p, n, true)
  }

  function CountNode(p: Prescan, n: Node, readable: bool): (q: Prescan) {
    if n.Dir? then p.(dirs := p.dirs + 1)
    else if n.File? then p.(files := p.files + 1, bytes := p.bytes + if readable then |n.data| else 0)
    else p
  }

  lemma {:induction false} CountedBytes(from: Nodes, items: seq<Path>)
    requires forall i :: 0 <= i < |items| ==> items[i] in from
    ensures Counted(from, items).bytes == Weight(from, items)
  {
    if items != [] {
      CountedBytes(from, items[..|items| - 1]);
    }
  }

  /** The count so far: never too many bytes, and right as long as every size was readable. */
  ghost predicate Counting(from: Nodes, items: seq<Path>, p: Prescan, exact: bool) {
    && (forall i :: 0 <= i < |items| ==> items[i] in from)
    && p.bytes <= Counted(from, items).bytes
    && (exact ==> p == Counted(from, items))
  }

  lemma CountingTurn(from: Nodes, items: seq<Path>, i: nat, p: Prescan, exact: bool, readable: bool)
    requires i < |items| && items[i] in from && Counting(from, items[..i], p, exact)
    ensures Counting(from, items[..i + 1], CountNode(p, from[items[i]], readable), exact && readable)
  {
    assert items[..i + 1][..i] == items[..i];
  }

  /** Only walked paths were seen. */
  ghost predicate Seen(walk: seq<Path>, i: nat, visited: set<Path>) {
    i <= |walk| && forall q :: q in visited ==> q in walk[..i]
  }

  lemma SeenTurn(nodes: Nodes, src: Path, walk: seq<Path>, i: nat, visited: set<Path>)
    requires WalkOf(nodes, src, walk) && i < |walk| && Seen(walk, i, visited)
    ensures walk[i] in nodes && walk[i] !in visited
    ensures Seen(walk, i + 1, visited) && Seen(walk, i + 1, visited + {walk[i]})
  {
    assert walk[..i + 1] == walk[..i] + [walk[i]];
  }

  /** The guard: a directory whose canonical path is known and was seen. */
  method SeenBefore(disk: Disk, item: Path, visited: set<Path>) returns (again: bool, now: set<Path>)
    requires item in disk.nodes
    modifies disk`tick
    ensures disk.tick > old(disk.tick)
    ensures again ==> item in visited
    ensures now == visited || now == visited + {item}
  {
    var unresolved := disk.Fails();
    if unresolved || disk.nodes[item] != Dir {
      return false, visited;
    }
    return item in visited, visited + {item};
  }

  /** Whether the size of an item is there to count; unreadable metadata counts as no bytes. */
  method HasSize(disk: Disk, item: Path) returns (readable: bool)
    requires item in disk.nodes
    modifies disk`tick
    ensures disk.tick >= old(disk.tick) && (Calm(disk.world, old(disk.tick), disk.tick) ==> readable)
  {
    readable := true;
    if disk.nodes[item].File? {
      var failed := disk.Fails();
      readable := !failed;
    }
  }

  /** Counts directories, files and bytes; `exact` when no size was unreadable on the way. The directories
      seen are kept, so that none is counted twice; a walk comes to none twice. */
  method PrescanTree(disk: Disk, src: Path, walk: seq<Path>) returns (r: Option<Prescan>, ghost exact: bool)
    requires WalkOf(disk.nodes, src, walk)
    modifies disk`tick
    ensures r.Some? ==> Counting(disk.nodes, walk, r.value, exact)
    ensures disk.tick >= old(disk.tick) && (Calm(disk.world, old(disk.tick), disk.tick) ==> r.Some? && exact)
  {
    var p := Prescan(0, 0, 0);
    var visited: set<Path> := {};
    exact := true;
    var i := 0;
    while i < |walk|
      invariant 0 <= i <= |walk| && Counting(disk.nodes, walk[..i], p, exact)
      invariant Seen(walk, i, visited)
      invariant disk.tick >= old(disk.tick) && (Calm(disk.world, old(disk.tick), disk.tick) ==> exact)
    {
      var failed := disk.Fails();
      if failed {
        return None, false;
      }
      SeenTurn(disk.nodes, src, walk, i, visited);
      var again;
      again, visited := SeenBefore(disk, walk[i], visited);
      var readable := HasSize(disk, walk[i]);
      CountingTurn(disk.nodes, walk, i, p, exact, readable);
      p := if again then p else CountNode(p, disk.nodes[walk[i]], readable);
      exact := exact && readable;
      i := i + 1;
    }
    assert walk[..i] == walk;
    return Some(p), exact;
  }

  // ---------------------------------------------------------------------------
  // One item of a directory copy
  // ---------------------------------------------------------------------------

  /** The tree before the first item: the source is a directory, the destination an empty one beside it. */
  ghost predicate Ready(base: Nodes, src: Path, dst: Path, items: seq<Path>) {
    && WellFormed(base) && Apart(src, dst)
    && src in base && dst in base && base[dst] == Dir
    && (forall q :: q in base ==> !(dst < q))
    && WalkOf(base, src, items)
  }

  lemma MovedParent(src: Path, dst: Path, p: Path)
    requires src < p
    ensures Moved(src, dst, p) != [] && src <= Parent(p) && Parent(Moved(src, dst, p)) == Moved(src, dst, Parent(p))
    ensures dst < Moved(src, dst, p)
  {
  }

  /** The next target is new, its parent is there, and the item itself still stands. */
  lemma NextTarget(base: Nodes, src: Path, dst: Path, items: seq<Path>, i: nat)
    requires Ready(base, src, dst, items) && i < |items|
    ensures Inside(src, items[..i], base)
    ensures var m, t := Grown(base, base, src, dst, items[..i]), Moved(src, dst, items[i]);
            && t !in m && t != [] && t != items[i] && dst <= t
            && Parent(t) in m && m[Parent(t)] == Dir
            && items[i] in m && m[items[i]] == base[items[i]]
  {
    var item := items[i];
    var m, t := Grown(base, base, src, dst, items[..i]), Moved(src, dst, item);
    MovedParent(src, dst, item);
    GrownAt(base, base, src, dst, items[..i], item);
    assert item !in items[..i];
    var up := Parent(item);
    if up == src {
      assert Moved(src, dst, src) == dst;
      GrownElsewhere(base, base, src, dst, items[..i], dst);
    } else {
      assert up in items[..i];
      MovedParent(src, dst, up);
      GrownAt(base, base, src, dst, items[..i], up);
    }
    if dst <= item {
      PrefixesOfOne(src, dst, item);
    }
    GrownElsewhere(base, base, src, dst, items[..i], item);
  }

  lemma NextGrown(base: Nodes, src: Path, dst: Path, items: seq<Path>, i: nat)
    requires Inside(src, items, base) && i < |items|
    ensures Inside(src, items[..i], base) && Inside(src, items[..i + 1], base)
    ensures var m := Grown(base, base, src, dst, items[..i]);
            Grown(base, base, src, dst, items[..i + 1])
            == if Copyable(base[items[i]]) then m[Moved(src, dst, items[i]) := base[items[i]]] else m
    ensures Weight(base, items[..i + 1]) == Weight(base, items[..i]) + SizeOf(base[items[i]])
  {
    assert items[..i + 1][..i] == items[..i];
  }

  lemma NewIsPassable(nodes: Nodes, target: Path)
    requires WellFormed(nodes) && target != [] && target !in nodes
    requires Parent(target) in nodes && nodes[Parent(target)] == Dir
    ensures Passable(nodes, Parent(target)) && Passable(nodes, target)
  {
    DirectoryIsPassable(nodes, Parent(target));
    forall q | q in nodes && q <= target ensures q <= Parent(target) {
      assert q != target;
    }
  }

  /** Copies one walked item to its target. */
  method CopyItem(disk: Disk, item: Path, target: Path, overwrite: bool, skipExisting: bool, copied: nat)
    returns (r: Result<nat, Error>)
    requires WellFormed(disk.nodes) && item in disk.nodes && target !in disk.nodes && target != [] && target != item
    requires Parent(target) in disk.nodes && disk.nodes[Parent(target)] == Dir && Climbs(disk.reports, copied)
    modifies disk
    ensures disk.tick >= old(disk.tick) && (Calm(disk.world, old(disk.tick), disk.tick) ==> r.Ok?)
    ensures WellFormed(disk.nodes) && Confined(old(disk.nodes), disk.nodes, target)
    ensures Climbs(disk.reports, copied + match r case Ok(n) => n case Err(_) => SizeOf(old(disk.nodes[item])))
    ensures r.Ok? ==> r.value == SizeOf(old(disk.nodes[item]))
    ensures r.Ok? ==> if old(disk.nodes[item]).File? then Reached(disk.reports, copied + r.value)
                      else disk.reports == old(disk.reports)
    ensures r.Ok? ==>
              disk.nodes == if Copyable(old(disk.nodes[item])) then old(disk.nodes)[target := old(disk.nodes[item])]
                            else old(disk.nodes)
  {
    var node := disk.nodes[item];
    ClimbsHigher(disk.reports, copied, copied + SizeOf(node));
    ClimbsHigher(disk.reports, copied, copied);
    NewIsPassable(disk.nodes, target);
    if node.Dir? {
      var ok := disk.CreateDirAll(target);
      return if ok then Ok(0) else Err(CopyFailed);
    } else if node.File? {
      r := disk.CopyOneFile(item, target, overwrite, skipExisting, copied);
    } else {
      return Ok(0);
    }
  }

  /** The state after `i` items: their images on top of `base`, their bytes counted and reported. */
  ghost predicate Copying(base: Nodes, src: Path, dst: Path, walk: seq<Path>, i: nat, nodes: Nodes, copied: nat,
                          reports: seq<nat>) {
    && i <= |walk| && Inside(src, walk[..i], base) && WellFormed(nodes)
    && nodes == Grown(base, base, src, dst, walk[..i])
    && copied == Weight(base, walk[..i]) && Climbs(reports, copied)
    && (HasFile(base, walk[..i]) ==> Reached(reports, copied))
  }

  ghost predicate HasFile(nodes: Nodes, items: seq<Path>) {
    exists i :: 0 <= i < |items| && items[i] in nodes && nodes[items[i]].File?
  }

  lemma NextHasFile(nodes: Nodes, items: seq<Path>, i: nat)
    requires i < |items| && items[i] in nodes
    ensures HasFile(nodes, items[..i + 1]) ==> HasFile(nodes, items[..i]) || nodes[items[i]].File?
  {
    if HasFile(nodes, items[..i + 1]) {
      var j :| 0 <= j < i + 1 && items[..i + 1][j] in nodes && nodes[items[..i + 1][j]].File?;
      assert j < i ==> items[..i][j] == items[..i + 1][j];
    }
  }

  /** What holds wherever the copy ends. */
  ghost predicate Stopped(base: Nodes, dst: Path, walk: seq<Path>, nodes: Nodes, reports: seq<nat>) {
    && (forall i :: 0 <= i < |walk| ==> walk[i] in base)
    && WellFormed(nodes) && Confined(base, nodes, dst) && Climbs(reports, Weight(base, walk))
  }

  lemma CopyingIsConfined(base: Nodes, src: Path, dst: Path, walk: seq<Path>, i: nat, nodes: Nodes, copied: nat,
                          reports: seq<nat>)
    requires Copying(base, src, dst, walk, i, nodes, copied, reports) && Inside(src, walk, base)
    ensures Stopped(base, dst, walk, nodes, reports)
  {
    WeightPrefix(base, walk, i);
    ClimbsHigher(reports, copied, Weight(base, walk));
    GrownConfined(base, base, src, dst, walk[..i]);
  }

  lemma CopyingEnds(base: Nodes, src: Path, dst: Path, walk: seq<Path>, i: nat, nodes: Nodes, copied: nat,
                    reports: seq<nat>)
    requires Copying(base, src, dst, walk, i, nodes, copied, reports) && Inside(src, walk, base) && i >= |walk|
    ensures Stopped(base, dst, walk, nodes, reports)
    ensures copied == Weight(base, walk) && nodes == Grown(base, base, src, dst, walk)
    ensures HasFile(base, walk) ==> Reached(reports, copied)
  {
    CopyingIsConfined(base, src, dst, walk, i, nodes, copied, reports);
    assert walk[..i] == walk;
  }

  lemma AfterTurn(base: Nodes, src: Path, dst: Path, walk: seq<Path>, i: nat, before: Nodes, after: Nodes,
                  copied: nat, reports: seq<nat>, r: Result<nat, Error>)
    requires Ready(base, src, dst, walk) && i < |walk| && Inside(src, walk[..i], base) && WellFormed(before)
    requires before == Grown(base, base, src, dst, walk[..i]) && copied == Weight(base, walk[..i])
    requires dst <= Moved(src, dst, walk[i]) && Confined(base, before, dst)
    requires WellFormed(after) && Confined(before, after, Moved(src, dst, walk[i]))
    requires Climbs(reports, copied + match r case Ok(n) => n case Err(_) => SizeOf(base[walk[i]]))
    requires r.Ok? ==>
               && r.value == SizeOf(base[walk[i]])
               && after == (if Copyable(base[walk[i]]) then before[Moved(src, dst, walk[i]) := base[walk[i]]]
                            else before)
               && (base[walk[i]].File? || HasFile(base, walk[..i]) ==> Reached(reports, copied + r.value))
    ensures r.Ok? ==> Copying(base, src, dst, walk, i + 1, after, copied + r.value, reports)
    ensures r.Err? ==> Stopped(base, dst, walk, after, reports)
  {
    NextGrown(base, src, dst, walk, i);
    NextHasFile(base, walk, i);
    if r.Err? {
      WeightPrefix(base, walk, i + 1);
      AfterItem(base, before, after, dst, Moved(src, dst, walk[i]));
      ClimbsHigher(reports, copied + SizeOf(base[walk[i]]), Weight(base, walk));
    }
  }

  /** One turn of the walk. */
  method CopyNext(disk: Disk, ghost base: Nodes, src: Path, dst: Path, walk: seq<Path>, i: nat, overwrite: bool,
                  skipExisting: bool, copied: nat) returns (r: Result<nat, Error>)
    requires Ready(base, src, dst, walk) && i < |walk|
    requires Copying(base, src, dst, walk, i, disk.nodes, copied, disk.reports)
    modifies disk
    ensures r.Ok? ==> Copying(base, src, dst, walk, i + 1, disk.nodes, copied + r.value, disk.reports)
    ensures r.Err? ==> Stopped(base, dst, walk, disk.nodes, disk.reports)
    ensures disk.tick > old(disk.tick) && (Calm(disk.world, old(disk.tick), disk.tick) ==> r.Ok?)
    ensures disk.world.cancels(old(disk.tick)) ==> r == Err(Cancelled) && disk.nodes == old(disk.nodes)
  {
    CopyingIsConfined(base, src, dst, walk, i, disk.nodes, copied, disk.reports);
    var cancel := disk.ShouldCancel();
    if cancel {
      return Err(Cancelled);
    }
    var failed := disk.Fails();
    if failed {
      return Err(CopyFailed);
    }
    NextTarget(base, src, dst, walk, i);
    ghost var before := disk.nodes;
    var target := Moved(src, dst, walk[i]);
    r := CopyItem(disk, walk[i], target, overwrite, skipExisting, copied);
    AfterTurn(base, src, dst, walk, i, before, disk.nodes, copied, disk.reports, r);
  }

  /** The walk of a directory copy. */
  method CopyItems(disk: Disk, src: Path, dst: Path, walk: seq<Path>, overwrite: bool, skipExisting: bool)
    returns (r: Result<nat, Error>)
    requires Ready(disk.nodes, src, dst, walk) && disk.reports == []
    modifies disk
    ensures Stopped(old(disk.nodes), dst, walk, disk.nodes, disk.reports)
    ensures r.Ok? ==> r.value == Weight(old(disk.nodes), walk)
                      && disk.nodes == Grown(old(disk.nodes), old(disk.nodes), src, dst, walk)
                      && (HasFile(old(disk.nodes), walk) ==> Reached(disk.reports, r.value))
    ensures disk.tick >= old(disk.tick) && (Calm(disk.world, old(disk.tick), disk.tick) ==> r.Ok?)
  {
    ghost var base := disk.nodes;
    var copied: nat := 0;
    var i: nat := 0;
    while i < |walk|
      invariant Copying(base, src, dst, walk, i, disk.nodes, copied, disk.reports)
      invariant disk.tick >= old(disk.tick)
    {
      r := CopyNext(disk, base, src, dst, walk, i, overwrite, skipExisting, copied);
      if r.Err? {
        return;
      }
      copied := copied + r.value;
      i := i + 1;
    }
    CopyingEnds(base, src, dst, walk, i, disk.nodes, copied, disk.reports);
    return Ok(copied);
  }

  lemma AfterItem(base: Nodes, before: Nodes, after: Nodes, dst: Path, target: Path)
    requires WellFormed(before) && Confined(base, before, dst) && Confined(before, after, target)
    requires dst <= target && dst in base && WellFormed(base)
    ensures Confined(base, after, dst)
  {
    forall p
      ensures ConfinedAt(base, after, dst, p)
    {
      assert ConfinedAt(base, before, dst, p) && ConfinedAt(before, after, target, p);
      if !(dst <= p) && p !in before && p in after {
        assert p <= dst;
        AncestorExists(base, dst, p);
      }
    }
  }

  // ---------------------------------------------------------------------------
  // Copy
  // ---------------------------------------------------------------------------

  /** A walk of an untouched source is a walk of the source as it was. */
  lemma WalkCarriesOver(before: Nodes, base: Nodes, src: Path, dst: Path, walk: seq<Path>)
    requires Confined(before, base, dst) && Apart(src, dst) && WalkOf(base, src, walk)
    ensures WalkOf(before, src, walk) && Weight(before, walk) == Weight(base, walk)
  {
    forall p | src <= p
      ensures (p in before <==> p in base) && (p in before ==> base[p] == before[p])
    {
      SourceIntact(before, base, src, dst, p);
    }
    SameWeight(before, base, walk);
  }

  lemma SameTreeCarriesOver(before: Nodes, base: Nodes, src: Path, after: Nodes, dst: Path)
    requires Confined(before, base, dst) && Apart(src, dst) && SameTree(base, src, after, dst)
    ensures SameTree(before, src, after, dst)
  {
    forall p | src <= p
      ensures (p in before <==> p in base) && (p in before ==> base[p] == before[p])
    {
      SourceIntact(before, base, src, dst, p);
    }
    forall p | p in before && src < p
      ensures CopiedAt(before, src, after, dst, p)
    {
      assert CopiedAt(base, src, after, dst, p);
    }
    forall q | q in after && dst < q
      ensures Moved(dst, src, q) in before && Copyable(before[Moved(dst, src, q)])
    {
      assert src <= Moved(dst, src, q);
    }
  }

  /** Removes what exists at a place. */
  method Vacate(disk: Disk, p: Path) returns (ok: bool)
    requires WellFormed(disk.nodes) && p != []
    modifies disk`nodes, disk`tick
    ensures WellFormed(disk.nodes) && Confined(old(disk.nodes), disk.nodes, p)
    ensures ok ==> disk.nodes == if Exists(old(disk.nodes), p) then Cut(old(disk.nodes), p) else old(disk.nodes)
    ensures disk.tick >= old(disk.tick)
    ensures if Exists(old(disk.nodes), p) then ok == !disk.world.fails(old(disk.tick)) && disk.tick > old(disk.tick)
            else ok && disk.tick == old(disk.tick)
  {
    forall q ensures ConfinedAt(disk.nodes, disk.nodes, p, q) {
    }
    ok := true;
    if Exists(disk.nodes, p) {
      ok := disk.Remove(p);
    }
  }

  /** Clears a place and makes it an empty directory. */
  method MakeEmpty(disk: Disk, dst: Path) returns (ok: bool)
    requires WellFormed(disk.nodes) && dst != []
    modifies disk`nodes, disk`tick
    ensures WellFormed(disk.nodes) && Confined(old(disk.nodes), disk.nodes, dst)
    ensures ok || (Exists(old(disk.nodes), dst) && !disk.world.fails(old(disk.tick))) ==>
              forall q :: q in disk.nodes ==> !(dst < q)
    ensures ok ==> dst in disk.nodes && disk.nodes[dst] == Dir
    ensures disk.tick > old(disk.tick)
    ensures Succeeds(disk.world, old(disk.tick), disk.tick, ok, Room(old(disk.nodes), dst))
  {
    ghost var before := disk.nodes;
    ok := Vacate(disk, dst);
    if ok {
      ghost var cleared := disk.nodes;
      RoomAfterClearing(before, cleared, dst);
      ok := disk.CreateDirAll(dst);
      ConfinedTransitive(before, cleared, disk.nodes, dst);
      NothingInside(before, cleared, disk.nodes, dst, ok);
    }
  }

  /** Clears the destination and makes it an empty directory, whether or not the source is in it. */
  method MakeReady(disk: Disk, src: Path, dst: Path) returns (ok: bool)
    requires WellFormed(disk.nodes) && src in disk.nodes && dst != [] && Lawful(disk.world)
    requires Apart(src, dst) || dst < src
    modifies disk`nodes, disk`tick
    ensures WellFormed(disk.nodes) && Confined(old(disk.nodes), disk.nodes, dst)
    ensures ok && Apart(src, dst) ==> Ready(disk.nodes, src, dst, disk.world.order(disk.nodes, src))
    ensures dst < src && (ok || !disk.world.fails(old(disk.tick))) ==> Gone(disk.nodes, src)
    ensures Succeeds(disk.world, old(disk.tick), disk.tick, ok, Room(old(disk.nodes), dst))
  {
    ghost var before := disk.nodes;
    if dst < src {
      AncestorExists(disk.nodes, src, dst);
    }
    ok := MakeEmpty(disk, dst);
    if ok && Apart(src, dst) {
      ReadyNow(before, disk.nodes, src, dst, disk.world);
    }
  }

  lemma ReadyNow(before: Nodes, after: Nodes, src: Path, dst: Path, w: World)
    requires WellFormed(after) && Confined(before, after, dst) && Apart(src, dst) && src in before && Lawful(w)
    requires dst in after && after[dst] == Dir && forall q :: q in after ==> !(dst < q)
    ensures Ready(after, src, dst, w.order(after, src))
  {
    ConfinedNode(before, after, dst, src);
    assert WalkOf(after, src, w.order(after, src));
  }

  /** A directory can be made at the destination once what exists there is gone: a dangling link is not. */
  ghost predicate Room(nodes: Nodes, dst: Path)
    requires dst != []
  {
    Passable(nodes, Parent(dst)) && (dst in nodes ==> Exists(nodes, dst))
  }

  lemma RoomAfterClearing(before: Nodes, cleared: Nodes, dst: Path)
    requires dst != []
    requires if Exists(before, dst) then cleared == Cut(before, dst) else cleared == before
    ensures Passable(cleared, dst) <==> Room(before, dst)
  {
    forall q | q in before && q <= dst
      ensures q == dst || (q <= Parent(dst) && q in cleared && cleared[q] == before[q])
    {
    }
  }

  /** Nothing is left of the tree. */
  ghost predicate Gone(nodes: Nodes, p: Path) {
    forall q :: q in nodes ==> !(p <= q)
  }

  lemma NothingInside(before: Nodes, cleared: Nodes, after: Nodes, dst: Path, made: bool)
    requires WellFormed(before) && WellFormed(cleared) && DirsAdded(cleared, after, dst)
    requires made ==> after == WithDirs(cleared, dst) && dst in after && after[dst] == Dir
    requires if Exists(before, dst) then cleared == Cut(before, dst) else cleared == before
    ensures made || Exists(before, dst) ==> forall q :: q in after ==> !(dst < q)
  {
    forall q | (made || Exists(before, dst)) && q in after
      ensures !(dst < q)
    {
      if dst < q && q in cleared {
        AncestorExists(cleared, q, dst);
      }
    }
  }

  /** `same_path`: two entries that lead to one place, or else two equal names. */
  predicate SamePath(nodes: Nodes, equalNames: bool, src: Path, dst: Path) {
    if Exists(nodes, src) && Exists(nodes, dst) then Follow(nodes, src) == Follow(nodes, dst) else equalNames
  }

  /** Where a copy writes: a directory replaces its destination, a file goes where the destination leads. */
  function Landing(nodes: Nodes, src: Path, dst: Path): (p: Path) {
    if src in nodes && nodes[src] == Dir then dst else Follow(nodes, dst)
  }

  /** The destination lies in the source directory: the walk would see its own output. */
  predicate IntoItself(nodes: Nodes, src: Path, dst: Path) {
    src < dst && src in nodes && nodes[src] == Dir
  }

  /** Nothing stops the call before it clears the destination. */
  predicate Undisturbed(w: World, tick: nat) {
    !w.cancels(tick) && !w.fails(tick + 1) && !w.fails(tick + 2)
  }

  /** What a copy may leave, wherever it ends: changes stay at the landing; without `overwrite` nothing that
      exists is touched; a success that was not a skip is a copy; and a destination that holds the source
      directory is cleared with the source in it, after which the call fails. */
  ghost predicate CopyEnds(before: Nodes, after: Nodes, src: Path, dst: Path, overwrite: bool, skipExisting: bool,
                           undisturbed: bool, r: Result<nat, Error>, walk: seq<Path>) {
    && WellFormed(after) && Confined(before, after, Landing(before, src, dst))
    && ((src in before && before[src] == Dir) || KeptBut(before, after, Landing(before, src, dst)))
    && (Exists(before, dst) && !overwrite ==> after == before && (r.Ok? ==> skipExisting && r.value == 0))
    && (Exists(before, dst) && skipExisting && r.Ok? ==> after == before && r.value == 0)
    && (r.Ok? && !(Exists(before, dst) && skipExisting) ==> CopyOutcome(before, src, after, dst, r.value, walk))
    && (dst < src && src in before && !(skipExisting && r.Ok?) ==>
          && r.Err?
          && (before[src] == Dir && overwrite && !skipExisting && undisturbed ==> Gone(after, src))
          && (before[src] != Dir ==> after == before))
  }

  /** The length of an entry itself: of a link, that of its text. */
  function EntryLength(n: Node): (k: nat) {
    if n.Link? then n.size else SizeOf(n)
  }

  /** What the user was shown: reports that never fall and never pass the source's size, and after a success end
      with it; and a total that never exceeds it, is exact when every size could be read, and after a success that
      nothing disturbed is the number of bytes copied. */
  ghost predicate Reported(before: Nodes, src: Path, reports: seq<nat>, r: Result<nat, Error>, total: nat, exact: bool,
                           walk: seq<Path>, calm: bool, skipped: bool) {
    && (src in before && before[src] == Dir && walk != [] ==>
          && WalkOf(before, src, walk) && Climbs(reports, Weight(before, walk))
          && total <= Weight(before, walk) && (exact ==> total == Weight(before, walk)))
    && (src in before && before[src].File? && r.Ok? && !skipped ==> total == r.value)
    && (src in before && before[src].Link? && r.Ok? && !skipped ==> total == before[src].size)
    && (r.Ok? ==> Climbs(reports, r.value))
    && (src in before && before[src] == Dir && r.Ok? && calm ==> total == r.value)
    && (src in before && r.Ok? && !skipped && (before[src] != Dir || HasFile(before, walk)) ==>
          Reached(reports, r.value))
  }

  /** How a call ends that its first checks stop: cancelled before it began, asked for a place onto itself, or with
      something at the destination that it is to skip or may not replace. */
  ghost predicate StoppedFirst(w: World, tick: nat, nodes: Nodes, src: Path, dst: Path, equalNames: bool,
                               overwrite: bool, skipExisting: bool, ontoItself: Error, r: Result<nat, Error>) {
    if w.cancels(tick) then r == Err(Cancelled)
    else if (if Exists(nodes, src) && Exists(nodes, dst) then Follow(nodes, src) == Follow(nodes, dst) else equalNames)
      then r == Err(ontoItself)
    else if Exists(nodes, dst) && skipExisting then r == Ok(0)
    else Exists(nodes, dst) && !overwrite ==> r == Err(AlreadyExists)
  }

  /** The checks of `copy_local`, up to the first change: an answer, or none when the copy may go on. */
  method Precheck(disk: Disk, src: Path, dst: Path, equalNames: bool, blocked: bool, overwrite: bool,
                  skipExisting: bool)
    returns (early: Option<Result<nat, Error>>)
    requires dst != []
    modifies disk`tick
    ensures early.Some? ==> Answered(disk.nodes, src, dst, overwrite, skipExisting, early.value)
    ensures early.Some? ==> StoppedFirst(disk.world, old(disk.tick), disk.nodes, src, dst, equalNames, overwrite,
                                         skipExisting, CopyFailed, early.value)
    ensures early.None? <==>
            && !disk.world.cancels(old(disk.tick)) && !SamePath(disk.nodes, equalNames, src, dst)
            && !(Exists(disk.nodes, dst) && (skipExisting || !overwrite))
            && !disk.world.fails(old(disk.tick) + 1) && src in disk.nodes && !blocked
    ensures early.None? ==> disk.tick == old(disk.tick) + 2
    ensures early.Some? ==> Succeeds(disk.world, old(disk.tick), disk.tick, early.value.Ok?,
                                     Copies(disk.nodes, src, dst, equalNames, blocked, overwrite, skipExisting))
  {
    var cancel := disk.ShouldCancel();
    if cancel {
      return Some(Err(Cancelled));
    }
    if SamePath(disk.nodes, equalNames, src, dst) {
      return Some(Err(CopyFailed));
    }
    if Exists(disk.nodes, dst) {
      if skipExisting {
        return Some(Ok(0));
      }
      if !overwrite {
        return Some(Err(AlreadyExists));
      }
    }
    var failed := disk.Fails();
    return if failed || src !in disk.nodes || blocked then Some(Err(CopyFailed)) else None;
  }

  /** When a copy that nothing disturbs succeeds: a skip; a directory beside a destination that can be made;
      a file that can be read and written. */
  ghost predicate Copies(nodes: Nodes, src: Path, dst: Path, equalNames: bool, blocked: bool, overwrite: bool,
                         skipExisting: bool)
    requires dst != []
  {
    && !SamePath(nodes, equalNames, src, dst)
    && if Exists(nodes, dst) && (skipExisting || !overwrite) then skipExisting
       else
         && src in nodes && !blocked
         && if nodes[src] == Dir then Apart(src, dst) && Room(nodes, dst) else Writable(nodes, src, dst)
  }

  /** A call succeeds only if it should, and does if it should and nothing disturbs it. */
  ghost predicate Succeeds(w: World, start: nat, end: nat, ok: bool, should: bool) {
    start <= end && (ok ==> should) && (should && Calm(w, start, end) ==> ok)
  }

  predicate Answered(nodes: Nodes, src: Path, dst: Path, overwrite: bool, skipExisting: bool, r: Result<nat, Error>) {
    r.Ok? ==> r.value == 0 && Exists(nodes, dst) && skipExisting
  }

  lemma AnsweredEnds(nodes: Nodes, src: Path, dst: Path, overwrite: bool, skipExisting: bool, undisturbed: bool,
                     r: Result<nat, Error>)
    requires WellFormed(nodes) && Answered(nodes, src, dst, overwrite, skipExisting, r)
    requires dst < src && src in nodes && nodes[src] == Dir && overwrite && !skipExisting ==> !undisturbed
    ensures CopyEnds(nodes, nodes, src, dst, overwrite, skipExisting, undisturbed, r, [])
  {
    forall p ensures ConfinedAt(nodes, nodes, Landing(nodes, src, dst), p) {
    }
  }

  /** `copy_local` on places. A copied directory is the source's directories and regular files, byte for
      byte; reports never fall and never pass the source's size. */
  method CopyPlaces(disk: Disk, src: Path, dst: Path, equalNames: bool, blocked: bool, overwrite: bool,
                    skipExisting: bool)
    returns (r: Result<nat, Error>, total: nat, ghost exact: bool, ghost walk: seq<Path>)
    requires WellFormed(disk.nodes) && Lawful(disk.world) && disk.reports == [] && dst != []
    requires !IntoItself(disk.nodes, src, dst) && (blocked ==> dst !in disk.nodes)
    modifies disk
    ensures CopyEnds(old(disk.nodes), disk.nodes, src, dst, overwrite, skipExisting,
                     Undisturbed(disk.world, old(disk.tick)), r, walk)
    ensures StoppedFirst(disk.world, old(disk.tick), old(disk.nodes), src, dst, equalNames, overwrite, skipExisting,
                         CopyFailed, r)
    ensures Reported(old(disk.nodes), src, disk.reports, r, total, exact, walk,
                     Calm(disk.world, old(disk.tick), disk.tick), Exists(old(disk.nodes), dst) && skipExisting)
    ensures Succeeds(disk.world, old(disk.tick), disk.tick, r.Ok?,
                     Copies(old(disk.nodes), src, dst, equalNames, blocked, overwrite, skipExisting))
  {
    total, exact, walk := 0, false, [];
    ghost var before := disk.nodes;
    ghost var undisturbed := Undisturbed(disk.world, disk.tick);
    AncestorIsOther(before, equalNames, src, dst);
    var early := Precheck(disk, src, dst, equalNames, blocked, overwrite, skipExisting);
    if early.Some? {
      r := early.value;
      AnsweredEnds(before, src, dst, overwrite, skipExisting, undisturbed, r);
    } else {
      r, total, exact, walk := CopyChecked(disk, src, dst, equalNames, overwrite, skipExisting);
    }
  }

  /** A copy that passed the checks. */
  method CopyChecked(disk: Disk, src: Path, dst: Path, equalNames: bool, overwrite: bool, skipExisting: bool)
    returns (r: Result<nat, Error>, total: nat, ghost exact: bool, ghost walk: seq<Path>)
    requires WellFormed(disk.nodes) && Lawful(disk.world) && disk.reports == [] && dst != [] && src in disk.nodes
    requires !IntoItself(disk.nodes, src, dst) && !SamePath(disk.nodes, equalNames, src, dst)
    requires !(Exists(disk.nodes, dst) && (skipExisting || !overwrite))
    modifies disk
    ensures CopyEnds(old(disk.nodes), disk.nodes, src, dst, overwrite, skipExisting,
                     !disk.world.fails(old(disk.tick)), r, walk)
    ensures Reported(old(disk.nodes), src, disk.reports, r, total, exact, walk,
                     Calm(disk.world, old(disk.tick), disk.tick), Exists(old(disk.nodes), dst) && skipExisting)
    ensures Succeeds(disk.world, old(disk.tick), disk.tick, r.Ok?,
                     if old(disk.nodes)[src] == Dir then Apart(src, dst) && Room(old(disk.nodes), dst)
                     else Writable(old(disk.nodes), src, dst))
  {
    total, exact, walk := 0, false, [];
    ghost var before := disk.nodes;
    if disk.nodes[src].Dir? {
      ApartWhenCopied(before, equalNames, src, dst);
      r, total, exact, walk := CopyDirectory(disk, src, dst, overwrite, skipExisting);
    } else {
      total := EntryLength(disk.nodes[src]);
      r := CopySingle(disk, src, dst, equalNames, overwrite, skipExisting);
    }
  }

  /** A destination that holds the source exists and is another entry. */
  lemma AncestorIsOther(nodes: Nodes, equalNames: bool, src: Path, dst: Path)
    requires WellFormed(nodes)
    ensures dst < src && src in nodes ==> dst in nodes && nodes[dst] == Dir
    ensures dst < src && src in nodes && nodes[src] == Dir ==> !SamePath(nodes, equalNames, src, dst)
  {
    if dst < src && src in nodes {
      AncestorExists(nodes, src, dst);
    }
  }

  lemma ApartWhenCopied(nodes: Nodes, equalNames: bool, src: Path, dst: Path)
    requires src in nodes && nodes[src] == Dir && !SamePath(nodes, equalNames, src, dst) && !IntoItself(nodes, src, dst)
    ensures Apart(src, dst) || dst < src
  {
    assert |src| == |dst| && (src <= dst || dst <= src) ==> src == dst;
  }

  /** The file branch of `copy_local`. */
  method CopySingle(disk: Disk, src: Path, dst: Path, equalNames: bool, overwrite: bool, skipExisting: bool)
    returns (r: Result<nat, Error>)
    requires WellFormed(disk.nodes) && disk.reports == [] && dst != []
    requires src in disk.nodes && disk.nodes[src] != Dir && !SamePath(disk.nodes, equalNames, src, dst)
    requires !(Exists(disk.nodes, dst) && (skipExisting || !overwrite))
    modifies disk
    ensures CopyEnds(old(disk.nodes), disk.nodes, src, dst, overwrite, skipExisting, true, r, [])
    ensures r.Ok? ==> Climbs(disk.reports, r.value) && Reached(disk.reports, r.value)
    ensures r.Ok? && old(disk.nodes)[src].File? ==> r.value == SizeOf(old(disk.nodes)[src])
    ensures Succeeds(disk.world, old(disk.tick), disk.tick, r.Ok?, Writable(old(disk.nodes), src, dst))
  {
    ghost var before := disk.nodes;
    if dst < src {
      AncestorExists(before, src, dst);
    }
    r := disk.CopyOneFile(src, dst, overwrite, skipExisting, 0);
  }

  /** What a copy that was not skipped leaves at the destination. */
  ghost predicate CopyOutcome(before: Nodes, src: Path, after: Nodes, dst: Path, n: nat, walk: seq<Path>) {
    && src in before
    && if before[src] == Dir then
         WalkOf(before, src, walk) && SameTree(before, src, after, dst) && n == Weight(before, walk)
       else
         && Contents(before, src).Some? && n == |Contents(before, src).value|
         && dst != [] && Written(before, after, dst, Contents(before, src).value)
  }

  /** The directory branch of `copy_local`. */
  method CopyDirectory(disk: Disk, src: Path, dst: Path, overwrite: bool, skipExisting: bool)
    returns (r: Result<nat, Error>, total: nat, ghost exact: bool, ghost walk: seq<Path>)
    requires WellFormed(disk.nodes) && Lawful(disk.world) && disk.reports == [] && dst != []
    requires Apart(src, dst) || dst < src
    requires src in disk.nodes && disk.nodes[src] == Dir
    modifies disk
    ensures WellFormed(disk.nodes) && Confined(old(disk.nodes), disk.nodes, dst)
    ensures walk != [] ==>
              WalkOf(old(disk.nodes), src, walk) && Climbs(disk.reports, Weight(old(disk.nodes), walk))
              && total <= Weight(old(disk.nodes), walk) && (exact ==> total == Weight(old(disk.nodes), walk))
    ensures r.Ok? ==>
              CopyOutcome(old(disk.nodes), src, disk.nodes, dst, r.value, walk) && Climbs(disk.reports, r.value)
              && (Calm(disk.world, old(disk.tick), disk.tick) ==> total == r.value)
              && (HasFile(old(disk.nodes), walk) ==> Reached(disk.reports, r.value))
    ensures dst < src ==> r.Err? && (!disk.world.fails(old(disk.tick)) ==> Gone(disk.nodes, src))
    ensures Succeeds(disk.world, old(disk.tick), disk.tick, r.Ok?, Apart(src, dst) && Room(old(disk.nodes), dst))
  {
    r, total, exact, walk := Err(CopyFailed), 0, false, [];
    ghost var before := disk.nodes;
    var ready := MakeReady(disk, src, dst);
    if !ready {
    } else if src !in disk.nodes {
      // The pre-scan and the walk both fail at their root.
      var cancel := disk.ShouldCancel();
      r := Err(if cancel then Cancelled else CopyFailed);
    } else {
      var items := disk.world.order(disk.nodes, src);
      ghost var base := disk.nodes;
      ConfinedNode(before, base, dst, src);
      r, total, exact := CopyPrepared(disk, src, dst, items, overwrite, skipExisting);
      walk := items;
      CarriesOver(before, base, src, disk.nodes, dst, walk, r);
    }
  }

  /** What was shown relative to the cleared destination holds relative to the start. */
  lemma CarriesOver(before: Nodes, base: Nodes, src: Path, after: Nodes, dst: Path, walk: seq<Path>,
                    r: Result<nat, Error>)
    requires Confined(before, base, dst) && Confined(base, after, dst) && Apart(src, dst)
    requires src in before && before[src] == Dir && WalkOf(base, src, walk)
    requires r.Ok? ==> r.value == Weight(base, walk) && SameTree(base, src, after, dst)
    ensures Confined(before, after, dst) && WalkOf(before, src, walk) && Weight(before, walk) == Weight(base, walk)
    ensures r.Ok? ==> CopyOutcome(before, src, after, dst, r.value, walk)
    ensures HasFile(before, walk) ==> HasFile(base, walk)
  {
    FilesCarryOver(before, base, src, dst, walk);
    ConfinedTransitive(before, base, after, dst);
    WalkCarriesOver(before, base, src, dst, walk);
    if r.Ok? {
      SameTreeCarriesOver(before, base, src, after, dst);
    }
  }

  lemma FilesCarryOver(before: Nodes, base: Nodes, src: Path, dst: Path, walk: seq<Path>)
    requires Confined(before, base, dst) && Apart(src, dst) && WalkOf(base, src, walk)
    ensures HasFile(before, walk) ==> HasFile(base, walk)
  {
    if HasFile(before, walk) {
      var i :| 0 <= i < |walk| && walk[i] in before && before[walk[i]].File?;
      SourceIntact(before, base, src, dst, walk[i]);
    }
  }

  /** Counts, then copies, into an empty destination. */
  method CopyPrepared(disk: Disk, src: Path, dst: Path, walk: seq<Path>, overwrite: bool, skipExisting: bool)
    returns (r: Result<nat, Error>, total: nat, ghost exact: bool)
    requires Ready(disk.nodes, src, dst, walk) && disk.reports == [] && disk.nodes[src] == Dir
    modifies disk
    ensures Stopped(old(disk.nodes), dst, walk, disk.nodes, disk.reports)
    ensures total <= Weight(old(disk.nodes), walk) && (exact ==> total == Weight(old(disk.nodes), walk))
    ensures Calm(disk.world, old(disk.tick), disk.tick) ==> exact
    ensures r.Ok? ==> r.value == Weight(old(disk.nodes), walk) && SameTree(old(disk.nodes), src, disk.nodes, dst)
                      && (HasFile(old(disk.nodes), walk) ==> Reached(disk.reports, r.value))
    ensures Succeeds(disk.world, old(disk.tick), disk.tick, r.Ok?, true)
  {
    var scan;
    ghost var base := disk.nodes;
    scan, exact := PrescanTree(disk, src, walk);
    CountedBytes(base, walk);
    total := if scan.Some? then scan.value.bytes else 0;
    exact := exact && scan.Some?;
    r := CopyItems(disk, src, dst, walk, overwrite, skipExisting);
    if r.Ok? {
      GrownIsSameTree(base, base, src, dst, walk);
    }
  }

  // ---------------------------------------------------------------------------
  // Names
  // ---------------------------------------------------------------------------

  /** `copy_local`, given names. Links on the way are followed once, before anything is touched: every name
      keeps its place to the end, as long as none of its links stands in a destination that is cleared. */
  method CopyLocal(disk: Disk, from: Path, to: Path, overwrite: bool, skipExisting: bool)
    returns (r: Result<nat, Error>, total: nat, ghost exact: bool, ghost walk: seq<Path>)
    requires WellFormed(disk.nodes) && Lawful(disk.world) && disk.reports == [] && to != []
    requires var src, dst := Place(disk.nodes, from), Place(disk.nodes, to);
             && !IntoItself(disk.nodes, src, dst)
             && (dst in disk.nodes && src in disk.nodes && disk.nodes[src] == Dir ==>
                   Clear(disk.nodes, from, dst) && Clear(disk.nodes, to, dst))
    modifies disk
    ensures var src, dst := Place(old(disk.nodes), from), Place(old(disk.nodes), to);
            && CopyEnds(old(disk.nodes), disk.nodes, src, dst, overwrite, skipExisting,
                        Undisturbed(disk.world, old(disk.tick)), r, walk)
            && StoppedFirst(disk.world, old(disk.tick), old(disk.nodes), src, dst, from == to, overwrite, skipExisting,
                            CopyFailed, r)
            && Reported(old(disk.nodes), src, disk.reports, r, total, exact, walk,
                        Calm(disk.world, old(disk.tick), disk.tick), Exists(old(disk.nodes), dst) && skipExisting)
            && Place(disk.nodes, from) == src && Place(disk.nodes, to) == dst
            && Succeeds(disk.world, old(disk.tick), disk.tick, r.Ok?,
                        Copies(old(disk.nodes), src, dst, from == to, Blocked(old(disk.nodes), to), overwrite,
                               skipExisting))
  {
    ghost var before := disk.nodes;
    var src, dst := Place(disk.nodes, from), Place(disk.nodes, to);
    if Blocked(before, to) {
      BlockedIsMissing(before, to);
    }
    r, total, exact, walk :=
      CopyPlaces(disk, src, dst, from == to, Blocked(disk.nodes, to), overwrite, skipExisting);
    PlacesStay(before, disk.nodes, src, from, dst);
    PlacesStay(before, disk.nodes, src, to, dst);
  }

  lemma PlacesStay(before: Nodes, after: Nodes, src: Path, name: Path, dst: Path)
    requires WellFormed(before) && Confined(before, after, Landing(before, src, dst))
    requires (src in before && before[src] == Dir) || KeptBut(before, after, Landing(before, src, dst))
    requires dst in before && src in before && before[src] == Dir ==> Clear(before, name, dst)
    ensures Place(after, name) == Place(before, name)
  {
    var landing := Landing(before, src, dst);
    ConfinedKeepsLinks(before, after, landing);
    if src in before && before[src] == Dir {
      if dst !in before {
        ClearOfMissing(before, name, dst);
      }
      PlaceStays(before, after, name, dst);
    } else {
      if dst in before && before[dst].Link? {
        assert Canonical(before, before[dst].target);
      }
      SameLinksSamePlace(before, after, name);
    }
  }

  /** In particular a directory or a readable file copies to any free name in a directory outside it. */
  lemma FreeNameCopies(nodes: Nodes, src: Path, dst: Path, overwrite: bool, skipExisting: bool)
    requires WellFormed(nodes) && src in nodes && dst != [] && dst !in nodes && !IntoItself(nodes, src, dst)
    requires Parent(dst) in nodes && nodes[Parent(dst)] == Dir
    requires nodes[src] == Dir || Contents(nodes, src).Some?
    ensures Copies(nodes, src, dst, false, false, overwrite, skipExisting)
  {
    NewIsPassable(nodes, dst);
    if dst <= src {
      AncestorExists(nodes, src, dst);
    }
  }

  // ---------------------------------------------------------------------------
  // Where a copy leaves its destination
  // ---------------------------------------------------------------------------

  /** A copy that was made stays at its destination exactly when the destination was not a link to other
      bytes, or the source is a directory, whose destination is removed first. */
  lemma StaysAtDestinationExactlyWhen(before: Nodes, after: Nodes, src: Path, dst: Path, overwrite: bool,
                                      skipExisting: bool, undisturbed: bool, r: Result<nat, Error>, walk: seq<Path>)
    requires WellFormed(before)
    requires CopyEnds(before, after, src, dst, overwrite, skipExisting, undisturbed, r, walk)
    requires r.Ok? && !(Exists(before, dst) && skipExisting)
    ensures Confined(before, after, dst) <==>
            || before[src] == Dir || dst !in before || !before[dst].Link?
            || Contents(before, dst) == Contents(before, src)
  {
    if before[src] != Dir {
      WrittenFacts(before, after, dst, Contents(before, src).value);
    }
  }

  /** The input: a file copied over a link, with `overwrite`. The link stays, and the file it leads to,
      wherever that is, has the source's bytes. */
  lemma WrittenThroughLinkExample(before: Nodes, after: Nodes, src: Path, dst: Path, r: Result<nat, Error>,
                                  walk: seq<Path>)
    requires WellFormed(before) && CopyEnds(before, after, src, dst, true, false, true, r, walk) && r.Ok?
    requires src in before && before[src].File? && dst in before && before[dst].Link?
    ensures dst in after && after[dst] == before[dst]
    ensures var target := before[dst].target;
            target in after && after[target] == before[src] && !(dst <= target)
  {
    assert Canonical(before, before[dst].target);
    WrittenFacts(before, after, dst, Contents(before, src).value);
  }
}
