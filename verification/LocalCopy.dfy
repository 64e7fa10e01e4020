/** Local copy and move (`prescan`, `copy_one_file`, `copy_local` and `move_local` of `local_fs.rs`) on a
    disk whose every call may fail and whose user may cancel at any poll. */
module LocalCopy {
  import opened Text
  import opened LocalTree

  const CHUNK: nat := 131072

  datatype Error = Cancelled | CopyFailed | MoveFailed | AlreadyExists

  /** What the system decides: which call fails, when the user cancels, how many bytes a read returns, the
      order of a directory walk, and whether a rename crosses devices. */
  datatype World = World(
    fails: nat -> bool, cancels: nat -> bool, sizes: nat -> nat,
    order: (Nodes, Path) -> seq<Path>, crosses: (Path, Path) -> bool)

  /** A walk lists everything strictly inside a directory once, each directory before its contents. */
  ghost predicate Lawful(w: World) {
    && (forall nodes, p {:trigger w.order(nodes, p)} ::
          WellFormed(nodes) && p in nodes ==> WalkOf(nodes, p, w.order(nodes, p)))
    && (forall p, q :: w.crosses(p, q) ==> Apart(p, q))
  }

  ghost predicate WalkOf(nodes: Nodes, p: Path, items: seq<Path>) {
    && Inside(p, items, nodes)
    && (forall q :: q in nodes && p < q ==> q in items)
    && (forall i, j :: 0 <= i < j < |items| ==> items[i] != items[j])
    && (forall i :: 0 <= i < |items| ==> Parent(items[i]) == p || Parent(items[i]) in items[..i])
  }

  /** No fault and no cancellation from one call up to another. */
  ghost predicate Calm(w: World, start: nat, end: nat) {
    start <= end && forall t :: start <= t < end ==> !w.fails(t) && !w.cancels(t)
  }

  /** Reports never fall and never pass `high`. */
  predicate Climbs(reports: seq<nat>, high: nat) {
    reports == [] || (reports[|reports| - 1] <= high && Climbs(reports[..|reports| - 1], reports[|reports| - 1]))
  }

  /** The last report is `n`. */
  predicate Reached(reports: seq<nat>, n: nat) {
    reports != [] && reports[|reports| - 1] == n
  }

  lemma ClimbsHigher(reports: seq<nat>, low: nat, high: nat)
    requires Climbs(reports, low) && low <= high
    ensures Climbs(reports, high) && Climbs(reports + [high], high)
  {
    assert (reports + [high])[..|reports|] == reports;
  }

  class Disk {
    var nodes: Nodes
    var tick: nat
    var reports: seq<nat>
    const world: World

    constructor (nodes: Nodes, world: World)
      ensures this.nodes == nodes && this.world == world && reports == [] && tick == 0
    {
      this.nodes := nodes;
      this.world := world;
      reports := [];
      tick := 0;
    }

    method Fails() returns (failed: bool)
      modifies `tick
      ensures failed == world.fails(old(tick)) && tick == old(tick) + 1
    {
      failed := world.fails(tick);
      tick := tick + 1;
    }

    method ShouldCancel() returns (cancel: bool)
      modifies `tick
      ensures cancel == world.cancels(old(tick)) && tick == old(tick) + 1
    {
      cancel := world.cancels(tick);
      tick := tick + 1;
    }

    /** The poll of the user, then a call that may fail. */
    method Interrupted() returns (e: Option<Error>)
      modifies `tick
      ensures tick > old(tick) && (Calm(world, old(tick), tick) ==> e.None?)
    {
      var cancel := ShouldCancel();
      if cancel {
        return Some(Cancelled);
      }
      var failed := Fails();
      return if failed then Some(CopyFailed) else None;
    }

    method Progress(done: nat)
      modifies `reports
      ensures reports == old(reports) + [done]
    {
      reports := reports + [done];
    }

    /** Removes a file, a link or a whole tree; a failure may have removed part of it. */
    method Remove(p: Path) returns (ok: bool)
      requires WellFormed(nodes) && p != []
      modifies `nodes, `tick
      ensures WellFormed(nodes) && tick > old(tick)
      ensures ok <==> p in old(nodes) && !world.fails(old(tick))
      ensures ok ==> nodes == Cut(old(nodes), p)
      ensures Confined(old(nodes), nodes, p)
      ensures nodes.Keys <= old(nodes).Keys && forall q :: q in nodes ==> nodes[q] == old(nodes)[q]
    {
      var failed := Fails();
      if p !in nodes {
        return false;
      }
      var kept := if failed then world.sizes(tick) else 0;
      tick := tick + 1;
      PrunedFacts(nodes, p, kept);
      nodes := Pruned(nodes, p, kept);
      return !failed;
    }

    /** `create_dir_all`; a failure may have created some of the directories. */
    method CreateDirAll(p: Path) returns (ok: bool)
      requires WellFormed(nodes)
      modifies `nodes, `tick
      ensures WellFormed(nodes) && DirsAdded(old(nodes), nodes, p) && tick > old(tick)
      ensures p in old(nodes) ==> nodes == old(nodes)
      ensures ok <==> Passable(old(nodes), p) && !world.fails(old(tick))
      ensures ok ==> nodes == WithDirs(old(nodes), p) && p in nodes && nodes[p] == Dir
    {
      var failed := Fails();
      if p in nodes {
        DirectoryIsPassable(nodes, p);
        return !failed && nodes[p] == Dir;
      }
      if exists q :: q in nodes && q <= p && nodes[q] != Dir {
        return false;
      }
      var depth := if failed then world.sizes(tick) else |p|;
      tick := tick + 1;
      var up := if depth < |p| then p[..depth] else p;
      WithDirsAdded(nodes, p, up);
      WithDirsWellFormed(nodes, up);
      nodes := WithDirs(nodes, up);
      return !failed;
    }

    /** `File::create`: a new or emptied regular file where the place leads, through a link too. */
    method CreateFile(p: Path) returns (ok: bool)
      requires WellFormed(nodes) && p != []
      modifies `nodes, `tick
      ensures Touched(old(nodes), nodes, p) && tick > old(tick)
      ensures ok <==> Openable(old(nodes), p) && !world.fails(old(tick))
      ensures ok ==> nodes == old(nodes)[Follow(old(nodes), p) := File([])]
      ensures !ok ==> nodes == old(nodes)
    {
      NothingTouched(nodes, p);
      var failed := Fails();
      var q := Follow(nodes, p);
      if failed || !Openable(nodes, p) {
        return false;
      }
      CreatedTouches(nodes, p);
      nodes := nodes[q := File([])];
      return true;
    }

    /** `write_all`; a failure may have written part of the chunk. */
    method Append(p: Path, ghost was: Data, chunk: Data) returns (ok: bool, ghost data: Data)
      requires p in nodes && nodes[p] == File(was)
      modifies `nodes, `tick
      ensures nodes == old(nodes)[p := File(data)]
      ensures ok ==> data == was + chunk
      ensures tick > old(tick) && ok == !world.fails(old(tick))
    {
      var failed := Fails();
      var written := if failed then world.sizes(tick) else |chunk|;
      tick := tick + 1;
      if written > |chunk| {
        written := |chunk|;
      }
      assert !failed ==> chunk[..written] == chunk;
      data := was + chunk[..written];
      nodes := nodes[p := File(nodes[p].data + chunk[..written])];
      return !failed, data;
    }

    /** Makes the destination's parent and an empty destination file, and opens the source. */
    method OpenBoth(src: Path, dst: Path) returns (r: Result<Data, Error>)
      requires WellFormed(nodes) && dst != [] && src in nodes
      modifies `nodes, `tick
      ensures Touched(old(nodes), nodes, dst) && tick > old(tick)
      ensures r.Ok? ==> Contents(old(nodes), src) == Some(r.value) && Written(old(nodes), nodes, dst, [])
      ensures r.Ok? ==> Writable(old(nodes), src, dst)
      ensures Writable(old(nodes), src, dst) && Calm(world, old(tick), tick) ==> r.Ok?
    {
      r := Err(CopyFailed);
      ghost var before := nodes;
      var madeParent := CreateDirAll(Parent(dst));
      DirsToLanding(before, nodes, src, dst);
      if madeParent {
        ghost var prepared := nodes;
        PreparedIsOpenable(before, prepared, src, dst);
        var cancel := ShouldCancel();
        if cancel {
          r := Err(Cancelled);
        } else {
          r := OpenPrepared(src, dst);
          TouchedTransitive(before, prepared, nodes, dst);
        }
      }
    }

    method OpenPrepared(src: Path, dst: Path) returns (r: Result<Data, Error>)
      requires WellFormed(nodes) && dst != []
      modifies `nodes, `tick
      ensures Touched(old(nodes), nodes, dst) && tick > old(tick)
      ensures r.Ok? ==> Contents(old(nodes), src) == Some(r.value) && Openable(old(nodes), dst)
                        && nodes == old(nodes)[Follow(old(nodes), dst) := File([])]
      ensures Contents(old(nodes), src).Some? && Openable(old(nodes), dst) && Calm(world, old(tick), tick) ==> r.Ok?
    {
      r := Err(CopyFailed);
      NothingTouched(nodes, dst);
      var failedOpen := Fails();
      var input := Contents(nodes, src);
      if !failedOpen && input.Some? {
        var created := CreateFile(dst);
        if created {
          r := Ok(input.value);
        }
      }
    }

    /** Copies one file in chunks. On success the destination reads as the source's bytes: what it leads to
        was written, which is the destination itself unless that is a link. The source is not what the
        destination leads to; the callers make sure of that, since opening the destination empties it. */
    method CopyOneFile(src: Path, dst: Path, overwrite: bool, skipExisting: bool, base: nat)
      returns (r: Result<nat, Error>)
      requires WellFormed(nodes) && dst != [] && src in nodes
      requires Contents(nodes, src).Some? ==> Follow(nodes, src) != Follow(nodes, dst)
      requires Climbs(reports, base)
      modifies `nodes, `tick, `reports
      ensures Touched(old(nodes), nodes, dst) && (Occupied(old(nodes), dst) && r.Ok? ==> skipExisting)
      ensures Climbs(reports, base + match r case Ok(n) => n case Err(_) => ReadableSize(old(nodes), src))
      ensures Exists(old(nodes), dst) && skipExisting ==> r == Ok(0) && nodes == old(nodes)
      ensures Exists(old(nodes), dst) && !skipExisting && !overwrite ==> r == Err(AlreadyExists) && nodes == old(nodes)
      ensures r.Ok? && !(Exists(old(nodes), dst) && skipExisting) ==>
                Contents(old(nodes), src).Some? && r.value == ReadableSize(old(nodes), src)
                && Written(old(nodes), nodes, dst, Contents(old(nodes), src).value)
      ensures tick >= old(tick)
      ensures r.Ok? && !(Exists(old(nodes), dst) && skipExisting) ==> Reached(reports, base + r.value)
      ensures r.Ok? ==> FileCopies(old(nodes), src, dst, overwrite, skipExisting)
      ensures FileCopies(old(nodes), src, dst, overwrite, skipExisting) && Calm(world, old(tick), tick) ==> r.Ok?
    {
      ClimbsHigher(reports, base, base + ReadableSize(nodes, src));
      NothingTouched(nodes, dst);
      if Exists(nodes, dst) {
        if skipExisting {
          return Ok(0);
        }
        if !overwrite {
          return Err(AlreadyExists);
        }
      }
      r := CopyBytes(src, dst, base);
    }

    /** Opens both files and copies the bytes. */
    method CopyBytes(src: Path, dst: Path, base: nat) returns (r: Result<nat, Error>)
      requires WellFormed(nodes) && dst != [] && src in nodes
      requires Contents(nodes, src).Some? ==> Follow(nodes, src) != Follow(nodes, dst)
      requires Climbs(reports, base)
      modifies `nodes, `tick, `reports
      ensures Touched(old(nodes), nodes, dst) && tick > old(tick)
      ensures Climbs(reports, base + ReadableSize(old(nodes), src))
      ensures r.Ok? ==> r.value == ReadableSize(old(nodes), src) && Writable(old(nodes), src, dst)
                        && Written(old(nodes), nodes, dst, Contents(old(nodes), src).value)
      ensures r.Ok? ==> Reached(reports, base + r.value)
      ensures Writable(old(nodes), src, dst) && Calm(world, old(tick), tick) ==> r.Ok?
    {
      ClimbsHigher(reports, base, base + ReadableSize(nodes, src));
      ghost var before := nodes;
      var target := Follow(nodes, dst);
      var input := OpenBoth(src, dst);
      if input.Err? {
        return Err(input.error);
      }
      ghost var emptied := nodes;
      ghost var data;
      r, data := CopyChunks(input.value, target, base);
      Rewritten(emptied, nodes, target, data);
      TouchedAgain(before, emptied, nodes, dst, data);
      WrittenAgain(before, emptied, nodes, dst, data);
    }

    /** Writes and reports one chunk; none when that failed. */
    method WriteNext(input: Data, written: nat, dst: Path, base: nat) returns (next: Option<nat>, ghost data: Data)
      requires written < |input| && dst in nodes && nodes[dst] == File(input[..written])
      requires Climbs(reports, base + written)
      modifies `nodes, `tick, `reports
      ensures nodes == old(nodes)[dst := File(data)]
      ensures next.None? ==> reports == old(reports)
      ensures tick > old(tick) && (Calm(world, old(tick), tick) ==> next.Some?)
      ensures next.Some? ==> written < next.value <= |input| && next.value - written <= CHUNK
                             && Climbs(reports, base + next.value)
                             && data == input[..next.value] && reports == old(reports) + [base + next.value]
    {
      var n := ReadSize(world.sizes(tick), |input| - written);
      var ok;
      ok, data := Append(dst, input[..written], input[written..written + n]);
      if !ok {
        return None, data;
      }
      assert input[..written] + input[written..written + n] == input[..written + n];
      ClimbsHigher(reports, base + written, base + written + n);
      Progress(base + written + n);
      return Some(written + n), data;
    }

    /** The chunk loop of a file copy: what was read, written and reported when it stopped, and why it
        stopped before the end of the input. */
    method ChunkLoop(input: Data, dst: Path, base: nat) returns (stop: Option<Error>, written: nat, ghost data: Data)
      requires dst in nodes && nodes[dst] == File([]) && Climbs(reports, base) && Reached(reports, base)
      modifies `nodes, `tick, `reports
      ensures nodes == old(nodes)[dst := File(data)]
      ensures written <= |input| && Climbs(reports, base + written) && Reached(reports, base + written)
      ensures old(reports) <= reports
      ensures stop.None? ==> written == |input| && data == input
      ensures tick >= old(tick) && (Calm(world, old(tick), tick) ==> stop.None?)
    {
      stop, written, data := None, 0, input[..0];
      while true
        invariant written <= |input| && Climbs(reports, base + written) && Reached(reports, base + written)
        invariant old(reports) <= reports
        invariant data == input[..written] && nodes == old(nodes)[dst := File(data)]
        invariant tick >= old(tick) && stop.None?
        decreases |input| - written
      {
        stop := Interrupted();
        if stop.Some? || written == |input| {
          break;
        }
        var next;
        next, data := WriteNext(input, written, dst, base);
        if next.None? {
          stop := Some(CopyFailed);
          break;
        }
        written := next.value;
      }
    }

    /** Reports the start, copies the chunks and flushes. `data` is what the destination holds in the end. */
    method CopyChunks(input: Data, dst: Path, base: nat) returns (r: Result<nat, Error>, ghost data: Data)
      requires dst in nodes && nodes[dst] == File([]) && Climbs(reports, base)
      modifies `nodes, `tick, `reports
      ensures nodes == old(nodes)[dst := File(data)]
      ensures Climbs(reports, base + |input|)
      ensures old(reports) + [base] <= reports
      ensures r.Ok? ==> r.value == |input| && data == input && Reached(reports, base + |input|)
      ensures tick >= old(tick) && (Calm(world, old(tick), tick) ==> r.Ok?)
    {
      ClimbsHigher(reports, base, base);
      Progress(base);
      var stop, written;
      stop, written, data := ChunkLoop(input, dst, base);
      ClimbsHigher(reports, base + written, base + |input|);
      if stop.Some? {
        return Err(stop.value), data;
      }
      var failedFlush := Fails();
      return if failedFlush then Err(CopyFailed) else Ok(written), data;
    }
  }

  lemma Rewritten(before: Nodes, after: Nodes, p: Path, data: Data)
    requires WellFormed(before) && p != [] && p in before && before[p].File? && after == before[p := File(data)]
    ensures WellFormed(after) && Confined(before, after, p)
  {
    forall q
      ensures ConfinedAt(before, after, p, q)
    {
    }
  }

  /** The place leads to something that is not a regular file. */
  predicate Occupied(nodes: Nodes, p: Path) {
    Follow(nodes, p) in nodes && !nodes[Follow(nodes, p)].File?
  }

  /** Nothing but directories stands on the way to a place, and there. */
  ghost predicate Passable(nodes: Nodes, p: Path) {
    forall q :: q in nodes && q <= p ==> nodes[q] == Dir
  }

  lemma DirectoryIsPassable(nodes: Nodes, p: Path)
    requires WellFormed(nodes) && p in nodes
    ensures Passable(nodes, p) <==> nodes[p] == Dir
  {
    forall q | q in nodes && q <= p ensures q == p || nodes[q] == Dir {
      AncestorExists(nodes, p, q);
    }
  }

  /** A file can be made or emptied where the place leads. */
  predicate Openable(nodes: Nodes, p: Path) {
    var q := Follow(nodes, p);
    q != [] && Parent(q) in nodes && nodes[Parent(q)] == Dir && !Occupied(nodes, p)
  }

  /** The source reads as a file, and one can be made where the destination leads, with the directories on
      the way; a dangling link needs a directory to dangle in. */
  ghost predicate Writable(nodes: Nodes, src: Path, dst: Path)
    requires dst != []
  {
    && Contents(nodes, src).Some? && Passable(nodes, Parent(dst)) && !Occupied(nodes, dst)
    && (dst in nodes && nodes[dst].Link? ==> Openable(nodes, dst))
  }

  /** When a file copy that nothing disturbs succeeds. */
  ghost predicate FileCopies(nodes: Nodes, src: Path, dst: Path, overwrite: bool, skipExisting: bool)
    requires dst != []
  {
    if Exists(nodes, dst) && (skipExisting || !overwrite) then skipExisting else Writable(nodes, src, dst)
  }

  lemma PreparedIsOpenable(before: Nodes, after: Nodes, src: Path, dst: Path)
    requires WellFormed(before) && WellFormed(after) && dst != []
    requires Parent(dst) in after && after[Parent(dst)] == Dir && Passable(before, Parent(dst))
    requires Parent(dst) in before ==> after == before
    requires Follow(after, dst) == Follow(before, dst) && Contents(after, src) == Contents(before, src)
    requires Occupied(after, dst) <==> Occupied(before, dst)
    ensures Openable(after, dst) && Contents(after, src).Some? <==> Writable(before, src, dst)
  {
    if dst in before {
      assert Parent(dst) in before;
    }
  }

  /** What opening and writing a destination may change: what it leads to, and directories on the way to it;
      nothing at all when it leads to something that is not a regular file. */
  ghost predicate Touched(before: Nodes, after: Nodes, p: Path) {
    && WellFormed(after) && Confined(before, after, Follow(before, p)) && KeptBut(before, after, Follow(before, p))
    && (Occupied(before, p) ==> after == before)
  }

  lemma NothingTouched(nodes: Nodes, p: Path)
    requires WellFormed(nodes)
    ensures Touched(nodes, nodes, p)
  {
    forall q ensures ConfinedAt(nodes, nodes, Follow(nodes, p), q) {
    }
  }

  lemma CreatedTouches(nodes: Nodes, p: Path)
    requires WellFormed(nodes) && Openable(nodes, p)
    ensures Touched(nodes, nodes[Follow(nodes, p) := File([])], p)
  {
    var q := Follow(nodes, p);
    var after := nodes[q := File([])];
    forall r | r in after && r != [] ensures Parent(r) in after && after[Parent(r)] == Dir {
      assert r in nodes && r != q ==> Parent(r) != q;
    }
    forall r | r in after && after[r].Link? ensures Canonical(after, after[r].target) {
      assert Canonical(nodes, nodes[r].target);
    }
    forall r ensures ConfinedAt(nodes, after, q, r) {
    }
  }

  lemma TouchedTransitive(a: Nodes, b: Nodes, c: Nodes, p: Path)
    requires Touched(a, b, p) && Touched(b, c, p) && Follow(b, p) == Follow(a, p)
    ensures Touched(a, c, p)
  {
    ConfinedTransitive(a, b, c, Follow(a, p));
  }

  /** Writing on what was opened touches nothing more. */
  lemma TouchedAgain(a: Nodes, b: Nodes, c: Nodes, p: Path, data: Data)
    requires Touched(a, b, p) && !Occupied(a, p) && Confined(b, c, Follow(a, p)) && WellFormed(c)
    requires c == b[Follow(a, p) := File(data)]
    ensures Touched(a, c, p)
  {
    ConfinedTransitive(a, b, c, Follow(a, p));
  }

  /** The file that a place leads to holds the data; nothing else changed but directories on the way. */
  ghost predicate Written(before: Nodes, after: Nodes, p: Path, data: Data)
    requires p != []
  {
    after == WithDirs(before, Parent(p))[Follow(before, p) := File(data)]
  }

  lemma WrittenAgain(a: Nodes, b: Nodes, c: Nodes, p: Path, data: Data)
    requires p != [] && Written(a, b, p, []) && c == b[Follow(a, p) := File(data)]
    ensures Written(a, c, p, data)
  {
  }

  /** New directories on the way to a destination are on the way to where it leads: there are none when it
      is a link. */
  lemma DirsToLanding(before: Nodes, after: Nodes, src: Path, dst: Path)
    requires WellFormed(before) && dst != [] && src in before && DirsAdded(before, after, Parent(dst))
    requires Parent(dst) in before ==> after == before
    requires WellFormed(after)
    ensures Touched(before, after, dst) && Follow(after, dst) == Follow(before, dst)
    ensures Occupied(after, dst) <==> Occupied(before, dst)
    ensures Contents(after, src) == Contents(before, src)
  {
    var target := Follow(before, dst);
    if dst in before {
      assert Parent(dst) in before;
    }
    forall p
      ensures ConfinedAt(before, after, target, p)
    {
    }
  }

  /** A read returns at least one byte before the end, and at most a buffer. */
  function ReadSize(wish: nat, left: nat): (n: nat)
    requires left > 0
    ensures 1 <= n <= left && n <= CHUNK
  {
    var most := if left < CHUNK then left else CHUNK;
    if wish == 0 then 1 else if wish > most then most else wish
  }

  lemma ConfinedNode(a: Nodes, b: Nodes, dst: Path, p: Path)
    requires Confined(a, b, dst) && !(dst <= p) && p in a
    ensures p in b && b[p] == a[p]
  {
    assert ConfinedAt(a, b, dst, p);
  }

  /** A written file reads back, and it is confined to its place exactly when that is not a link to a file
      with other bytes, or to none. */
  lemma WrittenFacts(before: Nodes, after: Nodes, p: Path, data: Data)
    requires WellFormed(before) && WellFormed(after) && p != [] && Written(before, after, p, data)
    ensures Contents(after, p) == Some(data)
    ensures Confined(before, after, p) <==> p !in before || !before[p].Link? || Contents(before, p) == Some(data)
  {
    var q := Follow(before, p);
    WithDirsAdded(before, p, Parent(p));
    if p in before && before[p].Link? {
      assert WithDirs(before, Parent(p)) == before;
      assert !(p <= q) by {
        assert Canonical(before, q);
      }
      assert ConfinedAt(before, after, p, q) <==> q in before && before[q] == File(data);
    }
    if p !in before || !before[p].Link? || Contents(before, p) == Some(data) {
      forall r
        ensures ConfinedAt(before, after, p, r)
      {
      }
    }
  }
}
