/** Local move (`move_local` of `local_fs.rs`): a rename, or a copy and a removal when the destination is
    on another device. */
module LocalMove {
  import opened Text
  import opened LocalTree
  import opened LocalCopy
  import opened LocalTransfer

  /** A regular file of the source still has its bytes at the source, or the destination reads as them. */
  predicate SafeAt(before: Nodes, after: Nodes, src: Path, dst: Path, p: Path)
    requires src <= p
  {
    p in before && before[p].File? ==>
      || (p in after && after[p] == before[p])
      || Contents(after, Moved(src, dst, p)) == Some(before[p].data)
  }

  ghost predicate AllSafe(before: Nodes, after: Nodes, src: Path, dst: Path) {
    forall p | src <= p :: SafeAt(before, after, src, dst, p)
  }

  /** What was at neither place is as it was. */
  ghost predicate Elsewhere(before: Nodes, after: Nodes, src: Path, dst: Path) {
    forall q :: q in before && !(src <= q) && !(dst <= q) ==> q in after && after[q] == before[q]
  }

  lemma ConfinedElsewhere(before: Nodes, after: Nodes, p: Path, src: Path, dst: Path)
    requires Confined(before, after, p) && (p == src || p == dst)
    ensures Elsewhere(before, after, src, dst)
  {
    forall q | q in before && !(src <= q) && !(dst <= q) ensures q in after && after[q] == before[q] {
      assert ConfinedAt(before, after, p, q);
    }
  }

  lemma ElsewhereTransitive(a: Nodes, b: Nodes, c: Nodes, src: Path, dst: Path)
    requires Elsewhere(a, b, src, dst) && Elsewhere(b, c, src, dst)
    ensures Elsewhere(a, c, src, dst)
  {
  }

  /** A copy to a place where nothing exists leaves the rest alone, even where a dangling link leads. */
  lemma CopiedElsewhere(start: Nodes, copied: Nodes, src: Path, dst: Path)
    requires !Exists(start, dst) && Confined(start, copied, Landing(start, src, dst))
    requires (src in start && start[src] == Dir) || KeptBut(start, copied, Landing(start, src, dst))
    ensures Elsewhere(start, copied, src, dst)
  {
    if src in start && start[src] == Dir {
      ConfinedElsewhere(start, copied, dst, src, dst);
    }
  }

  /** The whole tree, links included, now stands at `dst`. */
  ghost predicate Renamed(before: Nodes, after: Nodes, src: Path, dst: Path) {
    forall p | src <= p :: RenamedAt(before, after, src, dst, p)
  }

  ghost predicate RenamedAt(before: Nodes, after: Nodes, src: Path, dst: Path, p: Path)
    requires src <= p
  {
    && p !in after
    && (p in before <==> Moved(src, dst, p) in after)
    && (p in before ==> after[Moved(src, dst, p)] == before[p])
  }

  datatype RenameResult = Done | Same | Crosses | Failed

  function MovedKeys(nodes: Nodes, src: Path, dst: Path): (keys: set<Path>) {
    set p | p in nodes && src <= p :: Moved(src, dst, p)
  }

  function Relocated(nodes: Nodes, src: Path, dst: Path): (m: Nodes) {
    (map q | q in nodes && !(src <= q) && !(dst <= q) :: nodes[q])
    + (map q | q in MovedKeys(nodes, src, dst) && dst <= q && Moved(dst, src, q) in nodes :: nodes[Moved(dst, src, q)])
  }

  lemma MovedBack(src: Path, dst: Path, p: Path)
    requires src <= p
    ensures dst <= Moved(src, dst, p) && Moved(dst, src, Moved(src, dst, p)) == p
  {
    assert Moved(src, dst, p)[|dst|..] == p[|src|..];
  }

  lemma RelocatedIsRenamed(nodes: Nodes, src: Path, dst: Path)
    requires Apart(src, dst)
    ensures Renamed(nodes, Relocated(nodes, src, dst), src, dst)
    ensures Elsewhere(nodes, Relocated(nodes, src, dst), src, dst)
    ensures forall q :: q in Relocated(nodes, src, dst) && !(dst <= q) ==> q in nodes
  {
    var m := Relocated(nodes, src, dst);
    forall p | src <= p
      ensures RenamedAt(nodes, m, src, dst, p)
    {
      MovedBack(src, dst, p);
      var t := Moved(src, dst, p);
      if p in m {
        assert dst <= p;
        PrefixesOfOne(src, dst, p);
      }
      if p in nodes {
        assert t in MovedKeys(nodes, src, dst);
      }
    }
  }

  /** There is something to move and a directory to move it to, and neither place holds the other. */
  predicate CanMove(nodes: Nodes, src: Path, dst: Path)
    requires dst != []
  {
    && src in nodes && Apart(src, dst) && Parent(dst) in nodes && nodes[Parent(dst)] == Dir
  }

  /** A rename puts no directory over a link. */
  predicate CanRename(nodes: Nodes, src: Path, dst: Path)
    requires dst != []
  {
    CanMove(nodes, src, dst) && !(nodes[src] == Dir && dst in nodes)
  }

  /** `rename`: nothing at all between two names of one entry. */
  method Rename(disk: Disk, src: Path, dst: Path) returns (r: RenameResult)
    requires Lawful(disk.world) && dst != []
    modifies disk`nodes, disk`tick
    ensures disk.tick == old(disk.tick) + 1
    ensures r != Done ==> disk.nodes == old(disk.nodes)
    ensures r == Same <==> src in old(disk.nodes) && src == dst
    ensures r == Crosses <==> CanMove(old(disk.nodes), src, dst) && disk.world.crosses(src, dst)
    ensures r == Done <==>
            && CanRename(old(disk.nodes), src, dst) && !disk.world.crosses(src, dst)
            && !disk.world.fails(old(disk.tick))
    ensures r == Done ==> Renamed(old(disk.nodes), disk.nodes, src, dst)
    ensures Elsewhere(old(disk.nodes), disk.nodes, src, dst)
    ensures forall q :: q in disk.nodes && !(dst <= q) ==> q in old(disk.nodes)
  {
    var failed := disk.Fails();
    if src in disk.nodes && src == dst {
      return Same;
    }
    if !CanMove(disk.nodes, src, dst) {
      return Failed;
    }
    if disk.world.crosses(src, dst) {
      return Crosses;
    }
    if failed || !CanRename(disk.nodes, src, dst) {
      return Failed;
    }
    RelocatedIsRenamed(disk.nodes, src, dst);
    disk.nodes := Relocated(disk.nodes, src, dst);
    return Done;
  }

  lemma SourceStillSafe(before: Nodes, after: Nodes, src: Path, dst: Path)
    requires Confined(before, after, dst) && Apart(src, dst)
    ensures AllSafe(before, after, src, dst)
  {
    forall p | src <= p
      ensures SafeAt(before, after, src, dst, p)
    {
      SourceIntact(before, after, src, dst, p);
    }
  }

  lemma RenamedIsSafe(before: Nodes, cleared: Nodes, after: Nodes, src: Path, dst: Path)
    requires Confined(before, cleared, dst) && Apart(src, dst) && Renamed(cleared, after, src, dst)
    ensures AllSafe(before, after, src, dst) && Renamed(before, after, src, dst)
  {
    forall p | src <= p
      ensures SafeAt(before, after, src, dst, p) && RenamedAt(before, after, src, dst, p)
    {
      SourceIntact(before, cleared, src, dst, p);
      assert RenamedAt(cleared, after, src, dst, p);
    }
  }

  /** The destination reads as the source did. */
  ghost predicate Arrived(before: Nodes, src: Path, after: Nodes, dst: Path, n: nat, walk: seq<Path>) {
    && src in before
    && if before[src] == Dir then
         WalkOf(before, src, walk) && SameTree(before, src, after, dst) && n == Weight(before, walk)
       else
         Contents(before, src).Some? && n == ReadableSize(before, src) && Contents(after, dst) == Contents(before, src)
  }

  /** A copy into a cleared place, seen from before the clearing. */
  lemma OutcomeArrives(before: Nodes, base: Nodes, src: Path, after: Nodes, dst: Path, walk: seq<Path>, n: nat)
    requires WellFormed(before) && WellFormed(base) && WellFormed(after) && Confined(before, base, dst)
    requires Subset(base, before) && Apart(src, dst) && CopyOutcome(base, src, after, dst, n, walk)
    ensures Arrived(before, src, after, dst, n, walk)
  {
    SourceIntact(before, base, src, dst, src);
    if base[src] == Dir {
      WalkCarriesOver(before, base, src, dst, walk);
      SameTreeCarriesOver(before, base, src, after, dst);
    } else {
      WrittenFacts(base, after, dst, Contents(base, src).value);
    }
  }

  predicate Subset(part: Nodes, whole: Nodes) {
    forall p :: p in part ==> p in whole && part[p] == whole[p]
  }

  /** Where the copy of a single file went is not in the source's place. */
  lemma LandedOutside(start: Nodes, copied: Nodes, src: Path, dst: Path, n: nat, walk: seq<Path>)
    requires WellFormed(start) && WellFormed(copied) && Apart(src, dst) && !Exists(start, dst)
    requires CopyOutcome(start, src, copied, dst, n, walk)
    requires start[src] == Dir || KeptBut(start, copied, Landing(start, src, dst))
    ensures start[src] == Dir || !(src <= Follow(copied, dst))
  {
    if start[src] != Dir {
      var landing := Follow(start, dst);
      WrittenFacts(start, copied, dst, Contents(start, src).value);
      assert landing !in start;
      if src <= landing {
        AncestorExists(copied, landing, src);
      }
    }
  }

  lemma SourceStands(start: Nodes, copied: Nodes, src: Path, dst: Path)
    requires Apart(src, dst) && !Exists(start, dst) && Confined(start, copied, Landing(start, src, dst))
    requires src in start && (start[src] == Dir || KeptBut(start, copied, Landing(start, src, dst)))
    ensures src in copied
  {
    if start[src] == Dir {
      SourceIntact(start, copied, src, dst, src);
    }
  }

  /** Until the source is removed, its files are still there, whatever the copy did. */
  lemma SafeWhileCopying(before: Nodes, start: Nodes, copied: Nodes, src: Path, dst: Path)
    requires Confined(before, start, dst) && Apart(src, dst) && WellFormed(start) && !Exists(start, dst)
    requires Confined(start, copied, Landing(start, src, dst))
    requires (src in start && start[src] == Dir) || KeptBut(start, copied, Landing(start, src, dst))
    ensures AllSafe(before, copied, src, dst)
  {
    forall p | src <= p
      ensures SafeAt(before, copied, src, dst, p)
    {
      SourceIntact(before, start, src, dst, p);
      if src in start && start[src] == Dir {
        SourceIntact(start, copied, src, dst, p);
      }
    }
  }

  /** After a complete copy the source may go, wholly or in part. */
  lemma CopiedIsSafe(before: Nodes, copied: Nodes, after: Nodes, src: Path, dst: Path, n: nat, walk: seq<Path>)
    requires Apart(src, dst) && Arrived(before, src, copied, dst, n, walk)
    requires before[src] == Dir || !(src <= Follow(copied, dst))
    requires Confined(copied, after, src) && WellFormed(before)
    ensures AllSafe(before, after, src, dst)
    ensures before[src] == Dir || Contents(after, dst) == Contents(copied, dst)
  {
    if before[src] == Dir {
      forall p | src <= p
        ensures SafeAt(before, after, src, dst, p)
      {
        CopiedFileIsSafe(before, copied, after, src, dst, p);
      }
    } else {
      var q := Follow(copied, dst);
      assert ConfinedAt(copied, after, src, q) && ConfinedAt(copied, after, src, dst);
      forall p | src <= p
        ensures SafeAt(before, after, src, dst, p)
      {
        if p in before && before[p].File? {
          AncestorExists(before, p, src);
          assert Moved(src, dst, src) == dst;
        }
      }
    }
  }

  lemma CopiedFileIsSafe(before: Nodes, copied: Nodes, after: Nodes, src: Path, dst: Path, p: Path)
    requires Apart(src, dst) && SameTree(before, src, copied, dst) && Confined(copied, after, src) && src <= p
    requires before[src] == Dir
    ensures SafeAt(before, after, src, dst, p)
  {
    if p in before && before[p].File? {
      var q := Moved(src, dst, p);
      assert p != src && src < p;
      assert CopiedAt(before, src, copied, dst, p);
      assert ConfinedAt(copied, after, src, q);
      if src <= q {
        PrefixesOfOne(src, dst, q);
      }
    }
  }

  /** How a move can end well. */
  datatype Route = Skipped | InPlace | ByRename | ByCopy

  /** What a move across devices leaves: the copy, and nothing at the source; links do not arrive. */
  ghost predicate MovedByCopy(before: Nodes, after: Nodes, src: Path, dst: Path, n: nat, walk: seq<Path>) {
    && Apart(src, dst)
    && (forall p :: p in after ==> !(src <= p))
    && exists copied :: Arrived(before, src, copied, dst, n, walk) && after == Cut(copied, src)
  }

  /** What a move may leave, wherever it ends. What was at neither place stays. Between places apart from each
      other every regular file of the source is safe. Between overlapping places nothing but the clearing of
      the destination happens, and that ends in an error. */
  ghost predicate MoveEnds(before: Nodes, after: Nodes, src: Path, dst: Path, overwrite: bool, skipExisting: bool,
                           cleared: bool, r: Result<nat, Error>, route: Route, walk: seq<Path>) {
    && Elsewhere(before, after, src, dst) && (Apart(src, dst) ==> AllSafe(before, after, src, dst))
    && (!Apart(src, dst) ==>
          && Subset(after, before) && Confined(before, after, dst)
          && (r.Ok? ==> after == before) && (cleared ==> r.Err? && after == Cut(before, dst)))
    && (cleared ==> Exists(before, dst) && overwrite && !skipExisting)
    && (r.Ok? ==>
          match route
          case Skipped => after == before && skipExisting && Exists(before, dst)
          case InPlace => after == before && src == dst && !Exists(before, dst)
          case ByRename => Renamed(before, after, src, dst)
          case ByCopy => MovedByCopy(before, after, src, dst, r.value, walk))
  }

  /** `move_local`, given names. Links on the way are followed once, before anything is touched: every name
      keeps its place until the rename, as long as none of its links stands in a destination that is
      cleared. */
  method MoveLocal(disk: Disk, from: Path, to: Path, overwrite: bool, skipExisting: bool)
    returns (r: Result<nat, Error>, route: Route, ghost cleared: bool, ghost walk: seq<Path>)
    requires WellFormed(disk.nodes) && Lawful(disk.world) && disk.reports == [] && from != [] && to != []
    requires var dst := Place(disk.nodes, to);
             dst in disk.nodes ==> Clear(disk.nodes, from, dst) && Clear(disk.nodes, to, dst)
    modifies disk
    ensures var src, dst := Place(old(disk.nodes), from), Place(old(disk.nodes), to);
            && MoveEnds(old(disk.nodes), disk.nodes, src, dst, overwrite, skipExisting, cleared, r, route, walk)
            && StoppedFirst(disk.world, old(disk.tick), old(disk.nodes), src, dst, from == to, overwrite, skipExisting,
                            MoveFailed, r)
            && (cleared <==> Clears(old(disk.nodes), disk.world, old(disk.tick), src, dst, from == to, overwrite,
                                    skipExisting))
            && Succeeds(disk.world, old(disk.tick), disk.tick, r.Ok?,
                        Moves(old(disk.nodes), disk.world, src, dst, from == to, Blocked(old(disk.nodes), to),
                              overwrite, skipExisting))
  {
    var src, dst, blocked := Place(disk.nodes, from), Place(disk.nodes, to), Blocked(disk.nodes, to);
    if blocked {
      BlockedIsMissing(disk.nodes, to);
    }
    r, route, cleared, walk := MovePlaces(disk, src, dst, from == to, blocked, overwrite, skipExisting);
  }

  /** When a move that nothing disturbs succeeds: a skip, or else a rename, or a copy to another device, once
      what existed at the destination is gone. */
  ghost predicate Moves(nodes: Nodes, w: World, src: Path, dst: Path, equalNames: bool, blocked: bool,
                        overwrite: bool, skipExisting: bool)
    requires dst != []
  {
    && !SamePath(nodes, equalNames, src, dst)
    && if Exists(nodes, dst) && (skipExisting || !overwrite) then skipExisting
       else
         var start := if Exists(nodes, dst) then Cut(nodes, dst) else nodes;
         MovesCleared(start, w, src, dst, equalNames, blocked, overwrite, skipExisting)
  }

  ghost predicate MovesCleared(nodes: Nodes, w: World, src: Path, dst: Path, equalNames: bool, blocked: bool,
                               overwrite: bool, skipExisting: bool)
    requires dst != []
  {
    || (src in nodes && src == dst)
    || (CanMove(nodes, src, dst)
        && if w.crosses(src, dst) then Copies(nodes, src, dst, equalNames, blocked, overwrite, skipExisting)
           else CanRename(nodes, src, dst))
  }

  /** When the destination is cleared. */
  predicate Clears(nodes: Nodes, w: World, tick: nat, src: Path, dst: Path, equalNames: bool, overwrite: bool,
                   skipExisting: bool) {
    && Exists(nodes, dst) && overwrite && !skipExisting && !SamePath(nodes, equalNames, src, dst)
    && !w.cancels(tick) && !w.fails(tick + 1)
  }

  method MovePlaces(disk: Disk, src: Path, dst: Path, equalNames: bool, blocked: bool, overwrite: bool,
                    skipExisting: bool)
    returns (r: Result<nat, Error>, route: Route, ghost cleared: bool, ghost walk: seq<Path>)
    requires WellFormed(disk.nodes) && Lawful(disk.world) && disk.reports == [] && src != [] && dst != []
    requires blocked ==> dst !in disk.nodes
    modifies disk
    ensures MoveEnds(old(disk.nodes), disk.nodes, src, dst, overwrite, skipExisting, cleared, r, route, walk)
    ensures StoppedFirst(disk.world, old(disk.tick), old(disk.nodes), src, dst, equalNames, overwrite, skipExisting,
                         MoveFailed, r)
    ensures cleared <==> Clears(old(disk.nodes), disk.world, old(disk.tick), src, dst, equalNames, overwrite,
                                skipExisting)
    ensures Succeeds(disk.world, old(disk.tick), disk.tick, r.Ok?,
                     Moves(old(disk.nodes), disk.world, src, dst, equalNames, blocked, overwrite, skipExisting))
  {
    route, cleared, walk := Skipped, false, [];
    ghost var before := disk.nodes;
    var early := MovePrecheck(disk, src, dst, equalNames, blocked, overwrite, skipExisting);
    var proceed := early.None?;
    if proceed && Exists(disk.nodes, dst) {
      proceed := disk.Remove(dst);
      cleared := proceed;
    }
    if proceed {
      ghost var start := disk.nodes;
      r, route, walk := MoveCleared(disk, before, src, dst, equalNames, blocked, overwrite, skipExisting);
      ClearedEnds(before, start, disk.nodes, src, dst, overwrite, skipExisting, cleared, r, route, walk);
    } else {
      r := if early.Some? then early.value else Err(MoveFailed);
      StoppedEnds(before, disk.nodes, src, dst, overwrite, skipExisting, r);
    }
  }

  /** The checks of `move_local`, up to the first change. */
  method MovePrecheck(disk: Disk, src: Path, dst: Path, equalNames: bool, ghost blocked: bool, overwrite: bool,
                      skipExisting: bool)
    returns (early: Option<Result<nat, Error>>)
    requires dst != []
    modifies disk`tick
    ensures early.Some? ==> Answered(disk.nodes, src, dst, overwrite, skipExisting, early.value)
    ensures early.Some? ==> StoppedFirst(disk.world, old(disk.tick), disk.nodes, src, dst, equalNames, overwrite,
                                         skipExisting, MoveFailed, early.value)
    ensures early.None? <==>
            && !disk.world.cancels(old(disk.tick)) && !SamePath(disk.nodes, equalNames, src, dst)
            && !(Exists(disk.nodes, dst) && (skipExisting || !overwrite))
    ensures early.None? ==> disk.tick == old(disk.tick) + 1
    ensures early.Some? ==> Succeeds(disk.world, old(disk.tick), disk.tick, early.value.Ok?,
                                     Moves(disk.nodes, disk.world, src, dst, equalNames, blocked, overwrite,
                                           skipExisting))
  {
    var cancel := disk.ShouldCancel();
    if cancel {
      return Some(Err(Cancelled));
    }
    if SamePath(disk.nodes, equalNames, src, dst) {
      return Some(Err(MoveFailed));
    }
    if Exists(disk.nodes, dst) {
      if skipExisting {
        return Some(Ok(0));
      }
      if !overwrite {
        return Some(Err(AlreadyExists));
      }
    }
    return None;
  }

  /** A move that ended in its checks, or in a clearing that failed halfway. */
  lemma StoppedEnds(before: Nodes, after: Nodes, src: Path, dst: Path, overwrite: bool, skipExisting: bool,
                    r: Result<nat, Error>)
    requires (Subset(after, before) && Confined(before, after, dst)) || after == before
    requires r.Ok? ==> after == before && Answered(before, src, dst, overwrite, skipExisting, r)
    ensures MoveEnds(before, after, src, dst, overwrite, skipExisting, false, r, Skipped, [])
  {
    if after == before {
      forall p ensures ConfinedAt(before, after, dst, p) {
      }
    }
    ConfinedElsewhere(before, after, dst, src, dst);
    if Apart(src, dst) {
      SourceStillSafe(before, after, src, dst);
    }
  }

  lemma ClearedEnds(before: Nodes, start: Nodes, after: Nodes, src: Path, dst: Path, overwrite: bool,
                    skipExisting: bool, cleared: bool, r: Result<nat, Error>, route: Route, walk: seq<Path>)
    requires if cleared then start == Cut(before, dst) && Confined(before, start, dst) else start == before
    requires cleared ==> Exists(before, dst) && overwrite && !skipExisting
    requires !cleared ==> !Exists(before, dst)
    requires Finished(before, start, after, src, dst, r, route, walk)
    ensures MoveEnds(before, after, src, dst, overwrite, skipExisting, cleared, r, route, walk)
  {
    if !cleared {
      forall p ensures ConfinedAt(before, before, dst, p) {
      }
    }
  }

  /** What the part of the move after the clearing leaves. */
  ghost predicate Finished(before: Nodes, start: Nodes, after: Nodes, src: Path, dst: Path, r: Result<nat, Error>,
                           route: Route, walk: seq<Path>) {
    && Elsewhere(before, after, src, dst) && (Apart(src, dst) ==> AllSafe(before, after, src, dst))
    && (!Apart(src, dst) ==> after == start)
    && (r.Ok? ==>
          match route
          case Skipped => false
          case InPlace => src == dst && src in start && after == start
          case ByRename => Apart(src, dst) && Renamed(before, after, src, dst)
          case ByCopy => Apart(src, dst) && MovedByCopy(before, after, src, dst, r.value, walk))
  }

  method MoveCleared(disk: Disk, ghost before: Nodes, src: Path, dst: Path, equalNames: bool, blocked: bool,
                     overwrite: bool, skipExisting: bool)
    returns (r: Result<nat, Error>, route: Route, ghost walk: seq<Path>)
    requires WellFormed(before) && WellFormed(disk.nodes) && Lawful(disk.world) && disk.reports == []
    requires Confined(before, disk.nodes, dst) && Subset(disk.nodes, before) && !Exists(disk.nodes, dst)
    requires src != [] && dst != [] && (blocked ==> dst !in before)
    modifies disk
    ensures Finished(before, old(disk.nodes), disk.nodes, src, dst, r, route, walk)
    ensures Succeeds(disk.world, old(disk.tick), disk.tick, r.Ok?,
                     MovesCleared(old(disk.nodes), disk.world, src, dst, equalNames, blocked, overwrite,
                                  skipExisting))
  {
    ghost var start := disk.nodes;
    r, route, walk := Err(MoveFailed), Skipped, [];
    ConfinedElsewhere(before, start, dst, src, dst);
    if Apart(src, dst) {
      SourceStillSafe(before, start, src, dst);
    }
    var renamed := Rename(disk, src, dst);
    match renamed
    case Done =>
      ElsewhereTransitive(before, start, disk.nodes, src, dst);
      RenamedIsSafe(before, start, disk.nodes, src, dst);
      r, route := Ok(0), ByRename;
    case Same =>
      r, route := Ok(0), InPlace;
    case Failed =>
    case Crosses =>
      r, walk := CopyThenRemove(disk, before, src, dst, equalNames, blocked, overwrite, skipExisting);
      route := ByCopy;
  }

  method CopyThenRemove(disk: Disk, ghost before: Nodes, src: Path, dst: Path, equalNames: bool, blocked: bool,
                        overwrite: bool, skipExisting: bool)
    returns (r: Result<nat, Error>, ghost walk: seq<Path>)
    requires WellFormed(before) && WellFormed(disk.nodes) && Lawful(disk.world) && disk.reports == []
    requires Confined(before, disk.nodes, dst) && Subset(disk.nodes, before) && !Exists(disk.nodes, dst)
    requires src != [] && dst != [] && Apart(src, dst) && src in disk.nodes && (blocked ==> dst !in before)
    modifies disk
    ensures AllSafe(before, disk.nodes, src, dst) && Elsewhere(before, disk.nodes, src, dst)
    ensures r.Ok? ==> MovedByCopy(before, disk.nodes, src, dst, r.value, walk)
    ensures Succeeds(disk.world, old(disk.tick), disk.tick, r.Ok?,
                     Copies(old(disk.nodes), src, dst, equalNames, blocked, overwrite, skipExisting))
  {
    ghost var start := disk.nodes;
    ghost var exact;
    var total;
    r, total, exact, walk := CopyPlaces(disk, src, dst, equalNames, blocked, overwrite, skipExisting);
    ghost var copied := disk.nodes;
    SafeWhileCopying(before, start, copied, src, dst);
    ConfinedElsewhere(before, start, dst, src, dst);
    CopiedElsewhere(start, copied, src, dst);
    ElsewhereTransitive(before, start, copied, src, dst);
    if r.Err? {
      return;
    }
    OutcomeArrives(before, start, src, copied, dst, walk, r.value);
    LandedOutside(start, copied, src, dst, r.value, walk);
    SourceStands(start, copied, src, dst);
    var removed := disk.Remove(src);
    ConfinedElsewhere(copied, disk.nodes, src, src, dst);
    ElsewhereTransitive(before, copied, disk.nodes, src, dst);
    SourceIntact(before, start, src, dst, src);
    CopiedIsSafe(before, copied, disk.nodes, src, dst, r.value, walk);
    if !removed {
      return Err(MoveFailed), walk;
    }
    assert Arrived(before, src, copied, dst, r.value, walk) && disk.nodes == Cut(copied, src);
  }

  /** What is neither a directory nor a regular file, a link or a special file, is at neither place after a
      move across devices. */
  lemma OthersAreDropped(before: Nodes, after: Nodes, src: Path, dst: Path, n: nat, walk: seq<Path>, p: Path)
    requires MovedByCopy(before, after, src, dst, n, walk) && before[src] == Dir
    requires src < p && p in before && !Copyable(before[p])
    ensures p !in after && Moved(src, dst, p) !in after
  {
    var copied :| Arrived(before, src, copied, dst, n, walk) && after == Cut(copied, src);
    assert CopiedAt(before, src, copied, dst, p);
  }

  /** Clearing a destination that holds the source loses every file of the source; clearing one inside the
      source loses the files in it. */
  lemma ClearingLoses(before: Nodes, src: Path, dst: Path, p: Path)
    requires WellFormed(before) && !Apart(src, dst)
    requires src <= p && dst <= p && p in before && before[p].File?
    ensures !SafeAt(before, Cut(before, dst), src, dst, p)
  {
    assert dst <= Moved(src, dst, p);
  }
}
