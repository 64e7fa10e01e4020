/** A local file system as a map from paths to nodes, and the effects of the calls that a copy makes. */
module LocalTree {
  import opened Text

  type Path = seq<string>

  type Data = seq<nat>

  /** A link leads to the place it finally resolves to, or dangles when nothing is there. */
  datatype Node = Dir | File(data: Data) | Link(size: nat, target: Path) | Special

  type Nodes = map<Path, Node>

  /** Where opening a place leads. */
  function Follow(nodes: Nodes, p: Path): (q: Path) {
    if p in nodes && nodes[p].Link? then nodes[p].target else p
  }

  /** What opening a place for reading gives. */
  function Contents(nodes: Nodes, p: Path): (d: Option<Data>) {
    var q := Follow(nodes, p);
    if q in nodes && nodes[q].File? then Some(nodes[q].data) else None
  }

  function ReadableSize(nodes: Nodes, p: Path): (n: nat) {
    if Contents(nodes, p).Some? then |Contents(nodes, p).value| else 0
  }

  function Parent(p: Path): (q: Path)
    requires p != []
  {
    p[..|p| - 1]
  }

  /** Neither path lies inside the other. */
  predicate Apart(p: Path, q: Path) {
    !(p <= q) && !(q <= p)
  }

  /** `Path::exists`, which follows links. */
  predicate Exists(nodes: Nodes, p: Path) {
    p in nodes && Follow(nodes, p) in nodes
  }

  /** No link stands at the place or on the way to it. */
  ghost predicate Canonical(nodes: Nodes, p: Path) {
    forall q :: q <= p && q in nodes ==> !nodes[q].Link?
  }

  /** The root is a directory, everything else sits in one, and links lead to canonical places. */
  ghost predicate WellFormed(nodes: Nodes) {
    && [] in nodes && nodes[[]] == Dir
    && (forall p :: p in nodes && p != [] ==> Parent(p) in nodes && nodes[Parent(p)] == Dir)
    && forall p :: p in nodes && nodes[p].Link? ==> Canonical(nodes, nodes[p].target)
  }

  // ---------------------------------------------------------------------------
  // Names and places
  // ---------------------------------------------------------------------------

  /** The place a name stands for: links on the way are followed, one at the end is not. */
  function Place(nodes: Nodes, name: Path): (p: Path)
    decreases |name|
  {
    if name == [] then [] else Follow(nodes, Place(nodes, Parent(name))) + [name[|name| - 1]]
  }

  /** A link on the way to a name dangles: nothing can be made below it. */
  predicate Blocked(nodes: Nodes, name: Path)
    decreases |name|
  {
    name != [] && (
      || Blocked(nodes, Parent(name))
      || var up := Place(nodes, Parent(name)); up in nodes && !Exists(nodes, up))
  }

  lemma {:induction false} BlockedIsMissing(nodes: Nodes, name: Path)
    requires WellFormed(nodes) && Blocked(nodes, name)
    ensures Place(nodes, name) !in nodes
    decreases |name|
  {
    var up := Place(nodes, Parent(name));
    if Blocked(nodes, Parent(name)) {
      BlockedIsMissing(nodes, Parent(name));
    }
    assert Parent(Place(nodes, name)) == Follow(nodes, up);
  }

  /** No link on the way to the name stands at or below the place `p`. */
  ghost predicate Clear(nodes: Nodes, name: Path, p: Path)
    decreases |name|
  {
    name == [] || (
      && Clear(nodes, Parent(name), p)
      && var up := Place(nodes, Parent(name));
         up in nodes && nodes[up].Link? ==> !(p <= up))
  }

  /** No links are made, and those not at or below `p` are kept. */
  ghost predicate LinksKept(before: Nodes, after: Nodes, p: Path) {
    && (forall q :: q in after && after[q].Link? ==> q in before && before[q] == after[q])
    && (forall q :: q in before && before[q].Link? && !(p <= q) ==> q in after && after[q] == before[q])
  }

  /** Then a name whose way is clear of `p` keeps its place, so a call may find it once and for all. */
  lemma {:induction false} PlaceStays(before: Nodes, after: Nodes, name: Path, p: Path)
    requires LinksKept(before, after, p) && Clear(before, name, p)
    ensures Place(after, name) == Place(before, name)
    decreases |name|
  {
    if name != [] {
      PlaceStays(before, after, Parent(name), p);
    }
  }

  /** No link stands below a place where nothing is. */
  lemma {:induction false} ClearOfMissing(nodes: Nodes, name: Path, p: Path)
    requires WellFormed(nodes) && p !in nodes
    ensures Clear(nodes, name, p)
    decreases |name|
  {
    if name != [] {
      ClearOfMissing(nodes, Parent(name), p);
      var up := Place(nodes, Parent(name));
      if up in nodes && p <= up {
        AncestorExists(nodes, up, p);
      }
    }
  }

  lemma {:induction false} SameLinksSamePlace(before: Nodes, after: Nodes, name: Path)
    requires forall q :: q in after && after[q].Link? ==> q in before && before[q] == after[q]
    requires forall q :: q in before && before[q].Link? ==> q in after && after[q] == before[q]
    ensures Place(after, name) == Place(before, name)
    decreases |name|
  {
    if name != [] {
      SameLinksSamePlace(before, after, Parent(name));
    }
  }

  ghost function Under(nodes: Nodes, p: Path): (s: set<Path>) {
    set q | q in nodes && p <= q
  }

  /** Without a path and everything inside it. */
  ghost function Cut(nodes: Nodes, p: Path): (m: Nodes) {
    nodes - Under(nodes, p)
  }

  /** Partly removed: inside `p` only paths of at most `kept` names are left. */
  function Pruned(nodes: Nodes, p: Path, kept: nat): (m: Nodes) {
    nodes - set q | q in nodes && p <= q && |q| > kept
  }

  lemma PrunedFacts(nodes: Nodes, p: Path, kept: nat)
    requires WellFormed(nodes) && p != []
    ensures WellFormed(Pruned(nodes, p, kept)) && Confined(nodes, Pruned(nodes, p, kept), p)
    ensures kept == 0 ==> Pruned(nodes, p, kept) == Cut(nodes, p)
  {
    var m := Pruned(nodes, p, kept);
    forall q | q in m && q != []
      ensures Parent(q) in m && m[Parent(q)] == Dir
    {
      assert p <= Parent(q) ==> p <= q;
    }
    forall q
      ensures ConfinedAt(nodes, m, p, q)
    {
    }
  }

  /** With the missing directories on the way to `p`, and `p` itself. */
  function WithDirs(nodes: Nodes, p: Path): (m: Nodes)
    decreases |p|
  {
    if p in nodes then nodes
    else if p == [] then nodes[p := Dir]
    else WithDirs(nodes, Parent(p))[p := Dir]
  }

  /** Only `dst`, what is inside it, and new directories on the way to it may differ; no link is made. */
  ghost predicate Confined(before: Nodes, after: Nodes, dst: Path) {
    forall p :: ConfinedAt(before, after, dst, p)
  }

  ghost predicate ConfinedAt(before: Nodes, after: Nodes, dst: Path, p: Path) {
    if dst <= p then p in after && after[p].Link? ==> p in before && before[p] == after[p]
    else if p in before then p in after && after[p] == before[p]
    else p in after ==> p <= dst && after[p] == Dir
  }

  /** Whatever stood somewhere else than `p` still does. */
  ghost predicate KeptBut(before: Nodes, after: Nodes, p: Path) {
    forall q :: q in before && q != p ==> q in after && after[q] == before[q]
  }

  lemma ConfinedTransitive(a: Nodes, b: Nodes, c: Nodes, dst: Path)
    requires Confined(a, b, dst) && Confined(b, c, dst)
    ensures Confined(a, c, dst)
  {
    forall p
      ensures ConfinedAt(a, c, dst, p)
    {
      assert ConfinedAt(a, b, dst, p) && ConfinedAt(b, c, dst, p);
    }
  }

  lemma {:induction false} AncestorExists(nodes: Nodes, p: Path, up: Path)
    requires WellFormed(nodes) && p in nodes && up <= p
    ensures up in nodes && (up != p ==> nodes[up] == Dir)
    decreases |p|
  {
    if up != p {
      assert up <= Parent(p);
      AncestorExists(nodes, Parent(p), up);
    }
  }

  lemma {:induction false} OnlyPrefixesAdded(nodes: Nodes, p: Path, q: Path)
    requires q in WithDirs(nodes, p) && q !in nodes
    ensures q <= p && WithDirs(nodes, p)[q] == Dir
    decreases |p|
  {
    if p != [] && q != p {
      OnlyPrefixesAdded(nodes, Parent(p), q);
    }
  }

  lemma {:induction false} KeptByDirs(nodes: Nodes, p: Path, q: Path)
    requires q in nodes
    ensures q in WithDirs(nodes, p) && WithDirs(nodes, p)[q] == nodes[q]
    decreases |p|
  {
    if p !in nodes && p != [] {
      KeptByDirs(nodes, Parent(p), q);
    }
  }

  /** Nothing changed but new directories on the way to `p`. */
  ghost predicate DirsAdded(before: Nodes, after: Nodes, p: Path) {
    && (forall q :: q in before ==> q in after && after[q] == before[q])
    && (forall q :: q in after && q !in before ==> q <= p && after[q] == Dir)
  }

  lemma WithDirsAdded(nodes: Nodes, p: Path, up: Path)
    requires up <= p
    ensures DirsAdded(nodes, WithDirs(nodes, up), p)
  {
    forall q | q in nodes
      ensures q in WithDirs(nodes, up) && WithDirs(nodes, up)[q] == nodes[q]
    {
      KeptByDirs(nodes, up, q);
    }
    forall q | q in WithDirs(nodes, up) && q !in nodes
      ensures q <= p && WithDirs(nodes, up)[q] == Dir
    {
      OnlyPrefixesAdded(nodes, up, q);
    }
  }

  lemma {:induction false} WithDirsWellFormed(nodes: Nodes, p: Path)
    requires WellFormed(nodes)
    requires forall q :: q in nodes && q <= p ==> nodes[q] == Dir
    ensures WellFormed(WithDirs(nodes, p)) && p in WithDirs(nodes, p) && WithDirs(nodes, p)[p] == Dir
    decreases |p|
  {
    if p !in nodes && p != [] {
      WithDirsWellFormed(nodes, Parent(p));
    }
  }

  // ---------------------------------------------------------------------------
  // What a copy makes
  // ---------------------------------------------------------------------------

  /** Directories and regular files are copied; links and special files are passed over. */
  predicate Copyable(n: Node) {
    n.Dir? || n.File?
  }

  function Moved(src: Path, dst: Path, p: Path): (q: Path)
    requires src <= p
  {
    dst + p[|src|..]
  }

  predicate Inside(src: Path, items: seq<Path>, nodes: Nodes) {
    forall i :: 0 <= i < |items| ==> src < items[i] && items[i] in nodes
  }

  /** The tree at `dst` after copying the first items. */
  function Grown(base: Nodes, from: Nodes, src: Path, dst: Path, items: seq<Path>): (m: Nodes)
    requires Inside(src, items, from)
  {
    if items == [] then base
    else
      var last := items[|items| - 1];
      var m := Grown(base, from, src, dst, items[..|items| - 1]);
      if Copyable(from[last]) then m[Moved(src, dst, last) := from[last]] else m
  }

  function SizeOf(n: Node): (k: nat) {
    if n.File? then |n.data| else 0
  }

  /** The bytes of the regular files among the items. */
  function Weight(from: Nodes, items: seq<Path>): (n: nat)
    requires forall i :: 0 <= i < |items| ==> items[i] in from
  {
    if items == [] then 0 else Weight(from, items[..|items| - 1]) + SizeOf(from[items[|items| - 1]])
  }

  lemma MovedInjective(src: Path, dst: Path, p: Path, q: Path)
    requires src <= p && src <= q && Moved(src, dst, p) == Moved(src, dst, q)
    ensures p == q
  {
    assert p == src + p[|src|..] && q == src + q[|src|..];
    assert Moved(src, dst, p)[|dst|..] == p[|src|..] && Moved(src, dst, q)[|dst|..] == q[|src|..];
  }

  /** A copied item stands at its moved path; nothing else strictly inside `dst` does. */
  lemma {:induction false} GrownAt(base: Nodes, from: Nodes, src: Path, dst: Path, items: seq<Path>, p: Path)
    requires Inside(src, items, from) && src < p && Moved(src, dst, p) !in base
    ensures var q := Moved(src, dst, p); var m := Grown(base, from, src, dst, items);
            (q in m <==> p in items && Copyable(from[p])) && (q in m ==> m[q] == from[p])
  {
    if items != [] {
      var init, last := items[..|items| - 1], items[|items| - 1];
      assert items == init + [last];
      GrownAt(base, from, src, dst, init, p);
      if p != last && Moved(src, dst, p) == Moved(src, dst, last) {
        MovedInjective(src, dst, p, last);
      }
    }
  }

  lemma {:induction false} GrownElsewhere(base: Nodes, from: Nodes, src: Path, dst: Path, items: seq<Path>, q: Path)
    requires Inside(src, items, from) && !(dst < q)
    ensures var m := Grown(base, from, src, dst, items);
            (q in m <==> q in base) && (q in m ==> m[q] == base[q])
  {
    if items != [] {
      GrownElsewhere(base, from, src, dst, items[..|items| - 1], q);
    }
  }

  /** `after` holds at `dst` what `before` holds at `src`: its directories and regular files, byte for
      byte, and nothing more. */
  ghost predicate SameTree(before: Nodes, src: Path, after: Nodes, dst: Path) {
    && src in before && dst in after && before[src] == after[dst]
    && (forall p :: p in before && src < p ==> CopiedAt(before, src, after, dst, p))
    && (forall q :: q in after && dst < q ==> Moved(dst, src, q) in before && Copyable(before[Moved(dst, src, q)]))
  }

  ghost predicate CopiedAt(before: Nodes, src: Path, after: Nodes, dst: Path, p: Path)
    requires p in before && src <= p
  {
    var q := Moved(src, dst, p);
    (q in after <==> Copyable(before[p])) && (q in after ==> after[q] == before[p])
  }

  lemma {:induction false} GrownKeys(base: Nodes, from: Nodes, src: Path, dst: Path, items: seq<Path>, q: Path)
    requires Inside(src, items, from) && dst < q && q !in base
    requires q in Grown(base, from, src, dst, items)
    ensures Moved(dst, src, q) in from && Copyable(from[Moved(dst, src, q)])
  {
    var init, last := items[..|items| - 1], items[|items| - 1];
    if q in Grown(base, from, src, dst, init) {
      GrownKeys(base, from, src, dst, init, q);
    } else {
      assert q == Moved(src, dst, last);
      assert q[|dst|..] == last[|src|..] && src + last[|src|..] == last;
    }
  }

  /** Once all items are copied the trees are the same. */
  lemma GrownIsSameTree(base: Nodes, from: Nodes, src: Path, dst: Path, items: seq<Path>)
    requires Inside(src, items, from) && src in from && from[src] == Dir
    requires forall p :: p in from && src < p ==> p in items
    requires dst in base && base[dst] == Dir && forall q :: q in base ==> !(dst < q)
    ensures SameTree(from, src, Grown(base, from, src, dst, items), dst)
  {
    var after := Grown(base, from, src, dst, items);
    GrownElsewhere(base, from, src, dst, items, dst);
    forall p | p in from && src < p
      ensures CopiedAt(from, src, after, dst, p)
    {
      assert dst < Moved(src, dst, p);
      GrownAt(base, from, src, dst, items, p);
    }
    forall q | q in after && dst < q
      ensures Moved(dst, src, q) in from && Copyable(from[Moved(dst, src, q)])
    {
      GrownKeys(base, from, src, dst, items, q);
    }
  }

  lemma GrownConfined(base: Nodes, from: Nodes, src: Path, dst: Path, items: seq<Path>)
    requires Inside(src, items, from)
    ensures Confined(base, Grown(base, from, src, dst, items), dst)
  {
    var after := Grown(base, from, src, dst, items);
    forall q
      ensures ConfinedAt(base, after, dst, q)
    {
      if dst <= q {
        NoLinkGrows(base, from, src, dst, items, q);
      } else {
        GrownElsewhere(base, from, src, dst, items, q);
      }
    }
  }

  lemma {:induction false} NoLinkGrows(base: Nodes, from: Nodes, src: Path, dst: Path, items: seq<Path>, q: Path)
    requires Inside(src, items, from)
    ensures var after := Grown(base, from, src, dst, items);
            q in after && after[q].Link? ==> q in base && base[q] == after[q]
  {
    if items != [] {
      NoLinkGrows(base, from, src, dst, items[..|items| - 1], q);
    }
  }

  lemma ConfinedKeepsLinks(before: Nodes, after: Nodes, dst: Path)
    requires Confined(before, after, dst)
    ensures LinksKept(before, after, dst)
  {
    forall q | q in after && after[q].Link? ensures q in before && before[q] == after[q] {
      assert ConfinedAt(before, after, dst, q);
    }
    forall q | q in before && before[q].Link? && !(dst <= q) ensures q in after && after[q] == before[q] {
      assert ConfinedAt(before, after, dst, q);
    }
  }

  /** Outside `dst` nothing of an apart source changes. */
  lemma SourceIntact(before: Nodes, after: Nodes, src: Path, dst: Path, p: Path)
    requires Confined(before, after, dst) && Apart(src, dst) && src <= p
    ensures (p in before <==> p in after) && (p in before ==> after[p] == before[p])
  {
    assert ConfinedAt(before, after, dst, p);
    if dst <= p || p <= dst {
      PrefixesOfOne(src, dst, p);
    }
  }

  lemma PrefixesOfOne(a: Path, b: Path, p: Path)
    requires a <= p && (b <= p || p <= b)
    ensures a <= b || b <= a
  {
  }
}
