/** Exactly when a batch of deletes can change something outside the named entries, for any links and whether or
    not missing entries are skipped: when some sequence of single removals can. */
module RemoteDeleteReach {
  import opened RemoteTree
  import opened RemoteDelete
  import opened RemoteDeleteLinks

  /** Removing one takeable thing after the other, in some order, comes to something outside. */
  ghost predicate CanEscape(limit: nat, skip: bool, nodes: Nodes, parent: Path, names: set<string>) {
    exists log, after :: Steps(limit, skip, Roots(parent, names), nodes, log, after)
                         && !OutsideKept(nodes, after, Reach(nodes, parent), names)
  }

  /** A part of the tree that a run may leave. */
  ghost predicate Part(part: Nodes, whole: Nodes) {
    WellFormed(part) && Subset(part, whole) && LinksKept(whole, part)
  }

  /** What a name stood for, if it is still there, is what it stands for. */
  lemma NameStays(part: Nodes, whole: Nodes, p: Path)
    requires WellFormed(whole) && Part(part, whole) && Locate(whole, p) in part
    ensures Locate(part, p) == Locate(whole, p)
  {
    if p != [] {
      var up := p[..|p| - 1];
      assert IsDir(part, Reach(whole, up));
      ReachStays(whole, part, up);
    }
  }

  /** A node that goes under one of the names. */
  ghost predicate GoesAs(limit: nat, roots: set<Path>, nodes: Nodes, p: Path, q: Path) {
    |p| <= limit && Locate(nodes, p) == q && exists root :: root in roots && root <= p
  }

  /** What was removed on the one way and is still there on the other dangles there. */
  ghost predicate Lags(limit: nat, roots: set<Path>, start: Nodes, here: Nodes, there: Nodes) {
    forall r :: r in start && r !in here && r in there ==>
      Dangles(there, r) && exists p :: GoesAs(limit, roots, start, p, r)
  }

  /** The parent of the named entries is never empty while one of them leads anywhere. */
  lemma ParentIsFull(nodes: Nodes, parent: Path, names: set<string>, root: Path, p: Path)
    requires WellFormed(nodes) && root in Roots(parent, names) && root <= p && Locate(nodes, p) in nodes
    ensures !IsEmptyDir(nodes, Reach(nodes, parent))
  {
    var n :| n in names && root == Child(parent, n);
    ParentStays(nodes, nodes, parent, n, p);
    assert Reach(nodes, parent) < Child(Reach(nodes, parent), n);
  }

  lemma ChildInjective(a: Path, m: string, b: Path, n: string)
    requires Child(a, m) == Child(b, n)
    ensures a == b && m == n
  {
    assert a == Child(a, m)[..|a|] && b == Child(b, n)[..|b|];
    assert Child(a, m)[|a|] == m && Child(b, n)[|b|] == n;
  }

  /** The name of an entry leads through its directory, and is longer than the root unless the directory is the
      parent itself. */
  lemma NamedByDirectory(nodes: Nodes, parent: Path, names: set<string>, root: Path, p: Path, d: Path, n: string)
    requires root in Roots(parent, names) && root <= p && Locate(nodes, p) == Child(d, n)
    ensures p != [] && Reach(nodes, p[..|p| - 1]) == d
    ensures d != Reach(nodes, parent) ==> root < p
  {
    var up := p[..|p| - 1];
    ChildInjective(Reach(nodes, up), p[|p| - 1], d, n);
    if root == p {
      var m :| m in names && root == Child(parent, m);
      LocateChild(nodes, parent, m);
      ChildInjective(Reach(nodes, parent), m, d, n);
    }
  }

  /** What lags behind in a directory emptied on the other way dangles, and is an entry of the directory. */
  lemma LaggingEntry(limit: nat, roots: set<Path>, start: Nodes, here: Nodes, there: Nodes, d: Path, r: Path)
    requires WellFormed(start) && Part(here, start) && Part(there, start) && Lags(limit, roots, start, here, there)
    requires IsEmptyDir(here, d) && IsDir(there, d) && r in there && d < r
    ensures Hollow(there, d)
    ensures exists p :: GoesAs(limit, roots, start, p, Child(d, r[|d|])) && Child(d, r[|d|]) in there
  {
    forall x | x in there && d < x ensures Dangles(there, x) {
      assert x in start && x !in here;
    }
    EntryOnTheWay(there, d, r);
    var e := Child(d, r[|d|]);
    assert e in start && d < e && e !in here;
  }

  /** Under its name it can go: the directory is hollow. */
  lemma HollowEntryGoes(start: Nodes, there: Nodes, parent: Path, names: set<string>, root: Path, p: Path, d: Path,
                        n: string)
    requires WellFormed(start) && Part(there, start) && root in Roots(parent, names) && root <= p
    requires Locate(start, p) == Child(d, n) && Child(d, n) in there
    requires Hollow(there, d) && d != Reach(start, parent)
    ensures CanGo(true, there, root, p)
  {
    NameStays(there, start, p);
    NamedByDirectory(start, parent, names, root, p, d, n);
    NamedByDirectory(there, parent, names, root, p, d, n);
  }

  lemma LaggingEntryGoes(limit: nat, start: Nodes, here: Nodes, there: Nodes, parent: Path, names: set<string>,
                         d: Path, r: Path)
    requires WellFormed(start) && Part(here, start) && Part(there, start)
    requires Lags(limit, Roots(parent, names), start, here, there)
    requires IsEmptyDir(here, d) && IsDir(there, d) && r in there && d < r && d != Reach(start, parent)
    ensures exists p :: Takeable(limit, true, Roots(parent, names), there, p)
  {
    var roots := Roots(parent, names);
    LaggingEntry(limit, roots, start, here, there, d, r);
    var p :| GoesAs(limit, roots, start, p, Child(d, r[|d|]));
    var root :| root in roots && root <= p;
    HollowEntryGoes(start, there, parent, names, root, p, d, r[|d|]);
    assert Takeable(limit, true, roots, there, p);
  }

  // ---------------------------------------------------------------------------
  // One way catches up with another
  // ---------------------------------------------------------------------------

  /** On the one way `p` is next. On the other, unless what it stands for is gone or dangles, something can go. */
  lemma NextOrOther(limit: nat, start: Nodes, here: Nodes, there: Nodes, parent: Path, names: set<string>, p: Path)
    requires WellFormed(start) && Part(here, start) && Part(there, start)
    requires Lags(limit, Roots(parent, names), start, here, there)
    requires Takeable(limit, true, Roots(parent, names), here, p)
    requires Locate(here, p) in there && !Dangles(there, Locate(here, p))
    ensures exists q :: Takeable(limit, true, Roots(parent, names), there, q)
  {
    var roots, x := Roots(parent, names), Locate(here, p);
    var root :| root in roots && CanGo(true, here, root, p);
    LocateUp(here, start, p);
    NameStays(there, start, p);
    if Loose(there, x) {
      assert CanGo(true, there, root, p);
    } else if IsDir(there, x) {
      ParentIsFull(here, parent, names, root, p);
      assert Loose(here, x) by {
        if !Loose(here, x) {
          HollowEntry(here, p);
        }
      }
      var r :| r in there && x < r;
      ParentFound(here, start, parent, names, root, p);
      LaggingEntryGoes(limit, start, here, there, parent, names, x, r);
    } else {
      LinkStands(limit, roots, start, here, there, p);
    }
  }

  lemma ParentFound(here: Nodes, start: Nodes, parent: Path, names: set<string>, root: Path, p: Path)
    requires WellFormed(start) && Part(here, start) && root in Roots(parent, names) && root <= p
    requires Locate(here, p) in here
    ensures Reach(here, parent) == Reach(start, parent)
  {
    var n :| n in names && root == Child(parent, n);
    ParentStays(here, start, parent, n, p);
  }

  /** A link that stands on the other way, and does not dangle there, leads to no directory: it is loose. */
  lemma LinkStands(limit: nat, roots: set<Path>, start: Nodes, here: Nodes, there: Nodes, p: Path)
    requires WellFormed(start) && Part(here, start) && Part(there, start) && Lags(limit, roots, start, here, there)
    requires Takeable(limit, true, roots, here, p)
    requires var x := Locate(here, p); x in there && there[x].Link? && !Dangles(there, x)
    ensures Loose(there, Locate(here, p))
  {
    var x := Locate(here, p);
    var t := there[x].target;
    assert t in start && start[t].Node?;
    assert t in here;
    if !Loose(here, x) {
      var root :| root in roots && CanGo(true, here, root, p);
      HollowEntry(here, p);
    }
  }

  lemma PartGoesOn(limit: nat, roots: set<Path>, start: Nodes, here: Nodes, there: Nodes, p: Path)
    requires WellFormed(start) && Part(here, start) && Lags(limit, roots, start, here, there)
    requires Takeable(limit, true, roots, here, p)
    requires Locate(here, p) in there ==> Dangles(there, Locate(here, p))
    ensures var rest := here - {Locate(here, p)}; Part(rest, start) && Lags(limit, roots, start, rest, there)
  {
    var rest := here - {Locate(here, p)};
    TakenGoes(limit, true, roots, here, p);
    LocateUp(here, start, p);
    var root :| root in roots && CanGo(true, here, root, p);
    assert GoesAs(limit, roots, start, p, Locate(here, p));
    forall r | r in start && r !in rest && r in there
      ensures Dangles(there, r) && exists name :: GoesAs(limit, roots, start, name, r)
    {
      if r in here {
        assert r == Locate(here, p);
      }
    }
  }

  /** A link the one way takes next, and that dangles on the other: it could go from the start, or it can go. */
  lemma DanglingCatchesUp(limit: nat, roots: set<Path>, start: Nodes, here: Nodes, there: Nodes, p: Path)
    requires WellFormed(start) && Part(here, start) && Part(there, start) && Lags(limit, roots, start, here, there)
    requires Takeable(limit, true, roots, here, p) && Dangles(there, Locate(here, p))
    ensures Locate(start, p) == Locate(here, p)
    ensures Takeable(limit, true, roots, start, p) || Takeable(limit, true, roots, there, p)
  {
    var q := Locate(here, p);
    var root :| root in roots && CanGo(true, here, root, p);
    LocateUp(here, start, p);
    if Loose(here, q) {
      assert Loose(start, q) && CanGo(true, start, root, p);
    } else {
      var t := Reach(here, p[..|p| - 1]);
      NameStays(there, start, p);
      HollowThere(limit, roots, start, here, there, t, p[|p| - 1]);
      ChildInjective(Reach(there, p[..|p| - 1]), p[|p| - 1], t, p[|p| - 1]);
      assert CanGo(true, there, root, p);
    }
  }

  lemma HollowThere(limit: nat, roots: set<Path>, start: Nodes, here: Nodes, there: Nodes, t: Path, n: string)
    requires WellFormed(start) && Part(here, start) && Part(there, start) && Lags(limit, roots, start, here, there)
    requires Hollow(here, t) && Child(t, n) in there
    ensures Hollow(there, t)
  {
    forall r | r in there && t < r ensures Dangles(there, r) {
    }
  }

  /** Whatever one way still takes: as long as the other has it, something can go there, or it could go from the
      start. */
  lemma {:induction false} Progress(limit: nat, start: Nodes, here: Nodes, log: seq<Path>, after: Nodes, there: Nodes,
                                    parent: Path, names: set<string>, q: Path)
    requires WellFormed(start) && Part(here, start) && Part(there, start)
    requires Lags(limit, Roots(parent, names), start, here, there)
    requires Steps(limit, true, Roots(parent, names), here, log, after)
    requires q in here && q !in after && q in there
    ensures (exists p :: Takeable(limit, true, Roots(parent, names), there, p))
            || exists p :: Takeable(limit, true, Roots(parent, names), start, p) && Locate(start, p) == q
  {
    var roots, x := Roots(parent, names), Locate(here, log[0]);
    if x in there && !Dangles(there, x) {
      NextOrOther(limit, start, here, there, parent, names, log[0]);
    } else if x == q {
      DanglingCatchesUp(limit, roots, start, here, there, log[0]);
    } else {
      PartGoesOn(limit, roots, start, here, there, log[0]);
      Progress(limit, start, here - {x}, log[1..], after, there, parent, names, q);
    }
  }

  // ---------------------------------------------------------------------------
  // A server that always has something removable listed first
  // ---------------------------------------------------------------------------

  ghost function Goal(limit: nat, roots: set<Path>, nodes: Nodes): (p: Path) {
    if exists p :: Takeable(limit, true, roots, nodes, p) then
      var p :| Takeable(limit, true, roots, nodes, p); p
    else []
  }

  ghost function GoalOf(limit: nat, roots: set<Path>): (goal: Nodes -> Path) {
    (nodes: Nodes) => Goal(limit, roots, nodes)
  }

  /** The listing that always has the way to the goal in front. */
  ghost function Towards(listing: Listing, goal: Nodes -> Path): (l: Listing) {
    (nodes: Nodes, p: Path) => Fronted(listing, goal(nodes))(nodes, p)
  }

  lemma TowardsIsLawful(listing: Listing, goal: Nodes -> Path)
    requires Lawful(listing)
    ensures Lawful(Towards(listing, goal))
  {
    forall nodes, p | WellFormed(nodes) && IsDir(nodes, Reach(nodes, p))
      ensures Entries(nodes, Reach(nodes, p), Towards(listing, goal)(nodes, p))
    {
      FrontedIsLawful(listing, goal(nodes));
    }
  }

  lemma TowardsFronts(listing: Listing, goal: Nodes -> Path, nodes: Nodes)
    ensures Fronts(Towards(listing, goal), listing, nodes, goal(nodes))
  {
    forall r | r < goal(nodes) ensures Towards(listing, goal)(nodes, r) == Front(listing(nodes, r), goal(nodes)[|r|]) {
      assert Towards(listing, goal)(nodes, r) == Fronted(listing, goal(nodes))(nodes, r);
    }
  }

  ghost function Eager(listing: Listing, limit: nat, roots: set<Path>): (l: Listing) {
    Towards(listing, GoalOf(limit, roots))
  }

  lemma FewerNodes(part: Nodes, whole: Nodes, x: Path)
    requires Subset(part, whole - {x}) && x in whole
    ensures part.Keys < whole.Keys
  {
    assert x in whole.Keys && x !in part.Keys;
  }

  lemma EagerTakes(listing: Listing, limit: nat, env: Env, st: State, roots: set<Path>) returns (root: Path)
    requires WellFormed(st.nodes) && Lawful(listing) && exists p :: Takeable(limit, true, roots, st.nodes, p)
    requires env == Quiet(Eager(listing, limit, roots), limit)
    ensures root in roots && DeleteRun(env, true, st, root).st.nodes.Keys < st.nodes.Keys
  {
    var g := Goal(limit, roots, st.nodes);
    assert Takeable(limit, true, roots, st.nodes, g);
    TowardsFronts(listing, GoalOf(limit, roots), st.nodes);
    TowardsIsLawful(listing, GoalOf(limit, roots));
    assert Leads(env, listing, st.nodes, g);
    root :| root in roots && CanGo(true, st.nodes, root, g);
    var _ := FirstIsGone(env, listing, true, st, root, g);
    FewerNodes(DeleteRun(env, true, st, root).st.nodes, st.nodes, Locate(st.nodes, g));
  }

  /** As long as something can go, one more name makes the run take something more. */
  lemma OneMoreName(listing: Listing, limit: nat, env: Env, st: State, parent: Path, order: seq<string>)
    returns (n: string)
    requires WellFormed(st.nodes) && Lawful(listing)
    requires env == Quiet(Eager(listing, limit, Roots(parent, NameSet(order))), limit)
    requires var mid := DeleteAll(env, true, st, parent, order).st;
             WellFormed(mid.nodes) && exists p :: Takeable(limit, true, Roots(parent, NameSet(order)), mid.nodes, p)
    ensures n in order
    ensures DeleteAll(env, true, st, parent, order + [n]).st.nodes.Keys <
            DeleteAll(env, true, st, parent, order).st.nodes.Keys
  {
    var mid := DeleteAll(env, true, st, parent, order).st;
    var root := EagerTakes(listing, limit, env, mid, Roots(parent, NameSet(order)));
    n :| n in NameSet(order) && root == Child(parent, n);
    assert (order + [n])[..|order|] == order;
  }

  ghost function Left(env: Env, st: State, parent: Path, order: seq<string>): (places: set<Path>) {
    DeleteAll(env, true, st, parent, order).st.nodes.Keys
  }

  /** Names repeated often enough come to whatever the given removals come to. */
  lemma {:induction false} KeepGoing(
    listing: Listing, limit: nat, st: State, parent: Path, order: seq<string>, names: set<string>, q: Path,
    log: seq<Path>, after: Nodes)
    returns (full: seq<string>)
    requires WellFormed(st.nodes) && Lawful(listing) && NameSet(order) == names
    requires Steps(limit, true, Roots(parent, names), st.nodes, log, after) && q in st.nodes && q !in after
    requires forall p :: Takeable(limit, true, Roots(parent, names), st.nodes, p) ==> Locate(st.nodes, p) != q
    ensures var env := Quiet(Eager(listing, limit, Roots(parent, names)), limit);
            NameSet(full) == names && q !in DeleteAll(env, true, st, parent, full).st.nodes
    decreases Left(Quiet(Eager(listing, limit, Roots(parent, names)), limit), st, parent, order)
  {
    var env := Quiet(Eager(listing, limit, Roots(parent, names)), limit);
    var mid := DeleteAll(env, true, st, parent, order).st;
    full := order;
    if q in mid.nodes {
      TowardsIsLawful(listing, GoalOf(limit, Roots(parent, names)));
      var _ := BatchRan(env, true, st, parent, order);
      Progress(limit, st.nodes, st.nodes, log, after, mid.nodes, parent, names, q);
      var n := OneMoreName(listing, limit, env, st, parent, order);
      NamedAgain(order, n);
      full := KeepGoing(listing, limit, st, parent, order + [n], names, q, log, after);
    }
  }

  lemma NamedAgain(order: seq<string>, n: string)
    requires n in order
    ensures NameSet(order + [n]) == NameSet(order)
  {
  }

  // ---------------------------------------------------------------------------
  // Exactly when nothing outside changes
  // ---------------------------------------------------------------------------

  lemma EscapeIsReached(listing: Listing, limit: nat, st: State, parent: Path, names: set<string>, order: seq<string>)
    requires WellFormed(st.nodes) && Lawful(listing) && NameSet(order) == names
    requires CanEscape(limit, true, st.nodes, parent, names)
    ensures !AlwaysStaysInside(limit, true, st, parent, names)
  {
    var roots, d := Roots(parent, names), Reach(st.nodes, parent);
    var log, after :| Steps(limit, true, roots, st.nodes, log, after) && !OutsideKept(st.nodes, after, d, names);
    StepsFacts(limit, true, roots, st.nodes, log, after);
    var q :| q in st.nodes && !AtNames(d, names, q) && q !in after;
    if p :| Takeable(limit, true, roots, st.nodes, p) && Locate(st.nodes, p) == q {
      var n := TakenInside(limit, true, st.nodes, parent, names, p);
      assert Escapes(limit, true, st.nodes, parent, names);
      SomeRunEscapes(listing, limit, true, st, parent, names, order);
    } else {
      var full := KeepGoing(listing, limit, st, parent, order, names, q, log, after);
      TowardsIsLawful(listing, GoalOf(limit, roots));
      assert !StaysInside(Eager(listing, limit, roots), full, limit, true, st, parent);
      NotAlways(Eager(listing, limit, roots), full, limit, true, st, parent);
    }
  }

  /** `delete_entries` without faults changes nothing outside the named entries, whatever order the server lists in
      and the names come in, exactly when no sequence of single removals can. That lies between the two conditions
      on single names: if one leads to something outside that can go, some sequence can; and if none leads to
      something that may ever come to hang, none can. */
  lemma StaysInsideExactly(listing: Listing, limit: nat, skip: bool, st: State, parent: Path, names: set<string>,
                           order: seq<string>)
    requires WellFormed(st.nodes) && Lawful(listing) && NameSet(order) == names
    ensures AlwaysStaysInside(limit, skip, st, parent, names) <==> !CanEscape(limit, skip, st.nodes, parent, names)
    ensures Escapes(limit, skip, st.nodes, parent, names) ==> CanEscape(limit, skip, st.nodes, parent, names)
    ensures CanEscape(limit, skip, st.nodes, parent, names) ==> MayEscape(limit, skip, st.nodes, parent, names)
  {
    StaysInsideExactlyWhen(listing, limit, skip, st, parent, names, order);
    if CanEscape(limit, skip, st.nodes, parent, names) {
      OnlyIfItMay(limit, skip, st.nodes, parent, names);
      if skip {
        EscapeIsReached(listing, limit, st, parent, names, order);
      }
    } else {
      forall l: Listing, o: seq<string> | Lawful(l) && NameSet(o) == names
        ensures StaysInside(l, o, limit, skip, st, parent)
      {
        var _ := BatchRan(Quiet(l, limit), skip, st, parent, o);
      }
    }
  }

  lemma OnlyIfItMay(limit: nat, skip: bool, nodes: Nodes, parent: Path, names: set<string>)
    requires WellFormed(nodes) && CanEscape(limit, skip, nodes, parent, names)
    ensures MayEscape(limit, skip, nodes, parent, names)
  {
    var log, after :| Steps(limit, skip, Roots(parent, names), nodes, log, after)
                      && !OutsideKept(nodes, after, Reach(nodes, parent), names);
    if !MayEscape(limit, skip, nodes, parent, names) {
      StepsStayInside(limit, skip, nodes, log, after, parent, names);
    }
  }
}
