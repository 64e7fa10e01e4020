/** The worklist at the heart of the remote search: a breadth-first, depth-capped,
    cancellable walk, compared with a recursive walk of the same tree. */
module TreeWalk {
  import opened Text

  const MAX_SEARCH_MATCHES: nat := 5000

  /** What one directory entry contributes: a reported hit, a directory to descend into. */
  datatype Effect = Effect(hit: Option<string>, subdir: Option<string>)

  /** A search: what listing a directory yields (`None` is a failed listing), where it starts,
      its depth cap, and what the k-th load of the cancel flag returns. */
  datatype Problem = Problem(
    expand: string -> Option<seq<Effect>>,
    start: string,
    maxDepth: nat,
    cancelled: nat -> bool)
  {
    /** Directories are listed strictly below this depth: the base is listed whatever the cap. */
    function Depth(): (d: nat)
      ensures d > 0
    {
      if maxDepth > 1 then maxDepth else 1
    }
  }

  // ---------------------------------------------------------------------------
  // The walk as the code runs it
  // ---------------------------------------------------------------------------

  datatype Scan = Scan(matches: seq<string>, truncated: bool, subdirs: seq<string>, loads: nat)

  function OptionSeq(o: Option<string>): (s: seq<string>) {
    match o case None => [] case Some(x) => [x]
  }

  function Visit(e: Effect, s: Scan): (t: Scan) {
    var hits := s.matches + OptionSeq(e.hit);
    s.(matches := hits,
       truncated := s.truncated || (e.hit.Some? && |hits| >= MAX_SEARCH_MATCHES),
       subdirs := s.subdirs + OptionSeq(e.subdir))
  }

  /** The whole loop over a listing, with its early exit. */
  function ScanListing(cancelled: nat -> bool, es: seq<Effect>, s: Scan): (t: Scan) {
    if es == [] then s
    else
      var s1 := s.(loads := s.loads + 1);
      if cancelled(s.loads) || s.truncated then s1
      else ScanListing(cancelled, es[1..], Visit(es[0], s1))
  }

  datatype Walk = Walk(
    queue: seq<(string, nat)>,
    visited: seq<string>,
    matches: seq<string>,
    truncated: bool,
    scanErrors: nat,
    canceled: bool,
    loads: nat,
    stopped: bool)

  function Start(p: Problem): Walk {
    Walk([(p.start, 0)], [], [], false, 0, false, 0, false)
  }

  function AtDepth(dirs: seq<string>, depth: nat): (items: seq<(string, nat)>)
    ensures |items| == |dirs|
    ensures forall i :: 0 <= i < |items| ==> items[i] == (dirs[i], depth)
  {
    seq(|dirs|, i requires 0 <= i < |dirs| => (dirs[i], depth))
  }

  /** Takes the listing of `dir` into account. */
  function Listed(p: Problem, w: Walk, es: seq<Effect>, depth: nat): (w': Walk) {
    var s := ScanListing(p.cancelled, es, Scan(w.matches, w.truncated, [], w.loads));
    w.(matches := s.matches, truncated := s.truncated, loads := s.loads,
       queue := w.queue + if depth + 1 < p.maxDepth then AtDepth(s.subdirs, depth + 1) else [])
  }

  /** One turn of the search loop. */
  function Step(p: Problem, w: Walk): (w': Walk)
    requires w.queue != []
  {
    var (current, depth) := w.queue[0];
    var w0 := w.(queue := w.queue[1..], loads := w.loads + 1);
    if p.cancelled(w.loads) then w0.(canceled := true, stopped := true)
    else if w.truncated then w0.(stopped := true)
    else if current in w.visited then w0
    else
      var w1 := w0.(visited := w.visited + [current]);
      match p.expand(current)
      case None => w1.(scanErrors := w.scanErrors + 1)
      case Some(es) => Listed(p, w1, es, depth)
  }

  // ---------------------------------------------------------------------------
  // What holds of every walk, on every server
  // ---------------------------------------------------------------------------

  /** The sum of a measure over a list: with an indicator function, a number of occurrences. */
  function Weigh<T>(f: T -> nat, xs: seq<T>): (n: nat) {
    if xs == [] then 0 else f(xs[0]) + Weigh(f, xs[1..])
  }

  lemma {:induction false} WeighAppend<T>(f: T -> nat, xs: seq<T>, ys: seq<T>)
    ensures Weigh(f, xs + ys) == Weigh(f, xs) + Weigh(f, ys)
  {
    if xs == [] {
      assert xs + ys == ys;
    } else {
      WeighAppend(f, xs[1..], ys);
      assert (xs + ys)[1..] == xs[1..] + ys;
    }
  }

  lemma WeighOne<T>(f: T -> nat, x: T)
    ensures Weigh(f, [x]) == f(x)
  {
    assert [x][1..] == [];
  }

  function FailedOne(p: Problem): string -> nat {
    dir => if p.expand(dir).None? then 1 else 0
  }

  /** No directory is listed twice, errors are exactly the failed listings, the result never
      exceeds the cap, it is marked truncated exactly when it reaches it, and `canceled` is set
      only on the load that saw the flag. */
  ghost predicate Sound(p: Problem, w: Walk) {
    && Distinct(w.visited)
    && w.scanErrors == Weigh(FailedOne(p), w.visited)
    && |w.matches| <= MAX_SEARCH_MATCHES
    && (w.truncated <==> |w.matches| == MAX_SEARCH_MATCHES)
    && (w.canceled ==> w.loads > 0 && p.cancelled(w.loads - 1))
    && (w.stopped ==> w.canceled || w.truncated)
  }

  lemma {:induction false} ScanKeepsCap(cancelled: nat -> bool, es: seq<Effect>, s: Scan)
    requires |s.matches| <= MAX_SEARCH_MATCHES && (s.truncated <==> |s.matches| == MAX_SEARCH_MATCHES)
    ensures var t := ScanListing(cancelled, es, s);
            |t.matches| <= MAX_SEARCH_MATCHES && (t.truncated <==> |t.matches| == MAX_SEARCH_MATCHES)
  {
    if es != [] && !cancelled(s.loads) && !s.truncated {
      ScanKeepsCap(cancelled, es[1..], Visit(es[0], s.(loads := s.loads + 1)));
    }
  }

  lemma ListedKeepsSound(p: Problem, w: Walk, es: seq<Effect>, depth: nat)
    requires !w.canceled && !w.stopped && Sound(p, w)
    ensures Sound(p, Listed(p, w, es, depth))
  {
    ScanKeepsCap(p.cancelled, es, Scan(w.matches, w.truncated, [], w.loads));
  }

  lemma VisitingKeepsDistinct(p: Problem, dirs: seq<string>, dir: string)
    requires Distinct(dirs) && dir !in dirs
    ensures Distinct(dirs + [dir])
    ensures Weigh(FailedOne(p), dirs + [dir]) == Weigh(FailedOne(p), dirs) + FailedOne(p)(dir)
  {
    WeighAppend(FailedOne(p), dirs, [dir]);
    WeighOne(FailedOne(p), dir);
  }

  lemma StepKeepsSound(p: Problem, w: Walk)
    requires w.queue != [] && !w.stopped && !w.canceled && Sound(p, w)
    ensures Sound(p, Step(p, w))
  {
    var (current, depth) := w.queue[0];
    if !p.cancelled(w.loads) && !w.truncated && current !in w.visited {
      VisitingKeepsDistinct(p, w.visited, current);
      if p.expand(current).Some? {
        var w1 := w.(queue := w.queue[1..], loads := w.loads + 1, visited := w.visited + [current]);
        ListedKeepsSound(p, w1, p.expand(current).value, depth);
      }
    }
  }

  /** The queue is a stretch of `a` directories at depth `d`, then only depth `d + 1`, all below
      the cap: what makes the walk end on cyclic and infinitely deep servers. */
  ghost predicate Levelled(p: Problem, queue: seq<(string, nat)>, d: nat, a: nat) {
    && a <= |queue|
    && (forall i :: 0 <= i < |queue| ==> queue[i].1 == (if i < a then d else d + 1) && queue[i].1 < p.Depth())
  }

  lemma StepKeepsLevels(p: Problem, w: Walk, d: nat, a: nat)
    requires w.queue != [] && Levelled(p, w.queue, d, a) && a > 0
    ensures Levelled(p, Step(p, w).queue, d, a - 1)
  {
    var rest := w.queue[1..];
    assert forall i :: 0 <= i < |rest| ==> rest[i] == w.queue[i + 1];
  }

  // ---------------------------------------------------------------------------
  // The reference: a recursive walk of the tree
  // ---------------------------------------------------------------------------

  /** The directories a walk lists and the hits it reports. */
  datatype Found = Found(dirs: seq<string>, hits: seq<string>)

  function Hits(es: seq<Effect>): (hits: seq<string>) {
    if es == [] then [] else OptionSeq(es[0].hit) + Hits(es[1..])
  }

  function Subdirs(es: seq<Effect>): (dirs: seq<string>) {
    if es == [] then [] else OptionSeq(es[0].subdir) + Subdirs(es[1..])
  }

  /** Everything at or below `dir`, with `left` levels of directories still to list. */
  function Tree(p: Problem, dir: string, left: nat): (f: Found)
    requires left > 0
    decreases left, 0
  {
    match p.expand(dir)
    case None => Found([dir], [])
    case Some(es) =>
      var below := if left > 1 then Grove(p, Subdirs(es), left - 1) else Found([], []);
      Found([dir] + below.dirs, Hits(es) + below.hits)
  }

  function Grove(p: Problem, dirs: seq<string>, left: nat): (f: Found)
    requires left > 0
    decreases left, |dirs|
  {
    if dirs == [] then Found([], [])
    else
      var first, others := Tree(p, dirs[0], left), Grove(p, dirs[1..], left);
      Found(first.dirs + others.dirs, first.hits + others.hits)
  }

  function WholeTree(p: Problem): (f: Found) {
    Tree(p, p.start, p.Depth())
  }

  /** A way down from `dir`: each directory is listed, and lists the next one as a subdirectory,
      without going past the depth cap. */
  ghost predicate Leads(p: Problem, dir: string, chain: seq<string>, left: nat)
    decreases |chain|
  {
    if chain == [] then left > 0
    else
      && left > 1 && p.expand(dir).Some? && chain[0] in Subdirs(p.expand(dir).value)
      && Leads(p, chain[0], chain[1..], left - 1)
  }

  function End(dir: string, chain: seq<string>): (end: string) {
    if chain == [] then dir else chain[|chain| - 1]
  }

  /** The hits (or the directories) of a walk, and what listing one directory adds to them. */
  function Part(f: Found, hits: bool): (xs: seq<string>) {
    if hits then f.hits else f.dirs
  }

  function Own(p: Problem, dir: string, hits: bool): (xs: seq<string>) {
    if !hits then [dir] else if p.expand(dir).Some? then Hits(p.expand(dir).value) else []
  }

  lemma {:induction false} GroveHas(p: Problem, dirs: seq<string>, left: nat, hits: bool, d: string, x: string)
    requires left > 0 && d in dirs && x in Part(Tree(p, d, left), hits)
    ensures x in Part(Grove(p, dirs, left), hits)
  {
    if dirs[0] != d {
      GroveHas(p, dirs[1..], left, hits, d, x);
    }
  }

  lemma {:induction false} GroveOrigin(p: Problem, dirs: seq<string>, left: nat, hits: bool, x: string)
    returns (d: string)
    requires left > 0 && x in Part(Grove(p, dirs, left), hits)
    ensures d in dirs && x in Part(Tree(p, d, left), hits)
  {
    if x in Part(Tree(p, dirs[0], left), hits) {
      d := dirs[0];
    } else {
      d := GroveOrigin(p, dirs[1..], left, hits, x);
    }
  }

  lemma {:induction false} ChainTo(p: Problem, dir: string, left: nat, hits: bool, x: string)
    returns (chain: seq<string>)
    requires left > 0 && x in Part(Tree(p, dir, left), hits)
    ensures Leads(p, dir, chain, left) && x in Own(p, End(dir, chain), hits)
    decreases left
  {
    if x in Own(p, dir, hits) {
      return [];
    }
    var sub := GroveOrigin(p, Subdirs(p.expand(dir).value), left - 1, hits, x);
    var rest := ChainTo(p, sub, left - 1, hits, x);
    chain := [sub] + rest;
    assert chain[1..] == rest && End(dir, chain) == End(sub, rest);
  }

  lemma {:induction false} ChainReaches(p: Problem, dir: string, left: nat, hits: bool, x: string, chain: seq<string>)
    requires Leads(p, dir, chain, left) && x in Own(p, End(dir, chain), hits)
    ensures left > 0 && x in Part(Tree(p, dir, left), hits)
    decreases left
  {
    if chain != [] {
      assert End(chain[0], chain[1..]) == End(dir, chain);
      ChainReaches(p, chain[0], left - 1, hits, x, chain[1..]);
      GroveHas(p, Subdirs(p.expand(dir).value), left - 1, hits, chain[0], x);
    }
  }

  /** The recursive walk lists exactly the directories a chain leads to, and reports exactly the
      hits of the listings a chain leads to. */
  lemma TreeIsWhatChainsReach(p: Problem, dir: string, left: nat, hits: bool, x: string)
    requires left > 0
    ensures x in Part(Tree(p, dir, left), hits) <==>
            exists chain :: Leads(p, dir, chain, left) && x in Own(p, End(dir, chain), hits)
  {
    if x in Part(Tree(p, dir, left), hits) {
      var chain := ChainTo(p, dir, left, hits, x);
    }
    forall chain | Leads(p, dir, chain, left) && x in Own(p, End(dir, chain), hits)
      ensures x in Part(Tree(p, dir, left), hits)
    {
      ChainReaches(p, dir, left, hits, x, chain);
    }
  }

  // ---------------------------------------------------------------------------
  // Conservation: the queue always stands for exactly what the reference still has to visit
  // ---------------------------------------------------------------------------

  /** A measure on the directories listed and one on the hits reported. */
  datatype Scale = Scale(dir: string -> nat, hit: string -> nat)

  function WeighFound(k: Scale, f: Found): (n: nat) {
    Weigh(k.dir, f.dirs) + Weigh(k.hit, f.hits)
  }

  lemma WeighJoined(k: Scale, a: Found, b: Found)
    ensures WeighFound(k, Found(a.dirs + b.dirs, a.hits + b.hits)) == WeighFound(k, a) + WeighFound(k, b)
  {
    WeighAppend(k.dir, a.dirs, b.dirs);
    WeighAppend(k.hit, a.hits, b.hits);
  }

  /** The weight of all that a queued directory still stands for. */
  function ItemWeight(p: Problem, k: Scale): ((string, nat)) -> nat {
    (item: (string, nat)) =>
      if item.1 < p.Depth() then WeighFound(k, Tree(p, item.0, p.Depth() - item.1)) else 0
  }

  lemma {:induction false} WeighLevel(p: Problem, k: Scale, dirs: seq<string>, depth: nat)
    requires depth < p.Depth()
    ensures Weigh(ItemWeight(p, k), AtDepth(dirs, depth)) == WeighFound(k, Grove(p, dirs, p.Depth() - depth))
  {
    if dirs != [] {
      WeighLevel(p, k, dirs[1..], depth);
      assert AtDepth(dirs, depth)[1..] == AtDepth(dirs[1..], depth);
      WeighJoined(k, Tree(p, dirs[0], p.Depth() - depth), Grove(p, dirs[1..], p.Depth() - depth));
    }
  }

  function Queued(p: Problem, es: seq<Effect>, depth: nat): (items: seq<(string, nat)>) {
    if depth + 1 < p.maxDepth then AtDepth(Subdirs(es), depth + 1) else []
  }

  /** What the tree below a listed directory is made of. */
  function Below(p: Problem, es: seq<Effect>, depth: nat): (f: Found) {
    if depth + 1 < p.Depth() then Grove(p, Subdirs(es), p.Depth() - (depth + 1)) else Found([], [])
  }

  lemma WeighBelow(p: Problem, k: Scale, dirs: seq<string>, depth: nat, left: nat)
    requires left == p.Depth() - (depth + 1) && left > 0
    ensures WeighFound(k, Grove(p, dirs, left)) == Weigh(ItemWeight(p, k), AtDepth(dirs, depth + 1))
  {
    WeighLevel(p, k, dirs, depth + 1);
  }

  lemma WeighParts(p: Problem, k: Scale, dir: string, depth: nat, es: seq<Effect>)
    requires depth < p.Depth() && p.expand(dir) == Some(es)
    ensures WeighFound(k, Tree(p, dir, p.Depth() - depth)) ==
            k.dir(dir) + Weigh(k.hit, Hits(es)) + WeighFound(k, Below(p, es, depth))
  {
    var below := Below(p, es, depth);
    assert Tree(p, dir, p.Depth() - depth) == Found([dir] + below.dirs, Hits(es) + below.hits);
    WeighJoined(k, Found([dir], Hits(es)), below);
    WeighOne(k.dir, dir);
  }

  /** The weight of a tree is that of its root's listing and of the directories it queues. */
  lemma WeighTree(p: Problem, k: Scale, dir: string, depth: nat, es: seq<Effect>)
    requires depth < p.Depth() && p.expand(dir) == Some(es)
    ensures ItemWeight(p, k)((dir, depth)) ==
            k.dir(dir) + Weigh(k.hit, Hits(es)) + Weigh(ItemWeight(p, k), Queued(p, es, depth))
  {
    WeighParts(p, k, dir, depth, es);
    WeighQueued(p, k, depth, es);
  }

  lemma WeighQueued(p: Problem, k: Scale, depth: nat, es: seq<Effect>)
    requires depth < p.Depth()
    ensures WeighFound(k, Below(p, es, depth)) == Weigh(ItemWeight(p, k), Queued(p, es, depth))
  {
    if depth + 1 < p.Depth() {
      WeighBelow(p, k, Subdirs(es), depth, p.Depth() - (depth + 1));
    } else {
      assert Queued(p, es, depth) == [] && Below(p, es, depth) == Found([], []);
    }
  }

  lemma ConcatAssoc<T>(a: seq<T>, b: seq<T>, c: seq<T>)
    ensures (a + b) + c == a + (b + c)
  {
  }

  /** A scan that sees no cancellation and is not truncated reports the whole listing. */
  lemma {:induction false} ScanIsWhole(cancelled: nat -> bool, es: seq<Effect>, s: Scan)
    requires !ScanListing(cancelled, es, s).truncated
    requires forall n :: s.loads <= n < ScanListing(cancelled, es, s).loads ==> !cancelled(n)
    ensures ScanListing(cancelled, es, s) == Scan(s.matches + Hits(es), false, s.subdirs + Subdirs(es),
                                                  ScanListing(cancelled, es, s).loads)
  {
    ScanGrows(cancelled, es, s);
    if es != [] {
      assert !cancelled(s.loads);
      var s1 := Visit(es[0], s.(loads := s.loads + 1));
      ScanIsWhole(cancelled, es[1..], s1);
      ConcatAssoc(s.matches, OptionSeq(es[0].hit), Hits(es[1..]));
      ConcatAssoc(s.subdirs, OptionSeq(es[0].subdir), Subdirs(es[1..]));
    }
  }

  lemma {:induction false} ScanGrows(cancelled: nat -> bool, es: seq<Effect>, s: Scan)
    ensures var t := ScanListing(cancelled, es, s);
            && (s.truncated ==> t.truncated) && s.loads <= t.loads && (es != [] ==> s.loads < t.loads)
  {
    if es != [] && !cancelled(s.loads) && !s.truncated {
      ScanGrows(cancelled, es[1..], Visit(es[0], s.(loads := s.loads + 1)));
    }
  }

  /** No load so far saw the flag, and the cap was not reached. */
  ghost predicate Undisturbed(p: Problem, w: Walk) {
    !w.truncated && forall n :: 0 <= n < w.loads ==> !p.cancelled(n)
  }

  /** Done plus queued is always the whole tree, whatever is being measured. */
  ghost predicate Conserved(p: Problem, k: Scale, w: Walk) {
    Weigh(k.dir, w.visited) + Weigh(k.hit, w.matches) + Weigh(ItemWeight(p, k), w.queue) == WeighFound(k, WholeTree(p))
  }

  /** An undisturbed listing is reported whole and queues all its directories. */
  lemma ListedIsWhole(p: Problem, w: Walk, es: seq<Effect>, depth: nat)
    requires !Listed(p, w, es, depth).truncated
    requires forall n :: 0 <= n < Listed(p, w, es, depth).loads ==> !p.cancelled(n)
    ensures Listed(p, w, es, depth) == w.(queue := w.queue + Queued(p, es, depth),
                                          matches := w.matches + Hits(es),
                                          loads := Listed(p, w, es, depth).loads)
  {
    var s := Scan(w.matches, w.truncated, [], w.loads);
    ScanGrows(p.cancelled, es, s);
    ScanIsWhole(p.cancelled, es, s);
    assert [] + Subdirs(es) == Subdirs(es);
  }

  lemma StepGrows(p: Problem, w: Walk)
    requires w.queue != []
    ensures w.loads < Step(p, w).loads && (w.truncated ==> Step(p, w).truncated)
    ensures Undisturbed(p, Step(p, w)) ==> Undisturbed(p, w)
  {
    if p.expand(w.queue[0].0).Some? {
      ScanGrows(p.cancelled, p.expand(w.queue[0].0).value, Scan(w.matches, w.truncated, [], w.loads + 1));
    }
  }

  lemma StepConserves(p: Problem, k: Scale, w: Walk)
    requires w.queue != [] && w.queue[0].1 < p.Depth() && Conserved(p, k, w)
    requires Undisturbed(p, Step(p, w)) && w.queue[0].0 !in w.visited
    ensures Conserved(p, k, Step(p, w))
  {
    var (current, depth) := w.queue[0];
    StepGrows(p, w);
    assert !p.cancelled(w.loads);
    WeighAppend(k.dir, w.visited, [current]);
    WeighOne(k.dir, current);
    if p.expand(current).Some? {
      var es := p.expand(current).value;
      ListedIsWhole(p, w.(queue := w.queue[1..], loads := w.loads + 1, visited := w.visited + [current]), es, depth);
      WeighTree(p, k, current, depth, es);
      WeighAppend(k.hit, w.matches, Hits(es));
      WeighAppend(ItemWeight(p, k), w.queue[1..], Queued(p, es, depth));
    }
  }

  // ---------------------------------------------------------------------------
  // Nothing but the tree: what holds of disturbed walks and of servers with several paths to a directory
  // ---------------------------------------------------------------------------

  /** `part` continues `from` by a front of `all`. */
  predicate Continues<T(==)>(from: seq<T>, part: seq<T>, all: seq<T>) {
    from <= part && part[|from|..] <= all
  }

  lemma ContinuesNext<T>(from: seq<T>, front: seq<T>, part: seq<T>, rest: seq<T>)
    requires Continues(from + front, part, rest)
    ensures Continues(from, part, front + rest)
  {
    assert part == from + front + part[|from + front|..];
    assert part[|from|..] == front + part[|from + front|..];
  }

  /** Wherever a scan stops, it reported and kept a front of what the listing holds. */
  lemma {:induction false} ScanTakesFront(cancelled: nat -> bool, es: seq<Effect>, s: Scan)
    ensures var t := ScanListing(cancelled, es, s);
            Continues(s.matches, t.matches, Hits(es)) && Continues(s.subdirs, t.subdirs, Subdirs(es))
  {
    if es != [] && !cancelled(s.loads) && !s.truncated {
      var s1 := Visit(es[0], s.(loads := s.loads + 1));
      var t := ScanListing(cancelled, es[1..], s1);
      ScanTakesFront(cancelled, es[1..], s1);
      ContinuesNext(s.matches, OptionSeq(es[0].hit), t.matches, Hits(es[1..]));
      ContinuesNext(s.subdirs, OptionSeq(es[0].subdir), t.subdirs, Subdirs(es[1..]));
    }
  }

  lemma {:induction false} WeighFront<T>(f: T -> nat, xs: seq<T>, ys: seq<T>)
    requires xs <= ys
    ensures Weigh(f, xs) <= Weigh(f, ys)
  {
    assert ys == xs + ys[|xs|..];
    WeighAppend(f, xs, ys[|xs|..]);
  }

  lemma WeighContinued<T>(f: T -> nat, from: seq<T>, part: seq<T>, all: seq<T>)
    requires Continues(from, part, all)
    ensures Weigh(f, part) <= Weigh(f, from) + Weigh(f, all)
  {
    assert part == from + part[|from|..];
    WeighAppend(f, from, part[|from|..]);
    WeighFront(f, part[|from|..], all);
  }

  /** Done plus queued is never more than the whole tree. */
  ghost predicate Within(p: Problem, k: Scale, w: Walk) {
    Weigh(k.dir, w.visited) + Weigh(k.hit, w.matches) + Weigh(ItemWeight(p, k), w.queue) <= WeighFound(k, WholeTree(p))
  }

  lemma FrontAtDepth(some: seq<string>, all: seq<string>, depth: nat)
    requires some <= all
    ensures AtDepth(some, depth) <= AtDepth(all, depth)
  {
  }

  /** A listing, taken into account wholly or in part. */
  lemma ListedTakesFront(p: Problem, k: Scale, w: Walk, es: seq<Effect>, depth: nat)
    ensures var after := Listed(p, w, es, depth);
            && after.visited == w.visited
            && Weigh(k.hit, after.matches) <= Weigh(k.hit, w.matches) + Weigh(k.hit, Hits(es))
            && Weigh(ItemWeight(p, k), after.queue)
               <= Weigh(ItemWeight(p, k), w.queue) + Weigh(ItemWeight(p, k), Queued(p, es, depth))
  {
    var s := Scan(w.matches, w.truncated, [], w.loads);
    var t := ScanListing(p.cancelled, es, s);
    ScanTakesFront(p.cancelled, es, s);
    WeighContinued(k.hit, w.matches, t.matches, Hits(es));
    if depth + 1 < p.maxDepth {
      FrontAtDepth(t.subdirs, Subdirs(es), depth + 1);
      WeighFront(ItemWeight(p, k), AtDepth(t.subdirs, depth + 1), Queued(p, es, depth));
      WeighAppend(ItemWeight(p, k), w.queue, AtDepth(t.subdirs, depth + 1));
    } else {
      assert w.queue + [] == w.queue;
    }
  }

  lemma StepStaysWithin(p: Problem, k: Scale, w: Walk)
    requires w.queue != [] && w.queue[0].1 < p.Depth() && Within(p, k, w)
    ensures Within(p, k, Step(p, w))
  {
    var (current, depth) := w.queue[0];
    if !p.cancelled(w.loads) && !w.truncated && current !in w.visited {
      NewlyVisited(k, w.visited, current);
      var w1 := w.(queue := w.queue[1..], loads := w.loads + 1, visited := w.visited + [current]);
      match p.expand(current)
      case Some(es) => ListedStaysWithin(p, k, w, w1, es);
      case None => FailedStaysWithin(p, k, w, w1.(scanErrors := w.scanErrors + 1));
    }
  }

  lemma NewlyVisited(k: Scale, dirs: seq<string>, dir: string)
    ensures Weigh(k.dir, dirs + [dir]) == Weigh(k.dir, dirs) + k.dir(dir)
  {
    WeighAppend(k.dir, dirs, [dir]);
    WeighOne(k.dir, dir);
  }

  lemma FailedStaysWithin(p: Problem, k: Scale, w: Walk, w1: Walk)
    requires w.queue != [] && w.queue[0].1 < p.Depth() && Within(p, k, w)
    requires p.expand(w.queue[0].0) == None && w1.queue == w.queue[1..] && w1.matches == w.matches
    requires Weigh(k.dir, w1.visited) == Weigh(k.dir, w.visited) + k.dir(w.queue[0].0)
    ensures Within(p, k, w1)
  {
    WeighOne(k.dir, w.queue[0].0);
  }

  /** `w1` is `w` with the front of its queue counted as visited. */
  lemma ListedStaysWithin(p: Problem, k: Scale, w: Walk, w1: Walk, es: seq<Effect>)
    requires w.queue != [] && w.queue[0].1 < p.Depth() && Within(p, k, w)
    requires p.expand(w.queue[0].0) == Some(es) && w1.queue == w.queue[1..] && w1.matches == w.matches
    requires Weigh(k.dir, w1.visited) == Weigh(k.dir, w.visited) + k.dir(w.queue[0].0)
    ensures Within(p, k, Listed(p, w1, es, w.queue[0].1))
  {
    WeighTree(p, k, w.queue[0].0, w.queue[0].1, es);
    ListedTakesFront(p, k, w1, es, w.queue[0].1);
  }

  ghost predicate AllWithin(p: Problem, w: Walk) {
    forall k: Scale :: Within(p, k, w)
  }

  lemma StepStaysWithinAll(p: Problem, w: Walk)
    requires w.queue != [] && w.queue[0].1 < p.Depth() && AllWithin(p, w)
    ensures AllWithin(p, Step(p, w))
  {
    forall k: Scale ensures Within(p, k, Step(p, w)) {
      StepStaysWithin(p, k, w);
    }
  }

  /** What was listed and reported is in the tree, and not more often than there. */
  lemma EndIsWithin(p: Problem, w: Walk)
    requires AllWithin(p, w)
    ensures multiset(w.visited) <= multiset(WholeTree(p).dirs) && multiset(w.matches) <= multiset(WholeTree(p).hits)
  {
    forall x ensures multiset(w.visited)[x] <= multiset(WholeTree(p).dirs)[x]
             ensures multiset(w.matches)[x] <= multiset(WholeTree(p).hits)[x]
    {
      assert Within(p, Scale(Is(x), Zero()), w) && Within(p, Scale(Zero(), Is(x)), w);
      WeighIsCount(x, w.visited);
      WeighIsCount(x, w.matches);
      WeighIsCount(x, WholeTree(p).dirs);
      WeighIsCount(x, WholeTree(p).hits);
    }
  }

  // ---------------------------------------------------------------------------
  // Whole runs
  // ---------------------------------------------------------------------------

  function Is(x: string): string -> nat {
    y => if y == x then 1 else 0
  }

  function Zero(): string -> nat {
    y => 0
  }

  lemma {:induction false} WeighIsCount(x: string, xs: seq<string>)
    ensures Weigh(Is(x), xs) == multiset(xs)[x]
    ensures Weigh(Zero(), xs) == 0
  {
    if xs != [] {
      WeighIsCount(x, xs[1..]);
      assert xs == [xs[0]] + xs[1..];
    }
  }

  lemma {:induction false} DistinctCount(xs: seq<string>, x: string)
    requires Distinct(xs)
    ensures multiset(xs)[x] <= 1
  {
    if xs != [] {
      var init := xs[..|xs| - 1];
      DistinctCount(init, x);
      assert xs == init + [xs[|xs| - 1]];
    }
  }

  lemma WeighMember<T>(f: T -> nat, xs: seq<T>, x: T)
    requires x in xs
    ensures Weigh(f, xs) >= f(x)
  {
    if xs[0] != x {
      WeighMember(f, xs[1..], x);
    }
  }

  /** Conservation for every measure there is. */
  ghost predicate AllConserved(p: Problem, w: Walk) {
    forall k: Scale :: Conserved(p, k, w)
  }

  lemma StartConserves(p: Problem)
    ensures AllConserved(p, Start(p))
  {
    forall k: Scale ensures Conserved(p, k, Start(p)) {
      WeighOne(ItemWeight(p, k), (p.start, 0));
    }
  }

  /** When no directory of the tree has two paths, the next queued directory was never listed before. */
  lemma FrontIsNew(p: Problem, w: Walk)
    requires w.queue != [] && w.queue[0].1 < p.Depth() && AllConserved(p, w)
    requires Distinct(WholeTree(p).dirs)
    ensures w.queue[0].0 !in w.visited
  {
    var (dir, depth) := w.queue[0];
    var k := Scale(Is(dir), Zero());
    assert Conserved(p, k, w);
    WeighIsCount(dir, w.visited);
    WeighIsCount(dir, WholeTree(p).dirs);
    WeighIsCount(dir, WholeTree(p).hits);
    DistinctCount(WholeTree(p).dirs, dir);
    WeighMember(Is(dir), Tree(p, dir, p.Depth() - depth).dirs, dir);
  }

  /** One undisturbed turn keeps every measure conserved. */
  lemma StepConservesAll(p: Problem, w: Walk)
    requires w.queue != [] && w.queue[0].1 < p.Depth() && AllConserved(p, w)
    requires Undisturbed(p, Step(p, w)) && Distinct(WholeTree(p).dirs)
    ensures AllConserved(p, Step(p, w))
  {
    FrontIsNew(p, w);
    forall k: Scale ensures Conserved(p, k, Step(p, w)) {
      StepConserves(p, k, w);
    }
  }

  lemma EndCounts(p: Problem, w: Walk, x: string)
    requires w.queue == [] && AllConserved(p, w)
    ensures multiset(w.visited)[x] == multiset(WholeTree(p).dirs)[x]
    ensures multiset(w.matches)[x] == multiset(WholeTree(p).hits)[x]
  {
    var t := WholeTree(p);
    assert Conserved(p, Scale(Is(x), Zero()), w) && Conserved(p, Scale(Zero(), Is(x)), w);
    WeighIsCount(x, w.visited);
    WeighIsCount(x, w.matches);
    WeighIsCount(x, t.dirs);
    WeighIsCount(x, t.hits);
  }

  lemma EndErrors(p: Problem, w: Walk)
    requires w.queue == [] && AllConserved(p, w)
    ensures Weigh(FailedOne(p), w.visited) == Weigh(FailedOne(p), WholeTree(p).dirs)
  {
    assert Conserved(p, Scale(FailedOne(p), Zero()), w);
    WeighIsCount("", w.matches);
    WeighIsCount("", WholeTree(p).hits);
  }

  /** At the end of an undisturbed run the result is the recursive walk's, item for item. */
  lemma EndIsWhole(p: Problem, w: Walk)
    requires w.queue == [] && AllConserved(p, w) && Sound(p, w)
    ensures multiset(w.visited) == multiset(WholeTree(p).dirs)
    ensures multiset(w.matches) == multiset(WholeTree(p).hits)
    ensures w.scanErrors == Weigh(FailedOne(p), WholeTree(p).dirs)
  {
    forall x ensures multiset(w.visited)[x] == multiset(WholeTree(p).dirs)[x]
             ensures multiset(w.matches)[x] == multiset(WholeTree(p).hits)[x]
    {
      EndCounts(p, w, x);
    }
    EndErrors(p, w);
  }

  /** The flag is only ever raised, never lowered. */
  ghost predicate Latched(p: Problem) {
    forall i, j :: 0 <= i <= j && p.cancelled(i) ==> p.cancelled(j)
  }

  /** One of the first loads of the flag saw it raised. */
  ghost predicate Seen(p: Problem, loads: nat) {
    exists k :: 0 <= k < loads && p.cancelled(k)
  }

  /** A flag that stays raised is noticed at the next load, and ends the search at the one after that. */
  ghost predicate Prompt(p: Problem, w: Walk) {
    Latched(p) ==> forall n :: 0 <= n < w.loads && p.cancelled(n) ==> w.loads <= n + if w.stopped then 2 else 1
  }

  lemma {:induction false} ScanIsPrompt(cancelled: nat -> bool, es: seq<Effect>, s: Scan)
    ensures forall n :: s.loads <= n < ScanListing(cancelled, es, s).loads && cancelled(n) ==>
                          ScanListing(cancelled, es, s).loads == n + 1
  {
    if es != [] && !cancelled(s.loads) && !s.truncated {
      ScanIsPrompt(cancelled, es[1..], Visit(es[0], s.(loads := s.loads + 1)));
    }
  }

  lemma StepKeepsPrompt(p: Problem, w: Walk)
    requires w.queue != [] && !w.stopped && Prompt(p, w)
    ensures Prompt(p, Step(p, w))
  {
    if !p.cancelled(w.loads) && p.expand(w.queue[0].0).Some? {
      var s := Scan(w.matches, w.truncated, [], w.loads + 1);
      ScanGrows(p.cancelled, p.expand(w.queue[0].0).value, s);
      ScanIsPrompt(p.cancelled, p.expand(w.queue[0].0).value, s);
    }
  }

  /** Everything the search loop keeps: `d` is the depth at the front of the queue, `a` the number
      of directories left at that depth. */
  ghost predicate Running(p: Problem, w: Walk, d: nat, a: nat) {
    && Levelled(p, w.queue, d, a) && (w.queue != [] ==> a > 0) && d <= p.Depth()
    && Sound(p, w) && AllWithin(p, w) && Prompt(p, w)
    && (w.canceled ==> w.stopped) && (Latched(p) && w.stopped && Seen(p, w.loads) ==> w.canceled)
    && (Distinct(WholeTree(p).dirs) && Undisturbed(p, w) ==> AllConserved(p, w) && !w.stopped)
  }

  lemma StartRuns(p: Problem)
    ensures Running(p, Start(p), 0, 1)
  {
    StartConserves(p);
    forall k: Scale ensures Within(p, k, Start(p)) {
      assert Conserved(p, k, Start(p));
    }
  }

  /** The next level starts when the current one is used up. */
  function NextDepth(w': Walk, d: nat, a: nat): (nat, nat)
    requires a > 0
  {
    if a == 1 && w'.queue != [] then (d + 1, |w'.queue|) else (d, a - 1)
  }

  lemma TurnKeepsRunning(p: Problem, w: Walk, d: nat, a: nat)
    requires Running(p, w, d, a) && w.queue != [] && !w.stopped
    ensures var (d', a') := NextDepth(Step(p, w), d, a);
            Running(p, Step(p, w), d', a') && (d < d' || (d == d' && a' < a))
  {
    StepKeepsSound(p, w);
    StepKeepsLevels(p, w, d, a);
    StepGrows(p, w);
    StepStaysWithinAll(p, w);
    StepKeepsPrompt(p, w);
    if Distinct(WholeTree(p).dirs) && Undisturbed(p, Step(p, w)) {
      StepConservesAll(p, w);
    }
  }

  /** What a finished search delivers: facts that hold on every server, and exactness when the
      search was undisturbed and no directory has two paths. A flag that stays raised is reported exactly
      when some load saw it and the search stopped with a directory still queued: seen inside the last
      listing it is not. */
  ghost predicate Delivers(p: Problem, w: Walk) {
    && Sound(p, w) && Prompt(p, w)
    && multiset(w.visited) <= multiset(WholeTree(p).dirs) && multiset(w.matches) <= multiset(WholeTree(p).hits)
    && (Latched(p) ==> (w.canceled <==> w.stopped && Seen(p, w.loads)))
    && (w.queue == [] || w.stopped)
    && (Distinct(WholeTree(p).dirs) && Undisturbed(p, w) ==>
          && multiset(w.visited) == multiset(WholeTree(p).dirs)
          && multiset(w.matches) == multiset(WholeTree(p).hits)
          && w.scanErrors == Weigh(FailedOne(p), WholeTree(p).dirs)
          && !w.canceled)
  }

  lemma EndDelivers(p: Problem, w: Walk, d: nat, a: nat)
    requires Running(p, w, d, a) && (w.queue == [] || w.stopped)
    ensures Delivers(p, w)
  {
    EndIsWithin(p, w);
    if Distinct(WholeTree(p).dirs) && Undisturbed(p, w) {
      EndIsWhole(p, w);
    }
  }

  // ---------------------------------------------------------------------------
  // Cancellation
  // ---------------------------------------------------------------------------

  /** A turn that sees the flag inside a listing is reported as cancelled by the next turn exactly
      when there is a next turn: with nothing left in the queue the run ends unreported. */
  lemma CancelInListingReportedExactlyWhenWorkIsLeft(p: Problem, w: Walk)
    requires Latched(p) && w.queue != [] && !w.canceled && !p.cancelled(w.loads)
    requires exists n :: w.loads < n < Step(p, w).loads && p.cancelled(n)
    ensures !Step(p, w).canceled
    ensures Step(p, w).queue != [] ==> Step(p, Step(p, w)).canceled
  {
    var n :| w.loads < n < Step(p, w).loads && p.cancelled(n);
    assert p.cancelled(Step(p, w).loads);
  }

  /** The unreported case happens: one matching file, flag raised while its listing is read. */
  lemma UnreportedCancelExample()
    ensures exists p: Problem ::
              && Latched(p)
              && WholeTree(p).hits == ["a"]
              && var w := Step(p, Start(p));
                 w.queue == [] && w.matches == [] && !w.canceled && w.loads > 0 && p.cancelled(w.loads - 1)
  {
    var p := Problem(d => Some([Effect(Some("a"), None)]), "/", 1, n => n >= 1);
    var es := [Effect(Some("a"), None)];
    assert es[1..] == [];
    assert Hits(es) == ["a"];
    assert Tree(p, "/", 1) == Found(["/"], ["a"]);
    var w := Step(p, Start(p));
    assert ScanListing(p.cancelled, es, Scan([], false, [], 1)) == Scan([], false, [], 2);
    assert w.loads == 2;
  }
}
