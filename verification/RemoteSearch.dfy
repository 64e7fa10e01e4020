/** `search_remote_recursive` of `remote.rs`: directory listings over string paths, driving the
    worklist of `TreeWalk`. */
module RemoteSearch {
  import opened Text
  import opened RemotePaths
  import opened TreeWalk

  datatype FileInfo = FileInfo(name: string, isDir: bool, mode: bv32)

  predicate IsSymlink(e: FileInfo) {
    e.mode & 0xA000 == 0xA000
  }

  predicate IsHidden(name: string) {
    name != "" && name[0] == '.' && name != "." && name != ".."
  }

  /** One search: the server's answer to every listing (`None` is an error), the compiled pattern
      and the options. No directory is ever listed twice, so a function loses nothing. */
  datatype Query = Query(
    list: string -> Option<seq<FileInfo>>,
    matches: string -> bool,
    base: string,
    maxDepth: nat,
    includeHidden: bool,
    cancelled: nat -> bool)
  {
    function Base(): string {
      Normalize(base)
    }

    predicate Visible(e: FileInfo) {
      && e.name != "" && e.name != "." && e.name != ".."
      && (includeHidden || !IsHidden(e.name))
    }
  }

  function TrimSlashes(s: string): (t: string) {
    if s != "" && s[0] == '/' then TrimSlashes(s[1..]) else s
  }

  /** The reported name of a hit: its path relative to the base. */
  function Relative(base: string, child: string, name: string): (r: string) {
    var rel := if base == "/" then TrimSlashes(child)
               else if base + "/" <= child then child[|base| + 1..]
               else child;
    if rel == "" then name else rel
  }

  function EffectOf(q: Query, dir: string, e: FileInfo): (f: Effect) {
    if !q.Visible(e) then Effect(None, None)
    else
      var child := Normalize(JoinPath(dir, e.name));
      Effect(if q.matches(e.name) then Some(Relative(q.Base(), child, e.name)) else None,
             if e.isDir && !IsSymlink(e) then Some(child) else None)
  }

  function Effects(q: Query, dir: string, es: seq<FileInfo>): (fs: seq<Effect>)
    ensures |fs| == |es|
  {
    if es == [] then [] else [EffectOf(q, dir, es[0])] + Effects(q, dir, es[1..])
  }

  function ProblemOf(q: Query): (p: Problem) {
    Problem(
      dir => match q.list(dir) case None => None case Some(es) => Some(Effects(q, dir, es)),
      q.Base(), q.maxDepth, q.cancelled)
  }

  // ---------------------------------------------------------------------------
  // The loops
  // ---------------------------------------------------------------------------

  /** The loop over one listing. */
  method ProcessEntries(q: Query, dir: string, es: seq<FileInfo>, matches: seq<string>, truncated: bool, loads: nat)
    returns (s: Scan)
    ensures s == ScanListing(q.cancelled, Effects(q, dir, es), Scan(matches, truncated, [], loads))
  {
    s := Scan(matches, truncated, [], loads);
    ghost var goal := ScanListing(q.cancelled, Effects(q, dir, es), s);
    var i := 0;
    while i < |es|
      invariant 0 <= i <= |es|
      invariant ScanListing(q.cancelled, Effects(q, dir, es[i..]), s) == goal
    {
      var e := es[i];
      var stop := q.cancelled(s.loads) || s.truncated;
      s := s.(loads := s.loads + 1);
      if stop {
        return;
      }
      i := i + 1;
      assert es[i - 1..][1..] == es[i..];
      assert Effects(q, dir, es[i - 1..])[1..] == Effects(q, dir, es[i..]);
      ghost var before := s;
      if q.Visible(e) {
        var child := Normalize(JoinPath(dir, e.name));
        if q.matches(e.name) {
          s := s.(matches := s.matches + [Relative(q.Base(), child, e.name)]);
          if |s.matches| >= MAX_SEARCH_MATCHES {
            s := s.(truncated := true);
          }
        }
        if e.isDir && !IsSymlink(e) {
          s := s.(subdirs := s.subdirs + [child]);
        }
      }
      assert s == Visit(EffectOf(q, dir, e), before);
    }
  }

  /** What a successful listing of `dir` does to the search. */
  method TakeListing(q: Query, before: Walk, dir: string, depth: nat, es: seq<FileInfo>) returns (w: Walk)
    ensures w == Listed(ProblemOf(q), before, Effects(q, dir, es), depth)
  {
    var s := ProcessEntries(q, dir, es, before.matches, before.truncated, before.loads);
    w := before.(matches := s.matches, truncated := s.truncated, loads := s.loads);
    if depth + 1 < q.maxDepth {
      w := w.(queue := w.queue + AtDepth(s.subdirs, depth + 1));
    } else {
      assert before.queue + [] == before.queue;
    }
  }

  /** One turn of the recursive search. */
  method Turn(q: Query, before: Walk) returns (w: Walk)
    requires before.queue != []
    ensures w == Step(ProblemOf(q), before)
  {
    var (current, depth) := before.queue[0];
    w := before.(queue := before.queue[1..], loads := before.loads + 1);
    if q.cancelled(before.loads) {
      w := w.(canceled := true, stopped := true);
    } else if w.truncated {
      w := w.(stopped := true);
    } else if current !in w.visited {
      w := w.(visited := w.visited + [current]);
      var entries := q.list(current);
      if entries.None? {
        w := w.(scanErrors := w.scanErrors + 1);
      } else {
        w := TakeListing(q, w, current, depth, entries.value);
      }
    }
  }

  /** The recursive branch: it ends on every server, by the levels left below the cap and the
      directories left at the current level. */
  method SearchRecursive(q: Query) returns (w: Walk)
    ensures Delivers(ProblemOf(q), w)
  {
    ghost var p := ProblemOf(q);
    w := Start(ProblemOf(q));
    ghost var d: nat, a: nat := 0, 1;
    StartRuns(p);
    while w.queue != [] && !w.stopped
      invariant Running(p, w, d, a)
      decreases p.Depth() - d, a
    {
      TurnKeepsRunning(p, w, d, a);
      w := Turn(q, w);
      ghost var next := NextDepth(w, d, a);
      d, a := next.0, next.1;
    }
    EndDelivers(p, w, d, a);
  }
}
