/** On a server whose listings have distinct, well-behaved names, no directory and no hit of a
    search has two paths; the hits are exactly the matching entries that a chain of visible
    directories leads to. */
module RemoteSearchNames {
  import opened Text
  import opened RemotePaths
  import opened TreeWalk
  import opened RemoteSearch

  /** Distinct names in one listing, every visible one without slash and not ending in white space. */
  ghost predicate PlainListing(q: Query, es: seq<FileInfo>) {
    && (forall i, j :: 0 <= i < j < |es| ==> es[i].name != es[j].name)
    && (forall e :: e in es && q.Visible(e) ==> PlainName(e.name))
  }

  ghost predicate PlainServer(q: Query) {
    forall dir :: q.list(dir).Some? ==> PlainListing(q, q.list(dir).value)
  }

  /** What every path below `dir` starts with. */
  function Head(dir: string): (h: string) {
    if dir == "/" then "/" else dir + "/"
  }

  /** The text up to the first slash. */
  function FirstComponent(s: string): (c: string) {
    if s == "" || s[0] == '/' then "" else [s[0]] + FirstComponent(s[1..])
  }

  lemma {:induction false} FirstComponentOf(name: string, rest: string)
    requires '/' !in name
    requires rest == "" || rest[0] == '/'
    ensures FirstComponent(name + rest) == name
  {
    if name == "" {
      assert name + rest == rest;
    } else {
      FirstComponentOf(name[1..], rest);
      assert (name + rest)[1..] == name[1..] + rest;
    }
  }

  /** `path` is an entry below `dir`, in the branch of the entry called `name`. */
  ghost predicate InBranch(dir: string, name: string, path: string) {
    exists rest :: (rest == "" || rest[0] == '/') && path == Head(dir) + name + rest
  }

  lemma BranchesDisjoint(dir: string, a: string, b: string, path: string)
    requires '/' !in a && '/' !in b && InBranch(dir, a, path) && InBranch(dir, b, path)
    ensures a == b
  {
    var ra :| (ra == "" || ra[0] == '/') && path == Head(dir) + a + ra;
    var rb :| (rb == "" || rb[0] == '/') && path == Head(dir) + b + rb;
    FirstComponentOf(a, ra);
    FirstComponentOf(b, rb);
    assert path[|Head(dir)|..] == a + ra == b + rb;
  }

  /** A directory in the branch of `dir`'s entry `name` only has paths of that branch below it. */
  lemma BranchOfBranch(dir: string, name: string, sub: string, path: string)
    requires dir != "" && PlainName(name) && NormalForm(dir)
    requires InBranch(JoinPath(dir, name), sub, path)
    ensures InBranch(dir, name, path) && path != JoinPath(dir, name)
  {
    var child := JoinPath(dir, name);
    assert child == Head(dir) + name;
    var rest :| (rest == "" || rest[0] == '/') && path == Head(child) + sub + rest;
    var tail := "/" + sub + rest;
    assert path == Head(dir) + name + tail;
  }

  /** Where a hit was found: the base's head put back in front of its relative name. */
  function HitPath(q: Query, hit: string): (p: string) {
    Head(q.Base()) + hit
  }

  lemma {:induction false} TrimSlashesOf(s: string)
    requires s != "" && s[0] != '/'
    ensures TrimSlashes("/" + s) == s
  {
    assert ("/" + s)[1..] == s;
  }

  /** For a plain entry of a directory at or below the base, the reported name is the path
      without the base's head. */
  lemma RelativeIsSuffix(q: Query, dir: string, name: string)
    requires NormalForm(dir) && PlainName(name) && Head(q.Base()) <= Head(dir)
    ensures HitPath(q, Relative(q.Base(), JoinPath(dir, name), name)) == JoinPath(dir, name)
  {
    var base, child := q.Base(), JoinPath(dir, name);
    assert child == Head(dir) + name;
    assert Head(base) <= child;
    NormalizeMakesNormal(q.base);
    if base == "/" {
      var s := child[1..];
      assert s[0] != '/' by {
        JoinIsNormal(dir, name);
      }
      TrimSlashesOf(s);
      assert child == "/" + s;
    } else {
      assert child[|base| + 1..] != "" by {
        assert |Head(dir)| >= |Head(base)|;
      }
      assert child == base + "/" + child[|base| + 1..];
    }
  }

  // ---------------------------------------------------------------------------
  // One path per directory and per hit
  // ---------------------------------------------------------------------------

  lemma DistinctAppend<T>(xs: seq<T>, ys: seq<T>)
    requires Distinct(xs) && Distinct(ys)
    requires forall x :: x in xs && x in ys ==> false
    ensures Distinct(xs + ys)
  {
    var zs := xs + ys;
    forall i, j | 0 <= i < |zs| && i < j < |zs| ensures zs[i] != zs[j] {
      if i < |xs| <= j {
        assert zs[i] in xs && zs[j] in ys;
      }
    }
  }

  /** `path` lies in the branch of one of the visible entries `es` of `dir`. */
  ghost predicate From(q: Query, dir: string, es: seq<FileInfo>, path: string) {
    exists e :: e in es && q.Visible(e) && InBranch(dir, e.name, path)
  }

  /** A hit found strictly below one of the entries `es`, or a hit that is one of them. */
  ghost predicate Deep(q: Query, dir: string, es: seq<FileInfo>, hit: string) {
    exists e :: e in es && q.Visible(e)
                && InBranch(dir, e.name, HitPath(q, hit)) && HitPath(q, hit) != JoinPath(dir, e.name)
  }

  ghost predicate Shallow(q: Query, dir: string, es: seq<FileInfo>, hit: string) {
    exists e :: e in es && q.Visible(e) && HitPath(q, hit) == JoinPath(dir, e.name)
  }

  lemma FromOneOnly(q: Query, dir: string, es: seq<FileInfo>, path: string)
    requires es != [] && PlainListing(q, es) && q.Visible(es[0])
    requires InBranch(dir, es[0].name, path)
    ensures !From(q, dir, es[1..], path)
  {
    if From(q, dir, es[1..], path) {
      var e :| e in es[1..] && q.Visible(e) && InBranch(dir, e.name, path);
      assert e in es && es[0] in es;
      BranchesDisjoint(dir, es[0].name, e.name, path);
    }
  }

  lemma OwnBranch(dir: string, name: string)
    requires NormalForm(dir) && PlainName(name)
    ensures InBranch(dir, name, JoinPath(dir, name))
  {
    assert JoinPath(dir, name) == Head(dir) + name + "";
  }

  lemma {:induction false} ListingHitsDistinct(q: Query, dir: string, es: seq<FileInfo>)
    requires NormalForm(dir) && Head(q.Base()) <= Head(dir) && PlainListing(q, es)
    ensures Distinct(Hits(Effects(q, dir, es)))
    ensures forall h :: h in Hits(Effects(q, dir, es)) ==> Shallow(q, dir, es, h)
  {
    if es != [] {
      var e, rest := es[0], es[1..];
      var hs := Hits(Effects(q, dir, rest));
      ListingHitsDistinct(q, dir, rest);
      var mine := OptionSeq(EffectOf(q, dir, e).hit);
      assert Hits(Effects(q, dir, es)) == mine + hs;
      assert e in es;
      forall h | h in hs ensures Shallow(q, dir, es, h) && h !in mine {
        var f :| f in rest && q.Visible(f) && HitPath(q, h) == JoinPath(dir, f.name);
        assert f in es;
        if q.Visible(e) {
          JoinIsNormal(dir, e.name);
          RelativeIsSuffix(q, dir, e.name);
          OwnBranch(dir, e.name);
          OwnBranch(dir, f.name);
          if HitPath(q, h) == JoinPath(dir, e.name) {
            BranchesDisjoint(dir, e.name, f.name, JoinPath(dir, e.name));
          }
        }
      }
      if q.Visible(e) {
        JoinIsNormal(dir, e.name);
        RelativeIsSuffix(q, dir, e.name);
      }
      DistinctAppend(mine, hs);
    }
  }

  /** What the branches of the entries `es` of `dir` contribute: no path twice, each in its branch. */
  ghost predicate Spread(q: Query, dir: string, es: seq<FileInfo>, f: Found) {
    && Distinct(f.dirs) && Distinct(f.hits)
    && (forall d :: d in f.dirs ==> From(q, dir, es, d))
    && (forall h :: h in f.hits ==> Deep(q, dir, es, h))
  }

  ghost predicate Below(dir: string, path: string) {
    exists name :: '/' !in name && InBranch(dir, name, path)
  }

  /** What the tree at `dir` contributes: no path twice, the directory itself or below it. */
  ghost predicate Contained(q: Query, dir: string, f: Found) {
    && Distinct(f.dirs) && Distinct(f.hits)
    && (forall d :: d in f.dirs ==> d == dir || Below(dir, d))
    && (forall h :: h in f.hits ==> Below(dir, HitPath(q, h)))
  }

  /** Seen from the parent, everything contained in a child lies in the child's branch. */
  lemma ContainedInBranch(q: Query, dir: string, name: string, f: Found)
    requires NormalForm(dir) && PlainName(name) && Contained(q, JoinPath(dir, name), f)
    ensures forall d :: d in f.dirs ==> InBranch(dir, name, d)
    ensures forall h :: h in f.hits ==> InBranch(dir, name, HitPath(q, h)) && HitPath(q, h) != JoinPath(dir, name)
  {
    forall path | Below(JoinPath(dir, name), path) ensures InBranch(dir, name, path) && path != JoinPath(dir, name) {
      var sub :| '/' !in sub && InBranch(JoinPath(dir, name), sub, path);
      BranchOfBranch(dir, name, sub, path);
    }
    OwnBranch(dir, name);
  }

  lemma JoinSpreads(q: Query, dir: string, es: seq<FileInfo>, child: Found, others: Found)
    requires es != [] && PlainListing(q, es) && q.Visible(es[0]) && NormalForm(dir)
    requires Contained(q, JoinPath(dir, es[0].name), child) && Spread(q, dir, es[1..], others)
    ensures Spread(q, dir, es, Found(child.dirs + others.dirs, child.hits + others.hits))
  {
    var name := es[0].name;
    assert es[0] in es;
    ContainedInBranch(q, dir, name, child);
    forall path | InBranch(dir, name, path) ensures !From(q, dir, es[1..], path) {
      FromOneOnly(q, dir, es, path);
    }
    forall h | h in others.hits ensures From(q, dir, es[1..], HitPath(q, h)) {
      assert Deep(q, dir, es[1..], h);
    }
    DistinctAppend(child.dirs, others.dirs);
    DistinctAppend(child.hits, others.hits);
    SpreadWidens(q, dir, es, others);
  }

  lemma SpreadWidens(q: Query, dir: string, es: seq<FileInfo>, f: Found)
    requires es != [] && Spread(q, dir, es[1..], f)
    ensures Spread(q, dir, es, f)
  {
    forall d | d in f.dirs ensures From(q, dir, es, d) {
      var e :| e in es[1..] && q.Visible(e) && InBranch(dir, e.name, d);
      assert e in es;
    }
    forall h | h in f.hits ensures Deep(q, dir, es, h) {
      var e :| e in es[1..] && q.Visible(e)
               && InBranch(dir, e.name, HitPath(q, h)) && HitPath(q, h) != JoinPath(dir, e.name);
      assert e in es;
    }
  }

  lemma {:induction false} GroveSpreads(q: Query, dir: string, es: seq<FileInfo>, left: nat)
    requires left > 0 && PlainServer(q) && PlainListing(q, es)
    requires NormalForm(dir) && Head(q.Base()) <= Head(dir)
    ensures Spread(q, dir, es, Grove(ProblemOf(q), Subdirs(Effects(q, dir, es)), left))
    decreases left, |es|
  {
    var p := ProblemOf(q);
    if es != [] {
      var e, rest := es[0], es[1..];
      assert forall f :: f in rest ==> f in es;
      GroveSpreads(q, dir, rest, left);
      var others := Grove(p, Subdirs(Effects(q, dir, rest)), left);
      var mine := OptionSeq(EffectOf(q, dir, e).subdir);
      assert Subdirs(Effects(q, dir, es)) == mine + Subdirs(Effects(q, dir, rest));
      if mine == [] {
        assert mine + Subdirs(Effects(q, dir, rest)) == Subdirs(Effects(q, dir, rest));
        SpreadWidens(q, dir, es, others);
      } else {
        var child := JoinPath(dir, e.name);
        assert e in es;
        JoinIsNormal(dir, e.name);
        assert mine == [child];
        assert Head(dir) <= Head(child) by {
          assert child == Head(dir) + e.name;
        }
        TreeContained(q, child, left);
        assert ([child] + Subdirs(Effects(q, dir, rest)))[1..] == Subdirs(Effects(q, dir, rest));
        JoinSpreads(q, dir, es, Tree(p, child, left), others);
      }
    }
  }

  lemma {:induction false} TreeContained(q: Query, dir: string, left: nat)
    requires left > 0 && PlainServer(q)
    requires NormalForm(dir) && Head(q.Base()) <= Head(dir)
    ensures Contained(q, dir, Tree(ProblemOf(q), dir, left))
    decreases left, 0
  {
    var p := ProblemOf(q);
    if q.list(dir).Some? {
      var es := q.list(dir).value;
      var fs := Effects(q, dir, es);
      ListingHitsDistinct(q, dir, es);
      var below := Found([], []);
      if left > 1 {
        below := Grove(p, Subdirs(fs), left - 1);
        GroveSpreads(q, dir, es, left - 1);
      }
      ContainedFromParts(q, dir, es, Hits(fs), below);
    }
  }

  lemma ContainedFromParts(q: Query, dir: string, es: seq<FileInfo>, hits: seq<string>, below: Found)
    requires NormalForm(dir) && PlainListing(q, es)
    requires Distinct(hits) && forall h :: h in hits ==> Shallow(q, dir, es, h)
    requires Spread(q, dir, es, below)
    ensures Contained(q, dir, Found([dir] + below.dirs, hits + below.hits))
  {
    forall d | d in below.dirs ensures Below(dir, d) && d != dir {
      var e :| e in es && q.Visible(e) && InBranch(dir, e.name, d);
      assert |d| > |dir|;
    }
    forall h | h in hits ensures Below(dir, HitPath(q, h)) {
      var e :| e in es && q.Visible(e) && HitPath(q, h) == JoinPath(dir, e.name);
      OwnBranch(dir, e.name);
    }
    forall h | h in below.hits ensures Below(dir, HitPath(q, h)) && h !in hits {
      ShallowNotDeep(q, dir, es, h);
    }
    DistinctAppend([dir], below.dirs);
    DistinctAppend(hits, below.hits);
  }

  lemma ShallowNotDeep(q: Query, dir: string, es: seq<FileInfo>, h: string)
    requires NormalForm(dir) && PlainListing(q, es) && Deep(q, dir, es, h)
    ensures Below(dir, HitPath(q, h)) && !Shallow(q, dir, es, h)
  {
    var e :| e in es && q.Visible(e) && InBranch(dir, e.name, HitPath(q, h)) && HitPath(q, h) != JoinPath(dir, e.name);
    if Shallow(q, dir, es, h) {
      var f :| f in es && q.Visible(f) && HitPath(q, h) == JoinPath(dir, f.name);
      OwnBranch(dir, f.name);
      BranchesDisjoint(dir, e.name, f.name, HitPath(q, h));
    }
  }

  /** The tree a search walks has no directory and no hit twice, so `SearchRemote` lists every
      reachable directory once and reports every hit once. */
  lemma OnePathEach(q: Query)
    requires PlainServer(q)
    ensures Distinct(WholeTree(ProblemOf(q)).dirs) && Distinct(WholeTree(ProblemOf(q)).hits)
  {
    NormalizeMakesNormal(q.base);
    TreeContained(q, q.Base(), ProblemOf(q).Depth());
  }
}
