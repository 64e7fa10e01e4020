/** Remote path helpers of `remote.rs`: normalisation, joining, parents. */
module RemotePaths {
  import opened Text

  /** `contains("//")`. */
  predicate HasDouble(s: string) {
    |s| >= 2 && ((s[0] == '/' && s[1] == '/') || HasDouble(s[1..]))
  }

  /** One pass of `replace("//", "/")`: leftmost, non-overlapping. */
  function ReplaceDouble(s: string): (t: string)
    ensures |t| <= |s|
    ensures HasDouble(s) ==> |t| < |s|
  {
    if |s| < 2 then s
    else if s[0] == '/' && s[1] == '/' then "/" + ReplaceDouble(s[2..])
    else [s[0]] + ReplaceDouble(s[1..])
  }

  /** Collapses every run of slashes to one slash. */
  function Collapse(s: string): (t: string)
    ensures |t| <= |s|
    ensures s != "" ==> t != "" && t[0] == s[0]
  {
    if |s| < 2 then s
    else if s[0] == '/' && s[1] == '/' then Collapse(s[1..])
    else [s[0]] + Collapse(s[1..])
  }

  lemma {:induction false} ReplaceKeepsCollapse(s: string)
    ensures Collapse(ReplaceDouble(s)) == Collapse(s)
    ensures s != "" ==> ReplaceDouble(s) != "" && ReplaceDouble(s)[0] == s[0]
  {
    if |s| < 2 {
    } else if s[0] == '/' && s[1] == '/' {
      ReplaceKeepsCollapse(s[2..]);
      assert s[1..] == ['/'] + s[2..];
    } else {
      ReplaceKeepsCollapse(s[1..]);
    }
  }

  /** Collapsing removes every double slash and leaves text without one alone. */
  lemma {:induction false} CollapseMeaning(s: string)
    ensures !HasDouble(Collapse(s))
    ensures Collapse(s) == s <==> !HasDouble(s)
  {
    if |s| >= 2 {
      CollapseMeaning(s[1..]);
      if s[0] == '/' && s[1] == '/' {
        assert |Collapse(s)| < |s|;
      } else {
        var t := Collapse(s[1..]);
        assert Collapse(s)[1..] == t;
        assert s == [s[0]] + s[1..];
      }
    }
  }

  /** Trim, default to the root, force a leading slash. */
  function Rooted(raw: string): (p: string)
    ensures p != "" && p[0] == '/'
  {
    var p := Trim(raw);
    if p == "" then "/" else if p[0] != '/' then "/" + p else p
  }

  function DropOneSlash(p: string): (q: string) {
    if |p| > 1 && p[|p| - 1] == '/' then p[..|p| - 1] else p
  }

  /** What `normalize_remote_path` computes; the loop that computes it is `NormalizePath`. */
  function Normalize(raw: string): (p: string) {
    DropOneSlash(Collapse(Rooted(raw)))
  }

  /** The loop of the normaliser: it replaces double slashes until none is left. */
  method NormalizePath(raw: string) returns (path: string)
    ensures path == Normalize(raw)
  {
    path := Trim(raw);
    if path == "" {
      path := "/";
    }
    if path[0] != '/' {
      path := "/" + path;
    }
    while HasDouble(path)
      invariant Collapse(path) == Collapse(Rooted(raw))
      decreases |path|
    {
      ReplaceKeepsCollapse(path);
      path := ReplaceDouble(path);
    }
    CollapseMeaning(path);
    if |path| > 1 && path[|path| - 1] == '/' {
      path := path[..|path| - 1];
    }
  }

  /** The shape of a normalised path: rooted, no empty component, no trailing slash but the root's. */
  predicate NormalForm(p: string) {
    p != "" && p[0] == '/' && !HasDouble(p) && (p[|p| - 1] == '/' ==> p == "/")
  }

  lemma {:induction false} HasDoubleAppend(s: string, t: string)
    ensures HasDouble(s + t) <==>
            HasDouble(s) || HasDouble(t) || (s != "" && t != "" && s[|s| - 1] == '/' && t[0] == '/')
  {
    if s == "" {
      assert s + t == t;
    } else {
      HasDoubleAppend(s[1..], t);
      assert (s + t)[1..] == s[1..] + t;
      if |s| == 1 && t != "" {
        assert (s + t)[1] == t[0];
      }
    }
  }

  lemma {:induction false} NormalizeMakesNormal(raw: string)
    ensures NormalForm(Normalize(raw))
  {
    var c := Collapse(Rooted(raw));
    CollapseMeaning(Rooted(raw));
    if |c| > 1 && c[|c| - 1] == '/' {
      var q := c[..|c| - 1];
      assert c == q + "/";
      HasDoubleAppend(q, "/");
    }
  }

  /** A normal path is left alone exactly when it does not end in white space. */
  lemma NormalizeFixed(p: string)
    requires NormalForm(p)
    ensures Normalize(p) == p <==> !IsSpace(p[|p| - 1])
  {
    TrimmedExactlyWhenFixed(p);
    CollapseMeaning(p);
    if IsSpace(p[|p| - 1]) {
      assert |Trim(p)| < |p|;
      assert |Rooted(p)| <= |p|;
      assert TrimStart(p) == p;
      assert |Normalize(p)| <= |Rooted(p)|;
      assert Trim(p) != "" ==> Trim(p)[0] == p[0];
    }
  }

  /** The last character of a text, with all trailing slashes dropped. */
  function LastBeforeSlashes(s: string): (c: Option<char>) {
    if s == "" then None
    else if s[|s| - 1] != '/' then Some(s[|s| - 1])
    else LastBeforeSlashes(s[..|s| - 1])
  }

  /** The check a caller can make on the raw text: is there white space just before the trailing slashes? */
  predicate SpaceBeforeTrailingSlashes(raw: string) {
    var c := LastBeforeSlashes(Trim(raw));
    c.Some? && IsSpace(c.value)
  }

  lemma {:induction false} LastBeforeSlashesCons(c: char, s: string)
    ensures LastBeforeSlashes([c] + s) ==
            if LastBeforeSlashes(s).Some? then LastBeforeSlashes(s) else if c == '/' then None else Some(c)
  {
    if s == "" {
      assert [c] + s == [c];
      assert LastBeforeSlashes([c][..0]) == None;
    } else {
      assert ([c] + s)[..|s|] == [c] + s[..|s| - 1];
      if s[|s| - 1] == '/' {
        LastBeforeSlashesCons(c, s[..|s| - 1]);
      }
    }
  }

  lemma {:induction false} CollapseKeepsLast(s: string)
    ensures LastBeforeSlashes(Collapse(s)) == LastBeforeSlashes(s)
  {
    if |s| >= 2 {
      CollapseKeepsLast(s[1..]);
      LastBeforeSlashesCons(s[0], s[1..]);
      LastBeforeSlashesCons(s[0], Collapse(s[1..]));
      assert s == [s[0]] + s[1..];
      LastBeforeSlashesCons(s[1], s[2..]);
      assert s[1..] == [s[1]] + s[2..];
    }
  }

  /** Normalisation is idempotent exactly when dropping the trailing slash exposes no white space. */
  lemma IdempotentExactlyWhen(raw: string)
    ensures Normalize(Normalize(raw)) == Normalize(raw) <==> !SpaceBeforeTrailingSlashes(raw)
  {
    var n := Normalize(raw);
    NormalizeMakesNormal(raw);
    NormalizeFixed(n);
    CollapseKeepsLast(Rooted(raw));
    assert LastBeforeSlashes(n) == LastBeforeSlashes(Collapse(Rooted(raw)));
    assert LastBeforeSlashes(n) == if n == "/" then None else Some(n[|n| - 1]) by {
      assert n == "/" ==> n[..0] == "";
    }
    LastBeforeSlashesCons('/', Trim(raw));
    assert Trim(raw) == "" ==> "/" == ['/'] + Trim(raw);
  }

  /** The exception: "/a /" normalises to "/a ", which normalises further. */
  lemma NotIdempotentExample()
    ensures Normalize(Normalize("/a /")) != Normalize("/a /")
  {
    var a := "/a /";
    TrimmedExactlyWhenFixed(a);
    assert a[..3][2] == ' ';
    assert LastBeforeSlashes(a) == Some(' ');
    IdempotentExactlyWhen(a);
  }

  /** `join_remote_path`. */
  function JoinPath(base: string, name: string): (p: string) {
    if base == "/" then "/" + name
    else if base != "" && base[|base| - 1] == '/' then base + name
    else base + "/" + name
  }

  /** Exactly one slash is put between the two, unless the base ends in one. */
  lemma JoinPutsOneSlash(base: string, name: string)
    ensures JoinPath(base, name) == (if base != "" && base[|base| - 1] == '/' then base else base + "/") + name
  {
    assert base + "/" + name == base + ("/" + name);
  }

  /** Entry names for which paths are well behaved: not empty, no slash, no white space at the end. */
  predicate PlainName(name: string) {
    name != "" && '/' !in name && !IsSpace(name[|name| - 1])
  }

  lemma {:induction false} NoSlashNoDouble(s: string)
    requires '/' !in s
    ensures !HasDouble(s)
  {
    if |s| >= 2 {
      NoSlashNoDouble(s[1..]);
    }
  }

  /** Joining a plain name to a normal directory is already normal, so the second
      normalisation in the search changes nothing. */
  lemma JoinIsNormal(dir: string, name: string)
    requires NormalForm(dir) && PlainName(name)
    ensures NormalForm(JoinPath(dir, name)) && Normalize(JoinPath(dir, name)) == JoinPath(dir, name)
  {
    var p := JoinPath(dir, name);
    var head := if dir == "/" then "/" else dir + "/";
    assert p == head + name;
    NoSlashNoDouble(name);
    HasDoubleAppend(dir, "/");
    HasDoubleAppend(head, name);
    assert p[|p| - 1] == name[|name| - 1];
    NormalizeFixed(p);
  }

  function LastSlash(s: string): (i: nat)
    requires '/' in s
    ensures i < |s|
  {
    if s[|s| - 1] == '/' then |s| - 1
    else
      assert s == s[..|s| - 1] + [s[|s| - 1]];
      LastSlash(s[..|s| - 1])
  }

  lemma {:induction false} LastSlashUnique(stem: string, name: string)
    requires '/' !in name
    ensures LastSlash(stem + "/" + name) == |stem|
  {
    var s := stem + "/" + name;
    assert s[|stem|] == '/';
    if name != "" {
      var last := |name| - 1;
      assert s[|s| - 1] == name[last];
      assert s[..|s| - 1] == stem + "/" + name[..last];
      LastSlashUnique(stem, name[..last]);
    }
  }

  /** `parent_remote_path`. */
  function Parent(path: string): (p: string) {
    var cur := Normalize(path);
    if cur == "/" || '/' !in cur then "/"
    else if LastSlash(cur) == 0 then "/"
    else cur[..LastSlash(cur)]
  }

  /** Going up undoes going down, for every normal directory. */
  lemma ParentUndoesJoin(dir: string, name: string)
    requires NormalForm(dir) && PlainName(name)
    ensures Parent(JoinPath(dir, name)) == dir
  {
    JoinIsNormal(dir, name);
    var p := JoinPath(dir, name);
    var stem := if dir == "/" then "" else dir;
    assert p == stem + "/" + name;
    assert p[|stem|] == '/';
    LastSlashUnique(stem, name);
    assert p[..|stem|] == stem;
  }
}
