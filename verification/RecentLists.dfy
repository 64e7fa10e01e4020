/** Most-recently-used lists (`prepend_recent_value`, `remember_last_remote_path` and
    `lookup_last_remote_path` of `history.rs`, `prepend_recent` of `state.rs`). */
module RecentLists {
  import opened Text

  const MAX_RECENT_ENTRIES: nat := 20
  const MAX_LAST_REMOTE_PATHS: nat := 50

  // ---------------------------------------------------------------------------
  // Lists of keyed items
  // ---------------------------------------------------------------------------

  /** `retain` of the items whose key differs. */
  function Without<T, K(==)>(key: T -> K, list: seq<T>, k: K): (r: seq<T>) {
    if list == [] then []
    else (if key(list[0]) == k then [] else [list[0]]) + Without(key, list[1..], k)
  }

  function Take<T>(n: nat, list: seq<T>): (r: seq<T>) {
    if n < |list| then list[..n] else list
  }

  /** Item to the front, older items of its key dropped, tail cut. */
  function Touch<T, K(==)>(key: T -> K, cap: nat, list: seq<T>, x: T): (r: seq<T>) {
    Take(cap, [x] + Without(key, list, key(x)))
  }

  /** The capped list after a run of uses. */
  function Capped<T, K(==)>(key: T -> K, cap: nat, uses: seq<T>): (r: seq<T>) {
    if uses == [] then [] else Touch(key, cap, Capped(key, cap, uses[..|uses| - 1]), uses[|uses| - 1])
  }

  /** The list nobody truncates. */
  function Everything<T, K(==)>(key: T -> K, uses: seq<T>): (r: seq<T>) {
    if uses == [] then []
    else [uses[|uses| - 1]] + Without(key, Everything(key, uses[..|uses| - 1]), key(uses[|uses| - 1]))
  }

  predicate KeyAbsent<T, K(==)>(key: T -> K, list: seq<T>, k: K) {
    if list == [] then true else key(list[0]) != k && KeyAbsent(key, list[1..], k)
  }

  predicate KeysDistinct<T, K(==)>(key: T -> K, list: seq<T>) {
    if list == [] then true else KeyAbsent(key, list[1..], key(list[0])) && KeysDistinct(key, list[1..])
  }

  lemma {:induction false} WithoutAbsent<T, K>(key: T -> K, list: seq<T>, k: K)
    requires KeyAbsent(key, list, k)
    ensures Without(key, list, k) == list
  {
    if list != [] {
      WithoutAbsent(key, list[1..], k);
      assert [list[0]] + list[1..] == list;
    }
  }

  lemma {:induction false} WithoutDrops<T, K>(key: T -> K, list: seq<T>, k: K, j: K)
    ensures KeyAbsent(key, Without(key, list, k), k)
    ensures KeyAbsent(key, list, j) ==> KeyAbsent(key, Without(key, list, k), j)
  {
    if list != [] {
      WithoutDrops(key, list[1..], k, j);
      var rest := Without(key, list[1..], k);
      assert [] + rest == rest && ([list[0]] + rest)[1..] == rest;
    }
  }

  lemma {:induction false} WithoutDistinct<T, K>(key: T -> K, list: seq<T>, k: K)
    requires KeysDistinct(key, list)
    ensures KeysDistinct(key, Without(key, list, k))
  {
    if list != [] {
      WithoutDistinct(key, list[1..], k);
      WithoutDrops(key, list[1..], k, key(list[0]));
      var rest := Without(key, list[1..], k);
      assert [] + rest == rest && ([list[0]] + rest)[1..] == rest;
    }
  }

  lemma {:induction false} EverythingDistinct<T, K>(key: T -> K, uses: seq<T>)
    ensures KeysDistinct(key, Everything(key, uses))
  {
    if uses != [] {
      var init, x := uses[..|uses| - 1], uses[|uses| - 1];
      EverythingDistinct(key, init);
      WithoutDistinct(key, Everything(key, init), key(x));
      WithoutDrops(key, Everything(key, init), key(x), key(x));
      assert Everything(key, uses)[1..] == Without(key, Everything(key, init), key(x));
    }
  }

  /** Dropping a key from the first `n + 1` items leaves the first `n` of the rest. */
  lemma {:induction false} WithoutOfTake<T, K>(key: T -> K, n: nat, list: seq<T>, k: K)
    requires KeysDistinct(key, list)
    ensures Take(n, Without(key, Take(n + 1, list), k)) == Take(n, Without(key, list, k))
  {
    if |list| > n + 1 {
      var head, tail := list[0], list[1..];
      assert list[..n + 1] == [head] + tail[..n];
      assert list[..n + 1][1..] == tail[..n];
      if key(head) == k {
        WithoutAbsent(key, tail, k);
        PrefixAbsent(key, tail, n, k);
        WithoutAbsent(key, tail[..n], k);
      } else {
        if n > 0 {
          WithoutOfTake(key, n - 1, tail, k);
          var a, b := Without(key, tail[..n], k), Without(key, tail, k);
          TakeCons(n, head, a);
          TakeCons(n, head, b);
        }
      }
    }
  }

  lemma TakeCons<T>(n: nat, x: T, list: seq<T>)
    requires n > 0
    ensures Take(n, [x] + list) == [x] + Take(n - 1, list)
  {
  }

  lemma {:induction false} PrefixAbsent<T, K>(key: T -> K, list: seq<T>, n: nat, k: K)
    requires KeyAbsent(key, list, k) && n <= |list|
    ensures KeyAbsent(key, list[..n], k)
  {
    if n > 0 {
      PrefixAbsent(key, list[1..], n - 1, k);
      assert list[..n][1..] == list[1..][..n - 1];
    }
  }

  /** Truncating after every use never changes what the first `cap` items are. */
  lemma {:induction false} CappedIsPrefix<T, K>(key: T -> K, cap: nat, uses: seq<T>)
    requires cap > 0
    ensures Capped(key, cap, uses) == Take(cap, Everything(key, uses))
  {
    if uses != [] {
      var init, x := uses[..|uses| - 1], uses[|uses| - 1];
      CappedIsPrefix(key, cap, init);
      EverythingDistinct(key, init);
      var all := Everything(key, init);
      WithoutOfTake(key, cap - 1, all, key(x));
      TakeCons(cap, x, Without(key, Take(cap, all), key(x)));
      TakeCons(cap, x, Without(key, all, key(x)));
    }
  }

  // ---------------------------------------------------------------------------
  // What the untruncated list is
  // ---------------------------------------------------------------------------

  /** The position of the last use of a key. */
  function LastUse<T, K(==)>(key: T -> K, uses: seq<T>, k: K): (i: Option<nat>)
    ensures i.Some? ==> i.value < |uses| && key(uses[i.value]) == k
  {
    if uses == [] then None
    else if key(uses[|uses| - 1]) == k then Some(|uses| - 1)
    else LastUse(key, uses[..|uses| - 1], k)
  }

  /** Items are the last uses of their keys, the latest first, all of them after `floor` or later. */
  predicate ByLastUse<T(==), K(==)>(key: T -> K, uses: seq<T>, list: seq<T>, ceiling: nat) {
    if list == [] then true
    else
      var i := LastUse(key, uses, key(list[0]));
      i.Some? && i.value < ceiling && uses[i.value] == list[0] && ByLastUse(key, uses, list[1..], i.value)
  }

  lemma {:induction false} OrderKept<T, K>(key: T -> K, init: seq<T>, x: T, list: seq<T>, ceiling: nat)
    requires ByLastUse(key, init, list, ceiling)
    ensures ByLastUse(key, init + [x], Without(key, list, key(x)), ceiling)
  {
    if list != [] {
      var uses := init + [x];
      assert uses[..|uses| - 1] == init;
      var i := LastUse(key, init, key(list[0])).value;
      OrderKept(key, init, x, list[1..], i);
      var rest := Without(key, list[1..], key(x));
      if key(list[0]) == key(x) {
        assert [] + rest == rest;
      } else {
        assert ([list[0]] + rest)[1..] == rest;
      }
    }
  }

  lemma {:induction false} EverythingOrdered<T, K>(key: T -> K, uses: seq<T>)
    ensures ByLastUse(key, uses, Everything(key, uses), |uses|)
  {
    if uses != [] {
      var init, x := uses[..|uses| - 1], uses[|uses| - 1];
      EverythingOrdered(key, init);
      OrderKept(key, init, x, Everything(key, init), |init|);
      assert uses == init + [x];
      assert Everything(key, uses)[1..] == Without(key, Everything(key, init), key(x));
    }
  }

  /** The first item of a key. */
  function Find<T, K(==)>(key: T -> K, list: seq<T>, k: K): (r: Option<T>) {
    if list == [] then None else if key(list[0]) == k then Some(list[0]) else Find(key, list[1..], k)
  }

  lemma {:induction false} FindBeside<T, K>(key: T -> K, list: seq<T>, k: K, j: K)
    requires k != j
    ensures Find(key, Without(key, list, k), j) == Find(key, list, j)
  {
    if list != [] {
      FindBeside(key, list[1..], k, j);
      var rest := Without(key, list[1..], k);
      assert [] + rest == rest && ([list[0]] + rest)[1..] == rest;
    }
  }

  /** Looking up a key finds its last use. */
  lemma {:induction false} FindsLastUse<T, K>(key: T -> K, uses: seq<T>, k: K)
    ensures var i := LastUse(key, uses, k);
            Find(key, Everything(key, uses), k) == if i.None? then None else Some(uses[i.value])
  {
    if uses != [] {
      var init, x := uses[..|uses| - 1], uses[|uses| - 1];
      FindsLastUse(key, init, k);
      assert Everything(key, uses)[1..] == Without(key, Everything(key, init), key(x));
      if key(x) != k {
        FindBeside(key, Everything(key, init), key(x), k);
      }
    }
  }

  // ---------------------------------------------------------------------------
  // What the cap forgets
  // ---------------------------------------------------------------------------

  lemma {:induction false} WithoutAppend<T, K>(key: T -> K, a: seq<T>, b: seq<T>, k: K)
    ensures Without(key, a + b, k) == Without(key, a, k) + Without(key, b, k)
  {
    if a == [] {
      assert a + b == b;
    } else {
      var first := if key(a[0]) == k then [] else [a[0]];
      calc {
        Without(key, a + b, k);
      == { assert (a + b)[1..] == a[1..] + b && (a + b)[0] == a[0]; }
        first + Without(key, a[1..] + b, k);
      == { WithoutAppend(key, a[1..], b, k); }
        first + (Without(key, a[1..], k) + Without(key, b, k));
      ==
        first + Without(key, a[1..], k) + Without(key, b, k);
      }
    }
  }

  /** Before the last use of a key come exactly the keys used since. */
  lemma {:induction false} UsedSince<T, K>(key: T -> K, uses: seq<T>, k: K) returns (rest: seq<T>)
    requires LastUse(key, uses, k).Some?
    ensures var i := LastUse(key, uses, k).value;
            Everything(key, uses) == Everything(key, uses[i + 1..]) + ([uses[i]] + rest)
            && KeyAbsent(key, Everything(key, uses[i + 1..]), k)
  {
    var init, x := uses[..|uses| - 1], uses[|uses| - 1];
    var i := LastUse(key, uses, k).value;
    if key(x) == k {
      rest := Without(key, Everything(key, init), key(x));
      assert uses[i + 1..] == [];
      assert [] + ([x] + rest) == [x] + rest;
    } else {
      var tail := UsedSince(key, init, k);
      var since := Everything(key, init[i + 1..]);
      rest := Without(key, tail, key(x));
      WithoutAround(key, since, init[i], tail, key(x));
      WithoutDrops(key, since, key(x), k);
      assert init + [x] == uses && init[i + 1..] + [x] == uses[i + 1..];
      PlusInside(x, Without(key, since, key(x)), [init[i]] + rest);
    }
  }

  lemma PlusInside<T>(x: T, a: seq<T>, b: seq<T>)
    ensures [x] + (a + b) == ([x] + a) + b
  {
  }

  lemma WithoutAround<T, K>(key: T -> K, a: seq<T>, x: T, b: seq<T>, k: K)
    requires key(x) != k
    ensures Without(key, a + ([x] + b), k) == Without(key, a, k) + ([x] + Without(key, b, k))
  {
    WithoutAppend(key, a, [x] + b, k);
    WithoutAppend(key, [x], b, k);
  }

  lemma {:induction false} FindBehind<T, K>(key: T -> K, n: nat, front: seq<T>, x: T, rest: seq<T>)
    requires KeyAbsent(key, front, key(x))
    ensures Find(key, Take(n, front + ([x] + rest)), key(x)).Some? <==> |front| < n
  {
    var list := front + ([x] + rest);
    if front == [] {
      assert list == [x] + rest;
    } else if n > 0 {
      FindBehind(key, n - 1, front[1..], x, rest);
      assert list == [front[0]] + (front[1..] + ([x] + rest));
      TakeCons(n, front[0], front[1..] + ([x] + rest));
      var cut := Take(n - 1, front[1..] + ([x] + rest));
      assert ([front[0]] + cut)[1..] == cut;
    }
  }

  lemma {:induction false} AbsentNotFound<T, K>(key: T -> K, list: seq<T>, n: nat, k: K)
    requires Find(key, list, k).None?
    ensures Find(key, Take(n, list), k).None?
  {
    if Find(key, Take(n, list), k).Some? {
      FoundInPrefix(key, list, n, k);
    }
  }

  /** A key is still listed exactly when fewer than `n` other keys were used since its last use. */
  lemma KeptExactlyWhen<T, K>(key: T -> K, n: nat, uses: seq<T>, k: K)
    ensures var i := LastUse(key, uses, k);
            Find(key, Take(n, Everything(key, uses)), k).Some?
            <==> i.Some? && |Everything(key, uses[i.value + 1..])| < n
  {
    var i := LastUse(key, uses, k);
    FindsLastUse(key, uses, k);
    if i.Some? {
      var rest := UsedSince(key, uses, k);
      FindBehind(key, n, Everything(key, uses[i.value + 1..]), uses[i.value], rest);
    } else {
      AbsentNotFound(key, Everything(key, uses), n, k);
    }
  }

  // ---------------------------------------------------------------------------
  // The two lists of the program
  // ---------------------------------------------------------------------------

  function Itself(s: string): (t: string) {
    s
  }

  /** The uses that count: trimmed and not blank. */
  function Values(adds: seq<string>): (uses: seq<string>) {
    if adds == [] then []
    else Values(adds[..|adds| - 1]) + if Trim(adds[|adds| - 1]) == "" then [] else [Trim(adds[|adds| - 1])]
  }

  /** A recent-values list. */
  class RecentList {
    var items: seq<string>
    ghost var adds: seq<string>

    /** The list is the most recent values among everything ever added. */
    ghost predicate Valid()
      reads this
    {
      items == Take(MAX_RECENT_ENTRIES, Everything(Itself, Values(adds)))
    }

    constructor ()
      ensures Valid() && adds == []
    {
      items := [];
      adds := [];
    }

    method Prepend(value: string)
      requires Valid()
      modifies this
      ensures Valid() && adds == old(adds) + [value]
      ensures items == if Trim(value) == "" then old(items)
                       else Touch(Itself, 20, old(items), Trim(value))
    {
      adds := adds + [value];
      assert adds[..|adds| - 1] == old(adds);
      var trimmed := Trim(value);
      if trimmed == "" {
        assert Values(old(adds)) + [] == Values(old(adds));
        return;
      }
      items := Without(Itself, items, trimmed);
      items := [trimmed] + items;
      if |items| > MAX_RECENT_ENTRIES {
        items := items[..MAX_RECENT_ENTRIES];
      }
      TouchKeepsPrefix(Itself, MAX_RECENT_ENTRIES, Values(old(adds)), trimmed);
    }
  }

  lemma TouchKeepsPrefix<T, K>(key: T -> K, cap: nat, uses: seq<T>, x: T)
    requires cap > 0
    ensures Touch(key, cap, Take(cap, Everything(key, uses)), x) == Take(cap, Everything(key, uses + [x]))
  {
    assert (uses + [x])[..|uses|] == uses;
    CappedIsPrefix(key, cap, uses);
    CappedIsPrefix(key, cap, uses + [x]);
  }

  datatype PathEntry = PathEntry(server: string, path: string)

  function ServerOf(e: PathEntry): (s: string) {
    e.server
  }

  /** The remembered remote directories. */
  class LastPaths {
    var entries: seq<PathEntry>
    ghost var sets: seq<PathEntry>

    ghost predicate Valid()
      reads this
    {
      entries == Take(MAX_LAST_REMOTE_PATHS, Everything(ServerOf, sets))
    }

    constructor ()
      ensures Valid() && sets == []
    {
      entries := [];
      sets := [];
    }

    method Remember(server: string, path: string)
      requires Valid()
      modifies this
      ensures Valid() && sets == old(sets) + [PathEntry(server, path)]
    {
      var entry := PathEntry(server, path);
      TouchKeepsPrefix(ServerOf, MAX_LAST_REMOTE_PATHS, sets, entry);
      sets := sets + [entry];
      entries := Without(ServerOf, entries, server);
      entries := [entry] + entries;
      if |entries| > MAX_LAST_REMOTE_PATHS {
        entries := entries[..MAX_LAST_REMOTE_PATHS];
      }
    }

    /** The path last set for the server, unless fifty other servers were set since. */
    method Lookup(server: string) returns (path: Option<string>)
      requires Valid()
      ensures var i := LastUse(ServerOf, sets, server);
              path == if i.Some? && |Everything(ServerOf, sets[i.value + 1..])| < 50
                      then Some(sets[i.value].path) else None
    {
      KeptExactlyWhen(ServerOf, MAX_LAST_REMOTE_PATHS, sets, server);
      var i := 0;
      while i < |entries|
        invariant 0 <= i <= |entries|
        invariant Find(ServerOf, entries, server) == Find(ServerOf, entries[i..], server)
      {
        ghost var rest := entries[i..];
        assert rest[0] == entries[i] && rest[1..] == entries[i + 1..];
        if entries[i].server == server {
          FoundInPrefix(ServerOf, Everything(ServerOf, sets), MAX_LAST_REMOTE_PATHS, server);
          FindsLastUse(ServerOf, sets, server);
          return Some(entries[i].path);
        }
        i := i + 1;
      }
      return None;
    }
  }

  lemma {:induction false} FoundInPrefix<T, K>(key: T -> K, list: seq<T>, n: nat, k: K)
    requires Find(key, Take(n, list), k).Some?
    ensures Find(key, list, k) == Find(key, Take(n, list), k)
  {
    if n < |list| && n > 0 && key(list[0]) != k {
      assert list[..n][1..] == list[1..][..n - 1];
      assert Take(n - 1, list[1..]) == list[1..][..n - 1];
      FoundInPrefix(key, list[1..], n - 1, k);
    }
  }
}
