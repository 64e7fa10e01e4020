/** Strings as the sources handle them: Unicode white space, trimming, and the two
    result shapes the other modules share. */
module Text {

  datatype Option<+T> = None | Some(value: T)

  datatype Result<+T, +E> = Ok(value: T) | Err(error: E)

  function Max(a: int, b: int): (m: int)
    ensures a <= m && b <= m && (m == a || m == b)
  {
    if a > b then a else b
  }

  predicate Distinct<T(==)>(xs: seq<T>) {
    forall i, j :: 0 <= i < |xs| && i < j < |xs| ==> xs[i] != xs[j]
  }

  /** The Unicode `White_Space` property, which `str::trim` removes. */
  predicate IsSpace(c: char) {
    || '\U{0009}' <= c <= '\U{000D}'
    || c == ' '
    || c == '\U{0085}'
    || c == '\U{00A0}'
    || c == '\U{1680}'
    || '\U{2000}' <= c <= '\U{200A}'
    || c == '\U{2028}'
    || c == '\U{2029}'
    || c == '\U{202F}'
    || c == '\U{205F}'
    || c == '\U{3000}'
  }

  function TrimStart(s: string): (t: string)
    ensures t == "" || !IsSpace(t[0])
    ensures |t| <= |s|
  {
    if s != "" && IsSpace(s[0]) then TrimStart(s[1..]) else s
  }

  function TrimEnd(s: string): (t: string)
    ensures t == "" || !IsSpace(t[|t| - 1])
    ensures t <= s
  {
    if s != "" && IsSpace(s[|s| - 1]) then TrimEnd(s[..|s| - 1]) else s
  }

  function Trim(s: string): (t: string) {
    TrimEnd(TrimStart(s))
  }

  /** True of the strings `Trim` leaves alone. */
  predicate Trimmed(s: string) {
    s == "" || (!IsSpace(s[0]) && !IsSpace(s[|s| - 1]))
  }

  lemma TrimmedExactlyWhenFixed(s: string)
    ensures Trimmed(Trim(s)) && |Trim(s)| <= |s|
    ensures Trim(s) == s <==> Trimmed(s)
  {
    var t := TrimStart(s);
    if TrimEnd(t) != "" {
      assert TrimEnd(t)[0] == t[0];
    }
  }

  predicate AllSpace(s: string) {
    forall i :: 0 <= i < |s| ==> IsSpace(s[i])
  }

  lemma {:induction false} TrimStartIsBack(s: string) returns (front: string)
    ensures AllSpace(front) && s == front + TrimStart(s)
  {
    front := "";
    if s != "" && IsSpace(s[0]) {
      var rest := TrimStartIsBack(s[1..]);
      front := [s[0]] + rest;
      assert s == [s[0]] + s[1..];
      assert [s[0]] + (rest + TrimStart(s[1..])) == front + TrimStart(s[1..]);
    }
  }

  lemma {:induction false} TrimEndIsFront(s: string) returns (back: string)
    ensures AllSpace(back) && s == TrimEnd(s) + back
  {
    back := "";
    if s != "" && IsSpace(s[|s| - 1]) {
      var init, last := s[..|s| - 1], s[|s| - 1];
      var rest := TrimEndIsFront(init);
      back := rest + [last];
      assert s == init + [last];
      assert (TrimEnd(init) + rest) + [last] == TrimEnd(init) + back;
    }
  }

  /** Only white space at the ends is taken away, and all of it. */
  lemma TrimIsMiddle(s: string) returns (front: string, back: string)
    ensures AllSpace(front) && AllSpace(back) && s == front + Trim(s) + back && Trimmed(Trim(s))
  {
    front := TrimStartIsBack(s);
    back := TrimEndIsFront(TrimStart(s));
    TrimmedExactlyWhenFixed(s);
  }

  // ---------------------------------------------------------------------------
  // Joining and splitting
  // ---------------------------------------------------------------------------

  /** `sep.join(parts)`. */
  function Join(sep: string, parts: seq<string>): (s: string) {
    if parts == [] then ""
    else if |parts| == 1 then parts[0]
    else parts[0] + sep + Join(sep, parts[1..])
  }

  /** Puts a character in front of the first piece. */
  function Push(c: char, pieces: seq<string>): (ps: seq<string>)
    ensures ps != []
  {
    if pieces == [] then [[c]] else [[c] + pieces[0]] + pieces[1..]
  }

  lemma PushEmpty(c: char, rest: seq<string>)
    ensures Push(c, [""] + rest) == [[c]] + rest
  {
    assert [c] + "" == [c];
  }

  /** `s.split(sep)` for one character. */
  function Split(s: string, sep: char): (parts: seq<string>)
    ensures parts != []
  {
    if s == "" then [""]
    else if s[0] == sep then [""] + Split(s[1..], sep)
    else Push(s[0], Split(s[1..], sep))
  }

  predicate Lacks(s: string, c: char) {
    forall i :: 0 <= i < |s| ==> s[i] != c
  }

  lemma {:induction false} SplitPart(part: string, sep: char)
    requires Lacks(part, sep)
    ensures Split(part, sep) == [part]
  {
    if part != "" {
      SplitPart(part[1..], sep);
      assert [part[0]] + part[1..] == part;
    }
  }

  lemma {:induction false} SplitFront(part: string, sep: char, rest: string)
    requires Lacks(part, sep)
    ensures Split(part + [sep] + rest, sep) == [part] + Split(rest, sep)
  {
    var s := part + [sep] + rest;
    if part == "" {
      assert s[1..] == rest;
    } else {
      SplitFront(part[1..], sep, rest);
      assert s[1..] == part[1..] + [sep] + rest;
      assert [part[0]] + part[1..] == part;
    }
  }

  predicate AllLack(parts: seq<string>, c: char) {
    if parts == [] then true else Lacks(parts[0], c) && AllLack(parts[1..], c)
  }

  /** Splitting undoes joining when no part holds the separator. */
  lemma {:induction false} SplitUndoesJoin(parts: seq<string>, sep: char)
    requires parts != [] && AllLack(parts, sep)
    ensures Split(Join([sep], parts), sep) == parts
  {
    if |parts| == 1 {
      SplitPart(parts[0], sep);
    } else {
      SplitUndoesJoin(parts[1..], sep);
      SplitFront(parts[0], sep, Join([sep], parts[1..]));
    }
  }

  // ---------------------------------------------------------------------------
  // Text order
  // ---------------------------------------------------------------------------

  /** The order on strings of Rust and Python: code point by code point, a prefix first. */
  predicate LexLeq(a: string, b: string) {
    if a == "" then true
    else if b == "" then false
    else a[0] < b[0] || (a[0] == b[0] && LexLeq(a[1..], b[1..]))
  }

  lemma {:induction false} LexTotal(a: string, b: string)
    ensures LexLeq(a, b) || LexLeq(b, a)
    ensures LexLeq(a, b) && LexLeq(b, a) ==> a == b
  {
    if a != "" && b != "" {
      LexTotal(a[1..], b[1..]);
      assert a == [a[0]] + a[1..] && b == [b[0]] + b[1..];
    }
  }

  /** The order of a dictionary: a beginning comes before the whole, otherwise the first difference decides. */
  lemma {:induction false} LexExactlyWhen(a: string, b: string)
    ensures LexLeq(a, b) <==> a <= b || exists k :: DiffersFirst(a, b, k)
  {
    if a != "" && b != "" {
      LexExactlyWhen(a[1..], b[1..]);
      if a[0] < b[0] {
        assert DiffersFirst(a, b, 0);
      } else if a[0] == b[0] {
        assert a <= b <==> a[1..] <= b[1..] by {
          assert a == [a[0]] + a[1..] && b == [b[0]] + b[1..];
        }
        if k :| DiffersFirst(a[1..], b[1..], k) {
          assert a[..k + 1] == [a[0]] + a[1..][..k] && b[..k + 1] == [b[0]] + b[1..][..k];
          assert DiffersFirst(a, b, k + 1);
        }
        if k :| DiffersFirst(a, b, k) {
          assert a[1..][..k - 1] == a[..k][1..] && b[1..][..k - 1] == b[..k][1..];
          assert DiffersFirst(a[1..], b[1..], k - 1);
        }
      } else {
        FirstCharacters(a, b);
      }
    }
  }

  lemma FirstCharacters(a: string, b: string)
    requires a != "" && b != ""
    ensures (exists k :: DiffersFirst(a, b, k)) ==> a[0] <= b[0]
  {
    if k :| DiffersFirst(a, b, k) && k > 0 {
      assert a[..k][0] == b[..k][0];
    }
  }

  predicate DiffersFirst(a: string, b: string, k: int) {
    0 <= k < |a| && k < |b| && a[..k] == b[..k] && a[k] < b[k]
  }

  lemma {:induction false} LexTransitive(a: string, b: string, c: string)
    requires LexLeq(a, b) && LexLeq(b, c)
    ensures LexLeq(a, c)
  {
    if a != "" && b != "" && c != "" && a[0] == b[0] == c[0] {
      LexTransitive(a[1..], b[1..], c[1..]);
    }
  }

  // ---------------------------------------------------------------------------
  // Letters and digits
  // ---------------------------------------------------------------------------

  function AsciiLower(c: char): (d: char) {
    if 'A' <= c <= 'Z' then (c as int + 32) as char else c
  }

  predicate EqIgnoreCase(a: string, b: string) {
    |a| == |b| && forall i :: 0 <= i < |a| ==> AsciiLower(a[i]) == AsciiLower(b[i])
  }

  function Digit(d: nat): (c: char)
    requires d < 10
  {
    ('0' as int + d) as char
  }

  function Decimal(n: nat): (s: string) {
    if n < 10 then [Digit(n)] else Decimal(n / 10) + [Digit(n % 10)]
  }
}
