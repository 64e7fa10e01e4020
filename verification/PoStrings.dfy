/** PO string literals (`as_po_string` and `unquote` of `po_fill_slint_contexts.py`): escaping,
    wrapping at 72 characters, and reading the quoted lines back. */
module PoStrings {
  import opened SlintContexts

  // ---------------------------------------------------------------------------
  // Escaping
  // ---------------------------------------------------------------------------

  function EscapeChar(c: char): (s: string) {
    if c == '\\' then "\\\\" else if c == '"' then "\\\"" else if c == '\n' then "\\n" else [c]
  }

  function Escape(s: string): (t: string) {
    if s == "" then "" else EscapeChar(s[0]) + Escape(s[1..])
  }

  /** `str.replace` of one character. */
  function Replace(s: string, c: char, put: string): (t: string) {
    if s == "" then "" else (if s[0] == c then put else [s[0]]) + Replace(s[1..], c, put)
  }

  lemma {:induction false} ReplaceAppend(s: string, t: string, c: char, put: string)
    ensures Replace(s + t, c, put) == Replace(s, c, put) + Replace(t, c, put)
  {
    if s == "" {
      assert s + t == t;
    } else {
      var first := if s[0] == c then put else [s[0]];
      calc {
        Replace(s + t, c, put);
      == { assert (s + t)[1..] == s[1..] + t && (s + t)[0] == s[0]; }
        first + Replace(s[1..] + t, c, put);
      == { ReplaceAppend(s[1..], t, c, put); }
        first + (Replace(s[1..], c, put) + Replace(t, c, put));
      ==
        first + Replace(s[1..], c, put) + Replace(t, c, put);
      }
    }
  }

  lemma ReplaceTwo(a: char, b: char, c: char, put: string)
    ensures Replace([a, b], c, put) == (if a == c then put else [a]) + (if b == c then put else [b])
  {
    assert [a, b] == [a] + [b];
    ReplaceAppend([a], [b], c, put);
  }

  /** Backslashes, then quotes, then newlines: the order in which the three replacements run makes
      them one character-wise escape. */
  lemma {:induction false} ThreeReplacementsEscape(s: string)
    ensures Replace(Replace(Replace(s, '\\', "\\\\"), '"', "\\\""), '\n', "\\n") == Escape(s)
  {
    if s != "" {
      var head, tail := [s[0]], s[1..];
      ThreeReplacementsEscape(tail);
      assert s == head + tail;
      var h1 := Replace(head, '\\', "\\\\");
      var h2 := Replace(h1, '"', "\\\"");
      ReplaceAppend(head, tail, '\\', "\\\\");
      ReplaceAppend(h1, Replace(tail, '\\', "\\\\"), '"', "\\\"");
      ReplaceAppend(h2, Replace(Replace(tail, '\\', "\\\\"), '"', "\\\""), '\n', "\\n");
      HeadEscapes(s[0]);
    }
  }

  lemma HeadEscapes(c: char)
    ensures Replace(Replace(Replace([c], '\\', "\\\\"), '"', "\\\""), '\n', "\\n") == EscapeChar(c)
  {
    ReplaceTwo('\\', '\\', '"', "\\\"");
    ReplaceTwo('\\', '\\', '\n', "\\n");
    ReplaceTwo('\\', '"', '\n', "\\n");
  }

  // ---------------------------------------------------------------------------
  // Whole units
  // ---------------------------------------------------------------------------

  /** Text in which every backslash starts a pair. */
  predicate Paired(s: string) {
    if s == "" then true
    else if s[0] == '\\' then |s| >= 2 && Paired(s[2..])
    else Paired(s[1..])
  }

  /** Escaped text made of whole units: plain characters and backslash pairs, no bare quote, no newline. */
  predicate Whole(s: string) {
    if s == "" then true
    else if s[0] == '\\' then |s| >= 2 && s[1] != '\n' && Whole(s[2..])
    else s[0] != '"' && s[0] != '\n' && Whole(s[1..])
  }

  /** Whole units followed by the first half of a pair. */
  predicate Ragged(s: string) {
    if s == "" then false
    else if s[0] == '\\' then |s| == 1 || (s[1] != '\n' && Ragged(s[2..]))
    else s[0] != '"' && s[0] != '\n' && Ragged(s[1..])
  }

  /** The number of characters an escaped text stands for. */
  function Units(s: string): (n: nat) {
    |Unescape(s)|
  }

  /** The length of the first unit. */
  function First(s: string): (n: nat)
    requires s != ""
  {
    if s[0] == '\\' && |s| > 1 then 2 else 1
  }

  lemma {:induction false} WholeIsPaired(s: string)
    requires Whole(s)
    ensures Paired(s)
  {
    if s != "" {
      WholeIsPaired(s[First(s)..]);
    }
  }

  lemma {:induction false} UnescapeAppend(a: string, b: string)
    requires Paired(a)
    ensures Unescape(a + b) == Unescape(a) + Unescape(b)
  {
    if a == "" {
      assert a + b == b;
    } else {
      var n := First(a);
      UnescapeAppend(a[n..], b);
      assert (a + b)[n..] == a[n..] + b;
      assert Unescape(a) == Unescape(a[..n]) + Unescape(a[n..]) by { FirstUnit(a); }
      assert Unescape(a + b) == Unescape(a[..n]) + Unescape(a[n..] + b) by {
        FirstUnit(a + b);
        assert (a + b)[..n] == a[..n];
      }
    }
  }

  lemma FirstUnit(s: string)
    requires s != ""
    ensures Unescape(s) == Unescape(s[..First(s)]) + Unescape(s[First(s)..])
    ensures |Unescape(s[..First(s)])| == 1
  {
    var head := s[..First(s)];
    assert head[First(s)..] == "";
  }

  lemma {:induction false} WholeAppend(a: string, b: string)
    requires Whole(a)
    ensures Whole(a + b) <==> Whole(b)
  {
    if a == "" {
      assert a + b == b;
    } else {
      var n := First(a);
      WholeAppend(a[n..], b);
      assert (a + b)[n..] == a[n..] + b;
    }
  }

  /** Escaping yields whole units and is undone by unescaping. */
  lemma {:induction false} EscapeRoundTrip(s: string)
    ensures Whole(Escape(s)) && Unescape(Escape(s)) == s
  {
    if s != "" {
      EscapeRoundTrip(s[1..]);
      var head := EscapeChar(s[0]);
      WholeIsPaired(head);
      UnescapeAppend(head, Escape(s[1..]));
      WholeAppend(head, Escape(s[1..]));
    }
  }

  /** A cut through whole text leaves whole units before it, or splits a pair. */
  lemma {:induction false} CutIsWholeOrRagged(s: string, k: nat)
    requires Whole(s) && k <= |s|
    ensures Whole(s[..k]) || Ragged(s[..k])
    ensures k > 0 && s[k - 1] != '\\' ==> Whole(s[..k])
  {
    if k > 0 && !(s[0] == '\\' && k == 1) {
      var n := First(s);
      CutIsWholeOrRagged(s[n..], k - n);
      assert s[n..][..k - n] == s[..k][n..];
      assert k > n ==> s[n..][k - n - 1] == s[k - 1];
    }
  }

  lemma CutAfterWhole(s: string, k: nat)
    requires Whole(s) && k <= |s| && Whole(s[..k])
    ensures Whole(s[k..]) && Unescape(s) == Unescape(s[..k]) + Unescape(s[k..])
  {
    assert s[..k] + s[k..] == s;
    WholeIsPaired(s[..k]);
    UnescapeAppend(s[..k], s[k..]);
    WholeAppend(s[..k], s[k..]);
  }

  /** Where a pair is split, its first half counts as one unit and its second half for nothing. */
  lemma {:induction false} CutInsidePair(s: string, k: nat)
    requires Whole(s) && k <= |s| && Ragged(s[..k])
    ensures k < |s| && Whole(s[k + 1..]) && Units(s) == Units(s[..k]) + Units(s[k + 1..])
    ensures s[k] != '\n'
  {
    if k == 1 && s[0] == '\\' {
      assert s[..1][1..] == "" && s[1 + 1..] == s[2..];
    } else {
      var n := First(s);
      assert s[n..][..k - n] == s[..k][n..];
      CutInsidePair(s[n..], k - n);
      assert s[n..][k - n + 1..] == s[k + 1..];
      FirstUnit(s);
      FirstUnit(s[..k]);
      assert First(s[..k]) == n && s[..k][..n] == s[..n];
    }
  }

  lemma {:induction false} RaggedNotWhole(s: string)
    requires Ragged(s)
    ensures !Whole(s)
  {
    if |s| > 1 {
      RaggedNotWhole(s[First(s)..]);
    }
  }

  lemma {:induction false} UnitsAtLeastHalf(s: string)
    ensures |s| <= 2 * Units(s)
  {
    if s != "" {
      FirstUnit(s);
      UnitsAtLeastHalf(s[First(s)..]);
    }
  }
}
