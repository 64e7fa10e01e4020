/** Coalescing one terminal row into styled runs (`build_runs` of `console.rs`). */
module ConsoleRuns {

  type Rgb = (nat, nat, nat)

  const DEFAULT_FG: Rgb := (0xe6, 0xe6, 0xe9)
  const DEFAULT_BG: Rgb := (0x1a, 0x1a, 0x1d)

  datatype Ink = Default | Indexed(index: nat) | Exact(rgb: Rgb)

  /** A screen cell as the emulator reports it. */
  datatype Cell = Cell(
    contents: string, wide: bool, continuation: bool, fg: Ink, bg: Ink,
    bold: bool, italic: bool, dim: bool, inverse: bool)

  datatype RunAttrs = RunAttrs(fg: Rgb, bg: Rgb, bold: bool, italic: bool, dim: bool, inverse: bool)

  datatype Run = Run(col: nat, cells: nat, text: string, attrs: RunAttrs)

  /** The 256-colour table, as a function of the index. */
  type Palette = nat -> Rgb

  function FloorReadable(rgb: Rgb): (r: Rgb) {
    if rgb == (0, 0, 0) then (0x3a, 0x3a, 0x3a) else rgb
  }

  function MapColor(p: Palette, ink: Ink, default: Rgb): (r: Rgb) {
    match ink
    case Default => default
    case Indexed(index) => FloorReadable(p(index))
    case Exact(rgb) => FloorReadable(rgb)
  }

  function AttrsOf(p: Palette, c: Cell): (a: RunAttrs) {
    RunAttrs(MapColor(p, c.fg, DEFAULT_FG), MapColor(p, c.bg, DEFAULT_BG), c.bold, c.italic, c.dim, c.inverse)
  }

  function Shown(c: Cell): (s: string) {
    if c.contents != "" then c.contents else " "
  }

  predicate OnlySpaces(s: string) {
    forall i :: 0 <= i < |s| ==> s[i] == ' '
  }

  function EffectiveBg(a: RunAttrs): (r: Rgb) {
    if a.inverse then a.fg else a.bg
  }

  /** A cell that draws nothing: spaces on the default background. */
  predicate Blank(p: Palette, c: Cell) {
    OnlySpaces(Shown(c)) && EffectiveBg(AttrsOf(p, c)) == DEFAULT_BG
  }

  function Width(c: Cell): (n: nat)
    ensures 1 <= n <= 2
  {
    if c.wide then 2 else 1
  }

  // ---------------------------------------------------------------------------
  // The loop
  // ---------------------------------------------------------------------------

  predicate Merges(runs: seq<Run>, col: nat, a: RunAttrs) {
    runs != [] && var last := runs[|runs| - 1]; last.attrs == a && last.col + last.cells == col
  }

  function Extend(p: Palette, runs: seq<Run>, col: nat, c: Cell): (rs: seq<Run>) {
    if Merges(runs, col, AttrsOf(p, c)) then
      var last := runs[|runs| - 1];
      runs[..|runs| - 1] + [last.(text := last.text + Shown(c), cells := last.cells + Width(c))]
    else runs + [Run(col, Width(c), Shown(c), AttrsOf(p, c))]
  }

  function RunsFrom(p: Palette, row: seq<Cell>, cols: nat, col: nat, runs: seq<Run>): (rs: seq<Run>)
    decreases cols - col
  {
    if col >= cols || col >= |row| then runs
    else if row[col].continuation then RunsFrom(p, row, cols, col + 1, runs)
    else if Blank(p, row[col]) then RunsFrom(p, row, cols, col + Width(row[col]), runs)
    else RunsFrom(p, row, cols, col + Width(row[col]), Extend(p, runs, col, row[col]))
  }

  function RunsOf(p: Palette, row: seq<Cell>, cols: nat): (rs: seq<Run>) {
    RunsFrom(p, row, cols, 0, [])
  }

  method AllSpaces(s: string) returns (blank: bool)
    ensures blank == OnlySpaces(s)
  {
    blank := forall i | 0 <= i < |s| :: s[i] == ' ';
  }

  method BuildRuns(p: Palette, row: seq<Cell>, cols: nat) returns (runs: seq<Run>)
    ensures runs == RunsOf(p, row, cols)
  {
    runs := [];
    var col := 0;
    while col < cols
      invariant RunsFrom(p, row, cols, col, runs) == RunsOf(p, row, cols)
      decreases cols - col
    {
      if col >= |row| {
        break;
      }
      var cell := row[col];
      if cell.continuation {
        col := col + 1;
        continue;
      }
      var cells := if cell.wide then 2 else 1;
      var attrs := AttrsOf(p, cell);
      var effectiveBg := if attrs.inverse then attrs.fg else attrs.bg;
      var text := if cell.contents != "" then cell.contents else " ";
      var blank := AllSpaces(text);
      if blank && effectiveBg == DEFAULT_BG {
        col := col + cells;
        continue;
      }
      if Merges(runs, col, attrs) {
        var last := runs[|runs| - 1];
        runs := runs[..|runs| - 1] + [last.(text := last.text + text, cells := last.cells + cells)];
      } else {
        runs := runs + [Run(col, cells, text, attrs)];
      }
      col := col + cells;
    }
  }

  // ---------------------------------------------------------------------------
  // What the runs must show
  // ---------------------------------------------------------------------------

  /** Wide cells are followed by their continuation, and nothing else is a continuation. */
  predicate WellFormedRow(row: seq<Cell>) {
    forall i :: 0 <= i < |row| ==> WellFormedAt(row, i)
  }

  predicate WellFormedAt(row: seq<Cell>, i: nat)
    requires i < |row|
  {
    && (row[i].wide ==> i + 1 < |row| && row[i + 1].continuation && !row[i].continuation)
    && (row[i].continuation ==> i > 0 && row[i - 1].wide)
  }

  /** A column where no glyph starts, or one whose glyph draws nothing. */
  predicate DrawsNothing(p: Palette, row: seq<Cell>, i: nat)
    requires i < |row|
  {
    row[i].continuation || Blank(p, row[i])
  }

  predicate AllBlank(p: Palette, row: seq<Cell>, a: nat, b: nat)
    requires b <= |row|
  {
    forall i :: a <= i < b ==> DrawsNothing(p, row, i)
  }

  function GlyphOf(c: Cell): (s: string) {
    if c.continuation then "" else if c.contents == "" then " " else c.contents
  }

  /** The glyphs of the columns from `a` to `b`, left to right; a cell without contents counts as a space. */
  function TextOf(row: seq<Cell>, a: nat, b: nat): (s: string)
    requires a <= b <= |row|
  {
    if a == b then "" else TextOf(row, a, b - 1) + GlyphOf(row[b - 1])
  }

  /** Between two glyphs. */
  predicate Boundary(row: seq<Cell>, i: nat) {
    i <= |row| && (i < |row| ==> !row[i].continuation)
  }

  predicate Styled(p: Palette, row: seq<Cell>, a: nat, b: nat, attrs: RunAttrs)
    requires b <= |row|
  {
    forall i :: a <= i < b ==> StyledAt(p, row, i, attrs)
  }

  predicate StyledAt(p: Palette, row: seq<Cell>, i: nat, attrs: RunAttrs)
    requires i < |row|
  {
    row[i].continuation || (AttrsOf(p, row[i]) == attrs && !Blank(p, row[i]))
  }

  function End(r: Run): (n: nat) {
    r.col + r.cells
  }

  /** A run covers whole visible glyphs of one style and carries exactly their text. */
  predicate Covers(p: Palette, row: seq<Cell>, r: Run) {
    && r.cells > 0 && End(r) <= |row|
    && Boundary(row, r.col) && Boundary(row, End(r))
    && Styled(p, row, r.col, End(r), r.attrs)
    && r.text == TextOf(row, r.col, End(r))
  }

  /** A run with nothing visible between it and column `upto`. */
  predicate Placed(p: Palette, row: seq<Cell>, r: Run, upto: nat)
    requires upto <= |row|
  {
    Covers(p, row, r) && End(r) <= upto && AllBlank(p, row, End(r), upto)
  }

  /** The picture up to column `upto`: runs in order, disjoint and inside the row, each covering what it
      shows, nothing visible left out between them, and no two touching runs alike. */
  predicate Picture(p: Palette, row: seq<Cell>, runs: seq<Run>, upto: nat)
    requires upto <= |row|
  {
    if runs == [] then AllBlank(p, row, 0, upto)
    else
      var before, r := runs[..|runs| - 1], runs[|runs| - 1];
      && Placed(p, row, r, upto)
      && Picture(p, row, before, r.col)
      && (before != [] && End(before[|before| - 1]) == r.col ==> before[|before| - 1].attrs != r.attrs)
  }

  lemma NextGlyph(row: seq<Cell>, col: nat)
    requires WellFormedRow(row) && col < |row| && Boundary(row, col)
    ensures col + Width(row[col]) <= |row| && Boundary(row, col + Width(row[col]))
    ensures row[col].wide ==> row[col + 1].continuation
  {
    assert WellFormedAt(row, col);
    var next := col + Width(row[col]);
    if next < |row| {
      assert WellFormedAt(row, next);
    }
    if row[col].wide {
      assert WellFormedAt(row, col + 1);
    }
  }

  lemma GlyphText(row: seq<Cell>, a: nat, col: nat)
    requires WellFormedRow(row) && a <= col < |row| && Boundary(row, col)
    requires col + Width(row[col]) <= |row| && (row[col].wide ==> row[col + 1].continuation)
    ensures TextOf(row, a, col + Width(row[col])) == TextOf(row, a, col) + Shown(row[col])
  {
    if row[col].wide {
      assert TextOf(row, a, col + 2) == TextOf(row, a, col + 1) + "";
    }
  }

  lemma OneGlyphText(row: seq<Cell>, col: nat)
    requires WellFormedRow(row) && col < |row| && Boundary(row, col)
    requires col + Width(row[col]) <= |row| && (row[col].wide ==> row[col + 1].continuation)
    ensures TextOf(row, col, col + Width(row[col])) == Shown(row[col])
  {
    GlyphText(row, col, col);
    assert TextOf(row, col, col) + Shown(row[col]) == Shown(row[col]);
  }

  /** The last run of a picture, grown. */
  lemma LastChanged(p: Palette, row: seq<Cell>, runs: seq<Run>, grown: Run, col: nat, next: nat)
    requires runs != [] && col <= next <= |row| && Picture(p, row, runs, col) && Placed(p, row, grown, next)
    requires grown.col == runs[|runs| - 1].col && grown.attrs == runs[|runs| - 1].attrs
    ensures Picture(p, row, runs[..|runs| - 1] + [grown], next)
  {
    var more := runs[..|runs| - 1] + [grown];
    assert more[..|more| - 1] == runs[..|runs| - 1];
  }

  lemma LastCovers(p: Palette, row: seq<Cell>, runs: seq<Run>, upto: nat)
    requires runs != [] && upto <= |row| && Picture(p, row, runs, upto)
    ensures Covers(p, row, runs[|runs| - 1])
  {
  }

  lemma LastAdded(p: Palette, row: seq<Cell>, runs: seq<Run>, r: Run, col: nat, next: nat)
    requires col <= next <= |row| && Picture(p, row, runs, col) && Placed(p, row, r, next) && r.col == col
    requires !Merges(runs, col, r.attrs)
    ensures Picture(p, row, runs + [r], next)
  {
    assert (runs + [r])[..|runs|] == runs;
  }

  lemma ExtendKeepsPicture(p: Palette, row: seq<Cell>, runs: seq<Run>, col: nat)
    requires WellFormedRow(row) && col < |row| && Boundary(row, col) && !Blank(p, row[col])
    requires Picture(p, row, runs, col)
    ensures col + Width(row[col]) <= |row|
    ensures Picture(p, row, Extend(p, runs, col, row[col]), col + Width(row[col]))
  {
    var c := row[col];
    var a, next := AttrsOf(p, c), col + Width(c);
    NextGlyph(row, col);
    if Merges(runs, col, a) {
      var last := runs[|runs| - 1];
      LastCovers(p, row, runs, col);
      GrownCovers(p, row, last, col);
      LastChanged(p, row, runs, last.(text := last.text + Shown(c), cells := last.cells + Width(c)), col, next);
    } else {
      NewCovers(p, row, col);
      LastAdded(p, row, runs, Run(col, Width(c), Shown(c), a), col, next);
    }
  }

  lemma GrownCovers(p: Palette, row: seq<Cell>, last: Run, col: nat)
    requires WellFormedRow(row) && col < |row| && Boundary(row, col) && !Blank(p, row[col])
    requires Covers(p, row, last) && End(last) == col && last.attrs == AttrsOf(p, row[col])
    ensures col + Width(row[col]) <= |row|
    ensures Placed(p, row, last.(text := last.text + Shown(row[col]), cells := last.cells + Width(row[col])),
                   col + Width(row[col]))
  {
    NextGlyph(row, col);
    GlyphText(row, last.col, col);
    StyleGrows(p, row, last.col, col, last.attrs);
  }

  lemma NewCovers(p: Palette, row: seq<Cell>, col: nat)
    requires WellFormedRow(row) && col < |row| && Boundary(row, col) && !Blank(p, row[col])
    ensures col + Width(row[col]) <= |row|
    ensures Placed(p, row, Run(col, Width(row[col]), Shown(row[col]), AttrsOf(p, row[col])), col + Width(row[col]))
  {
    NextGlyph(row, col);
    OneGlyphText(row, col);
    StyleGrows(p, row, col, col, AttrsOf(p, row[col]));
  }

  lemma StyleGrows(p: Palette, row: seq<Cell>, a: nat, col: nat, attrs: RunAttrs)
    requires a <= col < |row| && col + Width(row[col]) <= |row|
    requires row[col].wide ==> row[col + 1].continuation
    requires Styled(p, row, a, col, attrs) && StyledAt(p, row, col, attrs)
    ensures Styled(p, row, a, col + Width(row[col]), attrs)
  {
  }

  lemma PicturePastBlank(p: Palette, row: seq<Cell>, runs: seq<Run>, col: nat)
    requires col < |row| && col + Width(row[col]) <= |row| && (row[col].wide ==> row[col + 1].continuation)
    requires Picture(p, row, runs, col) && Blank(p, row[col])
    ensures Picture(p, row, runs, col + Width(row[col]))
  {
    assert AllBlank(p, row, col, col + Width(row[col]));
  }

  /** One glyph further: the picture stays right and the loop comes to the same runs. */
  lemma PastGlyph(p: Palette, row: seq<Cell>, col: nat, runs: seq<Run>) returns (more: seq<Run>)
    requires WellFormedRow(row) && col < |row| && Boundary(row, col) && Picture(p, row, runs, col)
    ensures col + Width(row[col]) <= |row| && Picture(p, row, more, col + Width(row[col]))
    ensures RunsFrom(p, row, |row|, col, runs) == RunsFrom(p, row, |row|, col + Width(row[col]), more)
  {
    NextGlyph(row, col);
    if Blank(p, row[col]) {
      PicturePastBlank(p, row, runs, col);
      more := runs;
    } else {
      ExtendKeepsPicture(p, row, runs, col);
      more := Extend(p, runs, col, row[col]);
    }
  }

  lemma {:induction false} RunsKeepPicture(p: Palette, row: seq<Cell>, col: nat, runs: seq<Run>)
    requires WellFormedRow(row) && Boundary(row, col) && Picture(p, row, runs, col)
    ensures Picture(p, row, RunsFrom(p, row, |row|, col, runs), |row|)
    decreases |row| - col
  {
    if col < |row| {
      NextGlyph(row, col);
      var more := PastGlyph(p, row, col, runs);
      RunsKeepPicture(p, row, col + Width(row[col]), more);
    }
  }

  // ---------------------------------------------------------------------------
  // There is only one such picture
  // ---------------------------------------------------------------------------

  /** A run shows something just before its end. */
  lemma VisibleEnd(p: Palette, row: seq<Cell>, r: Run) returns (g: nat)
    requires WellFormedRow(row) && Covers(p, row, r)
    ensures r.col <= g < End(r) && g + Width(row[g]) == End(r)
    ensures AttrsOf(p, row[g]) == r.attrs && !DrawsNothing(p, row, g)
  {
    g := LastGlyph(row, r.col, End(r));
    assert StyledAt(p, row, g, r.attrs);
  }

  lemma EndsNoLater(p: Palette, row: seq<Cell>, r: Run, q: Run, upto: nat)
    requires WellFormedRow(row) && upto <= |row| && Placed(p, row, r, upto) && Placed(p, row, q, upto)
    ensures End(r) <= End(q)
  {
    if End(q) < End(r) {
      var g := VisibleEnd(p, row, r);
      if g < End(q) {
        BoundaryPastGlyph(row, g, End(q), End(r));
      }
    }
  }

  /** The glyph that ends at a boundary. */
  lemma LastGlyph(row: seq<Cell>, a: nat, b: nat) returns (g: nat)
    requires WellFormedRow(row) && a < b <= |row| && Boundary(row, a) && Boundary(row, b)
    ensures a <= g < b && !row[g].continuation && g + Width(row[g]) == b
  {
    assert WellFormedAt(row, b - 1);
    g := if row[b - 1].continuation then b - 2 else b - 1;
    assert WellFormedAt(row, g);
  }

  lemma BoundaryPastGlyph(row: seq<Cell>, g: nat, e: nat, b: nat)
    requires WellFormedRow(row) && g < e <= b <= |row| && Boundary(row, e)
    requires g + Width(row[g]) == b
    ensures e == b
  {
    assert WellFormedAt(row, g);
  }

  lemma TouchesOrGap(p: Palette, row: seq<Cell>, b: Run, g: nat, col: nat)
    requires WellFormedRow(row) && g < col <= |row| && g + Width(row[g]) == col
    requires Placed(p, row, b, col) && !DrawsNothing(p, row, g)
    ensures End(b) == col && b.attrs == AttrsOf(p, row[g])
  {
    assert g < End(b);
    BoundaryPastGlyph(row, g, End(b), col);
    var h := VisibleEnd(p, row, b);
    assert WellFormedAt(row, g) && WellFormedAt(row, h);
  }

  /** A glyph that touches the start of a run from the left is styled differently. */
  lemma DifferentBefore(p: Palette, row: seq<Cell>, qs: seq<Run>, upto: nat, g: nat)
    requires WellFormedRow(row) && upto <= |row| && qs != [] && Picture(p, row, qs, upto)
    requires g < |row| && g + Width(row[g]) == qs[|qs| - 1].col && !DrawsNothing(p, row, g)
    ensures AttrsOf(p, row[g]) != qs[|qs| - 1].attrs
  {
    var before := qs[..|qs| - 1];
    if before != [] {
      TouchesOrGap(p, row, before[|before| - 1], g, qs[|qs| - 1].col);
    }
  }

  /** Two runs that end together in pictures of the same columns start together. */
  lemma StartsNoLater(p: Palette, row: seq<Cell>, r: Run, qs: seq<Run>, upto: nat)
    requires WellFormedRow(row) && upto <= |row| && Covers(p, row, r)
    requires qs != [] && Picture(p, row, qs, upto) && End(r) == End(qs[|qs| - 1])
    ensures qs[|qs| - 1].col <= r.col
  {
    var q := qs[|qs| - 1];
    if r.col < q.col {
      // The glyph just before `q` is visible and styled like `r`, hence like `q`.
      var g := LastGlyph(row, r.col, q.col);
      assert StyledAt(p, row, g, r.attrs);
      var h := VisibleEnd(p, row, q);
      assert StyledAt(p, row, h, r.attrs);
      DifferentBefore(p, row, qs, upto, g);
    }
  }

  lemma SameExtentSameRun(p: Palette, row: seq<Cell>, r: Run, q: Run)
    requires WellFormedRow(row) && Covers(p, row, r) && Covers(p, row, q) && r.col == q.col && End(r) == End(q)
    ensures r == q
  {
    var g := VisibleEnd(p, row, r);
    assert StyledAt(p, row, g, q.attrs);
  }

  lemma EmptyPicture(p: Palette, row: seq<Cell>, qs: seq<Run>, upto: nat)
    requires WellFormedRow(row) && upto <= |row| && AllBlank(p, row, 0, upto) && Picture(p, row, qs, upto)
    ensures qs == []
  {
    if qs != [] {
      var g := VisibleEnd(p, row, qs[|qs| - 1]);
    }
  }

  lemma SameLastRun(p: Palette, row: seq<Cell>, rs: seq<Run>, qs: seq<Run>, upto: nat)
    requires WellFormedRow(row) && upto <= |row| && rs != [] && qs != []
    requires Picture(p, row, rs, upto) && Picture(p, row, qs, upto)
    ensures rs[|rs| - 1] == qs[|qs| - 1]
  {
    var r, q := rs[|rs| - 1], qs[|qs| - 1];
    EndsNoLater(p, row, r, q, upto);
    EndsNoLater(p, row, q, r, upto);
    StartsNoLater(p, row, r, qs, upto);
    StartsNoLater(p, row, q, rs, upto);
    SameExtentSameRun(p, row, r, q);
  }

  lemma {:induction false} PictureIsUnique(p: Palette, row: seq<Cell>, rs: seq<Run>, qs: seq<Run>, upto: nat)
    requires WellFormedRow(row) && upto <= |row|
    requires Picture(p, row, rs, upto) && Picture(p, row, qs, upto)
    ensures rs == qs
    decreases |rs|
  {
    if rs == [] {
      EmptyPicture(p, row, qs, upto);
    } else if qs == [] {
      EmptyPicture(p, row, rs, upto);
    } else {
      SameLastRun(p, row, rs, qs, upto);
      PictureIsUnique(p, row, rs[..|rs| - 1], qs[..|qs| - 1], rs[|rs| - 1].col);
      assert rs == rs[..|rs| - 1] + [rs[|rs| - 1]] && qs == qs[..|qs| - 1] + [qs[|qs| - 1]];
    }
  }

  /** On a well-formed row the runs show the picture, and no other list of runs does. */
  lemma RunsArePicture(p: Palette, row: seq<Cell>, runs: seq<Run>)
    requires WellFormedRow(row)
    ensures Picture(p, row, runs, |row|) <==> runs == RunsOf(p, row, |row|)
  {
    if |row| > 0 {
      assert WellFormedAt(row, 0);
    }
    RunsKeepPicture(p, row, 0, []);
    if Picture(p, row, runs, |row|) {
      PictureIsUnique(p, row, runs, RunsOf(p, row, |row|), |row|);
    }
  }

  // ---------------------------------------------------------------------------
  // What a run tells of a glyph
  // ---------------------------------------------------------------------------

  /** The colour an ink is seen in; black would not be readable and is shown as a dark grey. */
  predicate SeenAs(p: Palette, ink: Ink, default: Rgb, rgb: Rgb) {
    match ink
    case Default => rgb == default
    case Indexed(index) => if p(index) == (0, 0, 0) then rgb == (0x3a, 0x3a, 0x3a) else rgb == p(index)
    case Exact(exact) => if exact == (0, 0, 0) then rgb == (0x3a, 0x3a, 0x3a) else rgb == exact
  }

  /** The style is the glyph's own. */
  predicate Looks(p: Palette, c: Cell, a: RunAttrs) {
    && SeenAs(p, c.fg, (0xe6, 0xe6, 0xe9), a.fg) && SeenAs(p, c.bg, (0x1a, 0x1a, 0x1d), a.bg)
    && a.bold == c.bold && a.italic == c.italic && a.dim == c.dim && a.inverse == c.inverse
  }

  /** There is something to see: a character other than the space, or a background other than the default one. */
  predicate Visible(p: Palette, c: Cell) {
    || (exists i :: 0 <= i < |c.contents| && c.contents[i] != ' ')
    || (if c.inverse then !SeenAs(p, c.fg, (0xe6, 0xe6, 0xe9), (0x1a, 0x1a, 0x1d))
        else !SeenAs(p, c.bg, (0x1a, 0x1a, 0x1d), (0x1a, 0x1a, 0x1d)))
  }

  lemma GlyphLooks(p: Palette, c: Cell)
    ensures forall a :: Looks(p, c, a) <==> a == AttrsOf(p, c)
    ensures Visible(p, c) <==> !Blank(p, c)
  {
    var seen := AttrsOf(p, c);
    assert Looks(p, c, seen);
    forall a | Looks(p, c, a) ensures a == seen {
      assert a.fg == seen.fg && a.bg == seen.bg;
    }
    assert OnlySpaces(Shown(c)) <==> forall i :: 0 <= i < |c.contents| ==> c.contents[i] == ' ';
  }

  /** The run that covers a glyph tells its style, and the glyph can be seen. */
  lemma {:induction false} RunTellsGlyph(p: Palette, row: seq<Cell>, runs: seq<Run>, upto: nat, k: nat, i: nat)
    requires upto <= |row| && Picture(p, row, runs, upto)
    requires k < |runs| && runs[k].col <= i < End(runs[k]) && i < |row| && !row[i].continuation
    ensures Looks(p, row[i], runs[k].attrs) && Visible(p, row[i])
  {
    if k < |runs| - 1 {
      RunTellsGlyph(p, row, runs[..|runs| - 1], runs[|runs| - 1].col, k, i);
    } else {
      GlyphLooks(p, row[i]);
      assert StyledAt(p, row, i, runs[k].attrs);
    }
  }

  /** A glyph that can be seen is covered by a run. */
  lemma {:induction false} SeenGlyphHasRun(p: Palette, row: seq<Cell>, runs: seq<Run>, upto: nat, i: nat)
    returns (k: nat)
    requires upto <= |row| && Picture(p, row, runs, upto)
    requires i < upto && !row[i].continuation && Visible(p, row[i])
    ensures k < |runs| && runs[k].col <= i < End(runs[k])
  {
    GlyphLooks(p, row[i]);
    assert !DrawsNothing(p, row, i);
    k := |runs| - 1;
    if i < runs[k].col {
      k := SeenGlyphHasRun(p, row, runs[..k], runs[k].col, i);
    }
  }
}
