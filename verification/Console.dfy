/** The terminal view (`ConsoleState` of `console.rs`): an emulator screen with scrollback, a cache of
    published rows behind a dirty flag, and the transport that is told the grid size. */
module Console {
  import opened Text
  import opened Utf8
  import opened ConsoleRuns

  const SCROLLBACK_LINES: nat := 1000
  const MAX_PENDING: nat := 8192
  const USIZE_MAX: nat := 0xFFFF_FFFF_FFFF_FFFF

  const BLANK_CELL: Cell := Cell("", false, false, Default, Default, false, false, false, false)

  /** The emulator's screen: the live grid, the lines that left it at the top (oldest first), and how
      far back the view is. */
  datatype Screen = Screen(
    cols: nat, rows: nat, live: seq<seq<Cell>>, history: seq<seq<Cell>>, offset: nat,
    cursorRow: nat, cursorCol: nat, hideCursor: bool, bracketedPaste: bool)

  /** What the callbacks collect while the emulator runs. */
  datatype Events = Events(
    replies: seq<Bytes>, resizeRequest: Option<(nat, nat)>, title: Option<string>, bell: bool)

  /** The emulator: what output does to a screen, and what a new size does to it. */
  datatype Emulator = Emulator(
    process: (Screen, Bytes) -> (Screen, Events), reflow: (Screen, nat, nat) -> Screen, palette: Palette)

  predicate Fits(s: Screen) {
    && |s.live| == s.rows
    && s.offset <= |s.history| <= SCROLLBACK_LINES
  }

  /** Output keeps the size; a new size is taken; the offset never passes the history. */
  ghost predicate Lawful(e: Emulator) {
    && (forall s, bytes :: Fits(s) ==> OutputFits(e, s, bytes))
    && (forall s, cols, rows :: Fits(s) ==> ReflowFits(e, s, cols, rows))
  }

  ghost predicate OutputFits(e: Emulator, s: Screen, bytes: Bytes) {
    var t := e.process(s, bytes).0;
    Fits(t) && t.cols == s.cols && t.rows == s.rows
  }

  ghost predicate ReflowFits(e: Emulator, s: Screen, cols: nat, rows: nat) {
    var t := e.reflow(s, cols, rows);
    Fits(t) && t.cols == cols && t.rows == rows
  }

  /** A live row fills the grid's width, and its wide cells have their continuation. */
  predicate TidyRow(row: seq<Cell>, cols: nat) {
    |row| == cols && WellFormedRow(row)
  }

  predicate Tidy(s: Screen) {
    forall i :: 0 <= i < |s.live| ==> TidyRow(s.live[i], s.cols)
  }

  /** An emulator whose live rows stay tidy. */
  ghost predicate KeepsTidy(e: Emulator) {
    && (forall s, bytes :: Fits(s) && Tidy(s) ==> Tidy(e.process(s, bytes).0))
    && (forall s, cols, rows :: Fits(s) && Tidy(s) ==> Tidy(e.reflow(s, cols, rows)))
  }

  /** Nothing but blanks, no history, the cursor at the top left. */
  ghost predicate IsEmpty(s: Screen) {
    && (forall i, j :: 0 <= i < |s.live| && 0 <= j < |s.live[i]| ==> s.live[i][j] == BLANK_CELL)
    && (forall i :: 0 <= i < |s.live| ==> |s.live[i]| == s.cols)
    && s.history == [] && s.offset == 0 && s.cursorRow == 0 && s.cursorCol == 0
    && !s.hideCursor && !s.bracketedPaste
  }

  function BlankScreen(cols: nat, rows: nat): (s: Screen) {
    Screen(cols, rows, seq(rows, _ => seq(cols, _ => BLANK_CELL)), [], 0, 0, 0, false, false)
  }

  function Min(a: nat, b: nat): (m: nat)
    ensures m <= a && m <= b && (m == a || m == b)
  {
    if a < b then a else b
  }

  /** `set_scrollback`, which clamps to the history. */
  function SetScrollback(s: Screen, offset: nat): (t: Screen) {
    s.(offset := Min(offset, |s.history|))
  }

  /** Row `i` as seen: the last `offset` lines of the history, then the live grid. */
  function ViewRow(s: Screen, i: nat): (row: seq<Cell>)
    requires Fits(s) && i < s.rows
  {
    if i < s.offset then s.history[|s.history| - s.offset + i] else s.live[i - s.offset]
  }

  /** The picture rendered from scratch: the last `offset` lines of the history, then the live grid. */
  ghost predicate Shows(p: Palette, s: Screen, published: seq<seq<Run>>)
    requires Fits(s)
  {
    && |published| == s.rows
    && (forall i :: 0 <= i < s.rows && i < s.offset ==>
          published[i] == RunsOf(p, s.history[|s.history| - s.offset + i], s.cols))
    && (forall i :: s.offset <= i < s.rows ==> published[i] == RunsOf(p, s.live[i - s.offset], s.cols))
  }

  /** Bytes typed while no transport is attached: kept up to a bound, an overflow drops the older ones. */
  function Buffer(pending: Bytes, bytes: Bytes): (p: Bytes) {
    if bytes == [] then pending
    else if |pending| + |bytes| > MAX_PENDING then bytes
    else pending + bytes
  }

  function BufferAll(pending: Bytes, sends: seq<Bytes>): (p: Bytes) {
    if sends == [] then pending else Buffer(BufferAll(pending, sends[..|sends| - 1]), sends[|sends| - 1])
  }

  /** The last send that was not empty. */
  function LastSend(sends: seq<Bytes>): (bytes: Bytes) {
    if sends == [] then []
    else if sends[|sends| - 1] != [] then sends[|sends| - 1]
    else LastSend(sends[..|sends| - 1])
  }

  /** Whatever was typed before, the buffer is past its bound exactly when the last send alone is. */
  lemma {:induction false} BufferOverflowsExactlyWhen(sends: seq<Bytes>)
    ensures |BufferAll([], sends)| > MAX_PENDING <==> |LastSend(sends)| > MAX_PENDING
  {
    if sends != [] && sends[|sends| - 1] == [] {
      BufferOverflowsExactlyWhen(sends[..|sends| - 1]);
    }
  }

  function ConcatAll(sends: seq<Bytes>): (bs: Bytes) {
    if sends == [] then [] else ConcatAll(sends[..|sends| - 1]) + sends[|sends| - 1]
  }

  lemma {:induction false} ConcatAllAppend(a: seq<Bytes>, b: seq<Bytes>)
    ensures ConcatAll(a + b) == ConcatAll(a) + ConcatAll(b)
  {
    if b == [] {
      assert a + b == a;
    } else {
      var init, last := b[..|b| - 1], b[|b| - 1];
      assert (a + b)[..|a + b| - 1] == a + init && (a + b)[|a + b| - 1] == last;
      ConcatAllAppend(a, init);
      assert ConcatAll(a) + (ConcatAll(init) + last) == ConcatAll(a) + ConcatAll(init) + last;
    }
  }

  /** Whatever was typed, the buffer holds whole sends: the latest ones, with none missing between. */
  lemma {:induction false} BufferKeepsLatest(sends: seq<Bytes>) returns (k: nat)
    ensures k <= |sends| && BufferAll([], sends) == ConcatAll(sends[k..])
  {
    if sends == [] {
      k := 0;
    } else {
      var init, last := sends[..|sends| - 1], sends[|sends| - 1];
      k := BufferKeepsLatest(init);
      var before := BufferAll([], init);
      if last != [] && |before| + |last| > MAX_PENDING {
        k := |init|;
        var only := [last];
        assert sends[k..] == only && only[..0] == [];
        assert ConcatAll(only[..0]) == [] && [] + last == last;
      } else {
        assert sends[k..][..|sends| - k - 1] == init[k..];
        assert sends[k..][|sends| - k - 1] == last;
        assert before + last == if last == [] then before else Buffer(before, last);
      }
    }
  }

  // ---------------------------------------------------------------------------
  // The transport
  // ---------------------------------------------------------------------------

  /** A session handle: the size it was last told and the bytes queued on it. */
  class Transport {
    const workspace: bool
    var told: (nat, nat)
    var sent: Bytes

    constructor (workspace: bool)
      ensures this.workspace == workspace && sent == []
    {
      this.workspace := workspace;
      told := (80, 24);
      sent := [];
    }

    method Send(bytes: Bytes)
      modifies `sent
      ensures sent == old(sent) + bytes
    {
      sent := sent + bytes;
    }

    method Resize(cols: nat, rows: nat)
      modifies `told
      ensures told == (cols, rows)
    {
      told := (cols, rows);
    }
  }

  // ---------------------------------------------------------------------------
  // The state
  // ---------------------------------------------------------------------------

  class ConsoleState {
    const emulator: Emulator
    var screen: Screen
    var session: Transport?
    var terminalWorkspace: bool
    var published: seq<seq<Run>>
    var rowCache: seq<seq<Run>>
    var pending: Bytes
    var cols: nat
    var rows: nat
    var connected: bool
    var dirty: bool
    var title: Option<string>
    var bell: bool
    var cursorRow: nat
    var cursorCol: nat
    var cursorVisible: bool
    var scrollbackLen: nat
    var scrollbackOffset: nat

    /** Grid, screen, rows and transport agree; a clean cache shows the screen. */
    ghost predicate Valid()
      reads this, session
    {
      && Lawful(emulator)
      && cols >= 2 && rows >= 1
      && Fits(screen) && screen.cols == cols && screen.rows == rows
      && |rowCache| == rows && published == rowCache
      && (!dirty ==> Shows(emulator.palette, screen, rowCache))
      && (session != null ==> session.told == (cols, rows))
      && (connected <==> session != null)
    }

    /** The attached transport, if any. */
    ghost function Line(): (line: set<Transport>)
      reads this
    {
      if session == null then {} else {session}
    }

    constructor (emulator: Emulator, cols: nat, rows: nat)
      requires Lawful(emulator)
      ensures Valid() && dirty && session == null && pending == []
      ensures this.emulator == emulator && this.cols == Max(cols, 2) && this.rows == Max(rows, 1)
      ensures IsEmpty(screen)
    {
      this.emulator := emulator;
      this.cols := Max(cols, 2);
      this.rows := Max(rows, 1);
      screen := BlankScreen(Max(cols, 2), Max(rows, 1));
      session := null;
      terminalWorkspace := false;
      pending := [];
      connected := false;
      dirty := true;
      title := None;
      bell := false;
      cursorRow, cursorCol, cursorVisible := 0, 0, false;
      scrollbackLen, scrollbackOffset := 0, 0;
      published := seq(Max(rows, 1), _ => []);
      rowCache := seq(Max(rows, 1), _ => []);
    }

    /** Installs a transport and tells it the grid size; buffered bytes are dropped. */
    method Attach(transport: Transport)
      requires Valid()
      modifies `session, `pending, `terminalWorkspace, `connected, transport`told
      ensures Valid() && session == transport && pending == [] && terminalWorkspace == transport.workspace
    {
      transport.Resize(cols, rows);
      pending := [];
      terminalWorkspace := transport.workspace;
      session := transport;
      connected := true;
    }

    method TakeSession() returns (taken: Transport?)
      requires Valid()
      modifies `session, `connected
      ensures Valid() && session == null && taken == old(session)
    {
      connected := false;
      taken := session;
      session := null;
    }

    method SetClosed()
      requires Valid()
      modifies `session, `connected
      ensures Valid() && session == null
    {
      connected := false;
      session := null;
    }

    /** Queues bytes on the transport, or buffers them while there is none. */
    method Send(bytes: Bytes)
      modifies `pending, Line()
      ensures session != null ==> session.sent == old(session.sent) + bytes && pending == old(pending)
      ensures session != null ==> session.told == old(session.told)
      ensures session == null ==> pending == Buffer(old(pending), bytes)
      ensures session == null ==>
                pending == if bytes == [] then old(pending)
                           else if |old(pending)| + |bytes| > 8192 then bytes else old(pending) + bytes
    {
      if bytes == [] {
        return;
      }
      if session != null {
        session.Send(bytes);
        return;
      }
      if |pending| + |bytes| > MAX_PENDING {
        pending := [];
      }
      pending := pending + bytes;
    }

    method ResetRows()
      modifies `published, `rowCache
      ensures published == rowCache && |rowCache| == rows
    {
      published := seq(rows, _ => []);
      rowCache := seq(rows, _ => []);
    }

    /** Takes a grid size reported by the view or requested by the server. */
    method Resize(cols: nat, rows: nat)
      requires Valid()
      modifies `cols, `rows, `screen, `published, `rowCache, `dirty, Line()
      ensures Valid() && this.cols == Max(cols, 2) && this.rows == Max(rows, 1)
      ensures session != null ==> session.sent == old(session.sent)
      ensures screen == if old((this.cols, this.rows)) == (Max(cols, 2), Max(rows, 1)) then old(screen)
                        else emulator.reflow(old(screen), Max(cols, 2), Max(rows, 1))
      ensures screen == Sized(emulator, old(screen), cols, rows)
      ensures if old((this.cols, this.rows)) == (Max(cols, 2), Max(rows, 1))
              then dirty == old(dirty) && rowCache == old(rowCache) else dirty
    {
      var newCols, newRows := Max(cols, 2), Max(rows, 1);
      if newCols == this.cols && newRows == this.rows {
        return;
      }
      assert ReflowFits(emulator, screen, newCols, newRows);
      this.cols := newCols;
      this.rows := newRows;
      screen := emulator.reflow(screen, newCols, newRows);
      ResetRows();
      if session != null {
        session.Resize(newCols, newRows);
      }
      dirty := true;
    }

    /** Replies go out in order, then a requested size is applied. */
    method ApplyEvents(events: Events)
      requires Valid() && dirty
      modifies this`bell, this`title, this`pending, this`cols, this`rows, this`screen, this`published,
               this`rowCache, this`dirty, Line()
      ensures Valid() && dirty
      ensures session != null ==> session.sent == old(session.sent) + ConcatAll(events.replies)
      ensures session == null ==> pending == BufferAll(old(pending), events.replies)
      ensures bell == (old(bell) || events.bell)
      ensures title == if events.title.Some? then events.title else old(title)
      ensures events.resizeRequest.None? ==> screen == old(screen) && cols == old(cols) && rows == old(rows)
      ensures events.resizeRequest.Some? ==>
                var (r, c) := events.resizeRequest.value;
                && rows == Max(r, 1) && cols == Max(c, 2)
                && screen == if old((cols, rows)) == (Max(c, 2), Max(r, 1)) then old(screen)
                             else emulator.reflow(old(screen), Max(c, 2), Max(r, 1))
      ensures screen == Requested(emulator, old(screen), events)
    {
      if events.bell {
        bell := true;
      }
      if events.title.Some? {
        title := events.title;
      }
      SendAll(events.replies);
      if events.resizeRequest.Some? {
        var (rowsWanted, colsWanted) := events.resizeRequest.value;
        Resize(colsWanted, rowsWanted);
      }
    }

    method SendAll(replies: seq<Bytes>)
      modifies `pending, Line()
      ensures session != null ==> session.sent == old(session.sent) + ConcatAll(replies) && pending == old(pending)
      ensures session != null ==> session.told == old(session.told)
      ensures session == null ==> pending == BufferAll(old(pending), replies)
    {
      var i := 0;
      while i < |replies|
        invariant 0 <= i <= |replies|
        invariant session != null ==>
                    session.sent == old(session.sent) + ConcatAll(replies[..i]) && pending == old(pending)
        invariant session != null ==> session.told == old(session.told)
        invariant session == null ==> pending == BufferAll(old(pending), replies[..i])
      {
        Send(replies[i]);
        assert replies[..i + 1][..i] == replies[..i];
        i := i + 1;
      }
      assert replies[..i] == replies;
    }

    /** Feeds server output through the emulator. */
    method Feed(bytes: Bytes)
      requires Valid()
      modifies this`bell, this`title, this`pending, this`cols, this`rows, this`screen, this`published,
               this`rowCache, this`dirty, Line()
      ensures Valid()
      ensures screen == Step(emulator, old(screen), Output(bytes))
      ensures bytes == [] ==> dirty == old(dirty) && rowCache == old(rowCache) && pending == old(pending)
      ensures bytes == [] ==> screen == old(screen) && title == old(title) && bell == old(bell)
      ensures bytes != [] ==>
                var (next, events) := emulator.process(old(screen), bytes);
                && bell == (old(bell) || events.bell)
                && title == (if events.title.Some? then events.title else old(title))
                && match events.resizeRequest
                   case None => screen == next && cols == old(cols) && rows == old(rows)
                   case Some((r, c)) =>
                     && rows == Max(r, 1) && cols == Max(c, 2) && screen.rows == rows && screen.cols == cols
                     && screen == if old((cols, rows)) == (Max(c, 2), Max(r, 1)) then next
                                  else emulator.reflow(next, Max(c, 2), Max(r, 1))
      ensures session != null ==> session.told == (cols, rows)
      ensures bytes != [] ==> dirty
      ensures bytes != [] && session != null ==>
                session.sent == old(session.sent) + ConcatAll(emulator.process(old(screen), bytes).1.replies)
      ensures bytes != [] && session == null ==>
                pending == BufferAll(old(pending), emulator.process(old(screen), bytes).1.replies)
    {
      if bytes == [] {
        return;
      }
      assert OutputFits(emulator, screen, bytes);
      var (next, events) := emulator.process(screen, bytes);
      screen := next;
      dirty := true;
      ApplyEvents(events);
    }

    /** Republishes the rows whose runs changed. */
    method RebuildRows()
      requires Fits(screen) && screen.cols == cols && screen.rows == rows
      requires |rowCache| == rows && published == rowCache
      modifies `published, `rowCache
      ensures published == rowCache && Shows(emulator.palette, screen, rowCache)
    {
      var row := 0;
      while row < rows
        invariant 0 <= row <= rows && |rowCache| == rows && published == rowCache
        invariant forall i :: 0 <= i < row ==> rowCache[i] == RunsOf(emulator.palette, ViewRow(screen, i), cols)
      {
        var runs := BuildRuns(emulator.palette, ViewRow(screen, row), cols);
        if rowCache[row] != runs {
          published := published[row := runs];
          rowCache := rowCache[row := runs];
        }
        row := row + 1;
      }
    }

    method RefreshCursor()
      requires rows >= 1
      modifies `cursorRow, `cursorCol, `cursorVisible
      ensures cursorVisible <==> !screen.hideCursor && screen.cursorRow + screen.offset < rows
      ensures cursorRow == Min(screen.cursorRow + screen.offset, rows - 1) && cursorCol == screen.cursorCol
    {
      var visibleRow := screen.cursorRow + screen.offset;
      cursorVisible := !screen.hideCursor && visibleRow < rows;
      cursorRow := Min(visibleRow, rows - 1);
      cursorCol := screen.cursorCol;
    }

    /** Measures the history by asking for more than there can be, then goes back. */
    method RefreshScrollback()
      requires Fits(screen)
      modifies `screen, `scrollbackLen, `scrollbackOffset
      ensures screen == old(screen) && scrollbackOffset == screen.offset && scrollbackLen == |screen.history|
    {
      scrollbackOffset := screen.offset;
      screen := SetScrollback(screen, USIZE_MAX);
      scrollbackLen := screen.offset;
      screen := SetScrollback(screen, scrollbackOffset);
    }

    /** After rendering, what is published is the screen rendered from scratch. */
    method Render()
      requires Valid()
      modifies `dirty, `published, `rowCache, `cursorRow, `cursorCol, `cursorVisible, `screen, `scrollbackLen,
               `scrollbackOffset
      ensures Valid() && !dirty && screen == old(screen)
      ensures Shows(emulator.palette, screen, published)
      ensures cursorVisible <==> !screen.hideCursor && screen.cursorRow + screen.offset < rows
      ensures cursorRow == Min(screen.cursorRow + screen.offset, rows - 1) && cursorCol == screen.cursorCol
      ensures scrollbackOffset == screen.offset && scrollbackLen == |screen.history|
    {
      if dirty {
        dirty := false;
        RebuildRows();
      }
      RefreshCursor();
      RefreshScrollback();
    }

    /** Moves the view down by `lines`, up when negative. */
    method ScrollLines(lines: int)
      requires Valid()
      modifies `screen, `dirty
      ensures Valid() && screen == SetScrollback(old(screen), Max(old(screen.offset) - lines, 0))
      ensures var wanted, most := old(screen.offset) - lines, |old(screen).history|;
              screen == old(screen).(offset := if wanted < 0 then 0 else if wanted > most then most else wanted)
      ensures dirty <==> old(dirty) || screen.offset != old(screen.offset)
    {
      if lines == 0 {
        return;
      }
      var before := screen.offset;
      screen := SetScrollback(screen, Max(before - lines, 0));
      if screen.offset != before {
        dirty := true;
      }
    }

    method ScrollToBottom()
      requires Valid()
      modifies `screen, `dirty
      ensures Valid() && screen == old(screen).(offset := 0)
      ensures dirty <==> old(dirty) || old(screen.offset) != 0
    {
      if screen.offset != 0 {
        screen := SetScrollback(screen, 0);
        dirty := true;
      }
    }

    /** Sends what a key or the clipboard produced and returns to the live screen. */
    method Type(bytes: Bytes)
      requires Valid()
      modifies `pending, `screen, `dirty, Line()
      ensures Valid() && screen == old(screen).(offset := 0)
      ensures session != null ==> session.sent == old(session.sent) + bytes && pending == old(pending)
      ensures session == null ==> pending == Buffer(old(pending), bytes)
    {
      Send(bytes);
      ScrollToBottom();
    }

    method Clear()
      requires Valid()
      modifies `screen, `dirty
      ensures Valid() && dirty && IsEmpty(screen)
      ensures screen == BlankScreen(cols, rows)
    {
      screen := BlankScreen(cols, rows);
      dirty := true;
    }

    /** Pastes text: each line break becomes the Return bytes, wrapped when the application asked for
        bracketed paste. */
    method Paste(text: string, newline: Bytes)
      requires Valid()
      modifies `pending, `screen, `dirty, Line()
      ensures Valid()
      ensures var out := Pasted(text, newline, old(screen.bracketedPaste));
              if session != null then session.sent == old(session.sent) + out && pending == old(pending)
              else pending == Buffer(old(pending), out)
      ensures Pasted(text, newline, old(screen.bracketedPaste)) ==
              if text == "" then []
              else if old(screen.bracketedPaste) then
                [0x1b, 0x5b, 0x32, 0x30, 0x30, 0x7e] + PasteBody(text, newline) + [0x1b, 0x5b, 0x32, 0x30, 0x31, 0x7e]
              else PasteBody(text, newline)
      ensures screen == if text == "" then old(screen) else old(screen).(offset := 0)
    {
      if text == "" {
        assert session != null ==> session.sent + [] == session.sent;
        return;
      }
      var out := PasteBytes(text, newline, screen.bracketedPaste);
      Type(out);
    }
  }

  // ---------------------------------------------------------------------------
  // Whole runs
  // ---------------------------------------------------------------------------

  /** What can happen to the view. */
  datatype Op = Output(bytes: Bytes) | Grid(cols: nat, rows: nat) | Scroll(lines: int) | Typed(bytes: Bytes)
              | Cleared | Rendered | Attached(transport: Transport) | Detached | Closed

  function Sized(e: Emulator, s: Screen, cols: nat, rows: nat): (t: Screen) {
    if s.cols == Max(cols, 2) && s.rows == Max(rows, 1) then s else e.reflow(s, Max(cols, 2), Max(rows, 1))
  }

  /** A size that the application asked for, as rows and columns. */
  function Requested(e: Emulator, s: Screen, events: Events): (t: Screen) {
    if events.resizeRequest.None? then s
    else Sized(e, s, events.resizeRequest.value.1, events.resizeRequest.value.0)
  }

  /** The emulator's screen alone, without cache, flag or transport. */
  function Step(e: Emulator, s: Screen, op: Op): (t: Screen) {
    match op
    case Output(bytes) => if bytes == [] then s else Requested(e, e.process(s, bytes).0, e.process(s, bytes).1)
    case Grid(cols, rows) => Sized(e, s, cols, rows)
    case Scroll(lines) => SetScrollback(s, Max(s.offset - lines, 0))
    case Typed(_) => s.(offset := 0)
    case Cleared => BlankScreen(s.cols, s.rows)
    case _ => s
  }

  function Steps(e: Emulator, s: Screen, ops: seq<Op>): (t: Screen) {
    if ops == [] then s else Step(e, Steps(e, s, ops[..|ops| - 1]), ops[|ops| - 1])
  }

  /** Which transport is attached after a step. */
  function Session(before: Transport?, op: Op): (t: Transport?) {
    match op
    case Attached(transport) => transport
    case Detached => null
    case Closed => null
    case _ => before
  }

  function Sessions(before: Transport?, ops: seq<Op>): (t: Transport?) {
    if ops == [] then before else Session(Sessions(before, ops[..|ops| - 1]), ops[|ops| - 1])
  }

  /** The transports that come into play. */
  ghost function Arriving(ops: seq<Op>): (ts: set<Transport>) {
    set op | op in ops && op.Attached? :: op.transport
  }

  method Perform(c: ConsoleState, op: Op)
    requires c.Valid()
    modifies c, c.Line(), Arriving([op])
    ensures c.Valid() && c.session == Session(old(c.session), op)
    ensures c.screen == Step(c.emulator, old(c.screen), op)
    ensures op.Grid? ==> c.cols == Max(op.cols, 2) && c.rows == Max(op.rows, 1)
    ensures op.Scroll? && 0 <= old(c.screen.offset) - op.lines <= |c.screen.history| ==>
              c.screen == old(c.screen).(offset := old(c.screen.offset) - op.lines)
    ensures op.Typed? && c.session != null ==> c.session.sent == old(c.session.sent) + op.bytes
    ensures op.Output? && op.bytes != []
            && c.emulator.process(old(c.screen), op.bytes).1.resizeRequest.None? ==>
              c.screen == c.emulator.process(old(c.screen), op.bytes).0
    ensures op.Cleared? ==> IsEmpty(c.screen)
    ensures op.Rendered? ==> Shows(c.emulator.palette, c.screen, c.published)
    ensures op.Attached? ==> c.pending == []
  {
    match op
    case Output(bytes) => c.Feed(bytes);
    case Grid(cols, rows) => c.Resize(cols, rows);
    case Scroll(lines) => c.ScrollLines(lines);
    case Typed(bytes) => c.Type(bytes);
    case Cleared => c.Clear();
    case Rendered => c.Render();
    case Attached(transport) =>
      assert op in [op];
      c.Attach(transport);
    case Detached =>
      var taken := c.TakeSession();
    case Closed => c.SetClosed();
  }

  /** After any run, transports coming and going included, that ends with a refresh, the published rows are
      the emulator's screen rendered from scratch, and the transport attached last was last told that
      screen's size. On an emulator that keeps its rows tidy the live rows show the exact picture. */
  method Drive(c: ConsoleState, ops: seq<Op>)
    requires c.Valid()
    modifies c, c.Line(), Arriving(ops)
    ensures c.Valid() && c.session == Sessions(old(c.session), ops)
    ensures c.screen == Steps(c.emulator, old(c.screen), ops)
    ensures Shows(c.emulator.palette, c.screen, c.published)
    ensures c.session != null ==> c.session.told == (c.screen.cols, c.screen.rows)
    ensures KeepsTidy(c.emulator) && Tidy(old(c.screen)) ==> LiveRowsShown(c.emulator.palette, c.screen, c.published)
  {
    ghost var first := c.screen;
    var i := 0;
    while i < |ops|
      invariant 0 <= i <= |ops| && c.Valid() && c.session == Sessions(old(c.session), ops[..i])
      invariant c.Line() <= old(c.Line()) + Arriving(ops)
      invariant c.screen == Steps(c.emulator, old(c.screen), ops[..i])
    {
      assert ops[i] in ops && Arriving([ops[i]]) <= Arriving(ops);
      Perform(c, ops[i]);
      assert ops[..i + 1][..i] == ops[..i];
      i := i + 1;
    }
    assert ops[..i] == ops;
    c.Render();
    if KeepsTidy(c.emulator) && Tidy(first) {
      StepsStayTidy(c.emulator, first, ops);
      TidyRowsShown(c.emulator.palette, c.screen, c.published);
    }
  }

  /** Every live row in view is published as its exact picture: each visible glyph in its place and style, and
      nothing else. */
  ghost predicate LiveRowsShown(p: Palette, s: Screen, published: seq<seq<Run>>)
    requires Fits(s)
  {
    |published| == s.rows
    && forall i :: s.offset <= i < s.rows ==>
         |s.live[i - s.offset]| == s.cols && Picture(p, s.live[i - s.offset], published[i], s.cols)
  }

  lemma TidyRowsShown(p: Palette, s: Screen, published: seq<seq<Run>>)
    requires Fits(s) && Tidy(s) && Shows(p, s, published)
    ensures LiveRowsShown(p, s, published)
  {
    forall i | s.offset <= i < s.rows
      ensures |s.live[i - s.offset]| == s.cols && Picture(p, s.live[i - s.offset], published[i], s.cols)
    {
      assert TidyRow(s.live[i - s.offset], s.cols);
      RunsArePicture(p, s.live[i - s.offset], published[i]);
    }
  }

  lemma StepStaysTidy(e: Emulator, s: Screen, op: Op)
    requires Lawful(e) && KeepsTidy(e) && Fits(s) && Tidy(s)
    ensures Fits(Step(e, s, op)) && Tidy(Step(e, s, op))
  {
    match op
    case Output(bytes) =>
      assert OutputFits(e, s, bytes);
      RequestedStaysTidy(e, e.process(s, bytes).0, e.process(s, bytes).1);
    case Grid(cols, rows) => SizedStaysTidy(e, s, cols, rows);
    case Cleared => BlankIsTidy(s.cols, s.rows);
    case _ =>
  }

  lemma BlankIsTidy(cols: nat, rows: nat)
    ensures Fits(BlankScreen(cols, rows)) && Tidy(BlankScreen(cols, rows))
  {
    forall i | 0 <= i < rows ensures TidyRow(BlankScreen(cols, rows).live[i], cols) {
      var row := BlankScreen(cols, rows).live[i];
      assert forall j :: 0 <= j < cols ==> row[j] == BLANK_CELL;
    }
  }

  lemma SizedStaysTidy(e: Emulator, s: Screen, cols: nat, rows: nat)
    requires Lawful(e) && KeepsTidy(e) && Fits(s) && Tidy(s)
    ensures Fits(Sized(e, s, cols, rows)) && Tidy(Sized(e, s, cols, rows))
  {
    assert ReflowFits(e, s, Max(cols, 2), Max(rows, 1));
  }

  lemma RequestedStaysTidy(e: Emulator, s: Screen, events: Events)
    requires Lawful(e) && KeepsTidy(e) && Fits(s) && Tidy(s)
    ensures Fits(Requested(e, s, events)) && Tidy(Requested(e, s, events))
  {
    if events.resizeRequest.Some? {
      SizedStaysTidy(e, s, events.resizeRequest.value.1, events.resizeRequest.value.0);
    }
  }

  lemma {:induction false} StepsStayTidy(e: Emulator, s: Screen, ops: seq<Op>)
    requires Lawful(e) && KeepsTidy(e) && Fits(s) && Tidy(s)
    ensures Fits(Steps(e, s, ops)) && Tidy(Steps(e, s, ops))
  {
    if ops != [] {
      StepsStayTidy(e, s, ops[..|ops| - 1]);
      StepStaysTidy(e, Steps(e, s, ops[..|ops| - 1]), ops[|ops| - 1]);
    }
  }

  // ---------------------------------------------------------------------------
  // Pasting
  // ---------------------------------------------------------------------------

  const PASTE_START: Bytes := [0x1b, 0x5b, 0x32, 0x30, 0x30, 0x7e]
  const PASTE_END: Bytes := [0x1b, 0x5b, 0x32, 0x30, 0x31, 0x7e]

  function PasteBody(text: string, newline: Bytes): (bs: Bytes)
    decreases |text|
  {
    if text == "" then []
    else if text[0] == '\r' then
      newline + PasteBody(if |text| > 1 && text[1] == '\n' then text[2..] else text[1..], newline)
    else (if text[0] == '\n' then newline else EncodeChar(text[0])) + PasteBody(text[1..], newline)
  }

  function Pasted(text: string, newline: Bytes, bracketed: bool): (bs: Bytes) {
    if text == "" then []
    else if bracketed then PASTE_START + PasteBody(text, newline) + PASTE_END
    else PasteBody(text, newline)
  }

  lemma PasteTurn(out: Bytes, text: string, newline: Bytes)
    requires text != ""
    ensures var front := if text[0] == '\r' || text[0] == '\n' then newline else EncodeChar(text[0]);
            var n := if text[0] == '\r' && |text| > 1 && text[1] == '\n' then 2 else 1;
            out + PasteBody(text, newline) == out + front + PasteBody(text[n..], newline)
  {
  }

  method PasteBytes(text: string, newline: Bytes, bracketed: bool) returns (out: Bytes)
    requires text != ""
    ensures out == Pasted(text, newline, bracketed)
  {
    out := if bracketed then PASTE_START else [];
    ghost var start := out;
    var i := 0;
    while i < |text|
      invariant 0 <= i <= |text|
      invariant out + PasteBody(text[i..], newline) == start + PasteBody(text, newline)
    {
      ghost var rest := text[i..];
      PasteTurn(out, rest, newline);
      if text[i] == '\r' {
        out := out + newline;
        if i + 1 < |text| && text[i + 1] == '\n' {
          i := i + 1;
          assert rest[2..] == text[i + 1..];
        } else {
          assert rest[1..] == text[i + 1..];
        }
      } else {
        out := out + if text[i] == '\n' then newline else EncodeChar(text[i]);
        assert rest[1..] == text[i + 1..];
      }
      i := i + 1;
    }
    assert text[i..] == "" && out + [] == out;
    if bracketed {
      out := out + PASTE_END;
    }
  }

  /** The same text with every line break written as a newline. */
  function Unified(text: string): (t: string)
    decreases |text|
  {
    if text == "" then ""
    else if text[0] == '\r' then "\n" + Unified(if |text| > 1 && text[1] == '\n' then text[2..] else text[1..])
    else [text[0]] + Unified(text[1..])
  }

  /** Pasting does not depend on how the clipboard writes its line breaks. */
  lemma {:induction false} PasteUnifiesLineBreaks(text: string, newline: Bytes)
    ensures PasteBody(text, newline) == PasteBody(Unified(text), newline)
    decreases |text|
  {
    if text != "" {
      var n := if text[0] == '\r' && |text| > 1 && text[1] == '\n' then 2 else 1;
      PasteUnifiesLineBreaks(text[n..], newline);
      assert Unified(text)[1..] == Unified(text[n..]);
    }
  }

  /** Text without line breaks is pasted as its UTF-8 bytes. */
  lemma {:induction false} PlainPaste(text: string, newline: Bytes)
    requires '\r' !in text && '\n' !in text
    ensures PasteBody(text, newline) == Encode(text)
  {
    if text != "" {
      PlainPaste(text[1..], newline);
    }
  }

  /** A line break between two texts is pasted as one Return. */
  lemma {:induction false} PasteBreaks(a: string, b: string, newline: Bytes)
    requires a == "" || a[|a| - 1] != '\r'
    ensures PasteBody(a + "\n" + b, newline) == PasteBody(a, newline) + newline + PasteBody(b, newline)
    decreases |a|
  {
    var text := a + "\n" + b;
    if a == "" {
      assert text[1..] == b;
    } else {
      var n := if a[0] == '\r' && |a| > 1 && a[1] == '\n' then 2 else 1;
      PasteBreaks(a[n..], b, newline);
      assert text[n..] == a[n..] + "\n" + b;
      var front := if a[0] == '\r' || a[0] == '\n' then newline else EncodeChar(a[0]);
      FrontOfThree(front, PasteBody(a[n..], newline), newline, PasteBody(b, newline));
    }
  }

  lemma FrontOfThree(front: Bytes, a: Bytes, b: Bytes, c: Bytes)
    ensures front + (a + b + c) == (front + a) + b + c
  {
  }
}
