/** What moving the cursor, scrolling, the modes and the two screens do: each event through a run
    of it alone, with every field it touches and none it does not. */
module CursorEffects {
  import opened Cells
  import opened DirtyTracking
  import opened Offsets
  import opened TerminalSpec
  import opened TerminalRuns

  /** The cursor is at `col`, `row`, no wrap is pending, and nothing else changed; a cursor that
      moved is flagged. */
  predicate MovedTo(s: State, r: State, col: nat, row: nat) {
    && r == s.(cursor := s.cursor.(col := col, row := row), pendingWrap := false,
               dirty := s.dirty.(cursorChanged := r.dirty.cursorChanged))
    && (s.cursor.col != col || s.cursor.row != row || s.dirty.cursorChanged ==> r.dirty.cursorChanged)
  }

  function AtMost(a: nat, b: nat): nat { if a < b then a else b }
  function Less(a: nat, b: nat): nat { if a > b then a - b else 0 }
  function OneOrMore(n: nat): nat { if n > 1 then n else 1 }

  lemma CountIs(n: nat)
    ensures AtLeast1(n) == OneOrMore(n)
  {
  }

  // ---- Motions that stay on the screen ---------------------------------------------------------

  /** Each axis goes where it is told, but not off the screen; 0xFFFF leaves it alone. */
  lemma GoesTo(s: State, col: nat, row: nat, r: State)
    requires Run(s, [MoveCursor(col, row)]) == Some(r)
    ensures MovedTo(s, r, if col == 0xFFFF then s.cursor.col else AtMost(col, s.cols - 1),
                    if row == 0xFFFF then s.cursor.row else AtMost(row, s.rows - 1))
  {
    OneMotion(s, MoveCursor(col, row), r);
    PositionMoves(s, col, row, if col == 0xFFFF then s.cursor.col else AtMost(col, s.cols - 1),
                  if row == 0xFFFF then s.cursor.row else AtMost(row, s.rows - 1));
  }

  lemma PositionMoves(s: State, col: nat, row: nat, c: nat, v: nat)
    requires c == (if col == 0xFFFF then s.cursor.col else AtMost(col, s.cols - 1))
    requires v == (if row == 0xFFFF then s.cursor.row else AtMost(row, s.rows - 1))
    ensures MovedTo(s, CursorPosition(s, col, row), c, v)
  {
  }

  /** Up, but not above the first row; a count of none is one. */
  lemma GoesUp(s: State, n: nat, r: State)
    requires Run(s, [Up(n)]) == Some(r)
    ensures MovedTo(s, r, s.cursor.col, Less(s.cursor.row, OneOrMore(n)))
  {
    OneMotion(s, Up(n), r);
    CountIs(n);
    UpMoves(s, AtLeast1(n));
  }

  lemma UpMoves(s: State, n: nat)
    ensures MovedTo(s, CursorUp(s, n), s.cursor.col, Less(s.cursor.row, n))
  {
  }

  /** Left, but not beyond the first column. */
  lemma GoesBack(s: State, n: nat, r: State)
    requires Run(s, [Back(n)]) == Some(r)
    ensures MovedTo(s, r, Less(s.cursor.col, OneOrMore(n)), s.cursor.row)
  {
    OneMotion(s, Back(n), r);
    CountIs(n);
    BackMoves(s, AtLeast1(n));
  }

  lemma BackMoves(s: State, n: nat)
    ensures MovedTo(s, CursorBack(s, n), Less(s.cursor.col, n), s.cursor.row)
  {
    BackCloses(ClearPending(s), n);
  }

  lemma {:induction false} BackCloses(s: State, n: nat)
    requires !s.pendingWrap
    ensures MovedTo(s, BackSteps(s, n), Less(s.cursor.col, n), s.cursor.row)
  {
    if n > 0 {
      BackCloses(s, n - 1);
    }
  }

  /** To the next column that is a multiple of eight, or the last one. */
  lemma GoesToStop(s: State, r: State)
    requires Run(s, [TabStop]) == Some(r)
    ensures MovedTo(s, r, AtMost(s.cursor.col - s.cursor.col % 8 + 8, s.cols - 1), s.cursor.row)
  {
    OneMotion(s, TabStop, r);
    TabMoves(s, AtMost(s.cursor.col - s.cursor.col % 8 + 8, s.cols - 1));
  }

  lemma TabMoves(s: State, to: nat)
    requires to == AtMost(s.cursor.col - s.cursor.col % 8 + 8, s.cols - 1)
    ensures MovedTo(s, Tab(s), to, s.cursor.row)
  {
    assert (s.cursor.col / 8 + 1) * 8 == s.cursor.col - s.cursor.col % 8 + 8;
  }

  /** To the first column; from there it keeps a pending wrap, too. */
  lemma GoesToStart(s: State, r: State)
    requires Run(s, [BeginningOfLine]) == Some(r)
    ensures if s.cursor.col == 0 then r == s else MovedTo(s, r, 0, s.cursor.row)
  {
    OneMotion(s, BeginningOfLine, r);
    StartMoves(s);
  }

  lemma StartMoves(s: State)
    ensures if s.cursor.col == 0 then CursorToBeginningOfLine(s) == s
            else MovedTo(s, CursorToBeginningOfLine(s), 0, s.cursor.row)
  {
  }

  // ---- Motions that scroll ---------------------------------------------------------------------

  /** Row `i` of what follows the top of the screen if blank rows enter below it. */
  function RowFrom(s: State, i: nat): Row {
    if i < s.rows then s.screen[i] else BlankRow(s.cols)
  }

  /** The rows have moved up by `n`, and blank ones have entered. */
  predicate ScrolledBy(s: State, screen: seq<Row>, n: nat) {
    |screen| == s.rows && forall v :: 0 <= v < s.rows ==> screen[v] == RowFrom(s, v + n)
  }

  lemma {:induction false} ScrollsBy(s: State, n: nat)
    ensures var r := ScrollUpTimes(s, n);
      && ScrolledBy(s, r.screen, n)
      && r == s.(history := r.history, tiered := r.tiered, screen := r.screen, dirty := r.dirty)
  {
    if n > 0 {
      var m := n - 1;
      var t := ScrollUpTimes(s, m);
      ScrollsBy(s, m);
      assert ScrollUpTimes(s, n) == ScrollUpOne(t);
      ScrollsOne(s, t.screen, m, n);
    }
  }

  lemma ScrollsOne(s: State, screen: seq<Row>, m: nat, n: nat)
    requires ScrolledBy(s, screen, m) && n == m + 1
    ensures ScrolledBy(s, screen[1..] + [BlankRow(s.cols)], n)
  {
  }

  /** Scrolling up: the rows move up, blank ones enter, the cursor stays, everything is marked. */
  lemma GoesUpBy(s: State, n: nat, r: State)
    requires Run(s, [ScrollUpEvent(n)]) == Some(r)
    ensures ScrolledBy(s, r.screen, n)
    ensures r == s.(history := r.history, tiered := r.tiered, screen := r.screen, dirty := r.dirty)
    ensures r.dirty.fullRedraw
  {
    OneEdit(s, ScrollUpEvent(n), r);
    ScrollsBy(s, n);
  }

  /** Down, and at the bottom the screen scrolls instead. */
  lemma GoesDown(s: State, n: nat, r: State)
    requires Run(s, [Down(n)]) == Some(r)
    ensures GoneDown(s, r, OneOrMore(n), false)
  {
    OneMotion(s, Down(n), r);
    CountIs(n);
    DownMoves(s, AtLeast1(n));
  }

  predicate GoneDown(s: State, r: State, n: nat, pending: bool) {
    var to := AtMost(s.cursor.row + n, s.rows - 1);
    && ScrolledBy(s, r.screen, s.cursor.row + n - to)
    && r == s.(history := r.history, tiered := r.tiered, screen := r.screen, dirty := r.dirty,
               cursor := s.cursor.(row := to), pendingWrap := pending)
    && (s.cursor.row != to || s.dirty.cursorChanged ==> r.dirty.cursorChanged)
  }

  lemma DownMoves(s: State, n: nat)
    ensures GoneDown(s, CursorDown(s, n), n, false)
  {
    DownCloses(ClearPending(s), n);
    var r, p := CursorDown(s, n), ClearPending(s);
    assert ScrolledBy(p, r.screen, s.cursor.row + n - AtMost(s.cursor.row + n, s.rows - 1));
    assert forall i: nat :: RowFrom(p, i) == RowFrom(s, i);
  }

  lemma {:induction false} DownCloses(s: State, n: nat)
    ensures GoneDown(s, DownSteps(s, n), n, s.pendingWrap)
  {
    if n > 0 {
      var m := n - 1;
      DownCloses(s, m);
      OneMoreDown(s, DownSteps(s, m), m, n);
      DownNext(s, m, n);
    }
  }

  lemma DownNext(s: State, m: nat, n: nat)
    requires n == m + 1
    ensures DownSteps(s, n) == DownStep(DownSteps(s, m))
  {
  }

  lemma OneMoreDown(s: State, t: State, m: nat, n: nat)
    requires n == m + 1 && GoneDown(s, t, m, s.pendingWrap)
    ensures GoneDown(s, DownStep(t), n, s.pendingWrap)
  {
    if s.cursor.row + n >= s.rows {
      var d := s.cursor.row + m - (s.rows - 1);
      ScrollsOne(s, t.screen, d, d + 1);
      ScrollsAtBottom(t);
    }
  }

  lemma ScrollsAtBottom(t: State)
    ensures var r := ScrollUpOne(t);
      && r.screen == t.screen[1..] + [BlankRow(t.cols)]
      && r == t.(history := r.history, tiered := r.tiered, screen := r.screen, dirty := r.dirty)
      && r.dirty.cursorChanged == t.dirty.cursorChanged
  {
  }

  /** Without autowrap right, but not beyond the last column. */
  lemma GoesForward(s: State, n: nat, r: State)
    requires Run(s, [Forward(n)]) == Some(r) && !s.modes.wrap
    ensures MovedTo(s, r, AtMost(s.cursor.col + OneOrMore(n), s.cols - 1), s.cursor.row)
  {
    ForwardIs(s, n, r);
    CountIs(n);
    ForwardMoves(s, AtLeast1(n), AtMost(s.cursor.col + OneOrMore(n), s.cols - 1));
  }

  lemma ForwardIs(s: State, n: nat, r: State)
    requires Run(s, [Forward(n)]) == Some(r)
    ensures r == CursorForward(s, AtLeast1(n))
  {
    OneMotion(s, Forward(n), r);
  }

  lemma ForwardMoves(s: State, n: nat, to: nat)
    requires !s.modes.wrap && to == AtMost(s.cursor.col + n, s.cols - 1)
    ensures MovedTo(s, CursorForward(s, n), to, s.cursor.row)
  {
    ForwardCloses(ClearPending(s), n);
  }

  lemma {:induction false} ForwardCloses(s: State, n: nat)
    requires !s.pendingWrap && !s.modes.wrap
    ensures MovedTo(s, ForwardSteps(s, n), AtMost(s.cursor.col + n, s.cols - 1), s.cursor.row)
  {
    if n > 0 {
      ForwardCloses(s, n - 1);
    }
  }

  /** Row `i` after `q` lines were left to the right: those are flagged as wrapped. */
  function RowWrapped(s: State, i: nat, q: nat): Row {
    var row := RowFrom(s, i);
    if s.cursor.row <= i < s.cursor.row + q then row.(isWrapped := true) else row
  }

  predicate WrappedBy(s: State, screen: seq<Row>, q: nat, scrolled: nat) {
    |screen| == s.rows && forall v :: 0 <= v < s.rows ==> screen[v] == RowWrapped(s, v + scrolled, q)
  }

  /** With autowrap the cells are counted on over the ends of the lines: `q` lines on and to
      column `c`. The lines left are flagged, and at the bottom the screen scrolls. */
  lemma GoesOn(s: State, n: nat, q: nat, c: nat, r: State)
    requires Run(s, [Forward(n)]) == Some(r) && s.modes.wrap
    requires s.cursor.col + OneOrMore(n) == q * s.cols + c && c < s.cols
    ensures GoneOn(s, r, q, c)
  {
    OneMotion(s, Forward(n), r);
    StartIsProduct(q, s.cols);
    CountIs(n);
    WrapMoves(s, AtLeast1(n), q, c);
  }

  lemma WrapMoves(s: State, n: nat, q: nat, c: nat)
    requires s.modes.wrap && s.cursor.col + n == Start(q, s.cols) + c && c < s.cols
    ensures GoneOn(s, CursorForward(s, n), q, c)
  {
    ForwardWraps(ClearPending(s), n, q, c);
    PendingIsCleared(s, CursorForward(s, n), q, c);
  }

  lemma PendingIsCleared(s: State, r: State, q: nat, c: nat)
    requires GoneOn(ClearPending(s), r, q, c)
    ensures GoneOn(s, r, q, c)
  {
    assert forall i: nat :: RowWrapped(ClearPending(s), i, q) == RowWrapped(s, i, q);
  }

  predicate GoneOn(s: State, r: State, q: nat, c: nat) {
    var to := AtMost(s.cursor.row + q, s.rows - 1);
    && WrappedBy(s, r.screen, q, s.cursor.row + q - to)
    && r == s.(history := r.history, tiered := r.tiered, screen := r.screen, dirty := r.dirty,
               cursor := s.cursor.(col := c, row := to), pendingWrap := false)
  }

  lemma {:induction false} ForwardWraps(s: State, n: nat, q: nat, c: nat)
    requires !s.pendingWrap && s.modes.wrap && s.cursor.col + n == Start(q, s.cols) + c && c < s.cols
    ensures GoneOn(s, ForwardSteps(s, n), q, c)
  {
    if n == 0 {
      NowhereYet(s, q, c);
    } else {
      var m := n - 1;
      var t := ForwardSteps(s, m);
      ForwardNext(s, m, n);
      if c > 0 {
        ForwardWraps(s, m, q, c - 1);
        OneMoreColumn(s, t, q, c);
      } else {
        var p := LineBefore(s, q, m);
        ForwardWraps(s, m, p, s.cols - 1);
        OneMoreLine(s, t, p, q);
      }
    }
  }

  lemma NowhereYet(s: State, q: nat, c: nat)
    requires !s.pendingWrap && s.cursor.col == Start(q, s.cols) + c
    ensures GoneOn(s, s, q, c)
  {
    assert q > 0 ==> Start(q, s.cols) >= s.cols;
  }

  lemma LineBefore(s: State, q: nat, m: nat) returns (p: nat)
    requires s.cursor.col + m + 1 == Start(q, s.cols)
    ensures q == p + 1 && s.cursor.col + m == Start(p, s.cols) + (s.cols - 1)
  {
    p := q - 1;
  }

  lemma ForwardNext(s: State, m: nat, n: nat)
    requires n == m + 1
    ensures ForwardSteps(s, n) == ForwardStep(ForwardSteps(s, m))
  {
  }

  lemma OneMoreColumn(s: State, t: State, q: nat, c: nat)
    requires !s.pendingWrap && 0 < c < s.cols && GoneOn(s, t, q, c - 1)
    ensures GoneOn(s, ForwardStep(t), q, c)
  {
  }

  lemma OneMoreLine(s: State, t: State, p: nat, q: nat)
    requires q == p + 1 && s.modes.wrap && GoneOn(s, t, p, s.cols - 1)
    ensures GoneOn(s, ForwardStep(t), q, 0)
  {
    WrapsOn(s, t, p, q, s.cols - 1);
  }

  /** A line wrap goes one line further on. */
  lemma WrapsOn(s: State, t: State, p: nat, q: nat, c: nat)
    requires q == p + 1 && GoneOn(s, t, p, c)
    ensures GoneOn(s, LineWrap(t), q, 0)
  {
    var at := t.cursor.row;
    var d := s.cursor.row + p - at;
    WrapIs(t, at);
    if at < s.rows - 1 {
      FlagsOne(s, t.screen, p, q, d, at);
      ArrivesAt(s, LineWrap(t), q, 0, at + 1, d);
    } else {
      FlagsLast(s, t.screen, p, q, d, d + 1, at);
      ArrivesAt(s, LineWrap(t), q, 0, at, d + 1);
    }
  }

  lemma ArrivesAt(s: State, r: State, q: nat, c: nat, to: nat, d: nat)
    requires to == AtMost(s.cursor.row + q, s.rows - 1) && s.cursor.row + q == to + d && WrappedBy(s, r.screen, q, d)
    requires r == s.(history := r.history, tiered := r.tiered, screen := r.screen, dirty := r.dirty,
                     cursor := s.cursor.(col := c, row := to), pendingWrap := false)
    ensures GoneOn(s, r, q, c)
  {
  }

  lemma WrapIs(t: State, at: nat)
    requires at == t.cursor.row
    ensures var r, flagged := LineWrap(t), t.screen[at := t.screen[at].(isWrapped := true)];
      && r.screen == (if at < t.rows - 1 then flagged else flagged[1..] + [BlankRow(t.cols)])
      && r == t.(history := r.history, tiered := r.tiered, screen := r.screen, dirty := r.dirty, pendingWrap := false,
                 cursor := t.cursor.(col := 0, row := if at < t.rows - 1 then at + 1 else at))
  {
  }

  lemma FlagsOne(s: State, screen: seq<Row>, p: nat, q: nat, scrolled: nat, at: nat)
    requires q == p + 1 && WrappedBy(s, screen, p, scrolled) && at + scrolled == s.cursor.row + p && at < s.rows
    ensures WrappedBy(s, screen[at := screen[at].(isWrapped := true)], q, scrolled)
  {
  }

  lemma FlagsLast(s: State, screen: seq<Row>, p: nat, q: nat, scrolled: nat, next: nat, at: nat)
    requires q == p + 1 && WrappedBy(s, screen, p, scrolled) && at + scrolled == s.cursor.row + p && at == s.rows - 1
    requires next == scrolled + 1
    ensures WrappedBy(s, screen[at := screen[at].(isWrapped := true)][1..] + [BlankRow(s.cols)], q, next)
  {
    FlagsOne(s, screen, p, q, scrolled, at);
  }

  // ---- Modes, the saved cursor --------------------------------------------------------------------

  /** The modes are set and nothing else; saving takes cursor, style, autowrap and pending wrap,
      and restoring puts what was saved back and flags the cursor. */
  lemma ModesAreSet(s: State, e: Event, r: State)
    requires Run(s, [e]) == Some(r) && e.IsMode()
    ensures ModeSet(s, e, r)
  {
    OneMode(s, e, r);
    SetsMode(s, e);
  }

  predicate ModeSet(s: State, e: Event, r: State)
    requires e.IsMode()
  {
    match e
    case SetStyle(style) => r == s.(style := style)
    case AutoWrap(wrap) => r == s.(modes := s.modes.(wrap := wrap))
    case InputMode => r == s
    case SaveCursorEvent => r == s.(saved := SavedCursor(s.cursor, s.style, s.modes.wrap, s.pendingWrap))
    case RestoreCursorEvent =>
      r == s.(cursor := s.saved.cursor, style := s.saved.style, modes := s.modes.(wrap := s.saved.wrap),
              pendingWrap := s.saved.pendingWrap, dirty := s.dirty.(cursorChanged := true))
    case ShowCursor(visible) =>
      if visible == s.modes.cursorVisible then r == s
      else r == s.(modes := s.modes.(cursorVisible := visible), cursor := s.cursor.(isHidden := !visible),
                   dirty := s.dirty.(cursorChanged := true))
  }

  lemma SetsMode(s: State, e: Event)
    requires e.IsMode()
    ensures ModeSet(s, e, ApplyMode(s, e))
  {
  }

  // ---- The two screens ----------------------------------------------------------------------------

  /** Going to the alternate screen puts rows, tier boundary, cursors, style and pending wrap aside,
      and shows a blank screen with the cursor at home; going back shows what was put aside. A
      switch to the screen that is shown does nothing. */
  lemma ScreensSwitch(s: State, alt: bool, r: State)
    requires Run(s, [AltScreen(alt)]) == Some(r)
    ensures alt == s.modes.altScreen ==> r == s
    ensures alt && !s.modes.altScreen ==>
      && r == s.(history := [], tiered := 0, screen := r.screen, cursor := Cursor(0, 0, false),
                 pendingWrap := false, modes := s.modes.(altScreen := true), dirty := s.dirty.MarkAll(), alt := r.alt)
      && r.alt == Some(SavedScreen(s.history, s.tiered, s.screen, s.cursor, s.saved.cursor, s.style, s.pendingWrap))
      && forall v :: 0 <= v < s.rows ==> r.screen[v] == BlankRow(s.cols)
    ensures !alt && s.modes.altScreen ==>
      var a := s.alt.value;
      r == s.(history := a.history, tiered := a.tiered, screen := a.screen, cursor := a.cursor,
              saved := s.saved.(cursor := a.savedCursor), style := a.style, pendingWrap := a.pendingWrap,
              modes := s.modes.(altScreen := false), dirty := s.dirty.MarkAll(), alt := None)
  {
    RunsOne(s, AltScreen(alt));
    AppliesAlt(s, alt);
  }

  // ---- The window, the frame -----------------------------------------------------------------------

  /** The offset is cut at the size of the history; a change marks everything, and nothing else
      changes. */
  lemma OffsetIsSet(s: State, offset: nat)
    ensures var r, to := SetScrollOffset(s, offset), AtMost(offset, |s.history|);
      r == if to == s.scrollOffset then s
           else s.(scrollOffset := to, dirty := Dirty(0, s.rows, s.dirty.cursorChanged, 0, true))
  {
  }

  /** A frame takes the dirty bits and leaves none. */
  lemma FrameTakesDirty(s: State)
    ensures ConsumeDirty(s) == s.(dirty := Dirty(0, s.rows, false, 0, false))
  {
  }
}
