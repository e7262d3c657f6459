/** What a resize that leaves the saved cursor or the screen put aside with the old geometry
    leads to: the next print after going back to them, and exactly when it aborts. */
module ResizeFaults {
  import opened Cells
  import opened TerminalSpec
  import opened TerminalRuns

  /** Restoring the cursor, and leaving the alternate screen, on a terminal of any shape. */
  function Restored(s: RawState): RawState {
    s.(cursor := s.saved.cursor, style := s.saved.style, modes := s.modes.(wrap := s.saved.wrap),
       pendingWrap := s.saved.pendingWrap, dirty := s.dirty.(cursorChanged := true))
  }

  function Left(s: RawState): RawState
    requires s.alt.Some?
  {
    var a := s.alt.value;
    s.(alt := None, history := a.history, tiered := a.tiered, screen := a.screen,
       cursor := a.cursor, saved := s.saved.(cursor := a.savedCursor), style := a.style,
       pendingWrap := a.pendingWrap, modes := s.modes.(altScreen := false), dirty := s.dirty.MarkAll())
  }

  /** On well-formed terminals they are the operations themselves. */
  lemma OnStates(s: State)
    ensures Restored(s) == RestoreCursor(s)
    ensures s.alt.Some? ==> Left(s) == SetAltScreen(s, false)
  {
  }

  /** The raw grid, and the index of the cursor's row in it, counted from its end. */
  function Grid(s: RawState): seq<Row>
    requires s.tiered <= |s.history|
  {
    s.history[s.tiered..] + s.screen
  }

  function CursorIndex(s: RawState): int
    requires s.tiered <= |s.history|
  {
    |Grid(s)| - s.rows + s.cursor.row
  }

  /** Printing first reads the cursor's row, and then its cells from the one left of the cursor
      on, unless a pending wrap takes it to a new line. */
  predicate PrintAborts(s: RawState)
    requires s.tiered <= |s.history|
  {
    var i := CursorIndex(s);
    i < 0 || i >= |Grid(s)| || (!s.pendingWrap && s.cursor.col > |Grid(s)[i].cells|)
  }

  /** A well-formed terminal never does. */
  lemma PrintsOnStates(s: State)
    ensures !PrintAborts(s)
  {
    assert Grid(s)[CursorIndex(s)] == s.Row();
  }

  /** Resizing, restoring the cursor and printing aborts exactly if the saved cursor lies below
      the new screen, or more than one column right of it with no wrap pending. */
  lemma RestoreAbortsIff(s: State, cols: nat, rows: nat)
    requires 1 <= rows && 1 <= cols <= MAX_COLS
    ensures var r := Resized(s, cols, rows);
      PrintAborts(Restored(r)) <==>
        s.saved.cursor.row >= rows || (s.saved.cursor.col > cols && !s.saved.pendingWrap)
  {
    if cols == s.cols && rows == s.rows {
      OnStates(s);
      PrintsOnStates(RestoreCursor(s));
    } else {
      var r := Restored(Resized(s, cols, rows));
      assert Grid(r) == r.screen;
    }
  }

  /** Resizing while a screen is put aside, leaving the alternate screen and printing aborts
      exactly if the old cursor lies below the new screen, or the raw grid that comes back ends
      above it. */
  lemma LeaveAbortsIff(s: State, cols: nat, rows: nat)
    requires 1 <= rows && 1 <= cols <= MAX_COLS && s.alt.Some?
    ensures var a := s.alt.value;
      PrintAborts(Left(Resized(s, cols, rows))) <==>
        a.cursor.row >= rows || |a.history| - a.tiered + s.rows + a.cursor.row < rows
  {
    var a, l := s.alt.value, Left(Resized(s, cols, rows));
    var i, h := CursorIndex(l), |a.history| - a.tiered;
    if 0 <= i < |Grid(l)| {
      assert Grid(l)[i] == if i < h then a.history[a.tiered + i] else a.screen[i - h];
      assert |Grid(l)[i].cells| == s.cols;
    }
  }

  /** A new terminal of any size gets there: save the cursor at the bottom, make the screen
      lower, restore the cursor and print. */
  lemma SavedBelow(cols: nat, rows: nat, limit: nat, newRows: nat)
    requires 1 <= newRows < rows < U16_MAX && 1 <= cols <= MAX_COLS
    ensures var r := Run(Fresh(cols, rows, limit), [MoveCursor(0, rows - 1), SaveCursorEvent]);
      r.Some? && PrintAborts(Restored(Resized(r.value, cols, newRows)))
  {
    var f := Fresh(cols, rows, limit);
    var m := CursorPosition(f, 0, rows - 1);
    TwoEvents(f, MoveCursor(0, rows - 1), SaveCursorEvent);
    RestoreAbortsIff(SaveCursor(m), cols, newRows);
  }

  /** Or: print from the bottom row on, open a full screen program, make the window lower while it
      runs, and leave it. */
  lemma LeftBelow(cols: nat, rows: nat, limit: nat, newRows: nat)
    requires 1 <= newRows < rows < U16_MAX && 1 <= cols <= MAX_COLS
    ensures var r := Run(Fresh(cols, rows, limit), [MoveCursor(0, rows - 1), AltScreen(true)]);
      r.Some? && r.value.alt.Some? && PrintAborts(Left(Resized(r.value, cols, newRows)))
  {
    var f := Fresh(cols, rows, limit);
    var m := CursorPosition(f, 0, rows - 1);
    TwoEvents(f, MoveCursor(0, rows - 1), AltScreen(true));
    LeaveAbortsIff(SetAltScreen(m, true), cols, newRows);
  }

  lemma TwoEvents(s: State, a: Event, b: Event)
    requires !Aborts(s, a) && !Aborts(Apply(s, a), b)
    ensures Run(s, [a, b]) == Some(Apply(Apply(s, a), b))
  {
    assert [a, b][1..] == [b] && [b][1..] == [];
    assert Run(Apply(s, a), [b]) == Run(Apply(Apply(s, a), b), []);
  }
}
