/** Laws of the screen that relate several operations: clearing, moving and saving the
    cursor. */
module ScreenLaws {
  import opened Cells
  import opened TerminalSpec
  import opened TerminalRuns

  // ---- Erasing ---------------------------------------------------------------------------

  /** Erasing to both ends of the screen leaves blank cells everywhere, but unlike erasing it
      whole keeps every row's wrapped flag. */
  lemma EraseBothWays(s: State)
    ensures var r := ClearScreen(ClearScreen(s, 0), 1);
      && r.history == s.history && r.cursor == s.cursor
      && forall v :: 0 <= v < s.rows ==> r.screen[v] == Row(Blanks(s.cols), s.screen[v].isWrapped)
  {
    var m := ClearScreen(s, 0);
    assert m.screen == ClearBelow(s) && m.cursor == s.cursor;
    forall v | 0 <= v < s.rows ensures ClearScreen(m, 1).screen[v] == Row(Blanks(s.cols), s.screen[v].isWrapped) {
      ErasedRow(s, m, v);
    }
  }

  lemma ErasedRow(s: State, m: State, v: nat)
    requires v < s.rows == m.rows && m.cols == s.cols && m.cursor == s.cursor && m.screen == ClearBelow(s)
    ensures RowAbove(m, v) == Row(Blanks(s.cols), s.screen[v].isWrapped)
  {
    var cells := RowAbove(m, v).cells;
    assert m.screen[v] == RowBelow(s, v);
    forall k | 0 <= k < s.cols ensures cells[k] == EMPTY_CELL {
    }
    assert cells == Blanks(s.cols);
  }

  // ---- Moving -----------------------------------------------------------------------------

  /** Of `n` steps down, those that scroll because the cursor is at the bottom. */
  function Scrolls(s: State, n: nat): nat {
    if s.cursor.row + n < s.rows then 0 else s.cursor.row + n - (s.rows - 1)
  }

  /** Moving down `n` rows is moving to the bottom row and scrolling by what is left. */
  lemma {:induction false} DownStepsClosed(s: State, n: nat)
    ensures var r, scrolled := DownSteps(s, n), ScrollUpTimes(s, Scrolls(s, n));
      && r.cursor == s.cursor.(row := s.cursor.row + n - Scrolls(s, n))
      && r.screen == scrolled.screen && r.history == scrolled.history && r.tiered == scrolled.tiered
  {
    if n > 0 {
      var m := n - 1;
      DownStepsClosed(s, m);
      if s.cursor.row + n >= s.rows {
        SameScroll(DownSteps(s, m), ScrollUpTimes(s, Scrolls(s, m)));
        ScrollNext(s, Scrolls(s, m), Scrolls(s, n));
      }
    }
  }

  lemma ScrollNext(s: State, m: nat, n: nat)
    requires n == m + 1
    ensures ScrollUpTimes(s, n) == ScrollUpOne(ScrollUpTimes(s, m))
  {
  }

  lemma SameScroll(a: State, b: State)
    requires a.screen == b.screen && a.history == b.history && a.tiered == b.tiered && SameGeometry(a, b)
    ensures ScrollUpOne(a).screen == ScrollUpOne(b).screen
    ensures ScrollUpOne(a).history == ScrollUpOne(b).history && ScrollUpOne(a).tiered == ScrollUpOne(b).tiered
  {
  }

  /** Steps right that stay on the line are undone by as many steps left. */
  lemma {:induction false} ForwardThenBack(s: State, n: nat)
    requires s.cursor.col + n < s.cols
    ensures var r := ForwardSteps(s, n);
      && r.cursor == s.cursor.(col := s.cursor.col + n) && r.screen == s.screen && r.history == s.history
      && BackSteps(r, n).cursor == s.cursor && BackSteps(r, n).screen == s.screen
  {
    if n > 0 {
      ForwardThenBack(s, n - 1);
    }
    BackStepsClosed(ForwardSteps(s, n), n);
  }

  /** A tab goes to the next column that is a multiple of eight, or to the last one. */
  lemma TabIsNextStop(s: State)
    ensures var c := Tab(s).cursor.col;
      && s.cursor.col <= c && (c % 8 == 0 || c == s.cols - 1)
      && (s.cursor.col == c ==> c == s.cols - 1)
      && forall k :: s.cursor.col < k < c ==> k % 8 != 0
  {
  }

  // ---- The saved cursor -----------------------------------------------------------------------

  predicate LeavesSaved(es: seq<Event>) {
    forall i :: 0 <= i < |es| ==> !es[i].SaveCursorEvent? && !es[i].AltScreen?
  }

  /** Whatever happens between saving and restoring, short of saving again and switching
      screens: position, visibility, style, autowrap and pending wrap come back. */
  lemma SavedCursorReturns(s: State, es: seq<Event>)
    requires LeavesSaved(es) && Run(SaveCursor(s), es).Some?
    ensures var r := RestoreCursor(Run(SaveCursor(s), es).value);
      && r.cursor == s.cursor && r.style == s.style && r.modes.wrap == s.modes.wrap && r.pendingWrap == s.pendingWrap
  {
    SavedIsKept(SaveCursor(s), es);
  }

  lemma {:induction false} SavedIsKept(s: State, es: seq<Event>)
    requires LeavesSaved(es) && Run(s, es).Some?
    ensures Run(s, es).value.saved == s.saved
    decreases |es|
  {
    if es != [] {
      SavedIsKept(Apply(s, es[0]), es[1..]);
    }
  }
}
