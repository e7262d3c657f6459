/** Whole runs of the terminal: what every run keeps, exactly which runs abort, what a
    visit to the alternate screen leaves behind, and the laws of inserting and deleting. */
module TerminalRuns {
  import opened Cells
  import opened TerminalSpec

  /** Events applied in order; `None` once one of them aborts the program. */
  function Run(s: State, es: seq<Event>): Option<State>
    decreases |es|
  {
    if es == [] then Some(s)
    else if Aborts(s, es[0]) then None
    else Run(Apply(s, es[0]), es[1..])
  }

  /** One event alone. */
  lemma RunsOne(s: State, e: Event)
    ensures Run(s, [e]) == if Aborts(s, e) then None else Some(Apply(s, e))
  {
    assert [e][1..] == [];
  }

  lemma OneMotion(s: State, e: Event, r: State)
    requires Run(s, [e]) == Some(r) && e.IsMotion()
    ensures r == ApplyMotion(s, e)
  {
    RunsOne(s, e);
  }

  lemma OneEdit(s: State, e: Event, r: State)
    requires Run(s, [e]) == Some(r) && e.IsEdit()
    ensures r == ApplyEdit(s, e)
  {
    RunsOne(s, e);
  }

  lemma OneMode(s: State, e: Event, r: State)
    requires Run(s, [e]) == Some(r) && e.IsMode()
    ensures r == ApplyMode(s, e)
  {
    RunsOne(s, e);
  }

  // ---- What every run keeps -----------------------------------------------------------

  lemma {:induction false} RunKeepsGeometry(s: State, es: seq<Event>)
    ensures Run(s, es).Some? ==> SameGeometry(s, Run(s, es).value)
    decreases |es|
  {
    if es != [] && !Aborts(s, es[0]) {
      RunKeepsGeometry(Apply(s, es[0]), es[1..]);
    }
  }

  function HistoryBound(limit: nat): nat {
    if HOT_CAP <= limit + 1 then limit + 1 else HOT_CAP
  }

  /** After any events from a fresh terminal that do not abort: the geometry is the same,
      the raw grid holds between `rows` and `rows + HOT_CAP` rows, the history is bounded,
      every row has `cols` cells, no empty cell carries a style, and the cursor is on the
      screen. */
  lemma EventRunInvariant(cols: nat, rows: nat, limit: nat, es: seq<Event>)
    requires 1 <= rows && 1 <= cols <= MAX_COLS
    ensures Run(Fresh(cols, rows, limit), es).Some? ==>
      var r := Run(Fresh(cols, rows, limit), es).value;
      && r.cols == cols && |r.screen| == r.rows == rows
      && rows <= |r.Flat()| - r.tiered <= rows + HOT_CAP
      && |r.history| <= HistoryBound(limit)
      && (forall i, k :: 0 <= i < |r.Flat()| && 0 <= k < cols ==>
            |r.Flat()[i].cells| == cols && r.Flat()[i].cells[k].IsNormal())
      && r.cursor.col < cols && r.cursor.row < rows
  {
    RunKeepsGeometry(Fresh(cols, rows, limit), es);
    if Run(Fresh(cols, rows, limit), es).Some? {
      var r := Run(Fresh(cols, rows, limit), es).value;
      FlatIsOk(r);
    }
  }

  lemma FlatIsOk(s: State)
    ensures RowsOk(s.Flat(), s.cols)
  {
    var flat, h := s.Flat(), |s.history|;
    forall i | 0 <= i < |flat| ensures RowOk(flat[i], s.cols) {
      assert flat[i] == if i < h then s.history[i] else s.screen[i - h];
    }
  }

  /** The only event that can abort is an insertion of more cells than remain on the line,
      so a run aborts exactly if one of its events is that. */
  ghost predicate OversizeInsertAt(s: State, es: seq<Event>, k: nat) {
    k < |es| && Run(s, es[..k]).Some? &&
    es[k].InsertCharsEvent? && es[k].n > s.cols - Run(s, es[..k]).value.cursor.col
  }

  lemma {:induction false} RunAbortsIff(s: State, es: seq<Event>)
    ensures Run(s, es).None? <==> exists k: nat :: OversizeInsertAt(s, es, k)
    decreases |es|
  {
    if es == [] {
    } else if Aborts(s, es[0]) {
      assert es[..0] == [];
      assert OversizeInsertAt(s, es, 0);
    } else {
      var t, rest := Apply(s, es[0]), es[1..];
      RunAbortsIff(t, rest);
      assert es[..0] == [];
      forall k: nat | k < |rest| ensures OversizeInsertAt(t, rest, k) == OversizeInsertAt(s, es, k + 1) {
        RunSplitsFirst(s, es, k);
      }
      if Run(s, es).None? {
        var k: nat :| OversizeInsertAt(t, rest, k);
        assert OversizeInsertAt(s, es, k + 1);
      }
      if k: nat :| OversizeInsertAt(s, es, k) {
        assert k > 0 ==> OversizeInsertAt(t, rest, k - 1);
      }
    }
  }

  lemma RunSplitsFirst(s: State, es: seq<Event>, k: nat)
    requires k + 1 <= |es| && !Aborts(s, es[0])
    ensures Run(s, es[..k + 1]) == Run(Apply(s, es[0]), es[1..][..k])
  {
    assert es[..k + 1][0] == es[0] && es[..k + 1][1..] == es[1..][..k];
  }

  // ---- The scroll offset ---------------------------------------------------------------

  predicate OffsetInRange(s: State) { s.scrollOffset <= |s.history| }

  /** The events after which the window may reach above the first row: they replace the
      history and leave the offset alone. */
  predicate ReplacesHistory(s: State, e: Event) {
    e == EraseScreen(3) || (e.AltScreen? && e.alt != s.modes.altScreen)
  }

  /** How much history an event that replaces it leaves. */
  function HistoryLeft(s: State, e: Event): nat {
    if e == AltScreen(false) && s.alt.Some? then |s.alt.value.history| else 0
  }

  /** An event takes the offset out of range exactly if it leaves less history than that. */
  lemma OffsetStaysIff(s: State, e: Event)
    requires OffsetInRange(s) && !Aborts(s, e)
    ensures OffsetInRange(Apply(s, e)) <==> !ReplacesHistory(s, e) || s.scrollOffset <= HistoryLeft(s, e)
  {
  }

  /** Scrolled back at all, erasing the history or going to the alternate screen leaves an
      offset above the history, and the top row of the window is no row of it. */
  lemma OffsetIsLost(s: State, e: Event)
    requires s.scrollOffset > 0 && (e == EraseScreen(3) || (e == AltScreen(true) && !s.modes.altScreen))
    ensures Run(s, [e]).Some? && !OffsetInRange(Run(s, [e]).value)
    ensures var r := Run(s, [e]).value; WindowRow(r.Flat(), r.rows, r.scrollOffset, 0) == OutOfRange()
  {
    assert [e][1..] == [];
    assert Run(s, [e]) == Some(Apply(s, e));
  }

  /** Over every run without the two the history never shrinks and the offset stays in range. */
  lemma {:induction false} HistoryNeverShrinks(s: State, es: seq<Event>)
    requires Run(s, es).Some? && forall i :: 0 <= i < |es| ==> !es[i].AltScreen? && es[i] != EraseScreen(3)
    ensures |s.history| <= |Run(s, es).value.history|
    ensures OffsetInRange(s) ==> OffsetInRange(Run(s, es).value)
    decreases |es|
  {
    if es != [] {
      HistoryNeverShrinks(Apply(s, es[0]), es[1..]);
    }
  }

  // ---- The alternate screen -------------------------------------------------------------

  predicate StaysAlternate(es: seq<Event>) {
    forall k :: 0 <= k < |es| ==> es[k] != AltScreen(false)
  }

  /** Nothing but leaving the alternate screen touches what was put aside; entering it
      again has no effect at all. */
  lemma {:induction false} AltIsUntouched(s: State, es: seq<Event>)
    requires s.modes.altScreen && StaysAlternate(es)
    ensures Apply(s, AltScreen(true)) == s
    ensures Run(s, es).Some? ==> Run(s, es).value.alt == s.alt && Run(s, es).value.modes.altScreen
    decreases |es|
  {
    if es != [] && !Aborts(s, es[0]) {
      assert StaysAlternate(es[1..]);
      AltIsUntouched(Apply(s, es[0]), es[1..]);
    }
  }

  /** Entering, any events but leaving, leaving: the history with its tier boundary, the
      screen, the cursor, the saved cursor position, the style and the deferred wrap are
      back. Only the modes, the rest of the saved cursor, the repeatable character and the
      dirty bits may differ. */
  lemma AltBracket(s: State, es: seq<Event>)
    requires !s.modes.altScreen && StaysAlternate(es)
    requires Run(SetAltScreen(s, true), es).Some?
    ensures var r := SetAltScreen(Run(SetAltScreen(s, true), es).value, false);
      && r.saved.cursor == s.saved.cursor
      && r.modes.altScreen == s.modes.altScreen
      && r.(modes := s.modes, saved := s.saved, lastChar := s.lastChar, dirty := s.dirty) == s
  {
    AltIsUntouched(SetAltScreen(s, true), es);
    RunKeepsGeometry(SetAltScreen(s, true), es);
  }

  // ---- Inserting and deleting -------------------------------------------------------------

  /** Deleting the lines just inserted restores the screen but for its last lines, which
      were pushed off and come back blank; no scrollback row is touched. */
  lemma InsertThenDeleteLines(s: State, n: nat)
    ensures var k := Clamp(n, s.cursor.row, s.rows);
      var r := DeleteLines(InsertLines(s, n), n);
      && r.screen == s.screen[..s.rows - k] + BlankRows(k, s.cols)
      && r.history == s.history && r.tiered == s.tiered
  {
    var k := Clamp(n, s.cursor.row, s.rows);
    InsertDeleteRows(s.screen, s.cursor.row, k, s.cols);
  }

  lemma InsertDeleteRows(screen: seq<Row>, at: nat, k: nat, cols: nat)
    requires at + k <= |screen|
    ensures DeleteRows(InsertBlankRows(screen, at, k, cols), at, k, cols)
         == screen[..|screen| - k] + BlankRows(k, cols)
  {
    var up := InsertBlankRows(screen, at, k, cols);
    assert up[..at] == screen[..at];
    assert up[at + k..] == screen[at..|screen| - k];
    assert screen[..at] + screen[at..|screen| - k] == screen[..|screen| - k];
  }

  /** The same for cells, wherever the insertion does not abort. */
  lemma InsertThenDeleteChars(s: State, n: nat)
    requires !InsertCharsAborts(s, n)
    ensures var r := DeleteChars(InsertChars(s, n), n);
      && r.Row().cells == s.Row().cells[..s.cols - n] + Blanks(n)
      && (forall v :: 0 <= v < s.rows && v != s.cursor.row ==> r.screen[v] == s.screen[v])
      && r.history == s.history && r.tiered == s.tiered
  {
    InsertDeleteCells(s.Row().cells, s.cursor.col, n);
  }

  lemma InsertDeleteCells(cells: seq<Cell>, at: nat, n: nat)
    requires at + n <= |cells|
    ensures DeleteCells(InsertBlankCells(cells, at, n), at, n) == cells[..|cells| - n] + Blanks(n)
  {
    var up := InsertBlankCells(cells, at, n);
    assert up[..at] == cells[..at];
    assert up[at + n..] == cells[at..|cells| - n];
    assert cells[..at] + cells[at..|cells| - n] == cells[..|cells| - n];
  }

  /** Moving back step by step ends where one clamped move ends. */
  lemma {:induction false} BackStepsClosed(s: State, n: nat)
    ensures BackSteps(s, n).cursor == s.cursor.(col := if n <= s.cursor.col then s.cursor.col - n else 0)
    ensures BackSteps(s, n).screen == s.screen && BackSteps(s, n).history == s.history
  {
    if n > 0 {
      BackStepsClosed(s, n - 1);
    }
  }
}
