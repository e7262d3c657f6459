/** What erasing, inserting, deleting and resizing do to every cell: each event through a run of
    it alone, row by row and column by column. */
module EditEffects {
  import opened Cells
  import opened DirtyTracking
  import opened TerminalSpec
  import opened TerminalRuns

  /** Nothing but the rows of the screen and the dirty bits is touched. */
  predicate OnlyScreen(s: State, r: State) {
    r == s.(screen := r.screen, dirty := r.dirty)
  }

  /** Nothing but the cursor's row is, and that row is marked. */
  predicate OnlyCursorRow(s: State, r: State) {
    && OnlyScreen(s, r) && r.dirty == s.dirty.MarkRow(s.cursor.row)
    && (forall v :: 0 <= v < s.rows && v != s.cursor.row ==> r.screen[v] == s.screen[v])
  }

  // ---- Lines ---------------------------------------------------------------------------------

  /** The rows above the cursor stay, those from `k` below it on move up, and blank ones enter at
      the bottom. */
  predicate LinesMovedUp(screen: seq<Row>, r: seq<Row>, at: nat, k: nat, cols: nat) {
    && |r| == |screen|
    && (forall v :: 0 <= v < |r| && v < at ==> r[v] == screen[v])
    && (forall v :: at <= v < |r| - k ==> r[v] == screen[v + k])
    && (forall v :: 0 <= v < |r| && at <= v && |r| - k <= v ==> r[v] == BlankRow(cols))
  }

  /** Deleting lines: no row of the history changes, and everything is marked. */
  lemma LinesDeleted(s: State, n: nat, r: State)
    requires Run(s, [DeleteLinesEvent(n)]) == Some(r)
    ensures LinesMovedUp(s.screen, r.screen, s.cursor.row, Min(n, s.rows - s.cursor.row), s.cols)
    ensures OnlyScreen(s, r) && r.dirty == s.dirty.MarkAll()
  {
    OneEdit(s, DeleteLinesEvent(n), r);
    DeletesLines(s, n);
  }

  lemma DeletesLines(s: State, n: nat)
    ensures var r := DeleteLines(s, n);
      && LinesMovedUp(s.screen, r.screen, s.cursor.row, Min(n, s.rows - s.cursor.row), s.cols)
      && OnlyScreen(s, r) && r.dirty == s.dirty.MarkAll()
  {
    DeletedAt(s.screen, s.cursor.row, Min(n, s.rows - s.cursor.row), s.cols);
  }

  lemma DeletedAt(screen: seq<Row>, at: nat, k: nat, cols: nat)
    requires at + k <= |screen|
    ensures LinesMovedUp(screen, DeleteRows(screen, at, k, cols), at, k, cols)
  {
  }

  /** The rows above the cursor stay, `k` blank ones enter at it, the others move down. */
  predicate LinesMovedDown(screen: seq<Row>, r: seq<Row>, at: nat, k: nat, cols: nat) {
    && |r| == |screen|
    && (forall v :: 0 <= v < |r| && v < at ==> r[v] == screen[v])
    && (forall v :: 0 <= v < |r| && at <= v < at + k ==> r[v] == BlankRow(cols))
    && (forall v :: at + k <= v < |r| ==> r[v] == screen[v - k])
  }

  /** Inserting lines: no row of the history changes, and everything is marked. */
  lemma LinesInserted(s: State, n: nat, r: State)
    requires Run(s, [InsertLinesEvent(n)]) == Some(r)
    ensures LinesMovedDown(s.screen, r.screen, s.cursor.row, Min(n, s.rows - s.cursor.row), s.cols)
    ensures OnlyScreen(s, r) && r.dirty == s.dirty.MarkAll()
  {
    OneEdit(s, InsertLinesEvent(n), r);
    InsertsLines(s, n);
  }

  lemma InsertsLines(s: State, n: nat)
    ensures var r := InsertLines(s, n);
      && LinesMovedDown(s.screen, r.screen, s.cursor.row, Min(n, s.rows - s.cursor.row), s.cols)
      && OnlyScreen(s, r) && r.dirty == s.dirty.MarkAll()
  {
    InsertedAt(s.screen, s.cursor.row, Min(n, s.rows - s.cursor.row), s.cols);
  }

  lemma InsertedAt(screen: seq<Row>, at: nat, k: nat, cols: nat)
    requires at + k <= |screen|
    ensures LinesMovedDown(screen, InsertBlankRows(screen, at, k, cols), at, k, cols)
  {
  }

  // ---- Cells of a line ---------------------------------------------------------------------------

  /** The cells left of `at` stay, those from `k` right of it on move left, and empty ones enter at
      the end. */
  predicate CellsMovedLeft(cells: seq<Cell>, r: seq<Cell>, at: nat, k: nat) {
    && |r| == |cells|
    && (forall c :: 0 <= c < |r| && c < at ==> r[c] == cells[c])
    && (forall c :: at <= c < |r| - k ==> r[c] == cells[c + k])
    && (forall c :: 0 <= c < |r| && at <= c && |r| - k <= c ==> r[c] == EMPTY_CELL)
  }

  /** Deleting cells: the line keeps its wrapped flag, and no other line changes. */
  lemma CellsDeleted(s: State, n: nat, r: State)
    requires Run(s, [DeleteCharsEvent(n)]) == Some(r)
    ensures CellsMovedLeft(s.Row().cells, r.Row().cells, s.cursor.col, Min(n, s.cols - s.cursor.col))
    ensures OnlyCursorRow(s, r) && r.Row().isWrapped == s.Row().isWrapped
  {
    OneEdit(s, DeleteCharsEvent(n), r);
    DeletesCells(s, n);
  }

  lemma DeletesCells(s: State, n: nat)
    ensures var r := DeleteChars(s, n);
      && CellsMovedLeft(s.Row().cells, r.Row().cells, s.cursor.col, Min(n, s.cols - s.cursor.col))
      && OnlyCursorRow(s, r) && r.Row().isWrapped == s.Row().isWrapped
  {
    var k := Min(n, s.cols - s.cursor.col);
    CellsDeletedAt(s.Row().cells, s.cursor.col, k);
    CellsSet(s, DeleteCells(s.Row().cells, s.cursor.col, k));
  }

  lemma CellsDeletedAt(cells: seq<Cell>, at: nat, k: nat)
    requires at + k <= |cells|
    ensures CellsMovedLeft(cells, DeleteCells(cells, at, k), at, k)
  {
  }

  lemma CellsSet(s: State, cells: seq<Cell>)
    requires |cells| == s.cols && NormalCells(cells)
    ensures OnlyCursorRow(s, SetCells(s, cells)) && SetCells(s, cells).Row() == Row(cells, s.Row().isWrapped)
  {
  }

  /** The cells left of `at` stay, `k` empty ones enter at it, the others move right. */
  predicate CellsMovedRight(cells: seq<Cell>, r: seq<Cell>, at: nat, k: nat) {
    && |r| == |cells|
    && (forall c :: 0 <= c < |r| && c < at ==> r[c] == cells[c])
    && (forall c :: 0 <= c < |r| && at <= c < at + k ==> r[c] == EMPTY_CELL)
    && (forall c :: at + k <= c < |r| ==> r[c] == cells[c - k])
  }

  /** Inserting cells: it aborts exactly if there are more than the line has left; the line keeps
      its wrapped flag, and no other line changes. */
  lemma CellsInserted(s: State, n: nat)
    ensures Run(s, [InsertCharsEvent(n)]).Some? <==> s.cursor.col + n <= s.cols
    ensures s.cursor.col + n <= s.cols ==>
      var r := Run(s, [InsertCharsEvent(n)]).value;
      && CellsMovedRight(s.Row().cells, r.Row().cells, s.cursor.col, n)
      && OnlyCursorRow(s, r) && r.Row().isWrapped == s.Row().isWrapped
  {
    RunsOne(s, InsertCharsEvent(n));
    if s.cursor.col + n <= s.cols {
      AppliesInsert(s, n);
      InsertsCells(s, n);
    }
  }

  lemma InsertsCells(s: State, n: nat)
    requires s.cursor.col + n <= s.cols
    ensures var r := InsertChars(s, n);
      && CellsMovedRight(s.Row().cells, r.Row().cells, s.cursor.col, n)
      && OnlyCursorRow(s, r) && r.Row().isWrapped == s.Row().isWrapped
  {
    CellsInsertedAt(s.Row().cells, s.cursor.col, n);
    CellsSet(s, InsertBlankCells(s.Row().cells, s.cursor.col, n));
  }

  lemma CellsInsertedAt(cells: seq<Cell>, at: nat, k: nat)
    requires at + k <= |cells|
    ensures CellsMovedRight(cells, InsertBlankCells(cells, at, k), at, k)
  {
  }

  // ---- Erasing ------------------------------------------------------------------------------------

  /** The cells that erasing the screen makes empty: from the cursor on, up to and including it,
      or all. */
  predicate ScreenErases(s: State, mode: nat, v: nat, c: nat) {
    if mode == 0 then v > s.cursor.row || (v == s.cursor.row && c >= s.cursor.col)
    else if mode == 1 then v < s.cursor.row || (v == s.cursor.row && c <= s.cursor.col)
    else mode <= 3
  }

  predicate LineErases(s: State, mode: nat, c: nat) {
    if mode == 0 then c >= s.cursor.col
    else if mode == 1 then c <= s.cursor.col
    else mode == 2
  }

  predicate Erases(s: State, mode: nat, screen: seq<Row>) {
    && |screen| == s.rows && (forall v :: 0 <= v < s.rows ==> |screen[v].cells| == s.cols)
    && (forall v, c :: 0 <= v < s.rows && 0 <= c < s.cols ==>
          screen[v].cells[c] == (if ScreenErases(s, mode, v, c) then EMPTY_CELL else s.screen[v].cells[c]))
    && (forall v :: 0 <= v < s.rows ==> screen[v].isWrapped == (s.screen[v].isWrapped && (mode < 2 || mode > 3)))
  }

  /** Erasing the screen, every mode: exactly the cells named above become empty. Part of the
      screen keeps the wrapped flags; the whole loses them, and sends the cursor home; mode 3 drops
      the history too. */
  lemma ScreenErased(s: State, mode: nat, r: State)
    requires Run(s, [EraseScreen(mode)]) == Some(r)
    ensures ErasedTo(s, mode, r)
  {
    RunsOne(s, EraseScreen(mode));
    AppliesErase(s, mode);
    ScreenCleared(s, mode);
  }

  predicate ErasedTo(s: State, mode: nat, r: State) {
    && Erases(s, mode, r.screen)
    && if mode <= 1 then r == s.(screen := r.screen, dirty := s.dirty.MarkAll().(cursorChanged := true))
       else if mode <= 3 then
         r == s.(history := if mode == 3 then [] else s.history, tiered := if mode == 3 then 0 else s.tiered,
                 screen := r.screen, cursor := Cursor(0, 0, s.cursor.isHidden), pendingWrap := false,
                 dirty := s.dirty.MarkAll().(cursorChanged := true))
       else r == s.(dirty := s.dirty.(cursorChanged := true))
  }

  lemma ScreenCleared(s: State, mode: nat)
    ensures ErasedTo(s, mode, ClearScreen(s, mode))
  {
    if mode <= 1 {
      PartErased(s, mode);
    } else if mode <= 3 {
      AllErased(s, mode == 3);
    }
  }

  lemma PartErased(s: State, mode: nat)
    requires mode <= 1
    ensures var r := ClearScreen(s, mode);
      Erases(s, mode, r.screen) && r == s.(screen := r.screen, dirty := s.dirty.MarkAll().(cursorChanged := true))
  {
    if mode == 0 {
      BelowErased(s);
    } else {
      AboveErased(s);
    }
  }

  lemma BelowErased(s: State)
    ensures Erases(s, 0, ClearBelow(s))
  {
    forall v | 0 <= v < s.rows ensures ClearBelow(s)[v] == RowBelow(s, v) {
    }
  }

  lemma AboveErased(s: State)
    ensures Erases(s, 1, ClearAbove(s))
  {
    forall v | 0 <= v < s.rows ensures ClearAbove(s)[v] == RowAbove(s, v) {
    }
  }

  lemma AllErased(s: State, dropHistory: bool)
    ensures var r := Wiped(s, dropHistory);
      && Erases(s, if dropHistory then 3 else 2, r.screen)
      && r == s.(history := if dropHistory then [] else s.history, tiered := if dropHistory then 0 else s.tiered,
                 screen := r.screen, cursor := Cursor(0, 0, s.cursor.isHidden), pendingWrap := false,
                 dirty := s.dirty.MarkAll().(cursorChanged := true))
  {
    assert Wiped(s, dropHistory).screen == BlankRows(s.rows, s.cols);
  }

  /** Erasing the line, every mode: exactly the cells named above become empty, and the row keeps
      its wrapped flag unless it is erased whole. */
  lemma LineErased(s: State, mode: nat, r: State)
    requires Run(s, [EraseLine(mode)]) == Some(r)
    ensures OnlyCursorRow(s, r)
    ensures forall c :: 0 <= c < s.cols ==>
      r.Row().cells[c] == (if LineErases(s, mode, c) then EMPTY_CELL else s.Row().cells[c])
    ensures r.Row().isWrapped == (s.Row().isWrapped && mode != 2)
  {
    RunsOne(s, EraseLine(mode));
    AppliesLine(s, mode);
    LineCleared(s, mode);
    if mode <= 2 {
      RowErased(s, mode);
    }
  }

  lemma LineCleared(s: State, mode: nat)
    ensures var r := ClearLine(s, mode);
      OnlyCursorRow(s, r) && r.Row() == (if mode > 2 then s.Row() else ErasedLine(s, mode))
  {
  }

  lemma RowErased(s: State, mode: nat)
    requires mode <= 2
    ensures var row := ErasedLine(s, mode);
      && row.isWrapped == (s.Row().isWrapped && mode != 2)
      && forall c :: 0 <= c < s.cols ==>
           row.cells[c] == (if LineErases(s, mode, c) then EMPTY_CELL else s.Row().cells[c])
  {
  }

  // ---- Resizing -------------------------------------------------------------------------------------

  /** The rows that the grid holds: the history that is not tiered, then the screen. */
  function Grid(s: State): seq<Row> { s.history[s.tiered..] + s.screen }

  /** Row `v` after a resize: row `first + v` of the grid, cut or padded with empty cells, with its
      wrapped flag; below the last one a blank row. */
  predicate ResizedAs(g: seq<Row>, width: nat, i: nat, row: Row, cols: nat) {
    && |row.cells| == cols
    && row.isWrapped == (i < |g| && g[i].isWrapped)
    && (forall c :: 0 <= c < cols ==>
          row.cells[c] == (if i < |g| && c < width && c < |g[i].cells| then g[i].cells[c] else EMPTY_CELL))
  }

  /** Resizing: the last rows of the grid stay, from the top if there are fewer. */
  lemma RowsResized(s: State, cols: nat, rows: nat)
    requires 1 <= rows && 1 <= cols && (cols != s.cols || rows != s.rows)
    ensures var g, r := Grid(s), Resized(s, cols, rows);
      var first := if |g| > rows then |g| - rows else 0;
      |r.screen| == rows && forall v :: 0 <= v < rows ==> ResizedAs(g, s.cols, first + v, r.screen[v], cols)
  {
    var g := Grid(s);
    GridOk(s);
    forall v | 0 <= v < rows
      ensures ResizedAs(g, s.cols, (if |g| > rows then |g| - rows else 0) + v, Resized(s, cols, rows).screen[v], cols)
    {
      RowResized(g, s.cols, cols, rows, v);
    }
  }

  lemma RowResized(g: seq<Row>, width: nat, cols: nat, rows: nat, v: nat)
    requires RowsOk(g, width) && v < rows
    ensures ResizedAs(g, width, (if |g| > rows then |g| - rows else 0) + v,
                      ResizedRow(LastRows(g, cols, rows)[v], cols), cols)
  {
    var row := LastRows(g, cols, rows)[v];
    assert row == if |g| > rows then g[|g| - rows + v] else if v < |g| then g[v] else BlankRow(cols);
  }

  lemma GridOk(s: State)
    ensures RowsOk(Grid(s), s.cols)
  {
    FlatIsOk(s);
    forall i | 0 <= i < |Grid(s)| ensures RowOk(Grid(s)[i], s.cols) {
      assert Grid(s)[i] == s.Flat()[s.tiered + i];
    }
  }

  /** And nothing else changes but what goes with it: no history is left, the cursor is put back
      onto the screen, the window is at the bottom, everything is marked. */
  lemma RestResized(s: State, cols: nat, rows: nat)
    requires 1 <= rows && 1 <= cols
    ensures var r := Resized(s, cols, rows);
      if cols == s.cols && rows == s.rows then r == s
      else
        && r.history == [] && r.tiered == 0 && r.cols == cols && r.rows == rows
        && r.cursor.col == (if s.cursor.col < cols then s.cursor.col else cols - 1)
        && r.cursor.row == (if s.cursor.row < rows then s.cursor.row else rows - 1)
        && !r.pendingWrap && r.scrollOffset == 0 && r.dirty == Dirty(0, rows, false, 0, true)
        && r == s.(cols := cols, rows := rows, history := [], tiered := 0, screen := r.screen,
                   cursor := s.cursor.(col := r.cursor.col, row := r.cursor.row), pendingWrap := false,
                   scrollOffset := 0, dirty := r.dirty)
  {
  }
}
