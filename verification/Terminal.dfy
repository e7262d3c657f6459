/** The terminal as the program keeps it: one history in three physical tiers, updated
    in place. Every method is proved to follow its function in `TerminalSpec`. */
module Terminal {
  import opened Cells
  import opened DirtyTracking
  import opened SpanCodec
  import opened TerminalStore
  import opened Tiers
  import Spec = TerminalSpec

  class TerminalState {
    var cols: u16
    var rows: nat
    var grid: seq<Row>
    var cursor: Spec.Cursor
    var style: Spec.Style
    var modes: Spec.Modes
    var scrollOffset: nat
    var scrollbackLimit: nat
    var tiers: EncodedTiers
    var viewport: Option<Window>
    var coldCache: Option<Window>
    var saved: Spec.SavedCursor
    var alt: Option<SavedScreen>
    var lastChar: Option<Spec.Char>
    var pendingWrap: bool
    var dirty: Dirty

    /** The same terminal as a value; every method keeps the fields equal to it. */
    ghost var model: Spec.State

    ghost function Value(): Concrete
      reads this
    {
      Concrete(
        Store(cols, rows, grid, tiers, coldCache, alt), cursor, style, pendingWrap, modes, saved,
        lastChar, scrollOffset, scrollbackLimit, dirty)
    }

    ghost predicate Valid()
      reads this
    {
      Refines(Value(), model)
    }

    ghost function Caches(): Caches
      reads this
    {
      CachesOf(Value())
    }

    constructor (cols: u16, rows: nat)
      requires 1 <= rows && 1 <= cols <= Spec.MAX_COLS
      ensures Valid() && model == Spec.Fresh(cols, rows, 10_000)
    {
      this.cols, this.rows := cols, rows;
      grid := BlankRows(rows, cols);
      cursor := Spec.Cursor(0, 0, false);
      style := Spec.Style(0, 0, 0);
      modes := Spec.Modes(true, true, false);
      scrollOffset, scrollbackLimit := 0, 10_000;
      tiers := NO_TIERS;
      viewport, coldCache := None, None;
      saved := Spec.SavedCursor(Spec.Cursor(0, 0, false), Spec.Style(0, 0, 0), true, false);
      alt, lastChar := None, None;
      pendingWrap := false;
      dirty := Clean(rows);
      model := Spec.Fresh(cols, rows, 10_000);
      new;
      EmptyTiers(cols);
      assert grid[..0] == [] && grid[0..] == grid;
    }

    // ---- Tiered scrollback ----------------------------------------------------------

    method EncodeRow(row: Row)
      requires TiersReady(tiers, cols) && RowOk(row, cols)
      modifies this`tiers
      ensures TiersOk(tiers, cols) && tiers.count == old(tiers).count + 1
      ensures TieredRows(tiers, cols) == TieredRows(old(tiers), cols) + [row]
    {
      TierRow(tiers, cols, row);
      var scratch, wrapped := EncodeRowInto(row.cells, row.isWrapped, tiers.scratch, tiers.wrapped, tiers.count);
      tiers := tiers.(scratch := scratch, wrapped := wrapped, count := tiers.count + 1);
      assert tiers == WithRow(old(tiers), row);
    }

    method FlushColdBlock()
      requires TiersOk(tiers, cols) && (tiers.count == 0 || tiers.count == BLOCK_ROWS)
      modifies this`tiers
      ensures TiersOk(tiers, cols) && tiers.count == 0
      ensures TieredRows(tiers, cols) == TieredRows(old(tiers), cols)
    {
      if tiers.count == 0 {
        tiers := tiers.(scratch := [], wrapped := []);
        assert tiers == old(tiers);
        return;
      }
      FlushKeepsRows(tiers, cols);
      var blk := ColdBlock(tiers.count, cols, tiers.wrapped, tiers.scratch);
      tiers := EncodedTiers(tiers.cold.PushBack(blk), [], [], 0);
    }

    /** Steady state: the oldest raw row is tiered, or dropped at the history cap, and
        its buffer becomes the new bottom row. */
    method RecycleOldest()
      requires TiersReady(tiers, cols) && |grid| > rows && RowOk(grid[0], cols)
      modifies this`grid, this`tiers
      ensures TiersReady(tiers, cols) && grid == old(grid)[1..] + [BlankRow(cols)]
      ensures var t := TieredRows(old(tiers), cols);
        TieredRows(tiers, cols) == if |t| + |old(grid)| - 1 - rows < scrollbackLimit then t + [old(grid)[0]] else t
    {
      var oldest := grid[0];
      grid := grid[1..];
      var room := tiers.cold.totalRows + tiers.count + (|grid| - rows) < scrollbackLimit;
      if room {
        EncodeRow(oldest);
      }
      grid := grid + [BlankRow(cols)];
      if tiers.count >= BLOCK_ROWS {
        FlushColdBlock();
      }
    }

    /** A blank row enters at the bottom of the grid. */
    method ShiftGrid()
      requires TiersReady(tiers, cols) && 1 <= rows <= |grid| && RowOk(grid[0], cols)
      modifies this`grid, this`tiers
      ensures TiersReady(tiers, cols)
      ensures Shifts(TieredRows(old(tiers), cols), old(grid), rows, scrollbackLimit, BlankRow(cols),
                     TieredRows(tiers, cols), grid)
    {
      var gridCap := rows + Spec.HOT_CAP;
      if |grid| >= gridCap {
        RecycleOldest();
      } else {
        grid := grid + [BlankRow(cols)];
      }
    }

    method ScrollUpOne()
      requires Valid()
      modifies this`grid, this`dirty, this`tiers, this`model
      ensures Valid() && model == Spec.ScrollUpOne(old(model))
    {
      ghost var c := Value();
      TopRowOk(model, TieredRows(tiers, cols), grid);
      ShiftGrid();
      dirty := dirty.MarkScroll(1);
      assert Value() == Scrolled(c, grid, tiers);
      ScrolledRefines(c, model, grid, tiers);
      model := Spec.ScrollUpOne(model);
    }

    // ---- Small updates ----------------------------------------------------------------

    method MarkRow(row: nat)
      requires Valid()
      modifies this`dirty, this`model
      ensures Valid() && model == Spec.MarkRow(old(model), row)
    {
      dirty := dirty.MarkRow(row);
      model := Spec.MarkRow(model, row);
    }

    method MarkAll()
      requires Valid()
      modifies this`dirty, this`model
      ensures Valid() && model == Spec.MarkAll(old(model))
    {
      dirty := dirty.MarkAll();
      model := Spec.MarkAll(model);
    }

    method MarkCursor()
      requires Valid()
      modifies this`dirty, this`model
      ensures Valid() && model == Spec.MarkCursor(old(model))
    {
      dirty := dirty.(cursorChanged := true);
      model := Spec.MarkCursor(model);
    }

    method ClearPending()
      requires Valid()
      modifies this`pendingWrap, this`model
      ensures Valid() && model == Spec.ClearPending(old(model))
    {
      pendingWrap := false;
      model := Spec.ClearPending(model);
    }

    /** The cursor is put somewhere and flagged as changed. */
    method PlaceCursor(c: Spec.Cursor, pending: bool)
      requires Valid() && Spec.CursorOk(c, cols, rows)
      modifies this`cursor, this`pendingWrap, this`dirty, this`model
      ensures Valid() && model == Spec.Place(old(model), c, pending)
    {
      cursor := c;
      pendingWrap := pending;
      dirty := dirty.(cursorChanged := true);
      model := Spec.Place(model, c, pending);
    }

    /** A row of the screen is overwritten. */
    method SetVisibleRow(v: nat, row: Row)
      requires Valid() && v < rows && RowOk(row, cols)
      modifies this`grid, this`model
      ensures Valid() && model == Spec.SetRow(old(model), v, row)
    {
      SetGridRow(grid, rows, v, row);
      grid := grid[|grid| - rows + v := row];
      model := Spec.SetRow(model, v, row);
    }

    method VisibleScreenRow(v: nat) returns (row: Row)
      requires Valid() && v < rows
      ensures row == model.screen[v]
    {
      row := grid[|grid| - rows + v];
    }

    /** The cursor's row gets new cells and is marked. */
    method SetCells(cells: seq<Cell>)
      requires Valid() && |cells| == cols && NormalCells(cells)
      modifies this`grid, this`dirty, this`model
      ensures Valid() && model == Spec.SetCells(old(model), cells)
    {
      var row := VisibleScreenRow(cursor.row);
      SetVisibleRow(cursor.row, row.(cells := cells));
      MarkRow(cursor.row);
    }

    // ---- Scrolling ----------------------------------------------------------------------

    method ScrollUp(n: nat)
      requires Valid()
      modifies this`grid, this`dirty, this`tiers, this`model
      ensures Valid() && model == Spec.ScrollUp(old(model), n)
    {
      for i := 0 to n
        invariant Valid() && model == Spec.ScrollUpTimes(old(model), i)
      {
        ScrollUpOne();
      }
      MarkAll();
    }

    method ScrollDownOne()
      requires Valid()
      modifies this`grid, this`model
      ensures Valid() && model == Spec.ScrollDownOne(old(model))
    {
      ghost var g := grid;
      grid := grid[..|grid| - 1];
      grid := [BlankRow(cols)] + grid;
      ScrollDownSplits(model, TieredRows(tiers, cols), g, grid);
      model := Spec.ScrollDownOne(model);
    }

    method ScrollDown(n: nat)
      requires Valid()
      modifies this`grid, this`dirty, this`model
      ensures Valid() && model == Spec.ScrollDown(old(model), n)
    {
      for i := 0 to n
        invariant Valid() && model == Spec.ScrollDownTimes(old(model), i)
      {
        ScrollDownOne();
      }
      MarkAll();
    }

    // ---- Cursor movement ----------------------------------------------------------------

    /** To the next row, scrolling at the bottom of the screen. */
    method Advance()
      requires Valid()
      modifies this`grid, this`tiers, this`dirty, this`cursor, this`model
      ensures Valid() && model == Spec.NextRow(old(model))
    {
      if cursor.row < rows - 1 {
        cursor := cursor.(row := cursor.row + 1);
        model := Spec.NextRow(model);
      } else {
        ScrollUpOne();
      }
    }

    method LineWrap()
      requires Valid()
      modifies this`grid, this`tiers, this`dirty, this`cursor, this`pendingWrap, this`model
      ensures Valid() && model == Spec.LineWrap(old(model))
    {
      var row := VisibleScreenRow(cursor.row);
      SetVisibleRow(cursor.row, row.(isWrapped := true));
      Advance();
      PlaceCursor(cursor.(col := 0), false);
    }

    method CursorAdvance(width: nat)
      requires Valid()
      modifies this`cursor, this`pendingWrap, this`dirty, this`model
      ensures Valid() && model == Spec.CursorAdvance(old(model), width)
    {
      var dest := Min(cursor.col + width, cols);
      if dest < cols {
        PlaceCursor(cursor.(col := dest), false);
      } else {
        PlaceCursor(cursor.(col := cols - 1), modes.wrap);
      }
    }

    method DownStep()
      requires Valid()
      modifies this`grid, this`tiers, this`dirty, this`cursor, this`pendingWrap, this`model
      ensures Valid() && model == Spec.DownStep(old(model))
    {
      if cursor.row < rows - 1 {
        PlaceCursor(cursor.(row := cursor.row + 1), pendingWrap);
      } else {
        ScrollUpOne();
      }
    }

    method CursorDown(n: nat)
      requires Valid()
      modifies this`grid, this`tiers, this`dirty, this`cursor, this`pendingWrap, this`model
      ensures Valid() && model == Spec.CursorDown(old(model), n)
    {
      ClearPending();
      ghost var m := model;
      for i := 0 to n
        invariant Valid() && model == Spec.DownSteps(m, i)
      {
        DownStep();
      }
    }

    method CursorUp(n: nat)
      requires Valid()
      modifies this`dirty, this`cursor, this`pendingWrap, this`model
      ensures Valid() && model == Spec.CursorUp(old(model), n)
    {
      var row := if n <= cursor.row then cursor.row - n else 0;
      if row != cursor.row {
        PlaceCursor(cursor.(row := row), false);
      } else {
        ClearPending();
      }
    }

    method ForwardStep()
      requires Valid()
      modifies this`grid, this`tiers, this`dirty, this`cursor, this`pendingWrap, this`model
      ensures Valid() && model == Spec.ForwardStep(old(model))
    {
      if cursor.col < cols - 1 {
        PlaceCursor(cursor.(col := cursor.col + 1), pendingWrap);
      } else if modes.wrap {
        LineWrap();
      }
    }

    method CursorForward(n: nat)
      requires Valid()
      modifies this`grid, this`tiers, this`dirty, this`cursor, this`pendingWrap, this`model
      ensures Valid() && model == Spec.CursorForward(old(model), n)
    {
      ClearPending();
      ghost var m := model;
      for i := 0 to n
        invariant Valid() && model == Spec.ForwardSteps(m, i)
      {
        ForwardStep();
      }
    }

    method BackStep()
      requires Valid()
      modifies this`dirty, this`cursor, this`pendingWrap, this`model
      ensures Valid() && model == Spec.BackStep(old(model))
    {
      if cursor.col > 0 {
        PlaceCursor(cursor.(col := cursor.col - 1), pendingWrap);
      }
    }

    method CursorBack(n: nat)
      requires Valid()
      modifies this`dirty, this`cursor, this`pendingWrap, this`model
      ensures Valid() && model == Spec.CursorBack(old(model), n)
    {
      ClearPending();
      ghost var m := model;
      for i := 0 to n
        invariant Valid() && model == Spec.BackSteps(m, i)
      {
        BackStep();
      }
    }

    method CursorToBeginningOfLine()
      requires Valid()
      modifies this`dirty, this`cursor, this`pendingWrap, this`model
      ensures Valid() && model == Spec.CursorToBeginningOfLine(old(model))
    {
      if cursor.col != 0 {
        PlaceCursor(cursor.(col := 0), false);
      }
    }

    method CursorPosition(col: nat, row: nat)
      requires Valid()
      modifies this`dirty, this`cursor, this`pendingWrap, this`model
      ensures Valid() && model == Spec.CursorPosition(old(model), col, row)
    {
      var c := if col == Spec.U16_MAX then cursor.col else Min(col, cols - 1);
      var r := if row == Spec.U16_MAX then cursor.row else Min(row, rows - 1);
      if c != cursor.col || r != cursor.row {
        PlaceCursor(cursor.(col := c, row := r), false);
      } else {
        ClearPending();
      }
    }

    method Tab()
      requires Valid()
      modifies this`dirty, this`cursor, this`pendingWrap, this`model
      ensures Valid() && model == Spec.Tab(old(model))
    {
      var next := (cursor.col / 8 + 1) * 8;
      PlaceCursor(cursor.(col := Min(next, cols - 1)), false);
    }

    // ---- Writing characters ---------------------------------------------------------------

    method ClampCursorAfterCluster(base: nat, width: nat)
      requires Valid()
      modifies this`dirty, this`cursor, this`pendingWrap, this`model
      ensures Valid() && model == Spec.ClampCursorAfterCluster(old(model), base, width)
    {
      var next := base + width;
      if next >= cols {
        PlaceCursor(cursor.(col := cols - 1), modes.wrap);
      } else {
        PlaceCursor(cursor.(col := next), false);
      }
    }

    method ClusterBase(cells: seq<Cell>, col: nat) returns (b: Option<nat>)
      requires col <= |cells|
      ensures b == Spec.ClusterBase(cells, col)
    {
      var i: nat := col;
      while i > 0
        invariant i <= col && Spec.ClusterBase(cells, i) == Spec.ClusterBase(cells, col)
      {
        i := i - 1;
        if !cells[i].IsWideContinuation() {
          return Some(i);
        }
      }
      b := None;
    }

    /** The new base and, if the cluster grew, its continuation are stored. */
    method StoreCluster(b: nat, base: Cell, grew: bool)
      requires Valid() && b < cols && !model.Row().cells[b].IsEmpty() && !base.IsEmpty()
      modifies this`grid, this`dirty, this`model
      ensures Valid() && model == Spec.SetCells(old(model), Spec.GrowCluster(old(model).Row().cells, b, base, grew))
    {
      var row := VisibleScreenRow(cursor.row);
      var prev, cells := row.cells[b], row.cells[b := base];
      if grew && b + 1 < cols {
        cells := cells[b + 1 := Cell(prev.ch, prev.fg, prev.bg, prev.attrs, WIDE_CONTINUATION, 0)];
      }
      assert cells == Spec.GrowCluster(model.Row().cells, b, base, grew);
      SetCells(cells);
    }

    method MergeCluster(b: nat, width: nat)
      requires Valid() && b < cols && !model.Row().cells[b].IsEmpty()
      modifies this`grid, this`dirty, this`cursor, this`pendingWrap, this`model
      ensures Valid() && model == Spec.MergeCluster(old(model), b, width)
    {
      var row := VisibleScreenRow(cursor.row);
      var prev, w := row.cells[b], Spec.ClusterWidth(row.cells[b].width, width);
      var base := Cell(prev.ch, style.fg, style.bg, style.attrs, prev.WithoutJoiner().flags, w);
      StoreCluster(b, base, w == 2 && prev.width < 2);
      ClampCursorAfterCluster(b, w);
    }

    method Fit(width: nat)
      requires Valid()
      modifies this`grid, this`tiers, this`dirty, this`cursor, this`pendingWrap, this`model
      ensures Valid() && model == Spec.Fit(old(model), width)
    {
      if cursor.col + width > cols {
        if modes.wrap {
          LineWrap();
        } else {
          model := Spec.Fit(model, width);
          cursor := cursor.(col := if width < cols then cols - width else 0);
        }
      }
    }

    method PutChar(c: Spec.Char)
      requires Valid() && !c.IsControl() && c.width > 0
      modifies this`grid, this`dirty, this`cursor, this`pendingWrap, this`lastChar, this`model
      ensures Valid() && model == Spec.PutChar(old(model), c)
    {
      var row := VisibleScreenRow(cursor.row);
      var col := cursor.col;
      var cell := Cell(c.code, style.fg, style.bg, style.attrs, 0, c.width);
      var cells := row.cells[col := cell];
      if c.width == 2 && col + 1 < |cells| {
        cells := cells[col + 1 := Cell(c.code, style.fg, style.bg, style.attrs, WIDE_CONTINUATION, 0)];
      }
      assert cells == Spec.PutCells(model.Row().cells, col, Spec.Printed(c.code, style, 0, c.width));
      SetCells(cells);
      RememberChar(c);
      CursorAdvance(c.width);
    }

    method RememberChar(c: Spec.Char)
      requires Valid() && !c.IsControl() && c.width > 0
      modifies this`lastChar, this`model
      ensures Valid() && model == Spec.SetLastChar(old(model), c)
    {
      lastChar := Some(c);
      model := Spec.SetLastChar(model, c);
    }

    method WriteZeroWidth(c: Spec.Char)
      requires Valid() && !c.IsControl()
      modifies this`grid, this`dirty, this`cursor, this`pendingWrap, this`model
      ensures Valid() && model == Spec.WriteZeroWidth(old(model), c)
    {
      var row := VisibleScreenRow(cursor.row);
      var col := cursor.col;
      if col == 0 {
        return;
      }
      if !c.IsVariationSelector() && !c.IsJoiner() {
        SetCells(row.cells[col := Cell(c.code, style.fg, style.bg, style.attrs, COMBINING, 0)]);
        return;
      }
      var b := ClusterBase(row.cells, col);
      if b.None? || row.cells[b.value].IsEmpty() {
        return;
      }
      var base := row.cells[b.value];
      if c.IsVariationSelector() {
        var target := Spec.ClusterWidth(if c.code == 0xFE0F then 2 else 1, base.width);
        var grew := target == 2 && base.width < 2;
        StoreCluster(b.value, base.(width := target), grew);
        if grew && b.value + 1 < cols {
          ClampCursorAfterCluster(b.value, 2);
        }
      } else {
        StoreCluster(b.value, base.WithJoiner(), false);
      }
    }

    method PrintAt(c: Spec.Char)
      requires Valid() && !c.IsControl() && c.width > 0
      modifies this`grid, this`tiers, this`dirty, this`cursor, this`pendingWrap, this`lastChar, this`model
      ensures Valid() && model == Spec.PrintAt(old(model), c)
    {
      var row := VisibleScreenRow(cursor.row);
      var b := ClusterBase(row.cells, cursor.col);
      if b.Some? && row.cells[b.value].IsJoiner() && !row.cells[b.value].IsEmpty() {
        MergeCluster(b.value, c.width);
      } else {
        Fit(c.width);
        PutChar(c);
      }
    }

    method WriteChar(c: Spec.Char)
      requires Valid()
      modifies this`grid, this`tiers, this`dirty, this`cursor, this`pendingWrap, this`lastChar, this`model
      ensures Valid() && model == Spec.WriteChar(old(model), c)
    {
      if c.IsControl() {
        return;
      }
      if c.width == 0 {
        WriteZeroWidth(c);
        return;
      }
      if pendingWrap {
        LineWrap();
      }
      PrintAt(c);
    }

    method RepeatLastChar(n: nat)
      requires Valid()
      modifies this`grid, this`tiers, this`dirty, this`cursor, this`pendingWrap, this`lastChar, this`model
      ensures Valid() && model == Spec.RepeatLastChar(old(model), n)
    {
      if lastChar.None? {
        return;
      }
      var c := lastChar.value;
      for i := 0 to n
        invariant Valid() && model == Spec.RepeatChar(old(model), c, i)
      {
        WriteChar(c);
      }
    }

    // ---- Erasing ----------------------------------------------------------------------------

    method EraseFrom(r: nat, col: nat)
      requires Valid() && r < rows && col <= cols
      modifies this`grid, this`model
      ensures Valid() && model == Spec.SetRow(old(model), r, Spec.ErasedFrom(old(model).screen[r], col))
    {
      var row := VisibleScreenRow(r);
      SetVisibleRow(r, Spec.ErasedFrom(row, col));
    }

    method EraseTo(r: nat, col: nat)
      requires Valid() && r < rows && col < cols
      modifies this`grid, this`model
      ensures Valid() && model == Spec.SetRow(old(model), r, Spec.ErasedTo(old(model).screen[r], col))
    {
      var row := VisibleScreenRow(r);
      SetVisibleRow(r, Spec.ErasedTo(row, col));
    }

    method ClearBelow()
      requires Valid()
      modifies this`grid, this`model
      ensures Valid() && model == Spec.SetScreen(old(model), Spec.ClearBelow(old(model)))
    {
      ghost var m := model;
      BelowEnds(m);
      for r := cursor.row to rows
        invariant Valid() && model == BelowDone(m, r)
      {
        BelowTurn(m, r);
        EraseFrom(r, if r == cursor.row then cursor.col else 0);
      }
    }

    method ClearAbove()
      requires Valid()
      modifies this`grid, this`model
      ensures Valid() && model == Spec.SetScreen(old(model), Spec.ClearAbove(old(model)))
    {
      ghost var m := model;
      var end := cursor.row + 1;
      AboveEnds(m, end);
      for r := 0 to end
        invariant Valid() && model == AboveDone(m, r)
      {
        AboveTurn(m, r);
        EraseTo(r, if r == cursor.row then cursor.col else cols - 1);
      }
    }

    method ClearAllRows()
      requires Valid()
      modifies this`grid, this`model
      ensures Valid() && model == Spec.SetScreen(old(model), BlankRows(rows, cols))
    {
      ghost var m := model;
      for r := 0 to rows
        invariant Valid() && model == Spec.SetScreen(m, model.screen)
        invariant forall v :: 0 <= v < rows ==> model.screen[v] == if v < r then BlankRow(cols) else m.screen[v]
      {
        SetVisibleRow(r, BlankRow(cols));
      }
      assert model.screen == BlankRows(rows, cols);
    }

    method PopHistory()
      requires rows <= |grid|
      modifies this`grid
      ensures grid == ScreenOf(old(grid), rows)
    {
      ghost var g := grid;
      while |grid| > rows
        invariant rows <= |grid| <= |g| && grid == g[|g| - |grid|..]
      {
        grid := grid[1..];
      }
    }

    method DropTiers()
      requires rows <= |grid|
      modifies this`grid, this`tiers, this`viewport, this`coldCache
      ensures Value() == WithoutHistory(old(Value()))
    {
      PopHistory();
      tiers := NO_TIERS;
      viewport, coldCache := None, None;
    }

    method DropHistory()
      requires Valid()
      modifies this`grid, this`tiers, this`viewport, this`coldCache, this`model
      ensures Valid() && model == Spec.DropHistory(old(model)) && coldCache == None
    {
      DroppedHistory(Value(), model);
      DropTiers();
      model := Spec.DropHistory(model);
    }

    method Wipe(dropHistory: bool)
      requires Valid()
      modifies this`grid, this`tiers, this`viewport, this`coldCache, this`dirty, this`cursor, this`pendingWrap,
               this`model
      ensures Valid() && model == Spec.Wiped(old(model), dropHistory)
      ensures coldCache == if dropHistory then None else old(coldCache)
    {
      ClearAllRows();
      if dropHistory {
        DropHistory();
      }
      MarkAll();
      PlaceCursor(cursor.(col := 0, row := 0), false);
    }

    method ClearScreen(mode: nat)
      requires Valid()
      modifies this`grid, this`tiers, this`viewport, this`coldCache, this`dirty, this`cursor, this`pendingWrap,
               this`model
      ensures Valid() && model == Spec.ClearScreen(old(model), mode)
      ensures coldCache == if mode == 3 then None else old(coldCache)
    {
      if mode == 0 {
        ClearBelow();
        MarkAll();
        MarkCursor();
      } else if mode == 1 {
        ClearAbove();
        MarkAll();
        MarkCursor();
      } else if mode == 2 || mode == 3 {
        Wipe(mode == 3);
      } else {
        MarkCursor();
      }
    }

    method ClearLine(mode: nat)
      requires Valid()
      modifies this`grid, this`dirty, this`model
      ensures Valid() && model == Spec.ClearLine(old(model), mode)
    {
      if mode == 0 {
        EraseFrom(cursor.row, cursor.col);
      } else if mode == 1 {
        EraseTo(cursor.row, cursor.col);
      } else if mode == 2 {
        SetVisibleRow(cursor.row, BlankRow(cols));
      }
      MarkRow(cursor.row);
    }

    // ---- Inserting and deleting ---------------------------------------------------------------

    method InsertGridRows(screenAt: nat, n: nat)
      requires screenAt < |grid|
      modifies this`grid
      ensures grid == Inserted(old(grid), screenAt, n, cols)
    {
      ghost var g := grid;
      for i := 0 to n
        invariant |grid| == |g| && grid == Inserted(g, screenAt, i, cols)
      {
        InsertTurn(g, screenAt, i, cols);
        grid := InsertAt(grid[..|grid| - 1], screenAt, BlankRow(cols));
      }
    }

    method InsertLines(n: nat)
      requires Valid()
      modifies this`grid, this`dirty, this`model
      ensures Valid() && model == Spec.InsertLines(old(model), n)
    {
      var screenAt := |grid| - rows + cursor.row;
      ghost var c, m, clamped := Value(), model, Spec.Clamp(n, cursor.row, rows);
      InsertGridRows(screenAt, n);
      InsertedRefines(c, m, screenAt, n, grid);
      model := Spec.SetScreen(m, Spec.InsertBlankRows(m.screen, m.cursor.row, clamped, m.cols));
      assert Value() == c.(store := c.store.(grid := grid));
      MarkAll();
    }

    method DeleteGridRows(screenAt: nat, del: nat)
      requires screenAt + del <= |grid|
      modifies this`grid
      ensures grid == Deleted(old(grid), screenAt, del, cols)
    {
      ghost var g := grid;
      for i := 0 to del
        invariant grid == g[..screenAt] + g[screenAt + i..]
      {
        grid := grid[..screenAt] + grid[screenAt + 1..];
      }
      for i := 0 to del
        invariant grid == g[..screenAt] + g[screenAt + del..] + BlankRows(i, cols)
      {
        grid := grid + [BlankRow(cols)];
      }
    }

    method DeleteLines(n: nat)
      requires Valid()
      modifies this`grid, this`dirty, this`model
      ensures Valid() && model == Spec.DeleteLines(old(model), n)
    {
      var del := Spec.Clamp(n, cursor.row, rows);
      var screenAt := |grid| - rows + cursor.row;
      ghost var c, m := Value(), model;
      DeleteGridRows(screenAt, del);
      DeletedRefines(c, m, screenAt, del, grid);
      model := Spec.SetScreen(m, Spec.DeleteRows(m.screen, m.cursor.row, del, m.cols));
      assert Value() == c.(store := c.store.(grid := grid));
      MarkAll();
    }

    /** Returns false, with nothing changed, where the program aborts. */
    method InsertChars(n: nat) returns (ok: bool)
      requires Valid()
      modifies this`grid, this`dirty, this`model
      ensures Valid() && ok == !Spec.InsertCharsAborts(old(model), n)
      ensures model == if ok then Spec.InsertChars(old(model), n) else old(model)
    {
      var row := VisibleScreenRow(cursor.row);
      var cells := ShiftRight(row.cells, cursor.col, n);
      if cells.None? {
        return false;
      }
      SetCells(cells.value);
      ok := true;
    }

    method DeleteChars(n: nat)
      requires Valid()
      modifies this`grid, this`dirty, this`model
      ensures Valid() && model == Spec.DeleteChars(old(model), n)
    {
      var row := VisibleScreenRow(cursor.row);
      var cells := ShiftLeft(row.cells, cursor.col, n);
      SetCells(cells);
    }

    // ---- Alternate screen, saved cursor, modes --------------------------------------------------

    method InstallRows(a: SavedScreen, other: Option<SavedScreen>)
      modifies this`grid, this`tiers, this`viewport, this`coldCache, this`alt
      ensures Value() == WithRows(old(Value()), a, other)
    {
      alt := other;
      grid, tiers := a.grid, a.tiers;
      viewport, coldCache := a.viewport, a.coldCache;
    }

    method InstallCursor(a: SavedScreen, altScreen: bool)
      modifies this`cursor, this`saved, this`style, this`pendingWrap, this`modes, this`dirty
      ensures Value() == WithCursor(old(Value()), a, altScreen)
    {
      cursor := a.cursor;
      saved := saved.(cursor := a.savedCursor);
      style := a.style;
      pendingWrap := a.pendingWrap;
      modes := modes.(altScreen := altScreen);
      dirty := dirty.MarkAll();
    }

    /** The row-holding fields and the cursor are exchanged for those of `a`. */
    method Install(a: SavedScreen, other: Option<SavedScreen>, altScreen: bool)
      modifies this`grid, this`tiers, this`viewport, this`coldCache, this`alt, this`cursor, this`saved,
               this`style, this`pendingWrap, this`modes, this`dirty
      ensures Value() == Installed(old(Value()), a, other, altScreen)
    {
      InstallRows(a, other);
      InstallCursor(a, altScreen);
    }

    method SetAltScreen(on: bool)
      requires Valid()
      modifies this
      ensures Valid() && model == Spec.SetAltScreen(old(model), on)
      ensures Caches() == CachesAfter(old(Caches()), old(modes.altScreen), Spec.AltScreen(on))
    {
      if on == modes.altScreen {
        return;
      }
      if on {
        var screen := SavedScreen(grid, tiers, viewport, coldCache, cursor, saved.cursor, style, pendingWrap);
        EnteredRefines(Value(), model, screen);
        Install(BlankScreen(rows, cols, saved.cursor, style), Some(screen), true);
      } else {
        LeftRefines(Value(), model);
        Install(alt.value, None, false);
      }
      model := Spec.SetAltScreen(model, on);
    }

    method SetStyle(s: Spec.Style)
      requires Valid()
      modifies this`style, this`model
      ensures Valid() && model == Spec.WithStyle(old(model), s)
    {
      style := s;
      model := Spec.WithStyle(model, s);
    }

    method SetAutoWrap(wrap: bool)
      requires Valid()
      modifies this`modes, this`model
      ensures Valid() && model == Spec.SetAutoWrap(old(model), wrap)
    {
      if modes.wrap != wrap {
        modes := modes.(wrap := wrap);
      }
      model := Spec.SetAutoWrap(model, wrap);
    }

    method SaveCursor()
      requires Valid()
      modifies this`saved, this`model
      ensures Valid() && model == Spec.SaveCursor(old(model))
    {
      saved := Spec.SavedCursor(cursor, style, modes.wrap, pendingWrap);
      model := Spec.SaveCursor(model);
    }

    method RestoreCursor()
      requires Valid()
      modifies this`style, this`modes, this`cursor, this`pendingWrap, this`dirty, this`model
      ensures Valid() && model == Spec.RestoreCursor(old(model))
    {
      SetStyle(saved.style);
      SetAutoWrap(saved.wrap);
      PlaceCursor(saved.cursor, saved.pendingWrap);
    }

    method SetCursorVisible(visible: bool)
      requires Valid()
      modifies this`modes, this`cursor, this`pendingWrap, this`dirty, this`model
      ensures Valid() && model == Spec.SetCursorVisible(old(model), visible)
    {
      if modes.cursorVisible != visible {
        ghost var m := Spec.SetCursorVisible(model, visible);
        modes := modes.(cursorVisible := visible);
        cursor := cursor.(isHidden := !visible);
        dirty := dirty.(cursorChanged := true);
        model := m;
      }
    }

    method ApplyMotion(e: Spec.Event)
      requires Valid() && e.IsMotion()
      modifies this`grid, this`tiers, this`dirty, this`cursor, this`pendingWrap, this`model
      ensures Valid() && model == Spec.ApplyMotion(old(model), e)
    {
      match e {
        case MoveCursor(col, row) => CursorPosition(col, row);
        case Up(n) => CursorUp(Spec.AtLeast1(n));
        case Down(n) => CursorDown(Spec.AtLeast1(n));
        case Forward(n) => CursorForward(Spec.AtLeast1(n));
        case Back(n) => CursorBack(Spec.AtLeast1(n));
        case TabStop => Tab();
        case BeginningOfLine => CursorToBeginningOfLine();
      }
    }

    method ApplyEdit(e: Spec.Event)
      requires Valid() && e.IsEdit()
      modifies this`grid, this`tiers, this`dirty, this`model
      ensures Valid() && model == Spec.ApplyEdit(old(model), e)
    {
      match e {
        case InsertLinesEvent(n) => InsertLines(n);
        case DeleteLinesEvent(n) => DeleteLines(n);
        case ScrollUpEvent(n) => ScrollUp(n);
        case ScrollDownEvent(n) => ScrollDown(n);
        case DeleteCharsEvent(n) => DeleteChars(n);
      }
    }

    method ApplyMode(e: Spec.Event)
      requires Valid() && e.IsMode()
      modifies this`style, this`saved, this`modes, this`cursor, this`pendingWrap, this`dirty, this`model
      ensures Valid() && model == Spec.ApplyMode(old(model), e)
    {
      match e {
        case SetStyle(s) => SetStyle(s);
        case SaveCursorEvent => SaveCursor();
        case RestoreCursorEvent => RestoreCursor();
        case ShowCursor(visible) => SetCursorVisible(visible);
        case AutoWrap(wrap) => SetAutoWrap(wrap);
        case InputMode =>
      }
    }

    /** The events that replace no history. */
    method ApplyToScreen(e: Spec.Event) returns (ok: bool)
      requires Valid() && !e.EraseScreen? && !e.AltScreen?
      modifies this`grid, this`tiers, this`dirty, this`cursor, this`pendingWrap, this`lastChar, this`style, this`saved,
               this`modes, this`model
      ensures Valid() && ok == !Spec.Aborts(old(model), e)
      ensures model == if ok then Spec.Apply(old(model), e) else old(model)
    {
      ok := true;
      if e.IsMotion() {
        ApplyMotion(e);
      } else if e.IsEdit() {
        ApplyEdit(e);
      } else if e.EraseLine? {
        ClearLine(e.mode);
      } else if e.IsMode() {
        ApplyMode(e);
      } else if e.InsertCharsEvent? {
        ok := InsertChars(e.n);
      } else if e.Write? {
        WriteChar(e.c);
      } else {
        RepeatLastChar(e.n);
      }
    }

    /** The events that replace the history. */
    method ApplyToHistory(e: Spec.Event)
      requires Valid() && (e.EraseScreen? || e.AltScreen?)
      modifies this
      ensures Valid() && model == Spec.Apply(old(model), e)
      ensures Caches() == CachesAfter(old(Caches()), old(modes.altScreen), e)
    {
      if e.EraseScreen? {
        Spec.AppliesErase(model, e.mode);
        ClearScreen(e.mode);
      } else {
        Spec.AppliesAlt(model, e.alt);
        SetAltScreen(e.alt);
      }
    }

    /** Applies one parser event. Returns false, with nothing changed, exactly where the
        program aborts. */
    method ApplyEvent(e: Spec.Event) returns (ok: bool)
      requires Valid()
      modifies this
      ensures Valid() && ok == !Spec.Aborts(old(model), e)
      ensures model == if ok then Spec.Apply(old(model), e) else old(model)
      ensures Caches() == if ok then CachesAfter(old(Caches()), old(modes.altScreen), e) else old(Caches())
    {
      if e.EraseScreen? || e.AltScreen? {
        ApplyToHistory(e);
        ok := true;
      } else {
        ok := ApplyToScreen(e);
      }
    }

    // ---- Resizing -----------------------------------------------------------------------------

    method CutOrPadGrid()
      modifies this`grid
      ensures grid == Spec.LastRows(old(grid), cols, rows)
    {
      ghost var g := grid;
      while |grid| > rows
        invariant |g| <= rows ==> grid == g
        invariant |g| > rows ==> rows <= |grid| <= |g| && grid == g[|g| - |grid|..]
      {
        grid := grid[1..];
      }
      while |grid| < rows
        invariant |g| > rows ==> grid == g[|g| - rows..]
        invariant |g| <= rows ==> |g| <= |grid| <= rows && grid == g + BlankRows(|grid| - |g|, cols)
      {
        grid := grid + [BlankRow(cols)];
      }
    }

    method ResizeRows()
      modifies this`grid
      ensures |grid| == |old(grid)|
      ensures forall v :: 0 <= v < |grid| ==> grid[v] == Spec.ResizedRow(old(grid)[v], cols)
    {
      ghost var g := grid;
      for v := 0 to |grid|
        invariant |grid| == |g|
        invariant forall k :: 0 <= k < |g| ==> grid[k] == if k < v then Spec.ResizedRow(g[k], cols) else g[k]
      {
        if |grid[v].cells| != cols {
          grid := grid[v := grid[v].(cells := Spec.ResizedCells(grid[v].cells, cols))];
        }
      }
    }

    method ResizeGrid()
      modifies this`grid
      ensures grid == Spec.ResizedRows(old(grid), cols, rows)
    {
      CutOrPadGrid();
      ResizeRows();
    }

    method DropScrollback()
      modifies this`dirty, this`tiers, this`viewport, this`coldCache
      ensures dirty == Clean(rows).MarkAll() && tiers == NO_TIERS && coldCache == None
    {
      dirty := Clean(rows).MarkAll();
      tiers := NO_TIERS;
      viewport, coldCache := None, None;
    }

    method ClampCursor()
      requires cols > 0 && rows > 0 && |grid| == rows
      modifies this`cursor, this`scrollOffset, this`pendingWrap
      ensures cursor == Spec.ClampedTo(old(cursor), cols, rows) && scrollOffset == 0 && !pendingWrap
    {
      cursor := Spec.ClampedTo(cursor, cols, rows);
      scrollOffset := Min(scrollOffset, |grid| - rows);
      pendingWrap := false;
    }

    method TakeGeometry(newCols: u16, newRows: nat)
      requires newCols > 0 && newRows > 0
      modifies this`cols, this`rows, this`dirty, this`tiers, this`viewport, this`coldCache, this`grid, this`cursor,
               this`scrollOffset, this`pendingWrap
      ensures Value() == ResizedValue(old(Value()), Spec.ResizedRows(old(grid), newCols, newRows), newCols, newRows)
    {
      cols, rows := newCols, newRows;
      DropScrollback();
      ResizeGrid();
      ClampCursor();
    }

    /** Every field is as `ResizedValue` says; the terminal is well-formed again where that can
        be. */
    method Resize(newCols: u16, newRows: nat)
      requires Valid() && 1 <= newRows && 1 <= newCols <= Spec.MAX_COLS
      modifies this
      ensures Value() == if newCols == old(cols) && newRows == old(rows) then old(Value())
                         else
                           ResizedValue(old(Value()), Spec.ResizedRows(old(grid), newCols, newRows), newCols, newRows)
      ensures Spec.ResizeIsSafe(old(model), newCols, newRows) ==>
                Valid() && model == Spec.Resized(old(model), newCols, newRows)
    {
      if newCols == cols && newRows == rows {
        return;
      }
      ghost var c, m, g := Value(), model, grid;
      TakeGeometry(newCols, newRows);
      if Spec.ResizeIsSafe(m, newCols, newRows) {
        ResizedRefines(c, m, Spec.ResizedRows(g, newCols, newRows), newCols, newRows);
        model := Spec.Resized(m, newCols, newRows);
      }
    }

    // ---- Reading the history ------------------------------------------------------------------

    method SetCache(w: Window)
      requires Valid() && CacheOk(Some(w), TieredRows(tiers, cols))
      modifies this`coldCache
      ensures Valid() && coldCache == Some(w)
    {
      WithCache(Value(), model, w);
      coldCache := Some(w);
    }

    /** Makes the block at `base` the cached one. */
    method CacheBlock(bi: nat, base: nat)
      requires Valid() && bi < |tiers.cold.blocks| && base == BlockStart(bi)
      modifies this`coldCache
      ensures Valid() && coldCache.Some? && coldCache.value.base == base && |coldCache.value.rows| == BLOCK_ROWS
    {
      BlockReads(tiers, cols, bi);
      var block := DecodeBlock(tiers.cold.blocks[bi]);
      SetCache(Window(base, block.value));
    }

    /** The block of a cold row becomes the cached one, unless its base is cached already. */
    method FillCache(idx: nat)
      requires Valid() && idx < tiers.cold.totalRows
      modifies this`coldCache
      ensures Valid() && coldCache.Some? && coldCache.value.base == BlockStart(BlockIndex(idx))
      ensures EntryOf(coldCache) == FilledEntry(EntryOf(old(coldCache)), idx)
    {
      var bi := BlockIndex(idx);
      var base := BlockStart(bi);
      if coldCache.None? || coldCache.value.base != base {
        CacheBlock(bi, base);
      }
    }

    /** A row of the cold tier, through the one-block cache. */
    method ColdRow(idx: nat) returns (r: Option<Row>)
      requires Valid() && idx < tiers.cold.totalRows
      modifies this`coldCache
      ensures Valid() && r == ReadAt(TieredRows(tiers, cols) + grid, old(coldCache), tiers.cold.totalRows, idx)
      ensures EntryOf(coldCache) == FilledEntry(EntryOf(old(coldCache)), idx)
    {
      FillCache(idx);
      var w := coldCache.value;
      CachedReadAt(TieredRows(tiers, cols), grid, old(coldCache), w, tiers.cold.totalRows, idx);
      r := if idx - w.base < |w.rows| then Some(w.rows[idx - w.base]) else None;
    }

    /** A row of the pending buffer; it becomes the cache under its own index. */
    method PendingRow(idx: nat) returns (row: Row)
      requires Valid() && tiers.cold.totalRows <= idx < tiers.cold.totalRows + tiers.count
      modifies this`coldCache
      ensures Valid() && coldCache == Some(Window(idx, [row]))
      ensures Some(row) == ReadAt(TieredRows(tiers, cols) + grid, old(coldCache), tiers.cold.totalRows, idx)
    {
      ghost var c := Value();
      row := DecodePending(idx);
      PendingCached(c, model, idx, row);
      coldCache := Some(Window(idx, [row]));
      assert Value() == c.(store := c.store.(coldCache := Some(Window(idx, [row]))));
    }

    method DecodePending(idx: nat) returns (row: Row)
      requires Valid() && tiers.cold.totalRows <= idx < tiers.cold.totalRows + tiers.count
      ensures row == FlatOf(Value().store)[idx]
    {
      var r := ReadScratch(idx);
      row := r.value;
    }

    method RawRow(idx: nat) returns (row: Row)
      requires Valid() && idx >= tiers.cold.totalRows + tiers.count
      ensures Some(row) == ReadAt(TieredRows(tiers, cols) + grid, coldCache, tiers.cold.totalRows, idx)
    {
      RawReadAt(TieredRows(tiers, cols), grid, coldCache, tiers.cold.totalRows, idx);
      var rel := idx - (tiers.cold.totalRows + tiers.count);
      row := if rel < |grid| then grid[rel] else OutOfRange();
    }

    /** The row at a history index, oldest first; `None` is an index that leaves the cached
        rows and aborts. Indices past the last row read as a one-cell row. */
    method GridRow(idx: nat) returns (r: Option<Row>)
      requires Valid()
      modifies this`coldCache
      ensures Valid() && r == ReadAt(TieredRows(tiers, cols) + grid, old(coldCache), tiers.cold.totalRows, idx)
      ensures EntryOf(coldCache) == EntryAfter(EntryOf(old(coldCache)), tiers.cold.totalRows, tiers.count, idx)
    {
      var coldRows := tiers.cold.totalRows + tiers.count;
      if idx < tiers.cold.totalRows {
        r := ColdRow(idx);
      } else if idx < coldRows {
        var row := PendingRow(idx);
        r := Some(row);
      } else {
        var row := RawRow(idx);
        r := Some(row);
      }
    }

    // ---- The viewport ---------------------------------------------------------------------------

    /** The window's rows out of the encoded tiers. Every index past the cold blocks is taken
        for a pending one, so a window that ends in the grid runs off the span buffer. */
    method DecodeWindow(winStart: nat) returns (r: Option<Window>)
      requires Valid() && winStart < tiers.cold.totalRows + tiers.count
      ensures r == WindowAt(TieredRows(tiers, cols), grid, rows, winStart)
    {
      ghost var t, flat := TieredRows(tiers, cols), TieredRows(tiers, cols) + grid;
      var winEnd := Min(winStart + rows, tiers.cold.totalRows + tiers.count + |grid|);
      assert winEnd == winStart + rows <= |flat|;
      var out: seq<Row>, pos := [], winStart;
      ghost var done := winStart;
      while pos < winEnd
        invariant winStart <= pos && (pos <= |t| || winEnd <= |t|)
        invariant done == Min(pos, winEnd) <= |flat|
        invariant out == flat[winStart..done]
        decreases winEnd - pos
      {
        var chunk, next := DecodeAt(pos, winEnd);
        if chunk.None? {
          return None;
        }
        SliceJoin(flat, winStart, pos, Min(next, winEnd));
        done := Min(next, winEnd);
        out := out + chunk.value;
        pos := next;
      }
      assert done == winEnd <= |t|;
      r := Some(Window(winStart, out));
    }

    /** The rows from `pos` to the end of its block, or the one pending row there. */
    method DecodeAt(pos: nat, end: nat) returns (chunk: Option<seq<Row>>, next: nat)
      requires Valid() && pos < end <= |TieredRows(tiers, cols) + grid|
      ensures pos < next && (pos < |TieredRows(tiers, cols)| ==> next <= |TieredRows(tiers, cols)|)
      ensures chunk == if pos < |TieredRows(tiers, cols)|
                       then Some((TieredRows(tiers, cols) + grid)[pos..Min(next, end)]) else None
    {
      if pos < tiers.cold.totalRows {
        var rows := ReadChunk(pos, end);
        chunk, next := Some(rows), BlockStart(BlockIndex(pos) + 1);
      } else {
        var row := ReadScratch(pos);
        next := pos + 1;
        chunk := if row.None? then None else Some([row.value]);
        SliceOne(TieredRows(tiers, cols) + grid, pos, next);
      }
    }

    method ReadScratch(pos: nat) returns (row: Option<Row>)
      requires Valid() && tiers.cold.totalRows <= pos
      ensures var t := TieredRows(tiers, cols); row == if pos < |t| then Some((t + grid)[pos]) else None
    {
      var rel := pos - tiers.cold.totalRows;
      ScratchReads(tiers, cols, grid, rel, pos);
      row := DecodeScratchRow(tiers.scratch, cols, tiers.wrapped, rel);
    }

    method ReadChunk(pos: nat, end: nat) returns (chunk: seq<Row>)
      requires Valid() && pos < tiers.cold.totalRows && pos < end <= |TieredRows(tiers, cols) + grid|
      ensures pos < BlockStart(BlockIndex(pos) + 1) <= tiers.cold.totalRows
      ensures chunk == (TieredRows(tiers, cols) + grid)[pos..ChunkEnd(pos, end)]
    {
      BlockChunk(tiers, cols, grid, pos, end);
      var block := DecodeBlock(tiers.cold.blocks[BlockIndex(pos)]);
      chunk := block.value[BlockOffset(pos)..Min(BLOCK_ROWS, BlockOffset(pos) + (end - pos))];
    }

    /** Prepares the rows the renderer is about to read. Returns false where the program
        aborts: exactly when the window starts in the encoded tiers and ends in the grid. */
    method Snapshot() returns (ok: bool)
      requires Valid()
      modifies this`viewport
      ensures Valid() && ok == !Straddles(TieredRows(tiers, cols), grid, rows, scrollOffset)
      ensures ok ==> viewport == ViewportFor(TieredRows(tiers, cols), grid, rows, scrollOffset)
    {
      var gridLen := tiers.cold.totalRows + tiers.count + |grid|;
      var winStart := if rows + scrollOffset <= gridLen then gridLen - (rows + scrollOffset) else 0;
      ghost var t := TieredRows(tiers, cols);
      WindowCases(t, grid, rows, scrollOffset, winStart);
      viewport := None;
      if winStart < tiers.cold.totalRows + tiers.count {
        viewport := DecodeWindow(winStart);
        return viewport.Some?;
      }
      ok := true;
    }

    /** A row of the window, from the grid or from the viewport the last snapshot built. An
        index below zero wraps around to one past every row. */
    method VisibleRow(vrow: nat) returns (row: Row)
      requires Valid()
      ensures row == VisibleIn(TieredRows(tiers, cols), grid, rows, scrollOffset, viewport, vrow)
    {
      var coldRows := tiers.cold.totalRows + tiers.count;
      var logical := coldRows + |grid| - rows - scrollOffset + vrow;
      if logical >= coldRows {
        if logical - coldRows < |grid| {
          return grid[logical - coldRows];
        }
      } else if logical >= 0 && viewport.Some? {
        var w := viewport.value;
        if w.base <= logical && logical - w.base < |w.rows| {
          return w.rows[logical - w.base];
        }
      }
      row := OutOfRange();
    }

    method VisibleRows() returns (out: seq<Row>)
      requires Valid()
      ensures out == AllVisible(TieredRows(tiers, cols), grid, rows, scrollOffset, viewport)
    {
      ghost var all := AllVisible(TieredRows(tiers, cols), grid, rows, scrollOffset, viewport);
      out := [];
      for v := 0 to rows
        invariant |out| == v && forall i :: 0 <= i < v ==> out[i] == all[i]
      {
        var row := VisibleRow(v);
        out := out + [row];
      }
    }

    /** Reading a visible row right after a snapshot gives that row of the history, whichever
        tiers the window lies in; above the first row of the history there is none. */
    method ReadWindow(vrow: nat) returns (row: Option<Row>)
      requires Valid() && vrow < rows
      modifies this`viewport
      ensures Valid() && rows <= |model.Flat()|
      ensures row == if Straddles(TieredRows(tiers, cols), grid, rows, scrollOffset) then None
                     else Some(WindowRow(model.Flat(), rows, scrollOffset, vrow))
    {
      FlatIsHistoryAndScreen(Value(), model);
      var ok := Snapshot();
      if !ok {
        return None;
      }
      var r := VisibleRow(vrow);
      VisibleIsFlat(TieredRows(tiers, cols), grid, rows, scrollOffset, vrow);
      row := Some(r);
    }

    method SetScrollOffset(offset: nat)
      requires Valid()
      modifies this`scrollOffset, this`dirty, this`model
      ensures Valid() && model == Spec.SetScrollOffset(old(model), offset)
    {
      ghost var m := Spec.SetScrollOffset(model, offset);
      FlatIsHistoryAndScreen(Value(), model);
      var to := Min(offset, tiers.cold.totalRows + tiers.count + |grid| - rows);
      if to != scrollOffset {
        scrollOffset := to;
        dirty := dirty.MarkAll();
      }
      model := m;
    }

    method ConsumeDirty() returns (d: Dirty)
      requires Valid()
      modifies this`dirty, this`model
      ensures Valid() && d == old(model).dirty && model == Spec.ConsumeDirty(old(model))
    {
      d := dirty;
      dirty := Clean(rows);
      model := Spec.ConsumeDirty(model);
    }
  }
}
