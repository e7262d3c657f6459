/** Selections: which cells they highlight, and the text that copying them gives. */
module Selections {
  import opened Cells
  import opened SpanCodec
  import opened Terminal
  import opened TerminalSpec
  import opened TerminalStore
  import opened TextLayout
  import opened Tiers
  import opened WideText

  datatype Position = Position(row: nat, col: nat)
  datatype Selection = Selection(start: Position, end: Position) {
    function Top(): Position { if start.row <= end.row then start else end }
    function Bottom(): Position { if start.row <= end.row then end else start }
    function Left(): nat { Min(start.col, end.col) }
    function Right(): nat { if start.col <= end.col then end.col else start.col }

    /** The columns of row `r`, both inclusive: the first row starts at the smaller column and the
        last one ends at the larger, whichever of the ends they belong to. */
    function From(r: nat): nat { if r == Top().row then Left() else 0 }
    function To(r: nat, cols: nat): nat
      requires cols > 0
    {
      if r == Bottom().row then Right() else cols - 1
    }
  }

  predicate OnScreen(sel: Selection, rows: nat, cols: nat) {
    && sel.start.row < rows && sel.end.row < rows
    && sel.start.col < cols && sel.end.col < cols
  }

  // ---- Which cells are selected ----------------------------------------------------------------

  predicate IsSelected(sel: Selection, cols: nat, r: nat, c: nat)
    requires cols > 0
  {
    sel.Top().row <= r <= sel.Bottom().row && sel.From(r) <= c <= sel.To(r, cols)
  }

  predicate InRectangle(sel: Selection, r: nat, c: nat) {
    sel.Top().row <= r <= sel.Bottom().row && sel.Left() <= c <= sel.Right()
  }

  /** From one end to the other, the way the text runs. */
  predicate InReadingOrder(sel: Selection, r: nat, c: nat) {
    var top, bottom := sel.Top(), sel.Bottom();
    if top.row == bottom.row then r == top.row && sel.Left() <= c <= sel.Right()
    else (top.row < r || (top.row == r && top.col <= c)) && (r < bottom.row || (r == bottom.row && c <= bottom.col))
  }

  ghost predicate CoversText(sel: Selection, cols: nat)
    requires cols > 0
  {
    forall r: nat, c: nat :: c < cols ==> (IsSelected(sel, cols, r, c) <==> InReadingOrder(sel, r, c))
  }

  ghost predicate CoversRectangle(sel: Selection, cols: nat)
    requires cols > 0
  {
    forall r: nat, c: nat :: c < cols ==> (IsSelected(sel, cols, r, c) <==> InRectangle(sel, r, c))
  }

  /** A selection covers the text between its ends exactly if it lies on one row or its upper end
      is not right of its lower one. */
  lemma ReadingOrderIff(sel: Selection, rows: nat, cols: nat)
    requires OnScreen(sel, rows, cols)
    ensures CoversText(sel, cols) <==> sel.Top().row == sel.Bottom().row || sel.Top().col <= sel.Bottom().col
  {
    var top, bottom := sel.Top(), sel.Bottom();
    if top.row != bottom.row && top.col > bottom.col {
      assert IsSelected(sel, cols, top.row, bottom.col) && !InReadingOrder(sel, top.row, bottom.col);
    }
  }

  /** It covers the rectangle between its ends exactly if it lies on one row or takes whole
      rows. */
  lemma RectangleIff(sel: Selection, rows: nat, cols: nat)
    requires OnScreen(sel, rows, cols)
    ensures CoversRectangle(sel, cols) <==>
      sel.Top().row == sel.Bottom().row || (sel.Left() == 0 && sel.Right() == cols - 1)
  {
    var top, bottom := sel.Top(), sel.Bottom();
    if top.row != bottom.row {
      if sel.Left() > 0 {
        assert IsSelected(sel, cols, bottom.row, 0) && !InRectangle(sel, bottom.row, 0);
      }
      if sel.Right() < cols - 1 {
        assert IsSelected(sel, cols, top.row, cols - 1) && !InRectangle(sel, top.row, cols - 1);
      }
    }
  }

  // ---- Copying ----------------------------------------------------------------------------------

  /** Past the last of the columns up to `to`, cut at the end of the row. */
  function PartEnd(row: Row, to: nat): nat { Min(to, if row.cells == [] then 0 else |row.cells| - 1) + 1 }

  /** The text of some columns of a row; a slice that does not fit aborts. */
  function PartText(row: Row, from: nat, to: nat): Option<seq<u32>> {
    var end := PartEnd(row, to);
    if from > end || end > |row.cells| then None else Some(RowText(row.cells[from..end], end - from))
  }

  function LineBreak(row: Row, last: bool): seq<u32> { if last || row.isWrapped then [] else [10] }

  predicate Within(sel: Selection, window: seq<Row>, cols: nat) { sel.Bottom().row < |window| && cols > 0 }

  /** What copying the selected rows before `n` gives; `None` aborts. */
  function Copied(window: seq<Row>, sel: Selection, cols: nat, n: nat): Option<seq<u32>>
    requires Within(sel, window, cols) && n <= sel.Bottom().row + 1
  {
    if n <= sel.Top().row then Some([])
    else
      Followed(Copied(window, sel, cols, n - 1), CopiedLine(window[n - 1], sel, cols, n - 1))
  }

  function Followed(before: Option<seq<u32>>, line: Option<seq<u32>>): Option<seq<u32>> {
    if before.None? || line.None? then None else Some(before.value + line.value)
  }

  /** What copying row `r` of the selection gives. */
  function CopiedLine(row: Row, sel: Selection, cols: nat, r: nat): Option<seq<u32>>
    requires cols > 0
  {
    var part := PartText(row, sel.From(r), sel.To(r, cols));
    if part.None? then None else Some(part.value + LineBreak(row, r == sel.Bottom().row))
  }

  function CopiedText(window: seq<Row>, sel: Selection, cols: nat): Option<seq<u32>>
    requires Within(sel, window, cols)
  {
    Copied(window, sel, cols, sel.Bottom().row + 1)
  }

  /** The rows of the window. */
  function WindowRows(s: State): (rows: seq<Row>)
    ensures |rows| == s.rows
  {
    seq(s.rows, v requires 0 <= v < s.rows => WindowRow(s.Flat(), s.rows, s.scrollOffset, v))
  }

  lemma FlatRows(s: State)
    ensures forall i :: 0 <= i < |s.Flat()| ==> RowOk(s.Flat()[i], s.cols)
  {
    forall i | 0 <= i < |s.Flat()| ensures RowOk(s.Flat()[i], s.cols) {
      assert s.Flat()[i] == if i < |s.history| then s.history[i] else s.screen[i - |s.history|];
    }
  }

  method CopyPart(row: Row, from: nat, to: nat) returns (r: Option<seq<u32>>)
    ensures r == PartText(row, from, to)
  {
    var end := PartEnd(row, to);
    if from > end || end > |row.cells| {
      return None;
    }
    var cells := row.cells[from..end];
    var out: seq<u32> := [];
    for k := 0 to |cells|
      invariant out == RowText(cells, k)
    {
      out := out + CellText(cells[k]);
    }
    r := Some(out);
  }

  /** Copying the selection out of the window, in whichever tiers it lies. It aborts where the
      snapshot does, and where a selected row aborts. */
  method SelectionText(t: TerminalState, sel: Option<Selection>) returns (r: Option<seq<u32>>)
    requires t.Valid() && (sel.Some? ==> OnScreen(sel.value, t.rows, t.cols))
    modifies t`viewport
    ensures t.Valid()
    ensures r == if Straddles(TieredRows(t.tiers, t.cols), t.grid, t.rows, t.scrollOffset) then None
                 else if sel.None? then Some([])
                 else CopiedText(WindowRows(t.model), sel.value, t.cols)
  {
    var ok := t.Snapshot();
    if !ok {
      return None;
    }
    if sel.None? {
      return Some([]);
    }
    var window := ReadRows(t);
    r := CopyRows(window, sel.value, t.cols);
  }

  ghost predicate Snapped(t: TerminalState)
    reads t
    requires t.Valid()
  {
    var tiered := TieredRows(t.tiers, t.cols);
    && !Straddles(tiered, t.grid, t.rows, t.scrollOffset)
    && t.viewport == ViewportFor(tiered, t.grid, t.rows, t.scrollOffset)
  }

  method CopyRows(window: seq<Row>, sel: Selection, cols: nat) returns (r: Option<seq<u32>>)
    requires Within(sel, window, cols)
    ensures r == CopiedText(window, sel, cols)
  {
    var out: seq<u32> := [];
    var top, end := sel.Top().row, sel.Bottom().row + 1;
    for v := top to end
      invariant Copied(window, sel, cols, v) == Some(out)
    {
      CopiedNext(window, sel, cols, v, v + 1);
      var line := CopyLine(window[v], sel, cols, v);
      if line.None? {
        NoneStays(window, sel, cols, v + 1, end);
        return None;
      }
      out := out + line.value;
    }
    r := Some(out);
  }

  method CopyLine(row: Row, sel: Selection, cols: nat, v: nat) returns (line: Option<seq<u32>>)
    requires cols > 0
    ensures line == CopiedLine(row, sel, cols, v)
  {
    var part := CopyPart(row, sel.From(v), sel.To(v, cols));
    line := if part.None? then None else Some(part.value + LineBreak(row, v == sel.Bottom().row));
  }

  lemma CopiedNext(window: seq<Row>, sel: Selection, cols: nat, v: nat, next: nat)
    requires Within(sel, window, cols) && sel.Top().row <= v && next == v + 1 <= sel.Bottom().row + 1
    ensures Copied(window, sel, cols, next)
         == Followed(Copied(window, sel, cols, v), CopiedLine(window[v], sel, cols, v))
  {
  }

  /** The rows of the window, read from whichever tiers they lie in. */
  method ReadRows(t: TerminalState) returns (window: seq<Row>)
    requires t.Valid() && Snapped(t)
    ensures window == WindowRows(t.model)
  {
    FlatIsHistoryAndScreen(t.Value(), t.model);
    AllVisibleIsWindow(TieredRows(t.tiers, t.cols), t.grid, t.model);
    window := t.VisibleRows();
  }

  lemma AllVisibleIsWindow(tiered: seq<Row>, grid: seq<Row>, s: State)
    requires tiered + grid == s.Flat() && !Straddles(tiered, grid, s.rows, s.scrollOffset)
    ensures AllVisible(tiered, grid, s.rows, s.scrollOffset, ViewportFor(tiered, grid, s.rows, s.scrollOffset))
         == WindowRows(s)
  {
    forall v | 0 <= v < s.rows
      ensures VisibleIn(tiered, grid, s.rows, s.scrollOffset, ViewportFor(tiered, grid, s.rows, s.scrollOffset), v)
           == WindowRows(s)[v]
    {
      VisibleIsFlat(tiered, grid, s.rows, s.scrollOffset, v);
    }
  }

  lemma {:induction false} NoneStays(window: seq<Row>, sel: Selection, cols: nat, m: nat, n: nat)
    requires Within(sel, window, cols) && m <= n <= sel.Bottom().row + 1
    requires Copied(window, sel, cols, m) == None
    ensures Copied(window, sel, cols, n) == None
  {
    if m < n {
      NoneStays(window, sel, cols, m, n - 1);
    }
  }

  /** Copying aborts exactly if the first selected row lies above the first row of the history
      and the selection starts right of its second column. */
  lemma CopyAbortsIff(s: State, sel: Selection)
    requires OnScreen(sel, s.rows, s.cols)
    ensures CopiedText(WindowRows(s), sel, s.cols).None? <==>
      |s.Flat()| + sel.Top().row < s.rows + s.scrollOffset && sel.Left() > 1
  {
    FirstRowAbortsIff(s, sel, sel.Top().row);
    SeenRowsHaveCells(s, WindowRows(s));
    FirstRowDecides(WindowRows(s), sel, s.cols, sel.Top().row);
  }

  lemma FirstRowDecides(w: seq<Row>, sel: Selection, cols: nat, top: nat)
    requires Within(sel, w, cols) && top == sel.Top().row && forall v :: 0 <= v < |w| ==> w[v].cells != []
    ensures CopiedText(w, sel, cols).None? <==> CopiedLine(w[top], sel, cols, top).None?
  {
    var next, end := top + 1, sel.Bottom().row + 1;
    CopiedNext(w, sel, cols, top, next);
    if Copied(w, sel, cols, next).None? {
      NoneStays(w, sel, cols, next, end);
    } else {
      LaterRowsCopy(w, sel, cols, end);
    }
  }

  lemma FirstRowAbortsIff(s: State, sel: Selection, top: nat)
    requires OnScreen(sel, s.rows, s.cols) && top == sel.Top().row
    ensures CopiedLine(WindowRows(s)[top], sel, s.cols, top).None? <==>
      |s.Flat()| + top < s.rows + s.scrollOffset && sel.Left() > 1
  {
    FlatRows(s);
  }

  lemma SeenRowsHaveCells(s: State, w: seq<Row>)
    requires w == WindowRows(s)
    ensures forall v :: 0 <= v < |w| ==> w[v].cells != []
  {
    FlatRows(s);
  }

  lemma {:induction false} LaterRowsCopy(w: seq<Row>, sel: Selection, cols: nat, n: nat)
    requires Within(sel, w, cols) && sel.Top().row < n <= sel.Bottom().row + 1
    requires forall v :: sel.Top().row < v <= sel.Bottom().row ==> w[v].cells != []
    requires Copied(w, sel, cols, sel.Top().row + 1).Some?
    ensures Copied(w, sel, cols, n).Some?
  {
    if n > sel.Top().row + 1 {
      LaterRowsCopy(w, sel, cols, n - 1);
      CopiedNext(w, sel, cols, n - 1, n);
    }
  }

  // ---- Whole lines -------------------------------------------------------------------------------

  function WholeLines(count: nat, cols: nat): Selection
    requires count > 0 && cols > 0
  {
    Selection(Position(0, 0), Position(count - 1, cols - 1))
  }

  lemma JoinedNextRow(rows: seq<Row>, row: Row, m: nat, n: nat)
    requires n == m + 1 <= |rows| && row == rows[m]
    ensures TextLayout.Joined(rows, n)
         == TextLayout.Joined(rows, m) + (RowText(row.cells, |row.cells|) + LineBreak(row, n == |rows|))
  {
    Assoc(TextLayout.Joined(rows, m), RowText(row.cells, |row.cells|), LineBreak(row, n == |rows|));
  }

  lemma WholeLineCopies(row: Row, count: nat, cols: nat, r: nat)
    requires r < count && 0 < cols == |row.cells|
    ensures CopiedLine(row, WholeLines(count, cols), cols, r)
         == Some(RowText(row.cells, cols) + LineBreak(row, r + 1 == count))
  {
    WholeRowText(row, cols);
    assert WholeLines(count, cols).From(r) == 0 && WholeLines(count, cols).To(r, cols) == cols - 1;
  }

  lemma WholeRowText(row: Row, cols: nat)
    requires 0 < cols == |row.cells|
    ensures PartText(row, 0, cols - 1) == Some(RowText(row.cells, cols))
  {
    assert row.cells[0..cols] == row.cells;
  }

  /** Whole lines copy as the rows joined, with a line break after each that is not wrapped. */
  lemma {:induction false} LinesCopy(w: seq<Row>, count: nat, cols: nat, n: nat)
    requires n <= count <= |w| && count > 0 && cols > 0
    requires forall v :: 0 <= v < count ==> |w[v].cells| == cols
    ensures Copied(w, WholeLines(count, cols), cols, n) == Some(TextLayout.Joined(w[..count], n))
  {
    if n > 0 {
      var m := n - 1;
      LinesCopy(w, count, cols, m);
      WholeLineCopies(w[m], count, cols, m);
      CopiedNext(w, WholeLines(count, cols), cols, m, n);
      JoinedNextRow(w[..count], w[m], m, n);
    }
  }

  /** Any text of narrow and wide characters that fits the screen of a new terminal: selecting
      its lines copies the text. */
  lemma PrintedTextCopies(cols: nat, rows: nat, limit: nat, text: seq<BaseChar>)
    requires 1 <= rows && 1 <= cols <= MAX_COLS && |Typeset(text, |text|, cols).p| <= rows
    ensures var count := |Typeset(text, |text|, cols).p|;
      CopiedText(WindowRows(WriteAll(Fresh(cols, rows, limit), text, |text|)), WholeLines(count, cols), cols)
      == Some(Codes(text, |text|))
  {
    var n := |text|;
    var t, s := Typeset(text, n, cols), WriteAll(Fresh(cols, rows, limit), text, n);
    TextIsTypeset(cols, rows, limit, text, n);
    TypesetText(text, n, cols);
    SettingCopies(s, t);
  }

  lemma SettingCopies(s: State, t: Setting)
    requires SettingOk(t, s.cols) && ShowsSetting(s, t) && |t.p| <= s.rows
    ensures CopiedText(WindowRows(s), WholeLines(|t.p|, s.cols), s.cols) == Some(SettingText(t))
  {
    ScreenLines(s, t);
    AllLinesCopy(WindowRows(s), t.p, s.cols, |t.p|);
  }

  lemma AllLinesCopy(w: seq<Row>, p: seq<Row>, cols: nat, count: nat)
    requires 0 < count == |p| <= |w| && w[..count] == p && cols > 0 && RowsOk(p, cols)
    ensures CopiedText(w, WholeLines(count, cols), cols) == Some(TextLayout.Joined(p, count))
  {
    forall v | 0 <= v < count ensures |w[v].cells| == cols {
      assert w[v] == p[v];
    }
    LinesCopy(w, count, cols, count);
  }

  lemma ScreenLines(s: State, t: Setting)
    requires SettingOk(t, s.cols) && ShowsSetting(s, t) && |t.p| <= s.rows
    ensures WindowRows(s)[..|t.p|] == t.p
  {
    assert s.scrollOffset == 0 && s.history == [];
    assert s.screen == t.p[0..] + BlankRows(s.rows - |t.p|, s.cols);
    SeesScreen(s);
    assert s.screen[..|t.p|] == t.p;
  }

  lemma SeesScreen(s: State)
    requires s.scrollOffset == 0
    ensures WindowRows(s) == s.screen
  {
    forall v | 0 <= v < s.rows ensures WindowRows(s)[v] == s.screen[v] {
      BottomRow(s.history, s.screen, v);
    }
  }

  lemma BottomRow(h: seq<Row>, screen: seq<Row>, v: nat)
    requires v < |screen|
    ensures WindowRow(h + screen, |screen|, 0, v) == screen[v]
  {
  }
}
