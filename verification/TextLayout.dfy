/** Writing plain text: the whole terminal in closed form of the text, for every width,
    height, history limit and text, and reading the text back by joining wrapped rows. */
module TextLayout {
  import opened Cells
  import opened SpanCodec
  import opened TerminalSpec
  import opened DirtyTracking
  import opened History
  import opened Offsets

  const PLAIN: Style := Style(0, 0, 0)

  predicate Printable(c: Char) { !c.IsControl() && c.width == 1 }

  type Text = t: seq<Char> | forall i :: 0 <= i < |t| ==> Printable(t[i])

  function Glyph(c: Char): Cell
    requires Printable(c)
  {
    Printed(c.code, PLAIN, 0, 1)
  }

  // ---- The layout ------------------------------------------------------------------------

  /** The line the character before position `n` is on; text without characters is on line 0. */
  function LastLine(n: nat, cols: nat): nat
    requires cols > 0
  {
    if n == 0 then 0 else (n - 1) / cols
  }

  predicate NoFlags(row: Row) {
    forall k :: 0 <= k < |row.cells| ==> row.cells[k].flags == 0
  }

  function CellAt(text: Text, n: nat, pos: nat): (cell: Cell)
    requires n <= |text|
    ensures cell.IsNormal() && cell.flags == 0
  {
    if pos < n then Glyph(text[pos]) else EMPTY_CELL
  }

  function LineCells(text: Text, n: nat, cols: nat, i: nat): (cells: seq<Cell>)
    requires n <= |text|
    ensures |cells| == cols
    ensures forall k :: 0 <= k < cols ==> cells[k] == CellAt(text, n, Start(i, cols) + k)
  {
    var start := Start(i, cols);
    seq(cols, k requires 0 <= k < cols => CellAt(text, n, start + k))
  }

  /** Line `i` of the first `n` characters, of which `last` is the last line. */
  function LayoutRow(text: Text, n: nat, cols: nat, i: nat, last: nat): (row: Row)
    requires n <= |text|
    ensures RowOk(row, cols) && NoFlags(row)
  {
    Row(LineCells(text, n, cols, i), i < last)
  }

  /** The first `n` characters cut into lines of `cols`, all but the last of them wrapped. */
  function Layout(text: Text, n: nat, cols: nat): (p: seq<Row>)
    requires n <= |text| && cols > 0
    ensures |p| == LastLine(n, cols) + 1 && RowsOk(p, cols)
  {
    var last := LastLine(n, cols);
    seq(last + 1, i requires 0 <= i <= last => LayoutRow(text, n, cols, i, last))
  }

  /** A wrap is pending after a line's last character. */
  predicate Pending(n: nat, cols: nat)
    requires cols > 0
  {
    n > 0 && n % cols == 0
  }

  function Column(n: nat, cols: nat): nat
    requires cols > 0
  {
    if Pending(n, cols) then cols - 1 else n % cols
  }

  /** Where character `n` goes: line `q`, column `r`, a new line exactly if a wrap is pending. */
  lemma NextPosition(n: nat, c: nat)
    requires c > 0
    ensures var q, r := n / c, n % c;
      && LastLine(n + 1, c) == q
      && LastLine(n, c) == (if Pending(n, c) then q - 1 else q)
      && (if r + 1 < c then Column(n + 1, c) == r + 1 && !Pending(n + 1, c)
          else Column(n + 1, c) == c - 1 && Pending(n + 1, c))
  {
    var q, r := n / c, n % c;
    Position(n, c);
    if r + 1 < c {
      DivMod(n + 1, c, q, r + 1);
    } else {
      DivMod(n + 1, c, q + 1, 0);
    }
    if r > 0 {
      DivMod(n - 1, c, q, r - 1);
    } else if n > 0 {
      DivMod(n - 1, c, q - 1, c - 1);
    }
  }

  // ---- One character more -------------------------------------------------------------------

  function Wrapped(p: seq<Row>, cols: nat): seq<Row>
    requires p != []
  {
    p[|p| - 1 := p[|p| - 1].(isWrapped := true)] + [BlankRow(cols)]
  }

  function PutLast(p: seq<Row>, col: nat, cell: Cell): seq<Row>
    requires p != [] && col < |p[|p| - 1].cells|
  {
    p[|p| - 1 := p[|p| - 1].(cells := p[|p| - 1].cells[col := cell])]
  }

  /** The lines the next character is put into. */
  function Opened(text: Text, n: nat, cols: nat): (p: seq<Row>)
    requires n <= |text| && cols > 0
    ensures p != [] && RowsOk(p, cols)
  {
    if Pending(n, cols) then Wrapped(Layout(text, n, cols), cols) else Layout(text, n, cols)
  }

  lemma LayoutNext(text: Text, n: nat, cols: nat)
    requires n < |text| && cols > 0
    ensures n % cols < cols
    ensures Layout(text, n + 1, cols) == PutLast(Opened(text, n, cols), n % cols, Glyph(text[n]))
  {
    var q, r, m := n / cols, n % cols, n + 1;
    NextPosition(n, cols);
    Position(n, cols);
    var o := Opened(text, n, cols);
    var put := PutLast(o, r, Glyph(text[n]));
    assert |o| == q + 1;
    forall i | 0 <= i <= q ensures LayoutRow(text, m, cols, i, q) == put[i] {
      if i < q {
        LineStart(i, q, cols);
        SameCells(text, n, m, cols, i, q, LastLine(n, cols));
      } else {
        LastCells(text, n, cols, q, r, o[q].cells);
      }
    }
  }

  /** A line that ends before character `n` is the same with it. */
  lemma SameCells(text: Text, n: nat, m: nat, cols: nat, i: nat, last: nat, lastBefore: nat)
    requires n <= m <= |text| && Start(i, cols) + cols <= n
    ensures LayoutRow(text, m, cols, i, last).cells == LayoutRow(text, n, cols, i, lastBefore).cells
  {
    var a, b := LayoutRow(text, m, cols, i, last).cells, LayoutRow(text, n, cols, i, lastBefore).cells;
    assert forall k :: 0 <= k < cols ==> a[k] == b[k];
  }

  lemma LastCells(text: Text, n: nat, cols: nat, q: nat, r: nat, cells: seq<Cell>)
    requires n < |text| && r < cols && n == Start(q, cols) + r && |cells| == cols
    requires forall k :: 0 <= k < cols ==> cells[k] == CellAt(text, n, Start(q, cols) + k)
    ensures LayoutRow(text, n + 1, cols, q, q).cells == cells[r := Glyph(text[n])]
  {
    var a, b := LayoutRow(text, n + 1, cols, q, q).cells, cells[r := Glyph(text[n])];
    assert forall k :: 0 <= k < cols ==> a[k] == b[k];
  }

  // ---- The terminal shows a layout ------------------------------------------------------------

  /** How many of `count` lines have left a screen of `rows`. */
  function Hidden(count: nat, rows: nat): nat { if count <= rows then 0 else count - rows }

  /** A terminal whose screen the lines `p` fill from the top, and beyond it the history,
      with the cursor on the last of them. */
  function Picture(cols: nat, rows: nat, limit: nat, p: seq<Row>, col: nat, pending: bool): RawState
    requires p != [] && rows > 0
  {
    var k := Hidden(|p|, rows);
    FreshState(cols, rows, limit).(
      history := Retained(p[..k], limit), tiered := TieredOfLog(k, limit),
      screen := p[k..] + BlankRows(rows - (|p| - k), cols),
      cursor := Cursor(col, |p| - 1 - k, false), pendingWrap := pending)
  }

  /** `s` is that terminal, whatever its dirty bits and its last character. */
  predicate Shows(s: State, p: seq<Row>, col: nat, pending: bool) {
    p != [] && s.(lastChar := None, dirty := Clean(s.rows)) == Picture(s.cols, s.rows, s.limit, p, col, pending)
  }

  lemma ShowsLast(s: State, p: seq<Row>, col: nat, pending: bool)
    requires Shows(s, p, col, pending)
    ensures s.Row() == p[|p| - 1]
  {
  }

  lemma FlagRow(s: State, p: seq<Row>, q: seq<Row>, k: nat, row: Row)
    requires p != [] && k < |p| && s.rows >= |p| - k && RowOk(row, s.cols)
    requires s.screen == p[k..] + BlankRows(s.rows - (|p| - k), s.cols)
    requires q == p[|p| - 1 := row] && s.cursor.row == |p| - 1 - k
    ensures SetRow(s, s.cursor.row, row).screen == q[k..] + BlankRows(s.rows - (|p| - k), s.cols)
    ensures q[..k] == p[..k]
  {
  }

  lemma WrapShows(s: State, p: seq<Row>, col: nat, pending: bool)
    requires Shows(s, p, col, pending)
    ensures Shows(LineWrap(s), Wrapped(p, s.cols), 0, false)
  {
    ShowsLast(s, p, col, pending);
    var k, row := Hidden(|p|, s.rows), p[|p| - 1].(isWrapped := true);
    var q := p[|p| - 1 := row];
    var w := SetRow(s, s.cursor.row, row);
    FlagRow(s, p, q, k, row);
    assert Shows(w, q, col, pending);
    NextShows(w, q, col, pending);
    assert LineWrap(s) == Place(NextRow(w), NextRow(w).cursor.(col := 0), false);
  }

  /** Going to the next row, a blank line is added below. */
  lemma NextShows(w: State, q: seq<Row>, col: nat, pending: bool)
    requires Shows(w, q, col, pending)
    ensures Shows(NextRow(w), q + [BlankRow(w.cols)], col, pending)
  {
    if |q| < w.rows {
      TakeBlank(q, w.rows - |q|, w.cols);
    } else {
      ScrollShows(w, q, col, pending, Hidden(|q|, w.rows));
    }
  }

  lemma ScrollShows(w: State, q: seq<Row>, col: nat, pending: bool, k: nat)
    requires Shows(w, q, col, pending) && |q| >= w.rows && k == Hidden(|q|, w.rows)
    ensures Shows(ScrollUpOne(w), q + [BlankRow(w.cols)], col, pending)
  {
    FullScreen(w, q, col, pending, k);
    ScrolledLines(w, q, k, k + 1);
    FilledScreen(w, ScrollUpOne(w), q, q + [BlankRow(w.cols)], col, pending, k + 1);
  }

  lemma FilledScreen(w: State, r: State, q: seq<Row>, more: seq<Row>, col: nat, pending: bool, k: nat)
    requires Shows(w, q, col, pending) && |q| >= w.rows && |more| == |q| + 1 && k == |more| - w.rows
    requires r == w.(history := r.history, tiered := r.tiered, screen := r.screen, dirty := r.dirty)
    requires r.history == Retained(more[..k], w.limit) && r.tiered == TieredOfLog(k, w.limit)
    requires r.screen == more[k..] + BlankRows(0, w.cols)
    ensures Shows(r, more, col, pending)
  {
    assert Hidden(|more|, w.rows) == k && w.rows - (|more| - k) == 0;
    assert w.cursor.row == |more| - 1 - k;
  }

  lemma ScrolledLines(w: State, q: seq<Row>, k: nat, next: nat)
    requires next == k + 1 <= |q| && w.screen == q[k..]
    requires w.history == Retained(q[..k], w.limit) && w.tiered == TieredOfLog(k, w.limit)
    ensures var r, more := ScrollUpOne(w), q + [BlankRow(w.cols)];
      && r == w.(history := r.history, tiered := r.tiered, screen := r.screen, dirty := r.dirty)
      && r.history == Retained(more[..next], w.limit) && r.tiered == TieredOfLog(next, w.limit)
      && r.screen == more[next..] + BlankRows(0, w.cols)
  {
    NextHistory(w.limit, q, k, next, BlankRow(w.cols));
    NextLines(q, k, next, w.cols);
  }

  lemma NextHistory(limit: nat, q: seq<Row>, k: nat, next: nat, blank: Row)
    requires next == k + 1 <= |q|
    ensures RetentionOk(Retained(q[..k], limit), TieredOfLog(k, limit), limit)
    ensures PushHistory(Retained(q[..k], limit), TieredOfLog(k, limit), limit, q[k])
         == (Retained((q + [blank])[..next], limit), TieredOfLog(next, limit))
  {
    PushRetained(q[..k], limit, q[k]);
    assert (q + [blank])[..next] == q[..k] + [q[k]];
  }

  lemma FullScreen(w: State, q: seq<Row>, col: nat, pending: bool, k: nat)
    requires Shows(w, q, col, pending) && |q| >= w.rows && k == Hidden(|q|, w.rows)
    ensures w.screen == q[k..] && w.history == Retained(q[..k], w.limit) && w.tiered == TieredOfLog(k, w.limit)
  {
  }

  lemma NextLines(q: seq<Row>, k: nat, next: nat, cols: nat)
    requires next == k + 1 <= |q|
    ensures var more := q + [BlankRow(cols)];
      more[next..] + BlankRows(0, cols) == q[k..][1..] + [BlankRow(cols)]
  {
  }

  lemma TakeBlank(q: seq<Row>, n: nat, cols: nat)
    requires n > 0
    ensures q[0..] + BlankRows(n, cols) == (q + [BlankRow(cols)])[0..] + BlankRows(n - 1, cols)
    ensures (q + [BlankRow(cols)])[..0] == q[..0]
  {
  }

  lemma PutShows(s: State, p: seq<Row>, col: nat, c: Char)
    requires Shows(s, p, col, false) && Printable(c)
    requires RowOk(p[|p| - 1], s.cols) && NoFlags(p[|p| - 1])
    ensures col < s.cols
    ensures Shows(PrintAt(s, c), PutLast(p, col, Glyph(c)),
                  if col + 1 < s.cols then col + 1 else s.cols - 1, col + 1 >= s.cols)
  {
    ShowsLast(s, p, col, false);
    PlainPrint(s, c);
    var k, row := Hidden(|p|, s.rows), p[|p| - 1].(cells := p[|p| - 1].cells[col := Glyph(c)]);
    FlagRow(s, p, p[|p| - 1 := row], k, row);
  }

  /** On a row of plain cells a character of width one only takes the cursor's cell. */
  lemma PlainPrint(s: State, c: Char)
    requires Printable(c) && NoFlags(s.Row())
    ensures var r := PrintAt(s, c);
      && r.history == s.history && r.tiered == s.tiered && r.style == s.style && r.modes == s.modes
      && var cells := s.Row().cells[s.cursor.col := Printed(c.code, s.style, 0, 1)];
      && r.screen == SetRow(s, s.cursor.row, s.Row().(cells := cells)).screen
      && r.cursor == s.cursor.(col := if s.cursor.col + 1 < s.cols then s.cursor.col + 1 else s.cols - 1)
      && r.pendingWrap == (s.cursor.col + 1 >= s.cols && s.modes.wrap)
  {
    assert PrintAt(s, c) == PutChar(s, c);
  }

  function WriteAll(s: State, text: seq<Char>, n: nat): (r: State)
    requires n <= |text|
    ensures SameGeometry(s, r)
  {
    if n == 0 then s else WriteChar(WriteAll(s, text, n - 1), text[n - 1])
  }

  lemma WriteAllNext(s: State, text: seq<Char>, i: nat, n: nat)
    requires n == i + 1 <= |text|
    ensures WriteAll(s, text, n) == WriteChar(WriteAll(s, text, i), text[i])
  {
  }

  /** Any text on a fresh terminal of any size and limit: the lines of the layout that fit
      are on the screen from the top, those above are the history, cut to the retained
      ones, and the cursor and the pending wrap follow from the length alone. */
  lemma {:induction false} TextIsLaidOut(cols: nat, rows: nat, limit: nat, text: Text, n: nat)
    requires 1 <= rows && 1 <= cols <= MAX_COLS && n <= |text|
    ensures Shows(WriteAll(Fresh(cols, rows, limit), text, n), Layout(text, n, cols), Column(n, cols), Pending(n, cols))
  {
    if n == 0 {
      FreshShows(cols, rows, limit, text);
    } else {
      var i := n - 1;
      var s := WriteAll(Fresh(cols, rows, limit), text, i);
      TextIsLaidOut(cols, rows, limit, text, i);
      CharIsLaidOut(s, text, i, n, cols, Column(i, cols), Pending(i, cols));
      WriteAllNext(Fresh(cols, rows, limit), text, i, n);
    }
  }

  lemma FreshShows(cols: nat, rows: nat, limit: nat, text: Text)
    requires 1 <= rows && 1 <= cols <= MAX_COLS
    ensures Shows(Fresh(cols, rows, limit), Layout(text, 0, cols), Column(0, cols), Pending(0, cols))
  {
    var p := Layout(text, 0, cols);
    assert LayoutRow(text, 0, cols, 0, 0).cells == Blanks(cols);
    assert p == [BlankRow(cols)];
    assert p[0..] == p && p[..0] == [];
    assert BlankRows(rows, cols) == p + BlankRows(rows - 1, cols);
    DivMod(0, cols, 0, 0);
  }

  lemma CharIsLaidOut(s: State, text: Text, i: nat, n: nat, cols: nat, col: nat, pending: bool)
    requires i + 1 == n <= |text| && s.cols == cols
    requires col == Column(i, cols) && pending == Pending(i, cols)
    requires Shows(s, Layout(text, i, cols), col, pending)
    ensures Shows(WriteChar(s, text[i]), Layout(text, n, cols), Column(n, cols), Pending(n, cols))
  {
    var p := Layout(text, i, cols);
    var r := if pending then 0 else col;
    NextLayout(text, i, n, cols, p, col, pending, r);
    WriteShows(s, p, col, pending, r, text[i]);
  }

  lemma NextLayout(text: Text, i: nat, n: nat, cols: nat, p: seq<Row>, col: nat, pending: bool, r: nat)
    requires i + 1 == n <= |text| && cols > 0 && p == Layout(text, i, cols)
    requires col == Column(i, cols) && pending == Pending(i, cols) && r == (if pending then 0 else col)
    ensures r < cols && NoFlags(p[|p| - 1])
    ensures Layout(text, n, cols) == PutLast(if pending then Wrapped(p, cols) else p, r, Glyph(text[i]))
    ensures Column(n, cols) == (if r + 1 < cols then r + 1 else cols - 1) && Pending(n, cols) == (r + 1 >= cols)
  {
    LayoutNext(text, i, cols);
    NextPosition(i, cols);
  }

  lemma WriteShows(s: State, p: seq<Row>, col: nat, pending: bool, r: nat, c: Char)
    requires Shows(s, p, col, pending) && Printable(c)
    requires r == if pending then 0 else col
    requires RowsOk(p, s.cols) && NoFlags(p[|p| - 1])
    ensures r < s.cols
    ensures Shows(WriteChar(s, c), PutLast(if pending then Wrapped(p, s.cols) else p, r, Glyph(c)),
                  if r + 1 < s.cols then r + 1 else s.cols - 1, r + 1 >= s.cols)
  {
    if pending {
      WrapShows(s, p, col, true);
      PutShows(LineWrap(s), Wrapped(p, s.cols), 0, c);
    } else {
      PutShows(s, p, col, c);
    }
  }

  // ---- Reading the text back ------------------------------------------------------------------

  /** The characters of the cells before `k`, as copying a selection takes them. */
  function RowText(cells: seq<Cell>, k: nat): seq<u32>
    requires k <= |cells|
  {
    if k == 0 then [] else RowText(cells, k - 1) + CellText(cells[k - 1])
  }

  function CellText(c: Cell): seq<u32> {
    if c.ch != 0 && !c.IsWideContinuation() then [c.ch] else []
  }

  /** A line break goes after every row that is not wrapped, but not after the last. */
  function Joined(rows: seq<Row>, n: nat): seq<u32>
    requires n <= |rows|
  {
    if n == 0 then []
    else Joined(rows, n - 1) + RowText(rows[n - 1].cells, |rows[n - 1].cells|)
         + (if n < |rows| && !rows[n - 1].isWrapped then [10] else [])
  }

  function Codes(text: seq<Char>, n: nat): seq<u32>
    requires n <= |text|
  {
    if n == 0 then [] else Codes(text, n - 1) + [text[n - 1].code]
  }

  lemma {:induction false} LineText(text: Text, n: nat, cols: nat, i: nat, last: nat, k: nat)
    requires n <= |text| && k <= cols && Start(i, cols) <= n
    ensures Codes(text, Start(i, cols)) + RowText(LayoutRow(text, n, cols, i, last).cells, k)
         == Codes(text, Min(Start(i, cols) + k, n))
  {
    if k > 0 {
      LineText(text, n, cols, i, last, k - 1);
      var cell := LayoutRow(text, n, cols, i, last).cells[k - 1];
      assert cell == CellAt(text, n, Start(i, cols) + (k - 1));
      Assoc(Codes(text, Start(i, cols)), RowText(LayoutRow(text, n, cols, i, last).cells, k - 1), CellText(cell));
      if Start(i, cols) + k <= n {
        assert CellText(cell) == [text[Start(i, cols) + (k - 1)].code];
      } else {
        assert CellText(cell) == [];
      }
    }
  }

  lemma {:induction false} LinesText(text: Text, n: nat, cols: nat, i: nat)
    requires n <= |text| && cols > 0 && i <= LastLine(n, cols) + 1
    ensures Joined(Layout(text, n, cols), i) == Codes(text, Min(Start(i, cols), n))
  {
    if i > 0 {
      var j := i - 1;
      LinesText(text, n, cols, j);
      LineStarts(n, cols, j);
      OneMoreLine(text, n, cols, j, i, Start(j, cols), Start(i, cols));
    }
  }

  lemma OneMoreLine(text: Text, n: nat, cols: nat, j: nat, i: nat, start: nat, next: nat)
    requires n <= |text| && cols > 0 && i == j + 1 <= LastLine(n, cols) + 1
    requires start == Start(j, cols) <= n && next == start + cols
    requires Joined(Layout(text, n, cols), j) == Codes(text, start)
    ensures Joined(Layout(text, n, cols), i) == Codes(text, Min(next, n))
  {
    var last := LastLine(n, cols);
    WholeLineText(text, n, cols, j, last, start, next);
    NextLineText(text, n, cols, j, i, last);
  }

  lemma WholeLineText(text: Text, n: nat, cols: nat, j: nat, last: nat, start: nat, next: nat)
    requires n <= |text| && start == Start(j, cols) <= n && next == start + cols
    ensures Codes(text, start) + RowText(LayoutRow(text, n, cols, j, last).cells, cols) == Codes(text, Min(next, n))
  {
    LineText(text, n, cols, j, last, cols);
  }

  lemma NextLineText(text: Text, n: nat, cols: nat, j: nat, i: nat, last: nat)
    requires n <= |text| && cols > 0 && i == j + 1 <= last + 1 && last == LastLine(n, cols)
    ensures Joined(Layout(text, n, cols), i)
         == Joined(Layout(text, n, cols), j) + RowText(LayoutRow(text, n, cols, j, last).cells, cols)
  {
    var p := Layout(text, n, cols);
    assert p[j] == LayoutRow(text, n, cols, j, last);
    JoinedNext(p, j, i, cols);
  }

  lemma JoinedNext(p: seq<Row>, j: nat, i: nat, cols: nat)
    requires i == j + 1 <= |p| && |p[j].cells| == cols
    requires i < |p| ==> p[j].isWrapped
    ensures Joined(p, i) == Joined(p, j) + RowText(p[j].cells, cols)
  {
  }

  lemma LineStarts(n: nat, cols: nat, j: nat)
    requires cols > 0 && j <= LastLine(n, cols)
    ensures Start(j, cols) <= n
  {
    if n > 0 {
      var q := (n - 1) / cols;
      Position(n - 1, cols);
      if j < q {
        LineStart(j, q, cols);
      }
    }
  }

  /** Joining the wrapped rows of the layout gives the text back. */
  lemma JoinedIsText(text: Text, n: nat, cols: nat)
    requires n <= |text| && cols > 0
    ensures Joined(Layout(text, n, cols), |Layout(text, n, cols)|) == Codes(text, n)
  {
    var count := |Layout(text, n, cols)|;
    LinesText(text, n, cols, count);
    EndOfLines(n, cols, count);
  }

  lemma EndOfLines(n: nat, cols: nat, count: nat)
    requires cols > 0 && count == LastLine(n, cols) + 1
    ensures n <= Start(count, cols)
  {
    if n > 0 {
      Position(n - 1, cols);
    }
  }

  /** The first `n` rows, joined. */
  function JoinedDown(rows: seq<Row>, n: nat): seq<u32>
    requires n <= |rows|
  {
    Joined(rows[..n], n)
  }

  function RowsToCursor(s: State): (n: nat)
    ensures n <= |s.history + s.screen|
  {
    |s.history| + s.cursor.row + 1
  }

  /** The retained rows down to the cursor's, joined. */
  function RetainedText(s: State): seq<u32> {
    JoinedDown(s.history + s.screen, RowsToCursor(s))
  }

  /** Below the history cap every line is still there, however many of them were tiered:
      joining the retained rows gives back the text. */
  lemma TextSurvives(cols: nat, rows: nat, limit: nat, text: Text)
    requires 1 <= rows && 1 <= cols <= MAX_COLS
    requires Hidden(LastLine(|text|, cols) + 1, rows) <= HOT_CAP + TierSpace(limit)
    ensures RetainedText(WriteAll(Fresh(cols, rows, limit), text, |text|)) == Codes(text, |text|)
  {
    var n := |text|;
    TextIsLaidOut(cols, rows, limit, text, n);
    JoinedIsText(text, n, cols);
    ShownLines(WriteAll(Fresh(cols, rows, limit), text, n), Layout(text, n, cols), Column(n, cols), Pending(n, cols));
  }

  lemma ShownLines(s: State, p: seq<Row>, col: nat, pending: bool)
    requires Shows(s, p, col, pending) && Hidden(|p|, s.rows) <= HOT_CAP + TierSpace(s.limit)
    ensures RetainedText(s) == Joined(p, |p|)
  {
    var k := Hidden(|p|, s.rows);
    var blanks := BlankRows(s.rows - (|p| - k), s.cols);
    ShownParts(s, p, col, pending, k, blanks);
    FlatShows(p, k, blanks);
    assert RowsToCursor(s) == |p|;
    JoinedPrefix(s.history + s.screen, p, blanks, RowsToCursor(s));
  }

  lemma JoinedPrefix(rows: seq<Row>, p: seq<Row>, blanks: seq<Row>, lines: nat)
    requires rows == p + blanks && lines == |p|
    ensures JoinedDown(rows, lines) == Joined(p, |p|)
  {
    assert rows[..lines] == p;
  }

  lemma ShownParts(s: State, p: seq<Row>, col: nat, pending: bool, k: nat, blanks: seq<Row>)
    requires Shows(s, p, col, pending) && k == Hidden(|p|, s.rows) <= HOT_CAP + TierSpace(s.limit)
    requires blanks == BlankRows(s.rows - (|p| - k), s.cols)
    ensures s.history == p[..k] && s.screen == p[k..] + blanks && s.cursor.row == |p| - 1 - k
  {
  }

  lemma FlatShows(p: seq<Row>, k: nat, blanks: seq<Row>)
    requires k <= |p|
    ensures p[..k] + (p[k..] + blanks) == p + blanks
  {
  }
}
