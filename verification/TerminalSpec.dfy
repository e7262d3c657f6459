/** The terminal state machine on values: what every operation does to the history,
    the screen, the cursor and the dirty bits. `history` is the retained scrollback,
    oldest row first; its first `tiered` rows have left the raw grid for the cold
    blocks and the pending span buffer. The class `Terminal.TerminalState` keeps the
    same state in its three physical tiers and is proved to follow these functions. */
module TerminalSpec {
  import opened Cells
  import opened DirtyTracking

  /** Raw history rows the grid holds above the screen before rows are tiered: the hot
      allowance of 1024 rows and four blocks of 128. */
  const HOT_CAP: nat := 1536
  const U16_MAX: nat := 0xFFFF
  const MAX_COLS: nat := 0x7FFF

  datatype Cursor = Cursor(col: nat, row: nat, isHidden: bool)
  datatype Style = Style(fg: u32, bg: u32, attrs: u16)
  datatype Modes = Modes(wrap: bool, cursorVisible: bool, altScreen: bool)
  datatype SavedCursor = SavedCursor(cursor: Cursor, style: Style, wrap: bool, pendingWrap: bool)

  /** A Unicode scalar with its display width; control characters have no width. */
  datatype CharOrControl = Char(code: u32, width: nat) {
    predicate IsControl() { code < 0x20 || 0x7F <= code < 0xA0 }
    predicate IsVariationSelector() { code == 0xFE0E || code == 0xFE0F }
    predicate IsJoiner() { code == 0x200D || code == 0x200C }
  }
  type Char = c: CharOrControl | c.code < 0x11_0000 && c.width <= 2 witness Char(0x20, 1)

  /** The normal screen, put aside while the alternate screen is shown. */
  datatype SavedScreen = SavedScreen(
    history: seq<Row>, tiered: nat, screen: seq<Row>,
    cursor: Cursor, savedCursor: Cursor, style: Style, pendingWrap: bool)

  datatype RawState = RawState(
    cols: nat, rows: nat,
    history: seq<Row>, tiered: nat, screen: seq<Row>,
    cursor: Cursor, style: Style, pendingWrap: bool,
    modes: Modes, saved: SavedCursor, alt: Option<SavedScreen>,
    lastChar: Option<Char>,
    scrollOffset: nat, limit: nat, dirty: Dirty)
  {
    /** Every retained row, oldest first. */
    function Flat(): seq<Row> { history + screen }

    function Row(): Row
      requires cursor.row < |screen|
    {
      screen[cursor.row]
    }
  }

  // ---- Well-formedness ----------------------------------------------------------

  /** No row is tiered before the raw history is full, and the number of tiered rows
      never passes what the history limit leaves for them. */
  predicate RetentionOk(history: seq<Row>, tiered: nat, limit: nat) {
    && tiered <= |history| <= tiered + HOT_CAP
    && (tiered > 0 ==> |history| == tiered + HOT_CAP && tiered + HOT_CAP <= limit + 1)
  }

  predicate CursorOk(c: Cursor, cols: nat, rows: nat) {
    c.col < cols && c.row < rows
  }

  predicate ScreenOk(s: RawState, history: seq<Row>, tiered: nat, screen: seq<Row>) {
    && |screen| == s.rows
    && RowsOk(screen, s.cols)
    && RowsOk(history, s.cols)
    && RetentionOk(history, tiered, s.limit)
  }

  predicate AltOk(s: RawState) {
    && (s.modes.altScreen <==> s.alt.Some?)
    && (s.alt.Some? ==>
          var a := s.alt.value;
          && ScreenOk(s, a.history, a.tiered, a.screen)
          && CursorOk(a.cursor, s.cols, s.rows)
          && CursorOk(a.savedCursor, s.cols, s.rows))
  }

  predicate Wf(s: RawState) {
    && 1 <= s.rows && 1 <= s.cols <= MAX_COLS
    && ScreenOk(s, s.history, s.tiered, s.screen)
    && CursorOk(s.cursor, s.cols, s.rows)
    && CursorOk(s.saved.cursor, s.cols, s.rows)
    && AltOk(s)
    && (s.lastChar.Some? ==> !s.lastChar.value.IsControl() && s.lastChar.value.width > 0)
    && s.dirty.rowCount == s.rows
  }

  function FreshState(cols: nat, rows: nat, limit: nat): RawState {
    var plain := Style(0, 0, 0);
    RawState(cols, rows, [], 0, BlankRows(rows, cols), Cursor(0, 0, false), plain, false,
             Modes(true, true, false), SavedCursor(Cursor(0, 0, false), plain, true, false), None,
             None, 0, limit, Clean(rows))
  }

  /** A well-formed terminal; the operations below are only asked of, and only yield,
      these. */
  type State = s: RawState | Wf(s) witness FreshState(1, 1, 0)

  function Fresh(cols: nat, rows: nat, limit: nat): State
    requires 1 <= rows && 1 <= cols <= MAX_COLS
  {
    FreshState(cols, rows, limit)
  }

  predicate SameGeometry(s: State, r: State) {
    r.cols == s.cols && r.rows == s.rows && r.limit == s.limit && r.scrollOffset == s.scrollOffset
  }

  /** What every operation but the switch of screens keeps. */
  predicate Next(s: State, r: State) {
    SameGeometry(s, r) && r.alt == s.alt && r.modes.altScreen == s.modes.altScreen
  }

  /** What every operation keeps but saving the cursor, dropping the history and the switch
      of screens. */
  predicate Keeps(s: State, r: State) {
    Next(s, r) && r.saved == s.saved && |s.history| <= |r.history|
  }

  // ---- Small updates ------------------------------------------------------------

  function MarkRow(s: State, row: nat): (r: State)
    ensures Keeps(s, r)
  {
    s.(dirty := s.dirty.MarkRow(row))
  }

  function MarkAll(s: State): (r: State)
    ensures Keeps(s, r)
  {
    s.(dirty := s.dirty.MarkAll())
  }

  function ClearPending(s: State): (r: State)
    ensures Keeps(s, r)
  {
    s.(pendingWrap := false)
  }

  /** The cursor is put somewhere and flagged as changed. */
  function Place(s: State, cursor: Cursor, pendingWrap: bool): (r: State)
    requires CursorOk(cursor, s.cols, s.rows)
    ensures Keeps(s, r)
  {
    s.(cursor := cursor, pendingWrap := pendingWrap, dirty := s.dirty.(cursorChanged := true))
  }

  function MarkCursor(s: State): (r: State)
    ensures Keeps(s, r)
  {
    s.(dirty := s.dirty.(cursorChanged := true))
  }

  function SetRow(s: State, v: nat, row: Row): (r: State)
    requires v < s.rows && RowOk(row, s.cols)
    ensures Keeps(s, r)
  {
    s.(screen := s.screen[v := row])
  }

  /** The cursor's row gets new cells and is marked. */
  function SetCells(s: State, cells: seq<Cell>): (r: State)
    requires |cells| == s.cols && NormalCells(cells)
    ensures Keeps(s, r)
  {
    MarkRow(SetRow(s, s.cursor.row, s.Row().(cells := cells)), s.cursor.row)
  }

  // ---- Scrolling ------------------------------------------------------------------

  /** The history and its tier boundary after `row` left the screen at the top. While
      the raw history has space nothing else happens; then the oldest raw row is tiered
      if the history without it is below the limit, and dropped otherwise. */
  function PushHistory(history: seq<Row>, tiered: nat, limit: nat, row: Row): (r: (seq<Row>, nat))
    requires RetentionOk(history, tiered, limit)
    ensures RetentionOk(r.0, r.1, limit) && |history| <= |r.0|
    ensures forall cols :: RowsOk(history, cols) && RowOk(row, cols) ==> RowsOk(r.0, cols)
  {
    if |history| - tiered < HOT_CAP then (history + [row], tiered)
    else if |history| - 1 < limit then (history + [row], tiered + 1)
    else (history[..tiered] + history[tiered + 1..] + [row], tiered)
  }

  function ScrollUpOne(s: State): (r: State)
    ensures Keeps(s, r) && r.cursor == s.cursor
  {
    var (history, tiered) := PushHistory(s.history, s.tiered, s.limit, s.screen[0]);
    s.(history := history, tiered := tiered, screen := s.screen[1..] + [BlankRow(s.cols)],
       dirty := s.dirty.MarkScroll(1))
  }

  function ScrollUpTimes(s: State, n: nat): (r: State)
    ensures Keeps(s, r)
  {
    if n == 0 then s else ScrollUpOne(ScrollUpTimes(s, n - 1))
  }

  function ScrollUp(s: State, n: nat): (r: State)
    ensures Keeps(s, r)
  {
    MarkAll(ScrollUpTimes(s, n))
  }

  /** A blank row enters at the top of the raw grid, not of the screen; every raw row
      moves down by one and the bottom one is lost. */
  function ScrollDownOne(s: State): (r: State)
    ensures Keeps(s, r)
  {
    var hot := |s.history| - s.tiered;
    if hot == 0 then s.(screen := [BlankRow(s.cols)] + s.screen[..s.rows - 1])
    else s.(history := s.history[..s.tiered] + [BlankRow(s.cols)] + s.history[s.tiered..|s.history| - 1],
            screen := [s.history[|s.history| - 1]] + s.screen[..s.rows - 1])
  }

  function ScrollDownTimes(s: State, n: nat): (r: State)
    ensures Keeps(s, r)
  {
    if n == 0 then s else ScrollDownOne(ScrollDownTimes(s, n - 1))
  }

  function ScrollDown(s: State, n: nat): (r: State)
    ensures Keeps(s, r)
  {
    MarkAll(ScrollDownTimes(s, n))
  }

  // ---- Cursor movement --------------------------------------------------------------

  /** To the next row, scrolling at the bottom of the screen. */
  function NextRow(s: State): (r: State)
    ensures Keeps(s, r)
  {
    if s.cursor.row < s.rows - 1 then s.(cursor := s.cursor.(row := s.cursor.row + 1)) else ScrollUpOne(s)
  }

  function LineWrap(s: State): (r: State)
    ensures Keeps(s, r)
  {
    var w := SetRow(s, s.cursor.row, s.Row().(isWrapped := true));
    var d := NextRow(w);
    Place(d, d.cursor.(col := 0), false)
  }

  /** At the right margin the cursor parks and the wrap is deferred to the next print. */
  function CursorAdvance(s: State, width: nat): (r: State)
    ensures Keeps(s, r)
  {
    if s.cursor.col + width < s.cols then Place(s, s.cursor.(col := s.cursor.col + width), false)
    else Place(s, s.cursor.(col := s.cols - 1), s.modes.wrap)
  }

  function DownStep(s: State): (r: State)
    ensures Keeps(s, r)
  {
    if s.cursor.row < s.rows - 1 then Place(s, s.cursor.(row := s.cursor.row + 1), s.pendingWrap)
    else ScrollUpOne(s)
  }

  function DownSteps(s: State, n: nat): (r: State)
    ensures Keeps(s, r)
  {
    if n == 0 then s else DownStep(DownSteps(s, n - 1))
  }

  function CursorDown(s: State, n: nat): (r: State)
    ensures Keeps(s, r)
  {
    DownSteps(ClearPending(s), n)
  }

  function CursorUp(s: State, n: nat): (r: State)
    ensures Keeps(s, r)
  {
    var row := if n <= s.cursor.row then s.cursor.row - n else 0;
    if row == s.cursor.row then ClearPending(s) else Place(s, s.cursor.(row := row), false)
  }

  function ForwardStep(s: State): (r: State)
    ensures Keeps(s, r)
  {
    if s.cursor.col < s.cols - 1 then Place(s, s.cursor.(col := s.cursor.col + 1), s.pendingWrap)
    else if s.modes.wrap then LineWrap(s)
    else s
  }

  function ForwardSteps(s: State, n: nat): (r: State)
    ensures Keeps(s, r)
  {
    if n == 0 then s else ForwardStep(ForwardSteps(s, n - 1))
  }

  function CursorForward(s: State, n: nat): (r: State)
    ensures Keeps(s, r)
  {
    ForwardSteps(ClearPending(s), n)
  }

  function BackStep(s: State): (r: State)
    ensures Keeps(s, r)
  {
    if s.cursor.col > 0 then Place(s, s.cursor.(col := s.cursor.col - 1), s.pendingWrap) else s
  }

  function BackSteps(s: State, n: nat): (r: State)
    ensures Keeps(s, r)
  {
    if n == 0 then s else BackStep(BackSteps(s, n - 1))
  }

  function CursorBack(s: State, n: nat): (r: State)
    ensures Keeps(s, r)
  {
    BackSteps(ClearPending(s), n)
  }

  function CursorToBeginningOfLine(s: State): (r: State)
    ensures Keeps(s, r)
  {
    if s.cursor.col == 0 then s
    else Place(s, s.cursor.(col := 0), false)
  }

  /** A coordinate of 0xFFFF leaves that axis alone; others are clamped. */
  function CursorPosition(s: State, col: nat, row: nat): (r: State)
    ensures Keeps(s, r)
  {
    var c := if col == U16_MAX then s.cursor.col else if col < s.cols then col else s.cols - 1;
    var r := if row == U16_MAX then s.cursor.row else if row < s.rows then row else s.rows - 1;
    if c == s.cursor.col && r == s.cursor.row then ClearPending(s)
    else Place(s, s.cursor.(col := c, row := r), false)
  }

  function Tab(s: State): (r: State)
    ensures Keeps(s, r)
  {
    var next := (s.cursor.col / 8 + 1) * 8;
    Place(s, s.cursor.(col := if next < s.cols then next else s.cols - 1), false)
  }

  // ---- Writing characters -------------------------------------------------------------

  /** The base cell of the cluster that ends before `col`. */
  function ClusterBase(cells: seq<Cell>, col: nat): (b: Option<nat>)
    requires col <= |cells|
    ensures b.Some? ==> b.value < col && !cells[b.value].IsWideContinuation()
  {
    if col == 0 then None
    else if cells[col - 1].IsWideContinuation() then ClusterBase(cells, col - 1)
    else Some(col - 1)
  }

  function Printed(code: u32, style: Style, flags: u8, width: u8): Cell {
    Cell(code, style.fg, style.bg, style.attrs, flags, width)
  }

  /** The right half of the wide cell `base`. */
  function Continuation(base: Cell): Cell {
    base.(flags := WIDE_CONTINUATION, width := 0)
  }

  function ClampCursorAfterCluster(s: State, base: nat, width: nat): (r: State)
    ensures Keeps(s, r)
  {
    if base + width >= s.cols then Place(s, s.cursor.(col := s.cols - 1), s.modes.wrap)
    else Place(s, s.cursor.(col := base + width), false)
  }

  function ClusterWidth(a: nat, b: nat): u8 {
    var w := if a >= b then a else b;
    if w <= 2 then w else 2
  }

  /** The cells after the cluster at `b` took on `width`, its base becoming `base`; a
      cluster that grew to two columns gets a continuation copied from the old base. */
  function GrowCluster(cells: seq<Cell>, b: nat, base: Cell, grew: bool): (r: seq<Cell>)
    requires b < |cells| && NormalCells(cells) && !cells[b].IsEmpty() && !base.IsEmpty()
    ensures |r| == |cells| && NormalCells(r)
  {
    var c := cells[b := base];
    if grew && b + 1 < |cells| then c[b + 1 := Continuation(cells[b])] else c
  }

  /** The next base character is absorbed by a cluster that ends in a joiner. */
  function MergeCluster(s: State, b: nat, width: nat): (r: State)
    requires b < s.cols && !s.Row().cells[b].IsEmpty()
    ensures Keeps(s, r)
  {
    var cells := s.Row().cells;
    var prev, w := cells[b], ClusterWidth(cells[b].width, width);
    var base := Printed(prev.ch, s.style, prev.WithoutJoiner().flags, w);
    ClampCursorAfterCluster(SetCells(s, GrowCluster(cells, b, base, w == 2 && prev.width < 2)), b, w)
  }

  function PullLeft(s: State, col: nat): (r: State)
    requires col < s.cols
    ensures Keeps(s, r)
  {
    s.(cursor := s.cursor.(col := col))
  }

  /** A wide character that would cross the right margin wraps, or is pulled left. */
  function Fit(s: State, width: nat): (r: State)
    ensures Keeps(s, r)
  {
    if s.cursor.col + width <= s.cols then s
    else if s.modes.wrap then LineWrap(s)
    else PullLeft(s, if width < s.cols then s.cols - width else 0)
  }

  function PutCells(cells: seq<Cell>, col: nat, cell: Cell): (r: seq<Cell>)
    requires col < |cells| && NormalCells(cells) && !cell.IsEmpty()
    ensures |r| == |cells| && NormalCells(r)
  {
    var c := cells[col := cell];
    if cell.width == 2 && col + 1 < |cells| then c[col + 1 := Continuation(cell)] else c
  }

  function SetLastChar(s: State, c: Char): (r: State)
    requires !c.IsControl() && c.width > 0
    ensures Keeps(s, r)
  {
    s.(lastChar := Some(c))
  }

  function PutChar(s: State, c: Char): (r: State)
    requires !c.IsControl() && c.width > 0
    ensures Keeps(s, r)
  {
    var cells := PutCells(s.Row().cells, s.cursor.col, Printed(c.code, s.style, 0, c.width));
    CursorAdvance(SetLastChar(SetCells(s, cells), c), c.width)
  }

  function PrintAt(s: State, c: Char): (r: State)
    requires !c.IsControl() && c.width > 0
    ensures Keeps(s, r)
  {
    var cells := s.Row().cells;
    match ClusterBase(cells, s.cursor.col)
    case Some(b) =>
      if cells[b].IsJoiner() && !cells[b].IsEmpty() then MergeCluster(s, b, c.width)
      else PutChar(Fit(s, c.width), c)
    case None => PutChar(Fit(s, c.width), c)
  }

  /** Variation selectors set the width of the cluster at `b`; joiners flag it. */
  function ChangeBase(s: State, c: Char, b: nat): (r: State)
    requires b < s.cols && !s.Row().cells[b].IsEmpty()
    ensures Keeps(s, r)
  {
    var cells, base := s.Row().cells, s.Row().cells[b];
    if c.IsVariationSelector() then
      var w := ClusterWidth(if c.code == 0xFE0F then 2 else 1, base.width);
      var grew := w == 2 && base.width < 2;
      var t := SetCells(s, GrowCluster(cells, b, base.(width := w), grew));
      if grew && b + 1 < s.cols then ClampCursorAfterCluster(t, b, 2) else t
    else SetCells(s, GrowCluster(cells, b, base.WithJoiner(), false))
  }

  /** Combining marks take the cursor's cell; selectors and joiners change the base. */
  function WriteZeroWidth(s: State, c: Char): (r: State)
    requires !c.IsControl()
    ensures Keeps(s, r)
  {
    var cells, col := s.Row().cells, s.cursor.col;
    if col == 0 then s
    else if !c.IsVariationSelector() && !c.IsJoiner() then
      SetCells(s, cells[col := Printed(c.code, s.style, COMBINING, 0)])
    else match ClusterBase(cells, col)
      case None => s
      case Some(b) => if cells[b].IsEmpty() then s else ChangeBase(s, c, b)
  }

  function WriteChar(s: State, c: Char): (r: State)
    ensures Keeps(s, r)
  {
    if c.IsControl() then s
    else if c.width == 0 then WriteZeroWidth(s, c)
    else PrintAt(if s.pendingWrap then LineWrap(s) else s, c)
  }

  function RepeatChar(s: State, c: Char, n: nat): (r: State)
    ensures Keeps(s, r)
  {
    if n == 0 then s else WriteChar(RepeatChar(s, c, n - 1), c)
  }

  function RepeatLastChar(s: State, n: nat): (r: State)
    ensures Keeps(s, r)
  {
    match s.lastChar
    case None => s
    case Some(c) => RepeatChar(s, c, n)
  }

  // ---- Erasing ----------------------------------------------------------------------

  function ClearFrom(cells: seq<Cell>, start: nat): (r: seq<Cell>)
    requires start <= |cells|
    ensures |r| == |cells|
    ensures NormalCells(cells) ==> NormalCells(r)
  {
    cells[..start] + Blanks(|cells| - start)
  }

  function ClearTo(cells: seq<Cell>, end: nat): (r: seq<Cell>)
    requires end < |cells|
    ensures |r| == |cells|
    ensures NormalCells(cells) ==> NormalCells(r)
  {
    Blanks(end + 1) + cells[end + 1..]
  }

  function ErasedFrom(row: Row, start: nat): (r: Row)
    requires start <= |row.cells|
    ensures RowOk(row, |row.cells|) ==> RowOk(r, |row.cells|)
  {
    row.(cells := ClearFrom(row.cells, start))
  }

  function ErasedTo(row: Row, end: nat): (r: Row)
    requires end < |row.cells|
    ensures RowOk(row, |row.cells|) ==> RowOk(r, |row.cells|)
  {
    row.(cells := ClearTo(row.cells, end))
  }

  /** Erasing keeps the wrapped flag of every row it touches. */
  function RowBelow(s: State, v: nat): (row: Row)
    requires v < s.rows
    ensures RowOk(row, s.cols)
  {
    var row := s.screen[v];
    if v < s.cursor.row then row
    else ErasedFrom(row, if v == s.cursor.row then s.cursor.col else 0)
  }

  function ClearBelow(s: State): (r: seq<Row>)
    ensures |r| == s.rows && RowsOk(r, s.cols)
    ensures forall v :: 0 <= v < s.rows ==> r[v] == RowBelow(s, v)
  {
    seq(s.rows, v requires 0 <= v < s.rows => RowBelow(s, v))
  }

  function RowAbove(s: State, v: nat): (row: Row)
    requires v < s.rows
    ensures RowOk(row, s.cols)
  {
    var row := s.screen[v];
    if v > s.cursor.row then row
    else ErasedTo(row, if v == s.cursor.row then s.cursor.col else s.cols - 1)
  }

  function ClearAbove(s: State): (r: seq<Row>)
    ensures |r| == s.rows && RowsOk(r, s.cols)
    ensures forall v :: 0 <= v < s.rows ==> r[v] == RowAbove(s, v)
  {
    seq(s.rows, v requires 0 <= v < s.rows => RowAbove(s, v))
  }

  function SetScreen(s: State, screen: seq<Row>): (r: State)
    requires |screen| == s.rows && RowsOk(screen, s.cols)
    ensures Keeps(s, r)
  {
    s.(screen := screen)
  }

  function DropHistory(s: State): (r: State)
    ensures Next(s, r) && r.saved == s.saved
  {
    s.(history := [], tiered := 0)
  }

  function Wiped(s: State, dropHistory: bool): (r: State)
    ensures Next(s, r) && r.saved == s.saved
    ensures !dropHistory ==> |s.history| <= |r.history|
  {
    var t := SetScreen(s, BlankRows(s.rows, s.cols));
    Place(MarkAll(if dropHistory then DropHistory(t) else t), s.cursor.(col := 0, row := 0), false)
  }

  function ClearScreen(s: State, mode: nat): (r: State)
    ensures Next(s, r) && r.saved == s.saved
    ensures mode != 3 ==> |s.history| <= |r.history|
  {
    if mode == 0 then MarkCursor(MarkAll(SetScreen(s, ClearBelow(s))))
    else if mode == 1 then MarkCursor(MarkAll(SetScreen(s, ClearAbove(s))))
    else if mode == 2 || mode == 3 then Wiped(s, mode == 3)
    else MarkCursor(s)
  }

  function ErasedLine(s: State, mode: nat): (row: Row)
    ensures RowOk(row, s.cols)
  {
    if mode == 0 then ErasedFrom(s.Row(), s.cursor.col)
    else if mode == 1 then ErasedTo(s.Row(), s.cursor.col)
    else BlankRow(s.cols)
  }

  function ClearLine(s: State, mode: nat): (r: State)
    ensures Keeps(s, r)
  {
    MarkRow(if mode > 2 then s else SetRow(s, s.cursor.row, ErasedLine(s, mode)), s.cursor.row)
  }

  // ---- Inserting and deleting -----------------------------------------------------------

  /** `n`, but no more than lie between `from` and `end`. */
  function Clamp(n: nat, from: nat, end: nat): nat
    requires from <= end
  {
    Min(n, end - from)
  }

  function InsertBlankRows(screen: seq<Row>, at: nat, n: nat, cols: nat): (r: seq<Row>)
    requires at + n <= |screen|
    ensures |r| == |screen|
    ensures RowsOk(screen, cols) ==> RowsOk(r, cols)
  {
    screen[..at] + BlankRows(n, cols) + screen[at..|screen| - n]
  }

  function DeleteRows(screen: seq<Row>, at: nat, n: nat, cols: nat): (r: seq<Row>)
    requires at + n <= |screen|
    ensures |r| == |screen|
    ensures RowsOk(screen, cols) ==> RowsOk(r, cols)
  {
    screen[..at] + screen[at + n..] + BlankRows(n, cols)
  }

  function InsertLines(s: State, n: nat): (r: State)
    ensures Keeps(s, r)
  {
    MarkAll(SetScreen(s, InsertBlankRows(s.screen, s.cursor.row, Clamp(n, s.cursor.row, s.rows), s.cols)))
  }

  function DeleteLines(s: State, n: nat): (r: State)
    ensures Keeps(s, r)
  {
    MarkAll(SetScreen(s, DeleteRows(s.screen, s.cursor.row, Clamp(n, s.cursor.row, s.rows), s.cols)))
  }

  function InsertBlankCells(cells: seq<Cell>, at: nat, n: nat): (r: seq<Cell>)
    requires at + n <= |cells|
    ensures |r| == |cells|
    ensures NormalCells(cells) ==> NormalCells(r)
  {
    cells[..at] + Blanks(n) + cells[at..|cells| - n]
  }

  function DeleteCells(cells: seq<Cell>, at: nat, n: nat): (r: seq<Cell>)
    requires at + n <= |cells|
    ensures |r| == |cells|
    ensures NormalCells(cells) ==> NormalCells(r)
  {
    cells[..at] + cells[at + n..] + Blanks(n)
  }

  /** More cells than remain to the right of the cursor are not clamped: the copy's
      destination leaves the row and the program aborts. */
  predicate InsertCharsAborts(s: State, n: nat) {
    n > s.cols - s.cursor.col
  }

  function InsertChars(s: State, n: nat): (r: State)
    requires !InsertCharsAborts(s, n)
    ensures Keeps(s, r)
  {
    SetCells(s, InsertBlankCells(s.Row().cells, s.cursor.col, n))
  }

  function DeleteChars(s: State, n: nat): (r: State)
    ensures Keeps(s, r)
  {
    SetCells(s, DeleteCells(s.Row().cells, s.cursor.col, Clamp(n, s.cursor.col, s.cols)))
  }

  // ---- Alternate screen, saved cursor, modes ----------------------------------------------

  function SetAltScreen(s: State, alt: bool): (r: State)
    ensures SameGeometry(s, r)
  {
    if alt == s.modes.altScreen then s
    else if alt then
      MarkAll(s.(
        alt := Some(SavedScreen(s.history, s.tiered, s.screen, s.cursor, s.saved.cursor, s.style, s.pendingWrap)),
        history := [], tiered := 0, screen := BlankRows(s.rows, s.cols),
        cursor := Cursor(0, 0, false), pendingWrap := false, modes := s.modes.(altScreen := true)))
    else
      var a := s.alt.value;
      MarkAll(s.(
        alt := None, history := a.history, tiered := a.tiered, screen := a.screen,
        cursor := a.cursor, saved := s.saved.(cursor := a.savedCursor), style := a.style,
        pendingWrap := a.pendingWrap, modes := s.modes.(altScreen := false)))
  }

  function WithStyle(s: State, style: Style): (r: State)
    ensures Keeps(s, r)
  {
    s.(style := style)
  }

  function SetAutoWrap(s: State, wrap: bool): (r: State)
    ensures Keeps(s, r)
  {
    s.(modes := s.modes.(wrap := wrap))
  }

  function SaveCursor(s: State): (r: State)
    ensures Next(s, r) && r.history == s.history
  {
    s.(saved := SavedCursor(s.cursor, s.style, s.modes.wrap, s.pendingWrap))
  }

  function RestoreCursor(s: State): (r: State)
    ensures Keeps(s, r)
  {
    Place(SetAutoWrap(WithStyle(s, s.saved.style), s.saved.wrap), s.saved.cursor, s.saved.pendingWrap)
  }

  function SetCursorVisible(s: State, visible: bool): (r: State)
    ensures Keeps(s, r)
  {
    if s.modes.cursorVisible == visible then s
    else Place(s.(modes := s.modes.(cursorVisible := visible)), s.cursor.(isHidden := !visible), s.pendingWrap)
  }

  // ---- Resizing -----------------------------------------------------------------------------

  function ResizedCells(cells: seq<Cell>, cols: nat): (r: seq<Cell>)
    ensures |r| == cols && (NormalCells(cells) ==> NormalCells(r))
  {
    if cols <= |cells| then cells[..cols] else cells + Blanks(cols - |cells|)
  }

  function ResizedRow(row: Row, cols: nat): Row { row.(cells := ResizedCells(row.cells, cols)) }

  /** The last `rows` raw rows, with blank ones below if there are fewer. */
  function LastRows(raw: seq<Row>, cols: nat, rows: nat): (r: seq<Row>)
    ensures |r| == rows
  {
    if |raw| > rows then raw[|raw| - rows..] else raw + BlankRows(rows - |raw|, cols)
  }

  function ResizedRows(raw: seq<Row>, cols: nat, rows: nat): (r: seq<Row>)
    ensures |r| == rows && forall v :: 0 <= v < rows ==> r[v] == ResizedRow(LastRows(raw, cols, rows)[v], cols)
  {
    seq(rows, v requires 0 <= v < rows => ResizedRow(LastRows(raw, cols, rows)[v], cols))
  }

  function ClampedTo(c: Cursor, cols: nat, rows: nat): Cursor
    requires cols > 0 && rows > 0
  {
    c.(col := Min(c.col, cols - 1), row := Min(c.row, rows - 1))
  }

  /** The whole scrollback is dropped and the screen cut or padded; neither the saved cursor
      nor the screen that was put aside is touched. */
  function Resized(s: State, cols: nat, rows: nat): RawState
    requires cols > 0 && rows > 0
  {
    if cols == s.cols && rows == s.rows then s
    else s.(
      cols := cols, rows := rows, history := [], tiered := 0,
      screen := ResizedRows(s.history[s.tiered..] + s.screen, cols, rows),
      cursor := ClampedTo(s.cursor, cols, rows), pendingWrap := false, scrollOffset := 0,
      dirty := Clean(rows).MarkAll())
  }

  /** What a caller can check before resizing. */
  predicate ResizeIsSafe(s: State, cols: nat, rows: nat) {
    (cols == s.cols && rows == s.rows) || (s.alt.None? && CursorOk(s.saved.cursor, cols, rows))
  }

  /** Resizing yields a well-formed terminal exactly if it changes nothing, or no screen is
      put aside and the saved cursor still lies on the screen. */
  lemma ResizeWellFormedIff(s: State, cols: nat, rows: nat)
    requires 1 <= rows && 1 <= cols <= MAX_COLS
    ensures Wf(Resized(s, cols, rows)) <==> ResizeIsSafe(s, cols, rows)
  {
    var raw, r := s.history[s.tiered..] + s.screen, Resized(s, cols, rows);
    if cols != s.cols || rows != s.rows {
      LastRowsOk(raw, s.cols, cols, rows);
      assert ScreenOk(r, [], 0, r.screen);
      if s.alt.Some? {
        var a := s.alt.value;
        assert |a.screen| == s.rows && RowOk(a.screen[0], s.cols);
      }
    }
  }

  lemma LastRowsOk(raw: seq<Row>, width: nat, cols: nat, rows: nat)
    requires RowsOk(raw, width)
    ensures RowsOk(ResizedRows(raw, cols, rows), cols)
  {
    var last := LastRows(raw, cols, rows);
    forall v | 0 <= v < rows ensures NormalCells(last[v].cells) {
      assert |raw| > rows ==> last[v] == raw[|raw| - rows + v];
    }
  }

  // ---- Scrolled view, frames ----------------------------------------------------------------

  function SetScrollOffset(s: State, offset: nat): State {
    var to := Min(offset, |s.history|);
    if to == s.scrollOffset then s else s.(scrollOffset := to, dirty := s.dirty.MarkAll())
  }

  /** What the renderer takes for a frame; a new, clean tracker stays behind. */
  function ConsumeDirty(s: State): State {
    s.(dirty := Clean(s.rows))
  }

  // ---- Events ------------------------------------------------------------------------------

  /** `SetStyle` stands for an SGR list, whose effect is a new current style. */
  datatype Event =
    | Write(c: Char)
    | MoveCursor(col: nat, row: nat)
    | Up(n: nat) | Down(n: nat) | Forward(n: nat) | Back(n: nat)
    | TabStop
    | BeginningOfLine
    | EraseScreen(mode: nat)
    | EraseLine(mode: nat)
    | InsertLinesEvent(n: nat)
    | DeleteLinesEvent(n: nat)
    | SetStyle(style: Style)
    | ScrollUpEvent(n: nat)
    | ScrollDownEvent(n: nat)
    | SaveCursorEvent
    | RestoreCursorEvent
    | ShowCursor(visible: bool)
    | AutoWrap(wrap: bool)
    | InputMode
    | AltScreen(alt: bool)
    | InsertCharsEvent(n: nat)
    | DeleteCharsEvent(n: nat)
    | Repeat(n: nat)
  {
    predicate IsMotion() {
      MoveCursor? || Up? || Down? || Forward? || Back? || TabStop? || BeginningOfLine?
    }

    predicate IsEdit() {
      InsertLinesEvent? || DeleteLinesEvent? || ScrollUpEvent? || ScrollDownEvent? || DeleteCharsEvent?
    }

    predicate IsMode() {
      SetStyle? || SaveCursorEvent? || RestoreCursorEvent? || ShowCursor? || AutoWrap? || InputMode?
    }
  }

  function AtLeast1(n: nat): nat { if n == 0 then 1 else n }

  predicate Aborts(s: State, e: Event) {
    e.InsertCharsEvent? && InsertCharsAborts(s, e.n)
  }

  function ApplyMotion(s: State, e: Event): (r: State)
    requires e.IsMotion()
    ensures Keeps(s, r)
  {
    match e
    case MoveCursor(col, row) => CursorPosition(s, col, row)
    case Up(n) => CursorUp(s, AtLeast1(n))
    case Down(n) => CursorDown(s, AtLeast1(n))
    case Forward(n) => CursorForward(s, AtLeast1(n))
    case Back(n) => CursorBack(s, AtLeast1(n))
    case TabStop => Tab(s)
    case BeginningOfLine => CursorToBeginningOfLine(s)
  }

  function ApplyEdit(s: State, e: Event): (r: State)
    requires e.IsEdit()
    ensures Keeps(s, r)
  {
    match e
    case InsertLinesEvent(n) => InsertLines(s, n)
    case DeleteLinesEvent(n) => DeleteLines(s, n)
    case ScrollUpEvent(n) => ScrollUp(s, n)
    case ScrollDownEvent(n) => ScrollDown(s, n)
    case DeleteCharsEvent(n) => DeleteChars(s, n)
  }

  function ApplyMode(s: State, e: Event): (r: State)
    requires e.IsMode()
    ensures Next(s, r) && |s.history| <= |r.history|
    ensures !e.SaveCursorEvent? ==> r.saved == s.saved
  {
    match e
    case SetStyle(style) => WithStyle(s, style)
    case SaveCursorEvent => SaveCursor(s)
    case RestoreCursorEvent => RestoreCursor(s)
    case ShowCursor(visible) => SetCursorVisible(s, visible)
    case AutoWrap(wrap) => SetAutoWrap(s, wrap)
    case InputMode => s
  }

  function Apply(s: State, e: Event): (r: State)
    requires !Aborts(s, e)
    ensures SameGeometry(s, r)
    ensures !e.AltScreen? ==> Next(s, r)
    ensures !e.AltScreen? && !e.SaveCursorEvent? ==> r.saved == s.saved
    ensures !e.AltScreen? && e != EraseScreen(3) ==> |s.history| <= |r.history|
  {
    if e.IsMotion() then ApplyMotion(s, e)
    else if e.IsEdit() then ApplyEdit(s, e)
    else if e.IsMode() then ApplyMode(s, e)
    else match e
      case Write(c) => WriteChar(s, c)
      case EraseScreen(mode) => ClearScreen(s, mode)
      case EraseLine(mode) => ClearLine(s, mode)
      case AltScreen(alt) => SetAltScreen(s, alt)
      case InsertCharsEvent(n) => InsertChars(s, n)
      case Repeat(n) => RepeatLastChar(s, n)
  }

  lemma AppliesErase(s: State, mode: nat)
    ensures Apply(s, EraseScreen(mode)) == ClearScreen(s, mode)
  {
  }

  lemma AppliesLine(s: State, mode: nat)
    ensures Apply(s, EraseLine(mode)) == ClearLine(s, mode)
  {
  }

  lemma AppliesInsert(s: State, n: nat)
    requires !InsertCharsAborts(s, n)
    ensures Apply(s, InsertCharsEvent(n)) == InsertChars(s, n)
  {
  }

  lemma AppliesWrite(s: State, c: Char)
    ensures Apply(s, Write(c)) == WriteChar(s, c)
  {
  }

  lemma AppliesRepeat(s: State, n: nat)
    ensures Apply(s, Repeat(n)) == RepeatLastChar(s, n)
  {
  }

  lemma AppliesAlt(s: State, alt: bool)
    ensures Apply(s, AltScreen(alt)) == SetAltScreen(s, alt)
  {
  }
}
