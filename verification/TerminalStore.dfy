/** What the row-holding fields of the terminal stand for, and how their updates look
    from outside the tiers. */
module TerminalStore {
  import opened Cells
  import opened DirtyTracking
  import opened SpanCodec
  import opened Tiers
  import Spec = TerminalSpec

  /** Decoded rows starting at a history index. */
  datatype Window = Window(base: nat, rows: seq<Row>)

  datatype SavedScreen = SavedScreen(
    grid: seq<Row>, tiers: EncodedTiers, viewport: Option<Window>, coldCache: Option<Window>,
    cursor: Spec.Cursor, savedCursor: Spec.Cursor, style: Spec.Style, pendingWrap: bool)

  /** The fields that hold rows. */
  datatype Store = Store(
    cols: u16, rows: nat, grid: seq<Row>, tiers: EncodedTiers, coldCache: Option<Window>, alt: Option<SavedScreen>)

  /** What the one-block cache may hold: a whole block under its base index, or one row
      that was pending when it was read, under its own index. */
  ghost predicate CacheOk(cache: Option<Window>, tiered: seq<Row>) {
    cache.Some? ==>
      var w := cache.value;
      && (|w.rows| == 1 || (|w.rows| == BLOCK_ROWS && BlockOffset(w.base) == 0))
      && w.base + |w.rows| <= |tiered|
      && forall i :: 0 <= i < |w.rows| ==> w.rows[i] == tiered[w.base + i]
  }

  lemma CacheGrows(cache: Option<Window>, t: seq<Row>, t': seq<Row>)
    requires CacheOk(cache, t) && t <= t'
    ensures CacheOk(cache, t')
  {
  }

  /** The rows above the screen: the tiered ones, then the raw ones. */
  ghost function HistoryOf(tiered: seq<Row>, grid: seq<Row>, rows: nat): seq<Row>
    requires rows <= |grid|
  {
    tiered + grid[..|grid| - rows]
  }

  ghost function ScreenOf(grid: seq<Row>, rows: nat): seq<Row>
    requires rows <= |grid|
  {
    grid[|grid| - rows..]
  }

  ghost predicate TiersReady(t: EncodedTiers, cols: u16) {
    TiersOk(t, cols) && t.count < BLOCK_ROWS
  }

  ghost predicate SavedOk(a: SavedScreen, cols: u16, rows: nat) {
    && TiersReady(a.tiers, cols)
    && |a.grid| >= rows
    && CacheOk(a.coldCache, TieredRows(a.tiers, cols))
  }

  ghost function SavedAbs(a: SavedScreen, cols: u16, rows: nat): Spec.SavedScreen
    requires SavedOk(a, cols, rows)
  {
    var t := TieredRows(a.tiers, cols);
    Spec.SavedScreen(HistoryOf(t, a.grid, rows), |t|, ScreenOf(a.grid, rows), a.cursor,
                     a.savedCursor, a.style, a.pendingWrap)
  }

  /** The tiers, the cache and the saved screen are sound. */
  ghost predicate StoreOk(s: Store) {
    && TiersReady(s.tiers, s.cols)
    && |s.grid| >= s.rows
    && CacheOk(s.coldCache, TieredRows(s.tiers, s.cols))
    && (s.alt.Some? ==> SavedOk(s.alt.value, s.cols, s.rows))
  }

  /** Every field of the terminal but the viewport, which no operation reads. */
  datatype Concrete = Concrete(
    store: Store, cursor: Spec.Cursor, style: Spec.Style, pendingWrap: bool, modes: Spec.Modes,
    saved: Spec.SavedCursor, lastChar: Option<Spec.Char>, scrollOffset: nat, limit: nat, dirty: Dirty)

  /** The terminal value the fields stand for: the decoded blocks, the pending rows and
      the raw rows above the screen are its history. */
  ghost function Abs(c: Concrete): Spec.RawState
    requires StoreOk(c.store)
  {
    var s := c.store;
    var t := TieredRows(s.tiers, s.cols);
    Spec.RawState(
      s.cols, s.rows, HistoryOf(t, s.grid, s.rows), |t|, ScreenOf(s.grid, s.rows),
      c.cursor, c.style, c.pendingWrap, c.modes, c.saved,
      if s.alt.None? then None else Some(SavedAbs(s.alt.value, s.cols, s.rows)),
      c.lastChar, c.scrollOffset, c.limit, c.dirty)
  }

  ghost predicate Refines(c: Concrete, m: Spec.State) {
    StoreOk(c.store) && m == Abs(c)
  }

  /** Every retained row, read from the blocks, the pending buffer and the grid. */
  ghost function FlatOf(s: Store): seq<Row>
    requires StoreOk(s)
  {
    TieredRows(s.tiers, s.cols) + s.grid
  }

  lemma FlatIsHistoryAndScreen(c: Concrete, m: Spec.State)
    requires Refines(c, m)
    ensures m.Flat() == FlatOf(c.store)
    ensures |m.Flat()| == c.store.tiers.cold.totalRows + c.store.tiers.count + |c.store.grid|
  {
    var g, h := c.store.grid, |c.store.grid| - c.store.rows;
    assert g[..h] + g[h..] == g;
    Assoc(TieredRows(c.store.tiers, c.store.cols), g[..h], g[h..]);
  }

  // ---- The grid as history and screen -----------------------------------------------

  /** The tiered rows and the grid make up the history and the screen of `s`. */
  ghost predicate Splits(s: Spec.State, tiered: seq<Row>, grid: seq<Row>) {
    && |grid| >= s.rows && s.tiered == |tiered|
    && s.history == HistoryOf(tiered, grid, s.rows)
    && s.screen == ScreenOf(grid, s.rows)
  }

  lemma TopRowOk(s: Spec.State, t: seq<Row>, g: seq<Row>)
    requires Splits(s, t, g)
    ensures RowOk(g[0], s.cols)
  {
    assert g[0] == s.Flat()[|t|];
  }

  ghost predicate Shifts(t: seq<Row>, g: seq<Row>, rows: nat, limit: nat, blank: Row, t': seq<Row>, g': seq<Row>) {
    if |g| < rows + Spec.HOT_CAP then t' == t && g' == g + [blank]
    else
      && g' == g[1..] + [blank]
      && t' == if |t| + |g| - 1 - rows < limit then t + [g[0]] else t
  }

  /** Scrolling the tiers and the grid is scrolling the history and the screen: a grid
      below its cap grows, and otherwise its oldest row is tiered or dropped. */
  lemma ScrollSplits(s: Spec.State, t: seq<Row>, g: seq<Row>, t': seq<Row>, g': seq<Row>)
    requires Splits(s, t, g) && Shifts(t, g, s.rows, s.limit, BlankRow(s.cols), t', g')
    ensures |g'| >= s.rows
    ensures Spec.ScrollUpOne(s) == s.(
      history := HistoryOf(t', g', s.rows), tiered := |t'|, screen := ScreenOf(g', s.rows),
      dirty := s.dirty.MarkScroll(1))
  {
    var h, b := |g| - s.rows, BlankRow(s.cols);
    if |g| < s.rows + Spec.HOT_CAP {
      GrowRows(t, g, h, b);
    } else {
      TierRows(t, g, h, b);
      DropRows(t, g, h, b);
    }
    ScrolledTo(s, HistoryOf(t', g', s.rows), |t'|, ScreenOf(g', s.rows));
  }

  lemma ScrolledTo(s: Spec.State, history: seq<Row>, tiered: nat, screen: seq<Row>)
    requires (history, tiered) == Spec.PushHistory(s.history, s.tiered, s.limit, s.screen[0])
    requires screen == s.screen[1..] + [BlankRow(s.cols)]
    ensures Spec.ScrollUpOne(s) == s.(
      history := history, tiered := tiered, screen := screen, dirty := s.dirty.MarkScroll(1))
  {
  }

  ghost function Scrolled(c: Concrete, grid: seq<Row>, tiers: EncodedTiers): Concrete {
    c.(store := c.store.(grid := grid, tiers := tiers), dirty := c.dirty.MarkScroll(1))
  }

  lemma ScrolledRefines(c: Concrete, m: Spec.State, grid: seq<Row>, tiers: EncodedTiers)
    requires Refines(c, m) && TiersReady(tiers, c.store.cols)
    requires Shifts(TieredRows(c.store.tiers, c.store.cols), c.store.grid, c.store.rows, c.limit,
                    BlankRow(c.store.cols), TieredRows(tiers, c.store.cols), grid)
    ensures Refines(Scrolled(c, grid, tiers), Spec.ScrollUpOne(m))
  {
    var t, t' := TieredRows(c.store.tiers, c.store.cols), TieredRows(tiers, c.store.cols);
    CacheGrows(c.store.coldCache, t, t');
    ScrollSplits(m, t, c.store.grid, t', grid);
  }

  lemma GrowRows(t: seq<Row>, g: seq<Row>, h: nat, blank: Row)
    requires h < |g|
    ensures var g' := g + [blank];
      t + g'[..h + 1] == (t + g[..h]) + [g[h..][0]] && g'[h + 1..] == g[h..][1..] + [blank]
  {
  }

  lemma TierRows(t: seq<Row>, g: seq<Row>, h: nat, blank: Row)
    requires 0 < h < |g|
    ensures var g' := g[1..] + [blank];
      (t + [g[0]]) + g'[..h] == (t + g[..h]) + [g[h..][0]] && g'[h..] == g[h..][1..] + [blank]
  {
  }

  lemma DropRows(t: seq<Row>, g: seq<Row>, h: nat, blank: Row)
    requires 0 < h < |g|
    ensures var g' := g[1..] + [blank]; var history := t + g[..h];
      t + g'[..h] == history[..|t|] + history[|t| + 1..] + [g[h..][0]] && g'[h..] == g[h..][1..] + [blank]
  {
  }

  /** A blank row pushed at the front of the grid and the back row popped: with raw rows
      above the screen, the last of them moves onto it. */
  lemma PushFrontDeep(t: seq<Row>, g: seq<Row>, rows: nat, blank: Row, h: seq<Row>, tiered: nat, s: seq<Row>)
    requires 1 <= rows < |g| && h == HistoryOf(t, g, rows) && tiered == |t| && s == ScreenOf(g, rows)
    ensures var g' := [blank] + g[..|g| - 1];
      && HistoryOf(t, g', rows) == h[..tiered] + [blank] + h[tiered..|h| - 1]
      && ScreenOf(g', rows) == [h[|h| - 1]] + s[..rows - 1]
  {
    var raw := |g| - rows;
    FrontParts(t, g[..raw], h);
    assert ([blank] + g[..|g| - 1])[..raw] == [blank] + g[..raw - 1];
    Assoc(t, [blank], g[..raw - 1]);
    assert ([blank] + g[..|g| - 1])[raw..] == [g[raw - 1]] + g[raw..|g| - 1];
  }

  lemma FrontParts(t: seq<Row>, raw: seq<Row>, h: seq<Row>)
    requires h == t + raw && raw != []
    ensures h[..|t|] == t && h[|t|..|h| - 1] == raw[..|raw| - 1] && h[|h| - 1] == raw[|raw| - 1]
  {
  }

  lemma PushFrontTop(t: seq<Row>, g: seq<Row>, rows: nat, blank: Row, s: seq<Row>)
    requires 1 <= rows == |g| && s == ScreenOf(g, rows)
    ensures var g' := [blank] + g[..|g| - 1];
      HistoryOf(t, g', rows) == HistoryOf(t, g, rows) && ScreenOf(g', rows) == [blank] + s[..rows - 1]
  {
  }

  lemma ScrollDownSplits(s: Spec.State, t: seq<Row>, g: seq<Row>, g': seq<Row>)
    requires Splits(s, t, g) && g' == [BlankRow(s.cols)] + g[..|g| - 1]
    ensures |g'| == |g|
    ensures Spec.ScrollDownOne(s) == s.(history := HistoryOf(t, g', s.rows), screen := ScreenOf(g', s.rows))
  {
    var b := BlankRow(s.cols);
    if |g| == s.rows {
      PushFrontTop(t, g, s.rows, b, s.screen);
      ScrollDownAtTop(s, HistoryOf(t, g', s.rows), ScreenOf(g', s.rows));
    } else {
      PushFrontDeep(t, g, s.rows, b, s.history, s.tiered, s.screen);
      ScrollDownDeep(s, HistoryOf(t, g', s.rows), ScreenOf(g', s.rows));
    }
  }

  lemma ScrollDownAtTop(s: Spec.State, history: seq<Row>, screen: seq<Row>)
    requires |s.history| == s.tiered && history == s.history
    requires screen == [BlankRow(s.cols)] + s.screen[..s.rows - 1]
    ensures Spec.ScrollDownOne(s) == s.(history := history, screen := screen)
  {
  }

  lemma ScrollDownDeep(s: Spec.State, history: seq<Row>, screen: seq<Row>)
    requires |s.history| > s.tiered
    requires history == s.history[..s.tiered] + [BlankRow(s.cols)] + s.history[s.tiered..|s.history| - 1]
    requires screen == [s.history[|s.history| - 1]] + s.screen[..s.rows - 1]
    ensures Spec.ScrollDownOne(s) == s.(history := history, screen := screen)
  {
  }

  lemma SetGridRow(g: seq<Row>, rows: nat, v: nat, row: Row)
    requires v < rows <= |g|
    ensures var g' := g[|g| - rows + v := row];
      ScreenOf(g', rows) == ScreenOf(g, rows)[v := row] && g'[..|g| - rows] == g[..|g| - rows]
  {
  }

  /** A grid with the same rows above and other rows on the screen. */
  lemma Rescreen(c: Concrete, m: Spec.State, grid: seq<Row>, screen: seq<Row>)
    requires Refines(c, m) && |grid| == |c.store.grid|
    requires var t := TieredRows(c.store.tiers, c.store.cols);
      HistoryOf(t, grid, c.store.rows) == HistoryOf(t, c.store.grid, c.store.rows)
    requires screen == ScreenOf(grid, c.store.rows) && |screen| == m.rows && RowsOk(screen, m.cols)
    ensures Refines(c.(store := c.store.(grid := grid)), Spec.SetScreen(m, screen))
  {
  }

  ghost function WithoutHistory(c: Concrete): Concrete
    requires c.store.rows <= |c.store.grid|
  {
    c.(store := c.store.(grid := ScreenOf(c.store.grid, c.store.rows), tiers := NO_TIERS, coldCache := None))
  }

  lemma DroppedHistory(c: Concrete, m: Spec.State)
    requires Refines(c, m)
    ensures Refines(WithoutHistory(c), Spec.DropHistory(m))
  {
    EmptyTiers(c.store.cols);
    var g := ScreenOf(c.store.grid, c.store.rows);
    assert HistoryOf([], g, c.store.rows) == [] && ScreenOf(g, c.store.rows) == g;
  }

  // ---- Erasing row by row ----------------------------------------------------------------

  /** The terminal with the rows before `r` erased as `ClearBelow` leaves them. */
  ghost function BelowDone(m: Spec.State, r: nat): Spec.State
    requires r <= m.rows
  {
    Spec.SetScreen(m, Spec.ClearBelow(m)[..r] + m.screen[r..])
  }

  lemma BelowTurn(m: Spec.State, r: nat)
    requires m.cursor.row <= r < m.rows
    ensures var d := BelowDone(m, r);
      Spec.SetRow(d, r, Spec.ErasedFrom(d.screen[r], if r == m.cursor.row then m.cursor.col else 0))
      == BelowDone(m, r + 1)
  {
    OneMore(m.screen, Spec.ClearBelow(m), r, r + 1);
  }

  lemma BelowEnds(m: Spec.State)
    ensures BelowDone(m, m.cursor.row) == m
    ensures BelowDone(m, m.rows) == Spec.SetScreen(m, Spec.ClearBelow(m))
  {
    assert Spec.ClearBelow(m)[..m.cursor.row] == m.screen[..m.cursor.row];
    assert m.screen[..m.cursor.row] + m.screen[m.cursor.row..] == m.screen;
    assert Spec.ClearBelow(m)[..m.rows] + m.screen[m.rows..] == Spec.ClearBelow(m);
  }

  ghost function AboveDone(m: Spec.State, r: nat): Spec.State
    requires r <= m.rows
  {
    Spec.SetScreen(m, Spec.ClearAbove(m)[..r] + m.screen[r..])
  }

  lemma AboveTurn(m: Spec.State, r: nat)
    requires r <= m.cursor.row
    ensures var d := AboveDone(m, r);
      Spec.SetRow(d, r, Spec.ErasedTo(d.screen[r], if r == m.cursor.row then m.cursor.col else m.cols - 1))
      == AboveDone(m, r + 1)
  {
    OneMore(m.screen, Spec.ClearAbove(m), r, r + 1);
  }

  lemma AboveEnds(m: Spec.State, n: nat)
    requires n == m.cursor.row + 1
    ensures AboveDone(m, 0) == m
    ensures AboveDone(m, n) == Spec.SetScreen(m, Spec.ClearAbove(m))
  {
    var above := Spec.ClearAbove(m);
    assert above[..0] + m.screen[0..] == m.screen;
    forall v | n <= v < m.rows ensures above[v] == m.screen[v] {
      assert above[v] == Spec.RowAbove(m, v);
    }
    SameTail(m.screen, above, n);
  }

  lemma SameTail(a: seq<Row>, b: seq<Row>, n: nat)
    requires |a| == |b| && n <= |a| && forall v :: n <= v < |a| ==> b[v] == a[v]
    ensures b[..n] + a[n..] == b
  {
  }

  lemma OneMore(a: seq<Row>, b: seq<Row>, r: nat, next: nat)
    requires |a| == |b| && next == r + 1 <= |a|
    ensures (b[..r] + a[r..])[r] == a[r]
    ensures (b[..r] + a[r..])[r := b[r]] == b[..next] + a[next..]
  {
  }

  // ---- The two screens ----------------------------------------------------------------

  function BlankScreen(rows: nat, cols: nat, savedCursor: Spec.Cursor, style: Spec.Style): SavedScreen {
    SavedScreen(BlankRows(rows, cols), NO_TIERS, None, None, Spec.Cursor(0, 0, false), savedCursor, style, false)
  }

  ghost function WithRows(c: Concrete, a: SavedScreen, other: Option<SavedScreen>): Concrete {
    c.(store := c.store.(grid := a.grid, tiers := a.tiers, coldCache := a.coldCache, alt := other))
  }

  ghost function WithCursor(c: Concrete, a: SavedScreen, altScreen: bool): Concrete {
    c.(cursor := a.cursor, saved := c.saved.(cursor := a.savedCursor), style := a.style,
       pendingWrap := a.pendingWrap, modes := c.modes.(altScreen := altScreen), dirty := c.dirty.MarkAll())
  }

  ghost function Installed(c: Concrete, a: SavedScreen, other: Option<SavedScreen>, altScreen: bool): Concrete {
    WithCursor(WithRows(c, a, other), a, altScreen)
  }

  lemma EnteredRefines(c: Concrete, m: Spec.State, a: SavedScreen)
    requires Refines(c, m) && !m.modes.altScreen
    requires a.grid == c.store.grid && a.tiers == c.store.tiers && a.coldCache == c.store.coldCache
    requires a.cursor == c.cursor && a.savedCursor == c.saved.cursor
    requires a.style == c.style && a.pendingWrap == c.pendingWrap
    ensures Refines(Installed(c, BlankScreen(c.store.rows, c.store.cols, c.saved.cursor, c.style), Some(a), true),
                    Spec.SetAltScreen(m, true))
  {
    EmptyTiers(c.store.cols);
    var g := BlankRows(c.store.rows, c.store.cols);
    assert HistoryOf([], g, c.store.rows) == [] && ScreenOf(g, c.store.rows) == g;
  }

  lemma LeftRefines(c: Concrete, m: Spec.State)
    requires Refines(c, m) && m.modes.altScreen
    ensures c.store.alt.Some?
    ensures Refines(Installed(c, c.store.alt.value, None, false), Spec.SetAltScreen(m, false))
  {
  }

  // ---- Resizing -------------------------------------------------------------------------

  ghost function ResizedValue(c: Concrete, grid: seq<Row>, cols: u16, rows: nat): Concrete
    requires cols > 0 && rows > 0
  {
    c.(store := Store(cols, rows, grid, NO_TIERS, None, c.store.alt),
       cursor := Spec.ClampedTo(c.cursor, cols, rows), pendingWrap := false, scrollOffset := 0,
       dirty := Clean(rows).MarkAll())
  }

  lemma ResizedRefines(c: Concrete, m: Spec.State, grid: seq<Row>, cols: u16, rows: nat)
    requires Refines(c, m) && 1 <= rows && 1 <= cols <= Spec.MAX_COLS && (cols != m.cols || rows != m.rows)
    requires Spec.ResizeIsSafe(m, cols, rows) && grid == Spec.ResizedRows(c.store.grid, cols, rows)
    ensures Spec.Wf(Spec.Resized(m, cols, rows))
    ensures Refines(ResizedValue(c, grid, cols, rows), Spec.Resized(m, cols, rows))
  {
    Spec.ResizeWellFormedIff(m, cols, rows);
    RawRows(TieredRows(c.store.tiers, c.store.cols), c.store.grid, c.store.rows);
    assert Spec.Resized(m, cols, rows).screen == grid;
    WholeGrid(ResizedValue(c, grid, cols, rows));
  }

  /** Without tiers and raw rows above, the grid is the screen. */
  lemma WholeGrid(c: Concrete)
    requires c.store.tiers == NO_TIERS && c.store.coldCache == None && c.store.alt == None
    requires |c.store.grid| == c.store.rows
    ensures StoreOk(c.store) && Abs(c).history == [] && Abs(c).tiered == 0 && Abs(c).screen == c.store.grid
  {
    EmptyTiers(c.store.cols);
    assert HistoryOf([], c.store.grid, c.store.rows) == [] && ScreenOf(c.store.grid, c.store.rows) == c.store.grid;
  }

  lemma RawRows(t: seq<Row>, g: seq<Row>, rows: nat)
    requires rows <= |g|
    ensures HistoryOf(t, g, rows)[|t|..] + ScreenOf(g, rows) == g
  {
    assert HistoryOf(t, g, rows)[|t|..] == g[..|g| - rows];
  }

  // ---- Lines inserted and deleted in the grid -----------------------------------------

  /** The grid after `n` turns of the insert loop at index `at`. */
  function Inserted(g: seq<Row>, at: nat, n: nat, cols: nat): seq<Row>
    requires at <= |g|
  {
    var k := Min(n, |g| - at);
    g[..at] + BlankRows(k, cols) + g[at..|g| - k]
  }

  function InsertAt(g: seq<Row>, at: nat, row: Row): seq<Row>
    requires at <= |g|
  {
    g[..at] + [row] + g[at..]
  }

  lemma InsertTurn(g: seq<Row>, at: nat, n: nat, cols: nat)
    requires at < |g|
    ensures |Inserted(g, at, n, cols)| == |g|
    ensures Inserted(g, at, n + 1, cols) == InsertAt(Inserted(g, at, n, cols)[..|g| - 1], at, BlankRow(cols))
  {
    if n < |g| - at {
      InsertMoves(g, at, n, cols);
    } else {
      InsertStays(g, at, |g| - at, cols);
    }
  }

  lemma InsertMoves(g: seq<Row>, at: nat, k: nat, cols: nat)
    requires at + k < |g|
    ensures g[..at] + BlankRows(k + 1, cols) + g[at..|g| - k - 1]
         == InsertAt((g[..at] + BlankRows(k, cols) + g[at..|g| - k])[..|g| - 1], at, BlankRow(cols))
  {
    var q := (g[..at] + BlankRows(k, cols) + g[at..|g| - k])[..|g| - 1];
    var rest := BlankRows(k, cols) + g[at..|g| - k - 1];
    assert q == g[..at] + rest;
    assert q[..at] == g[..at] && q[at..] == rest;
    assert BlankRows(k + 1, cols) == [BlankRow(cols)] + BlankRows(k, cols);
  }

  /** Once every line below is blank, a turn changes nothing. */
  lemma InsertStays(g: seq<Row>, at: nat, k: nat, cols: nat)
    requires at + k == |g| && k > 0
    ensures g[..at] + BlankRows(k, cols) + g[at..|g| - k]
         == InsertAt((g[..at] + BlankRows(k, cols) + g[at..|g| - k])[..|g| - 1], at, BlankRow(cols))
  {
  }

  /** The loop's grid, seen as a screen, is the closed form; the rows above stay. */
  lemma InsertedScreen(t: seq<Row>, g: seq<Row>, rows: nat, row: nat, n: nat, cols: nat)
    requires row < rows <= |g|
    ensures var g' := Inserted(g, |g| - rows + row, n, cols);
      && |g'| == |g| && HistoryOf(t, g', rows) == HistoryOf(t, g, rows)
      && ScreenOf(g', rows) == Spec.InsertBlankRows(ScreenOf(g, rows), row, Spec.Clamp(n, row, rows), cols)
  {
    var h, k := |g| - rows, Spec.Clamp(n, row, rows);
    var g', s := Inserted(g, h + row, n, cols), g[h..];
    assert g' == g[..h + row] + BlankRows(k, cols) + g[h + row..|g| - k];
    assert g'[..h] == g[..h];
    assert g'[h..] == s[..row] + BlankRows(k, cols) + s[row..rows - k];
  }

  lemma InsertedRefines(c: Concrete, m: Spec.State, at: nat, n: nat, grid: seq<Row>)
    requires Refines(c, m) && at == |c.store.grid| - m.rows + m.cursor.row
    requires grid == Inserted(c.store.grid, at, n, m.cols)
    ensures var clamped := Spec.Clamp(n, m.cursor.row, m.rows);
      Refines(c.(store := c.store.(grid := grid)),
              Spec.SetScreen(m, Spec.InsertBlankRows(m.screen, m.cursor.row, clamped, m.cols)))
  {
    var row := m.cursor.row;
    InsertedScreen(TieredRows(c.store.tiers, c.store.cols), c.store.grid, m.rows, row, n, m.cols);
    Rescreen(c, m, grid, Spec.InsertBlankRows(m.screen, row, Spec.Clamp(n, row, m.rows), m.cols));
  }

  function Deleted(g: seq<Row>, at: nat, n: nat, cols: nat): seq<Row>
    requires at + n <= |g|
  {
    g[..at] + g[at + n..] + BlankRows(n, cols)
  }

  lemma DeletedScreen(t: seq<Row>, g: seq<Row>, rows: nat, row: nat, n: nat, cols: nat)
    requires row + n <= rows <= |g|
    ensures var g' := Deleted(g, |g| - rows + row, n, cols);
      && |g'| == |g| && HistoryOf(t, g', rows) == HistoryOf(t, g, rows)
      && ScreenOf(g', rows) == Spec.DeleteRows(ScreenOf(g, rows), row, n, cols)
  {
    var h := |g| - rows;
    var g', s := Deleted(g, h + row, n, cols), g[h..];
    assert g'[..h] == g[..h];
    assert g'[h..] == s[..row] + s[row + n..] + BlankRows(n, cols);
  }

  lemma DeletedRefines(c: Concrete, m: Spec.State, at: nat, n: nat, grid: seq<Row>)
    requires Refines(c, m) && m.cursor.row + n <= m.rows && at == |c.store.grid| - m.rows + m.cursor.row
    requires grid == Deleted(c.store.grid, at, n, m.cols)
    ensures Refines(c.(store := c.store.(grid := grid)),
                    Spec.SetScreen(m, Spec.DeleteRows(m.screen, m.cursor.row, n, m.cols)))
  {
    var row := m.cursor.row;
    DeletedScreen(TieredRows(c.store.tiers, c.store.cols), c.store.grid, m.rows, row, n, m.cols);
    Rescreen(c, m, grid, Spec.DeleteRows(m.screen, row, n, m.cols));
  }

  /** The slice `cells[lo..hi]` copied to `dest`; a destination that does not fit aborts. */
  function CopyWithin(cells: seq<Cell>, lo: nat, hi: nat, dest: nat): Option<seq<Cell>>
    requires lo <= hi <= |cells|
  {
    var count := hi - lo;
    if dest + count > |cells| then None
    else Some(cells[..dest] + cells[lo..hi] + cells[dest + count..])
  }

  /** Inserting `n` blanks at `col`: the copy is not clamped and may abort. */
  method ShiftRight(row: seq<Cell>, col: nat, n: nat) returns (r: Option<seq<Cell>>)
    requires col < |row|
    ensures r == if n > |row| - col then None else Some(Spec.InsertBlankCells(row, col, n))
  {
    var cells, len := row, |row|;
    if n > 0 {
      var keep := len - col - Spec.Clamp(n, col, len);
      r := CopyWithin(cells, col, col + keep, col + n);
      if r.None? {
        return;
      }
      cells := r.value;
      cells := cells[..col] + Blanks(Spec.Clamp(n, col, len)) + cells[col + Spec.Clamp(n, col, len)..];
    }
    assert cells == Spec.InsertBlankCells(row, col, n);
    r := Some(cells);
  }

  method ShiftLeft(row: seq<Cell>, col: nat, n: nat) returns (cells: seq<Cell>)
    requires col < |row|
    ensures cells == Spec.DeleteCells(row, col, Spec.Clamp(n, col, |row|))
  {
    var len, del := |row|, Spec.Clamp(n, col, |row|);
    cells := row;
    if n > 0 {
      cells := CopyWithin(cells, col + del, len, col).value;
      cells := cells[..len - del] + Blanks(del);
    }
  }

  // ---- Reading the history ------------------------------------------------------------

  /** Of the cache, what decides whether reads abort: the index it is filed under, and how many
      rows it holds. */
  datatype Entry = Entry(base: nat, len: nat)

  function EntryOf(cache: Option<Window>): Option<Entry> {
    if cache.None? then None else Some(Entry(cache.value.base, |cache.value.rows|))
  }

  /** The cache holds rows under the base of the block of `idx`, but not that many: a row
      read while it was pending, under an index that has become a block's base. */
  predicate Collides(e: Option<Entry>, coldRows: nat, idx: nat) {
    && idx < coldRows && e.Some?
    && e.value.base == BlockStart(BlockIndex(idx))
    && idx - e.value.base >= e.value.len
  }

  predicate CacheCollides(cache: Option<Window>, coldRows: nat, idx: nat) {
    Collides(EntryOf(cache), coldRows, idx)
  }

  /** What a read leaves in the cache: a cold row its whole block unless its base is cached
      already, a pending row itself, a raw row what was there. */
  function EntryAfter(e: Option<Entry>, coldRows: nat, pending: nat, idx: nat): Option<Entry> {
    if idx < coldRows then FilledEntry(e, idx)
    else if idx < coldRows + pending then Some(Entry(idx, 1))
    else e
  }

  function FilledEntry(e: Option<Entry>, idx: nat): Option<Entry> {
    var base := BlockStart(BlockIndex(idx));
    if e.Some? && e.value.base == base then e else Some(Entry(base, BLOCK_ROWS))
  }

  /** The cache of the screen that is shown, and of the one put aside. */
  datatype Caches = Caches(shown: Option<Entry>, aside: Option<Entry>)

  ghost function CachesOf(c: Concrete): Caches {
    Caches(EntryOf(c.store.coldCache), if c.store.alt.Some? then EntryOf(c.store.alt.value.coldCache) else None)
  }

  /** What an event does to them. */
  function CachesAfter(c: Caches, altScreen: bool, e: Spec.Event): Caches {
    if e == Spec.EraseScreen(3) then c.(shown := None)
    else if !e.AltScreen? || e.alt == altScreen then c
    else if e.alt then Caches(None, c.shown)
    else Caches(c.aside, None)
  }

  /** What reading index `idx` gives: the history's row, except on a stale cache. */
  function ReadAt(flat: seq<Row>, cache: Option<Window>, coldRows: nat, idx: nat): Option<Row> {
    if CacheCollides(cache, coldRows, idx) then None
    else Some(if idx < |flat| then flat[idx] else OutOfRange())
  }

  lemma BlockReads(t: EncodedTiers, cols: u16, bi: nat)
    requires TiersOk(t, cols) && bi < |t.cold.blocks|
    ensures var block := RowsOfBlock(t.cold.blocks[bi]);
      && block.Some? && |block.value| == BLOCK_ROWS
      && CacheOk(Some(Window(BlockStart(bi), block.value)), TieredRows(t, cols))
  {
    BlockIsCacheable(t.cold.blocks, cols, bi, PendingRows(t, cols));
  }

  lemma BlockIsCacheable(blocks: seq<ColdBlock>, cols: nat, bi: nat, pending: seq<Row>)
    requires BlocksOk(blocks, cols) && bi < |blocks|
    ensures BlockOk(blocks[bi], cols)
    ensures CacheOk(Some(Window(BlockStart(bi), RowsOfBlock(blocks[bi]).value)), ColdRows(blocks, cols) + pending)
  {
    var rows, start, cold := RowsOfBlock(blocks[bi]).value, BlockStart(bi), ColdRows(blocks, cols);
    BlockSplit(bi, 0);
    forall i | 0 <= i < BLOCK_ROWS ensures start + i < |cold| && rows[i] == cold[start + i] {
      ColdRowAt(blocks, cols, bi, i, start + i);
    }
    CacheableAt(rows, start, cold, pending);
  }

  lemma CacheableAt(rows: seq<Row>, start: nat, cold: seq<Row>, pending: seq<Row>)
    requires |rows| == BLOCK_ROWS && BlockOffset(start) == 0
    requires forall i :: 0 <= i < BLOCK_ROWS ==> start + i < |cold| && rows[i] == cold[start + i]
    ensures CacheOk(Some(Window(start, rows)), cold + pending)
  {
    var last := rows[127];
    assert start + 127 < |cold|;
    forall i | 0 <= i < |rows| ensures rows[i] == (cold + pending)[start + i] {
    }
  }

  /** Once the cache holds the block's base, a cold read is a read of the cached rows: those that
      were there already, or the whole block. */
  lemma CachedReadAt(t: seq<Row>, g: seq<Row>, cache: Option<Window>, w: Window, coldRows: nat, idx: nat)
    requires CacheOk(Some(w), t) && idx < coldRows <= |t| && w.base == BlockStart(BlockIndex(idx))
    requires EntryOf(Some(w)) == FilledEntry(EntryOf(cache), idx)
    ensures ReadAt(t + g, cache, coldRows, idx) == if idx - w.base < |w.rows| then Some(w.rows[idx - w.base]) else None
  {
    if idx - w.base < |w.rows| {
      assert w.rows[idx - w.base] == t[w.base + (idx - w.base)];
    }
  }

  /** A pending row that was read may be cached under its index. */
  lemma PendingCached(c: Concrete, m: Spec.State, idx: nat, row: Row)
    requires Refines(c, m)
    requires c.store.tiers.cold.totalRows <= idx < c.store.tiers.cold.totalRows + c.store.tiers.count
    requires row == FlatOf(c.store)[idx]
    ensures Some(row) == ReadAt(FlatOf(c.store), c.store.coldCache, c.store.tiers.cold.totalRows, idx)
    ensures Refines(c.(store := c.store.(coldCache := Some(Window(idx, [row])))), m)
  {
    OneRowCache(TieredRows(c.store.tiers, c.store.cols), c.store.grid, c.store.coldCache,
                c.store.tiers.cold.totalRows, idx);
    WithCache(c, m, Window(idx, [row]));
  }

  lemma OneRowCache(t: seq<Row>, g: seq<Row>, cache: Option<Window>, coldRows: nat, idx: nat)
    requires coldRows <= idx < |t|
    ensures ReadAt(t + g, cache, coldRows, idx) == Some((t + g)[idx])
    ensures CacheOk(Some(Window(idx, [(t + g)[idx]])), t)
  {
  }

  /** Row `i` of the span buffer is the row of the history it stands for, or none. */
  lemma ScratchReads(t: EncodedTiers, cols: u16, g: seq<Row>, i: nat, idx: nat)
    requires TiersOk(t, cols) && idx == t.cold.totalRows + i
    ensures ScratchRow(t.scratch, cols, t.wrapped, i)
         == if idx < |TieredRows(t, cols)| then Some((TieredRows(t, cols) + g)[idx]) else None
  {
    PendingReads(t, cols, i);
    if i < t.count {
      Middle(ColdRows(t.cold.blocks, cols), PendingRows(t, cols), g, i, idx);
    }
  }

  lemma RawReadAt(t: seq<Row>, g: seq<Row>, cache: Option<Window>, coldRows: nat, idx: nat)
    requires coldRows <= |t| <= idx
    ensures ReadAt(t + g, cache, coldRows, idx) == Some(if idx - |t| < |g| then g[idx - |t|] else OutOfRange())
  {
  }

  lemma Middle(a: seq<Row>, b: seq<Row>, c: seq<Row>, i: nat, idx: nat)
    requires i < |b| && idx == |a| + i
    ensures (a + b)[idx] == b[i] && (a + b + c)[idx] == b[i]
  {
  }

  lemma WithCache(c: Concrete, m: Spec.State, w: Window)
    requires Refines(c, m) && CacheOk(Some(w), TieredRows(c.store.tiers, c.store.cols))
    ensures Refines(c.(store := c.store.(coldCache := Some(w))), m)
  {
  }

  // ---- The viewport --------------------------------------------------------------------

  function WindowStart(len: nat, rows: nat, offset: nat): nat {
    if rows + offset <= len then len - (rows + offset) else 0
  }

  /** The window starts in the encoded tiers and ends in the grid. */
  predicate Straddles(t: seq<Row>, g: seq<Row>, rows: nat, offset: nat) {
    WindowStart(|t| + |g|, rows, offset) < |t| < WindowStart(|t| + |g|, rows, offset) + rows
  }

  /** In terms of what the user sees: the window is scrolled back past the raw history but
      not past a whole screen more. */
  lemma StraddlesIff(t: seq<Row>, g: seq<Row>, rows: nat, offset: nat)
    requires rows <= |g| && offset <= |t| + |g| - rows
    ensures Straddles(t, g, rows, offset) <==> |g| - rows < offset < |g|
  {
  }

  /** The rows from `start` on, if they all lie in the encoded tiers. */
  function WindowAt(t: seq<Row>, g: seq<Row>, rows: nat, start: nat): Option<Window> {
    if start + rows > |t| then None else Some(Window(start, (t + g)[start..start + rows]))
  }

  function ViewportFor(t: seq<Row>, g: seq<Row>, rows: nat, offset: nat): Option<Window> {
    var start := WindowStart(|t| + |g|, rows, offset);
    if start < |t| then WindowAt(t, g, rows, start) else None
  }

  lemma WindowCases(t: seq<Row>, g: seq<Row>, rows: nat, offset: nat, start: nat)
    requires start == WindowStart(|t| + |g|, rows, offset)
    ensures start >= |t| ==> !Straddles(t, g, rows, offset) && ViewportFor(t, g, rows, offset) == None
    ensures start < |t| ==>
      && ViewportFor(t, g, rows, offset) == WindowAt(t, g, rows, start)
      && (Straddles(t, g, rows, offset) <==> WindowAt(t, g, rows, start).None?)
  {
  }

  function VisibleIn(t: seq<Row>, g: seq<Row>, rows: nat, offset: nat, viewport: Option<Window>, vrow: nat): Row {
    var logical := |t| + |g| - rows - offset + vrow;
    if logical < 0 then OutOfRange()
    else if logical >= |t| then
      if logical - |t| < |g| then g[logical - |t|] else OutOfRange()
    else if viewport.Some? && viewport.value.base <= logical < viewport.value.base + |viewport.value.rows| then
      viewport.value.rows[logical - viewport.value.base]
    else OutOfRange()
  }

  function AllVisible(t: seq<Row>, g: seq<Row>, rows: nat, offset: nat, viewport: Option<Window>): seq<Row> {
    seq(rows, v requires 0 <= v < rows => VisibleIn(t, g, rows, offset, viewport, v))
  }

  /** Right after a snapshot, whatever the offset, every row of the window reads as its row of
      the history. */
  lemma VisibleIsFlat(t: seq<Row>, g: seq<Row>, rows: nat, offset: nat, vrow: nat)
    requires vrow < rows <= |t| + |g| && !Straddles(t, g, rows, offset)
    ensures VisibleIn(t, g, rows, offset, ViewportFor(t, g, rows, offset), vrow) == WindowRow(t + g, rows, offset, vrow)
  {
    var start, index := WindowStart(|t| + |g|, rows, offset), |t| + |g| - rows - offset + vrow;
    if index >= 0 {
      SplitWindow(t, g, start, start + rows, index);
    }
  }

  /** A row of a window, read where it lies. */
  lemma SplitWindow(t: seq<Row>, g: seq<Row>, start: nat, end: nat, i: nat)
    requires start <= i < end <= |t| + |g|
    ensures i >= |t| ==> (t + g)[i] == g[i - |t|]
    ensures (t + g)[start..end][i - start] == (t + g)[i]
  {
  }

  lemma SliceJoin(s: seq<Row>, a: nat, b: nat, c: nat)
    requires a <= b <= c <= |s|
    ensures s[a..b] + s[b..c] == s[a..c]
  {
  }

  lemma SliceOne(s: seq<Row>, a: nat, b: nat)
    requires b == a + 1 <= |s|
    ensures s[a..b] == [s[a]]
  {
  }

  lemma SliceShift(part: seq<Row>, s: seq<Row>, start: nat, lo: nat, hi: nat)
    requires lo <= hi <= |part| && start + |part| <= |s|
    requires forall i :: 0 <= i < |part| ==> part[i] == s[start + i]
    ensures part[lo..hi] == s[start + lo..start + hi]
  {
  }

  /** Where the rest of the block of `pos` ends, cut at `end`. */
  function ChunkEnd(pos: nat, end: nat): nat {
    Min(BlockStart(BlockIndex(pos) + 1), end)
  }

  /** The rest of the block of `pos`, or what of it lies before `end`, is that part of the
      history. */
  lemma BlockChunk(t: EncodedTiers, cols: u16, g: seq<Row>, pos: nat, end: nat)
    requires TiersOk(t, cols) && pos < t.cold.totalRows && pos < end <= |TieredRows(t, cols) + g|
    ensures BlockIndex(pos) < |t.cold.blocks|
    ensures pos < BlockStart(BlockIndex(pos) + 1) <= t.cold.totalRows
    ensures var block := RowsOfBlock(t.cold.blocks[BlockIndex(pos)]);
      var last := Min(BLOCK_ROWS, BlockOffset(pos) + (end - pos));
      && block.Some? && BlockOffset(pos) <= last <= |block.value|
      && block.value[BlockOffset(pos)..last] == (TieredRows(t, cols) + g)[pos..ChunkEnd(pos, end)]
  {
    var bi := BlockIndex(pos);
    BlockReads(t, cols, bi);
    var w := Window(BlockStart(bi), RowsOfBlock(t.cold.blocks[bi]).value);
    BlockInFlat(TieredRows(t, cols), g, w);
    ChunkOfWindow(TieredRows(t, cols) + g, w, pos, end);
  }

  lemma ChunkOfWindow(flat: seq<Row>, w: Window, pos: nat, end: nat)
    requires w.base == BlockStart(BlockIndex(pos)) && |w.rows| == BLOCK_ROWS && pos < end
    requires w.base + |w.rows| <= |flat| && forall i :: 0 <= i < |w.rows| ==> w.rows[i] == flat[w.base + i]
    ensures var last := Min(BLOCK_ROWS, BlockOffset(pos) + (end - pos));
      BlockOffset(pos) <= last <= |w.rows| && pos <= ChunkEnd(pos, end) <= |flat|
      && w.rows[BlockOffset(pos)..last] == flat[pos..ChunkEnd(pos, end)]
  {
    var off := BlockOffset(pos);
    assert pos == w.base + off;
    SliceShift(w.rows, flat, w.base, off, Min(BLOCK_ROWS, off + (end - pos)));
  }

  lemma BlockInFlat(t: seq<Row>, g: seq<Row>, w: Window)
    requires CacheOk(Some(w), t)
    ensures w.base + |w.rows| <= |t + g|
    ensures forall i :: 0 <= i < |w.rows| ==> w.rows[i] == (t + g)[w.base + i]
  {
  }

  /** A sound cache collides exactly if it holds a single row, under the base of the block and
      under another index than the one read. */
  lemma CollidesIff(cache: Option<Window>, t: seq<Row>, coldRows: nat, idx: nat)
    requires CacheOk(cache, t) && idx < coldRows
    ensures CacheCollides(cache, coldRows, idx) <==>
      && cache.Some? && |cache.value.rows| == 1
      && cache.value.base == BlockStart(BlockIndex(idx)) && cache.value.base != idx
  {
    assert idx == BlockStart(BlockIndex(idx)) + BlockOffset(idx);
  }

  /** A one-row entry under a block's base collides with the other rows of that block. */
  lemma StaleCollides(w: Window, coldRows: nat, b: nat, k: nat, idx: nat)
    requires 0 < k < BLOCK_ROWS && w.base == BlockStart(b) && |w.rows| == 1 && idx == w.base + k < coldRows
    ensures CacheCollides(Some(w), coldRows, idx)
  {
    BlockSplit(b, k);
  }

  lemma TotalAtBoundary(t: EncodedTiers, cols: u16, b: nat)
    requires TiersReady(t, cols) && t.cold.totalRows + t.count == BlockStart(b) + BLOCK_ROWS
    ensures t.cold.totalRows == BlockStart(b) + BLOCK_ROWS
  {
    Boundary(|t.cold.blocks|, t.count, b);
  }

  lemma Boundary(n: nat, c: nat, b: nat)
    requires c < BLOCK_ROWS && BlockStart(n) + c == BlockStart(b) + BLOCK_ROWS
    ensures c == 0
  {
    assert n == b + 1;
  }
}
