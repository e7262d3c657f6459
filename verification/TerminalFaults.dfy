/** Runs of a new terminal that end in an abort: the failing inputs of reading the history
    are reached. */
module TerminalFaults {
  import opened Cells
  import opened SpanCodec
  import opened Terminal
  import opened TerminalStore
  import opened Tiers
  import History
  import Spec = TerminalSpec

  /** The stale cache is reached from every state with a pending row and space for one more
      block: read the first pending row, let the block fill up and be flushed, and the next
      read of that block, at any other row, aborts. */
  method StaleCacheRun(t: TerminalState, k: nat) returns (r: Option<Row>)
    requires t.Valid() && t.tiers.count > 0 && 0 < k < BLOCK_ROWS
    requires |t.model.history| + BLOCK_ROWS <= t.model.limit && |t.model.history| - t.model.tiered == Spec.HOT_CAP
    modifies t
    ensures t.Valid() && r.None?
    ensures old(t.tiers.cold.totalRows) + k < t.tiers.cold.totalRows
  {
    var base := t.tiers.cold.totalRows;
    ghost var b := |t.tiers.cold.blocks|;
    var first := t.GridRow(base);
    ghost var cache := t.coldCache;
    var n := BLOCK_ROWS - t.tiers.count;
    ghost var tiered := t.model.tiered;
    for i := 0 to n
      invariant t.Valid() && t.coldCache == cache
      invariant t.model.tiered == tiered + i && t.model.limit == old(t.model.limit)
      invariant |t.model.history| == |old(t.model.history)| + i
    {
      t.ScrollUpOne();
    }
    TotalAtBoundary(t.tiers, t.cols, b);
    var idx := base + k;
    StaleCollides(t.coldCache.value, t.tiers.cold.totalRows, b, k, idx);
    r := t.GridRow(idx);
  }

  /** A new terminal after `n` rows left its screen. */
  method ScrolledTerminal(cols: u16, rows: nat, n: nat) returns (t: TerminalState)
    requires 1 <= rows && 1 <= cols <= Spec.MAX_COLS && Spec.HOT_CAP < n <= 10_001
    ensures t.Valid() && fresh(t) && t.rows == rows && t.model.limit == 10_000 && t.model.scrollOffset == 0
    ensures |t.model.history| == n && |TieredRows(t.tiers, t.cols)| == t.model.tiered == n - Spec.HOT_CAP
    ensures |t.grid| == rows + Spec.HOT_CAP
  {
    t := new TerminalState(cols, rows);
    t.ScrollUp(n);
    History.FreshScrolls(cols, rows, 10_000, n);
    FlatIsHistoryAndScreen(t.Value(), t.model);
  }

  /** Every straddling offset is reached: scroll enough rows out, scroll back past the raw
      history but less than a screen more, and the next frame aborts. */
  method StraddleRun(cols: u16, rows: nat, n: nat, offset: nat) returns (ok: bool)
    requires 1 <= rows && 1 <= cols <= Spec.MAX_COLS
    requires Spec.HOT_CAP < offset < Spec.HOT_CAP + rows && offset <= n <= 10_001
    ensures !ok
  {
    var t := ScrolledTerminal(cols, rows, n);
    t.SetScrollOffset(offset);
    StraddlesIff(TieredRows(t.tiers, t.cols), t.grid, t.rows, offset);
    ok := t.Snapshot();
  }

  /** A new terminal reaches the stale cache: scroll some rows into the pending buffer, read the
      first of them, scroll until the block is flushed, and read another of its rows. */
  method StaleRun(cols: u16, rows: nat, n: nat, k: nat) returns (r: Option<Row>)
    requires 1 <= rows && 1 <= cols <= Spec.MAX_COLS
    requires Spec.HOT_CAP < n < Spec.HOT_CAP + BLOCK_ROWS && 0 < k < BLOCK_ROWS
    ensures r.None?
  {
    var t := ScrolledTerminal(cols, rows, n);
    assert t.tiers.cold.totalRows + t.tiers.count < BLOCK_ROWS;
    assert |t.tiers.cold.blocks| == 0;
    r := StaleCacheRun(t, k);
  }
}
