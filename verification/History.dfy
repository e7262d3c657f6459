/** What the history is after a whole run, in closed form: of all rows that ever left the
    screen, those the limit left space for, then the most recent ones. */
module History {
  import opened Cells
  import opened SpanCodec
  import opened TerminalSpec
  import opened TerminalRuns

  /** How many rows the limit leaves for the encoded tiers. */
  function TierSpace(limit: nat): nat {
    if HOT_CAP <= limit + 1 then limit + 1 - HOT_CAP else 0
  }

  /** Of all rows `log` that left the screen, the retained ones. */
  function Retained(log: seq<Row>, limit: nat): seq<Row> {
    if |log| <= HOT_CAP + TierSpace(limit) then log
    else log[..TierSpace(limit)] + log[|log| - HOT_CAP..]
  }

  function TieredOfLog(count: nat, limit: nat): nat {
    if count <= HOT_CAP then 0 else Min(count - HOT_CAP, TierSpace(limit))
  }

  lemma RetainedRetention(log: seq<Row>, limit: nat)
    ensures RetentionOk(Retained(log, limit), TieredOfLog(|log|, limit), limit)
  {
  }

  /** Pushing a row onto what is retained is retaining one row more. */
  lemma PushRetained(log: seq<Row>, limit: nat, row: Row)
    ensures RetentionOk(Retained(log, limit), TieredOfLog(|log|, limit), limit)
    ensures PushHistory(Retained(log, limit), TieredOfLog(|log|, limit), limit, row)
         == (Retained(log + [row], limit), TieredOfLog(|log| + 1, limit))
  {
    var t, more := TierSpace(limit), log + [row];
    RetainedRetention(log, limit);
    if |log| < HOT_CAP {
    } else if |log| < HOT_CAP + t {
      assert Retained(log, limit) == log && Retained(more, limit) == more;
      assert |log| - 1 < limit;
    } else if |log| == HOT_CAP + t {
      assert more[..t] == log[..t] && more[t + 1..] == log[t + 1..] + [row];
      Assoc(log[..t], log[t + 1..], [row]);
    } else {
      DropOldestRaw(log, t, row);
    }
  }

  lemma DropOldestRaw(log: seq<Row>, t: nat, row: Row)
    requires |log| > HOT_CAP + t
    ensures var kept := log[..t] + log[|log| - HOT_CAP..]; var more := log + [row];
      kept[..t] + kept[t + 1..] + [row] == more[..t] + more[|more| - HOT_CAP..]
  {
    var kept, more := log[..t] + log[|log| - HOT_CAP..], log + [row];
    assert kept[..t] == log[..t];
    assert kept[t + 1..] == log[|log| - HOT_CAP + 1..];
    assert more[|more| - HOT_CAP..] == log[|log| - HOT_CAP + 1..] + [row];
  }

  /** The bound on the history is met by every log and reached by every long enough one. */
  lemma RetainedCount(log: seq<Row>, limit: nat)
    ensures |Retained(log, limit)| == Min(|log|, HistoryBound(limit))
  {
  }

  /** On the whole sequence of rows a scroll appends a blank one, and at the cap first
      deletes the oldest raw one, right below the tiered rows. */
  lemma ScrollOnFlat(s: State)
    ensures var flat, blank := s.Flat(), [BlankRow(s.cols)];
      ScrollUpOne(s).Flat() ==
        if |s.history| - s.tiered < HOT_CAP || |s.history| - 1 < s.limit then flat + blank
        else flat[..s.tiered] + flat[s.tiered + 1..] + blank
  {
    var h, v, b := s.history, s.screen, [BlankRow(s.cols)];
    assert (h + [v[0]]) + (v[1..] + b) == (h + v) + b;
    if |h| - s.tiered >= HOT_CAP {
      FlatWithout(h, v, s.tiered, b);
    }
  }

  lemma FlatWithout(h: seq<Row>, v: seq<Row>, t: nat, b: seq<Row>)
    requires t < |h| && v != []
    ensures (h[..t] + h[t + 1..] + [v[0]]) + (v[1..] + b) == (h + v)[..t] + (h + v)[t + 1..] + b
  {
  }

  // ---- Scrolling out any rows ---------------------------------------------------------

  predicate Screens(screens: seq<seq<Row>>, rows: nat, cols: nat) {
    forall i :: 0 <= i < |screens| ==> |screens[i]| == rows && RowsOk(screens[i], cols)
  }

  /** The screen is made to show each of `screens` in turn, and scrolled after each. */
  function ScrollOut(s: State, screens: seq<seq<Row>>, n: nat): (r: State)
    requires n <= |screens| && Screens(screens, s.rows, s.cols)
    ensures SameGeometry(s, r)
  {
    if n == 0 then s else ScrollUpOne(SetScreen(ScrollOut(s, screens, n - 1), screens[n - 1]))
  }

  function TopRows(screens: seq<seq<Row>>, n: nat): (r: seq<Row>)
    requires n <= |screens| && forall i :: 0 <= i < n ==> screens[i] != []
    ensures |r| == n
  {
    if n == 0 then [] else TopRows(screens, n - 1) + [screens[n - 1][0]]
  }

  /** After any number of scroll-outs of any rows from a fresh terminal, the history is all
      of them while they fit, and then the first ones the limit left space for followed by
      the last HOT_CAP ones. */
  lemma {:induction false} HistoryForm(cols: nat, rows: nat, limit: nat, screens: seq<seq<Row>>, n: nat)
    requires 1 <= rows && 1 <= cols <= MAX_COLS && n <= |screens| && Screens(screens, rows, cols)
    ensures var s := ScrollOut(Fresh(cols, rows, limit), screens, n);
      && s.history == Retained(TopRows(screens, n), limit)
      && s.tiered == TieredOfLog(n, limit)
  {
    if n > 0 {
      var m := n - 1;
      var s := ScrollOut(Fresh(cols, rows, limit), screens, m);
      HistoryForm(cols, rows, limit, screens, m);
      PushRetained(TopRows(screens, m), limit, screens[m][0]);
      ScrollPushes(s, screens[m]);
      ScrollOutNext(Fresh(cols, rows, limit), screens, m, n);
    }
  }

  lemma ScrollOutNext(s: State, screens: seq<seq<Row>>, m: nat, n: nat)
    requires n == m + 1 <= |screens| && Screens(screens, s.rows, s.cols)
    ensures ScrollOut(s, screens, n) == ScrollUpOne(SetScreen(ScrollOut(s, screens, m), screens[m]))
    ensures TopRows(screens, n) == TopRows(screens, m) + [screens[m][0]]
  {
  }

  lemma ScrollPushes(s: State, screen: seq<Row>)
    requires |screen| == s.rows && RowsOk(screen, s.cols)
    ensures var r := ScrollUpOne(SetScreen(s, screen));
      (r.history, r.tiered) == PushHistory(s.history, s.tiered, s.limit, screen[0])
  {
  }

  /** Scrolling a fresh terminal fills the raw history and then the tiers the limit leaves. */
  lemma {:induction false} FreshScrolls(cols: nat, rows: nat, limit: nat, n: nat)
    requires 1 <= rows && 1 <= cols <= MAX_COLS && n <= HOT_CAP + TierSpace(limit)
    ensures var s := ScrollUpTimes(Fresh(cols, rows, limit), n);
      |s.history| == n && s.tiered == TieredOfLog(n, limit)
  {
    if n > 0 {
      var m := n - 1;
      FreshScrolls(cols, rows, limit, m);
      OneMoreScroll(Fresh(cols, rows, limit), m, n);
    }
  }

  /** With the limit of a new terminal, 1536 rows stay in the raw grid before one is tiered. */
  lemma FirstTiered(cols: nat, rows: nat)
    requires 1 <= rows && 1 <= cols <= MAX_COLS
    ensures ScrollUpTimes(Fresh(cols, rows, 10_000), 1536).tiered == 0
    ensures ScrollUpTimes(Fresh(cols, rows, 10_000), 1537).tiered == 1
  {
    FreshScrolls(cols, rows, 10_000, 1536);
    FreshScrolls(cols, rows, 10_000, 1537);
  }

  lemma OneMoreScroll(s: State, m: nat, n: nat)
    requires n == m + 1
    ensures var t := ScrollUpTimes(s, m);
      (ScrollUpTimes(s, n).history, ScrollUpTimes(s, n).tiered)
      == PushHistory(t.history, t.tiered, t.limit, t.screen[0])
  {
  }

  // ---- Two limits, the same events ------------------------------------------------------

  function BoundAlt(a: Option<SavedScreen>, limit: nat): Option<SavedScreen> {
    match a
    case None => None
    case Some(v) => Some(v.(history := Retained(v.history, limit), tiered := TieredOfLog(|v.history|, limit)))
  }

  /** The terminal `u` as it would be with the history limit `limit`. */
  function Bound(u: State, limit: nat): (s: State)
    ensures s.screen == u.screen && s.cursor == u.cursor && s.dirty == u.dirty
  {
    RetainedRetention(u.history, limit);
    RetainedRows(u.history, limit, u.cols);
    if u.alt.Some? then
      RetainedRetention(u.alt.value.history, limit);
      RetainedRows(u.alt.value.history, limit, u.cols);
      u.(limit := limit, history := Retained(u.history, limit), tiered := TieredOfLog(|u.history|, limit),
         alt := BoundAlt(u.alt, limit))
    else
      u.(limit := limit, history := Retained(u.history, limit), tiered := TieredOfLog(|u.history|, limit))
  }

  lemma RetainedRows(log: seq<Row>, limit: nat, cols: nat)
    requires RowsOk(log, cols)
    ensures RowsOk(Retained(log, limit), cols)
  {
  }

  /** The rows a terminal holds above its two screens. */
  function Held(u: State): nat {
    |u.history| + (if u.alt.Some? then |u.alt.value.history| else 0)
  }

  /** No more rows than this leave the screen while `e` is applied. */
  function Pushes(e: Event): nat {
    match e
    case Write(_) => 2
    case Down(n) => AtLeast1(n)
    case Forward(n) => AtLeast1(n)
    case ScrollUpEvent(n) => n
    case Repeat(n) => 2 * n
    case _ => 0
  }

  /** `r` comes from `u` by pushing at most `n` rows, and the same happened to the bounded
      terminal, giving `b`. */
  predicate Commutes(u: State, r: State, b: State, limit: nat, n: nat) {
    && b == Bound(r, limit)
    && |r.history| <= |u.history| + n
    && r.alt == u.alt && r.limit == u.limit
  }

  lemma ScrollCommutes(u: State, limit: nat)
    requires |u.history| <= u.limit
    ensures Commutes(u, ScrollUpOne(u), ScrollUpOne(Bound(u, limit)), limit, 1)
  {
    PushRetained(u.history, limit, u.screen[0]);
  }

  lemma NextRowCommutes(u: State, limit: nat)
    requires |u.history| <= u.limit
    ensures Commutes(u, NextRow(u), NextRow(Bound(u, limit)), limit, 1)
  {
    ScrollCommutes(u, limit);
  }

  lemma LineWrapCommutes(u: State, limit: nat)
    requires |u.history| <= u.limit
    ensures Commutes(u, LineWrap(u), LineWrap(Bound(u, limit)), limit, 1)
  {
    var w := SetRow(u, u.cursor.row, u.Row().(isWrapped := true));
    assert SetRow(Bound(u, limit), u.cursor.row, u.Row().(isWrapped := true)) == Bound(w, limit);
    NextRowCommutes(w, limit);
  }

  lemma DownStepCommutes(u: State, limit: nat)
    requires |u.history| <= u.limit
    ensures Commutes(u, DownStep(u), DownStep(Bound(u, limit)), limit, 1)
  {
    if u.cursor.row < u.rows - 1 {
      PlaceCommutes(u, limit, u.cursor.(row := u.cursor.row + 1), u.pendingWrap);
    } else {
      ScrollCommutes(u, limit);
    }
  }

  lemma ForwardStepCommutes(u: State, limit: nat)
    requires |u.history| <= u.limit
    ensures Commutes(u, ForwardStep(u), ForwardStep(Bound(u, limit)), limit, 1)
  {
    if u.cursor.col < u.cols - 1 {
      PlaceCommutes(u, limit, u.cursor.(col := u.cursor.col + 1), u.pendingWrap);
    } else if u.modes.wrap {
      LineWrapCommutes(u, limit);
    }
  }

  lemma {:induction false} DownCommutes(u: State, limit: nat, n: nat)
    requires |u.history| + n <= u.limit
    ensures Commutes(u, DownSteps(u, n), DownSteps(Bound(u, limit), n), limit, n)
  {
    if n > 0 {
      var v := DownSteps(u, n - 1);
      DownCommutes(u, limit, n - 1);
      DownStepCommutes(v, limit);
      assert DownSteps(u, n) == DownStep(v) && DownSteps(Bound(u, limit), n) == DownStep(Bound(v, limit));
    }
  }

  lemma {:induction false} ForwardCommutes(u: State, limit: nat, n: nat)
    requires |u.history| + n <= u.limit
    ensures Commutes(u, ForwardSteps(u, n), ForwardSteps(Bound(u, limit), n), limit, n)
  {
    if n > 0 {
      ForwardCommutes(u, limit, n - 1);
      ForwardStepCommutes(ForwardSteps(u, n - 1), limit);
    }
  }

  lemma {:induction false} BackCommutes(u: State, limit: nat, n: nat)
    ensures Commutes(u, BackSteps(u, n), BackSteps(Bound(u, limit), n), limit, 0)
  {
    if n > 0 {
      BackCommutes(u, limit, n - 1);
    }
  }

  lemma {:induction false} ScrollUpCommutes(u: State, limit: nat, n: nat)
    requires |u.history| + n <= u.limit
    ensures Commutes(u, ScrollUpTimes(u, n), ScrollUpTimes(Bound(u, limit), n), limit, n)
  {
    if n > 0 {
      ScrollUpCommutes(u, limit, n - 1);
      ScrollCommutes(ScrollUpTimes(u, n - 1), limit);
    }
  }

  lemma PlaceCommutes(u: State, limit: nat, cursor: Cursor, pendingWrap: bool)
    requires CursorOk(cursor, u.cols, u.rows)
    ensures Commutes(u, Place(u, cursor, pendingWrap), Place(Bound(u, limit), cursor, pendingWrap), limit, 0)
  {
  }

  lemma SetCellsCommutes(u: State, limit: nat, cells: seq<Cell>)
    requires |cells| == u.cols && NormalCells(cells)
    ensures Commutes(u, SetCells(u, cells), SetCells(Bound(u, limit), cells), limit, 0)
  {
  }

  lemma AdvanceCommutes(u: State, limit: nat, width: nat)
    ensures Commutes(u, CursorAdvance(u, width), CursorAdvance(Bound(u, limit), width), limit, 0)
  {
    if u.cursor.col + width < u.cols {
      PlaceCommutes(u, limit, u.cursor.(col := u.cursor.col + width), false);
    } else {
      PlaceCommutes(u, limit, u.cursor.(col := u.cols - 1), u.modes.wrap);
    }
  }

  lemma ClampCommutes(u: State, limit: nat, base: nat, width: nat)
    ensures Commutes(u, ClampCursorAfterCluster(u, base, width),
                     ClampCursorAfterCluster(Bound(u, limit), base, width), limit, 0)
  {
    if base + width >= u.cols {
      PlaceCommutes(u, limit, u.cursor.(col := u.cols - 1), u.modes.wrap);
    } else {
      PlaceCommutes(u, limit, u.cursor.(col := base + width), false);
    }
  }

  lemma MergeCommutes(u: State, limit: nat, b: nat, width: nat)
    requires b < u.cols && !u.Row().cells[b].IsEmpty()
    ensures Commutes(u, MergeCluster(u, b, width), MergeCluster(Bound(u, limit), b, width), limit, 0)
  {
    var cells := u.Row().cells;
    var prev, w := cells[b], ClusterWidth(cells[b].width, width);
    var base := Printed(prev.ch, u.style, prev.WithoutJoiner().flags, w);
    var grown := GrowCluster(cells, b, base, w == 2 && prev.width < 2);
    SetCellsCommutes(u, limit, grown);
    ClampCommutes(SetCells(u, grown), limit, b, w);
  }

  lemma SetLastCharCommutes(u: State, limit: nat, c: Char)
    requires !c.IsControl() && c.width > 0
    ensures Commutes(u, SetLastChar(u, c), SetLastChar(Bound(u, limit), c), limit, 0)
  {
  }

  lemma PutCharCommutes(u: State, limit: nat, c: Char)
    requires !c.IsControl() && c.width > 0
    ensures Commutes(u, PutChar(u, c), PutChar(Bound(u, limit), c), limit, 0)
  {
    var cells := PutCells(u.Row().cells, u.cursor.col, Printed(c.code, u.style, 0, c.width));
    SetCellsCommutes(u, limit, cells);
    SetLastCharCommutes(SetCells(u, cells), limit, c);
    AdvanceCommutes(SetLastChar(SetCells(u, cells), c), limit, c.width);
  }

  lemma FitCommutes(u: State, limit: nat, width: nat)
    requires |u.history| <= u.limit
    ensures Commutes(u, Fit(u, width), Fit(Bound(u, limit), width), limit, 1)
  {
    LineWrapCommutes(u, limit);
  }

  lemma PrintCommutes(u: State, limit: nat, c: Char)
    requires |u.history| <= u.limit && !c.IsControl() && c.width > 0
    ensures Commutes(u, PrintAt(u, c), PrintAt(Bound(u, limit), c), limit, 1)
  {
    FitCommutes(u, limit, c.width);
    PutCharCommutes(Fit(u, c.width), limit, c);
    var b := ClusterBase(u.Row().cells, u.cursor.col);
    if b.Some? && !u.Row().cells[b.value].IsEmpty() {
      MergeCommutes(u, limit, b.value, c.width);
    }
  }

  lemma ZeroWidthCommutes(u: State, limit: nat, c: Char)
    requires !c.IsControl()
    ensures Commutes(u, WriteZeroWidth(u, c), WriteZeroWidth(Bound(u, limit), c), limit, 0)
  {
    var cells, col := u.Row().cells, u.cursor.col;
    if col > 0 && !c.IsVariationSelector() && !c.IsJoiner() {
      SetCellsCommutes(u, limit, cells[col := Printed(c.code, u.style, COMBINING, 0)]);
    } else if col > 0 {
      var b := ClusterBase(cells, col);
      if b.Some? && !cells[b.value].IsEmpty() {
        ChangeBaseCommutes(u, limit, c, b.value);
      }
    }
  }

  lemma ChangeBaseCommutes(u: State, limit: nat, c: Char, b: nat)
    requires b < u.cols && !u.Row().cells[b].IsEmpty()
    ensures Commutes(u, ChangeBase(u, c, b), ChangeBase(Bound(u, limit), c, b), limit, 0)
  {
    var cells, base := u.Row().cells, u.Row().cells[b];
    if c.IsVariationSelector() {
      var w := ClusterWidth(if c.code == 0xFE0F then 2 else 1, base.width);
      var grown := GrowCluster(cells, b, base.(width := w), w == 2 && base.width < 2);
      SetCellsCommutes(u, limit, grown);
      ClampCommutes(SetCells(u, grown), limit, b, 2);
    } else {
      SetCellsCommutes(u, limit, GrowCluster(cells, b, base.WithJoiner(), false));
    }
  }

  lemma WriteCommutes(u: State, limit: nat, c: Char)
    requires |u.history| + 1 <= u.limit
    ensures Commutes(u, WriteChar(u, c), WriteChar(Bound(u, limit), c), limit, 2)
  {
    if !c.IsControl() {
      if c.width == 0 {
        ZeroWidthCommutes(u, limit, c);
      } else {
        LineWrapCommutes(u, limit);
        PrintCommutes(if u.pendingWrap then LineWrap(u) else u, limit, c);
      }
    }
  }

  lemma {:induction false} RepeatCommutes(u: State, limit: nat, c: Char, n: nat)
    requires |u.history| + 2 * n <= u.limit
    ensures Commutes(u, RepeatChar(u, c, n), RepeatChar(Bound(u, limit), c, n), limit, 2 * n)
  {
    if n > 0 {
      RepeatCommutes(u, limit, c, n - 1);
      WriteCommutes(RepeatChar(u, c, n - 1), limit, c);
    }
  }

  lemma MotionCommutes(u: State, limit: nat, e: Event)
    requires e.IsMotion() && |u.history| + Pushes(e) <= u.limit
    ensures Commutes(u, ApplyMotion(u, e), ApplyMotion(Bound(u, limit), e), limit, Pushes(e))
  {
    var p := ClearPending(u);
    assert ClearPending(Bound(u, limit)) == Bound(p, limit);
    match e
    case Down(n) => DownCommutes(p, limit, AtLeast1(n));
    case Forward(n) => ForwardCommutes(p, limit, AtLeast1(n));
    case Back(n) => BackCommutes(p, limit, AtLeast1(n));
    case MoveCursor(col, row) => CursorPositionCommutes(u, limit, col, row);
    case Up(n) => UpCommutes(u, limit, AtLeast1(n));
    case TabStop => TabCommutes(u, limit);
    case BeginningOfLine => LineStartCommutes(u, limit);
  }

  lemma ClearPendingCommutes(u: State, limit: nat)
    ensures Commutes(u, ClearPending(u), ClearPending(Bound(u, limit)), limit, 0)
  {
  }

  lemma CursorPositionCommutes(u: State, limit: nat, col: nat, row: nat)
    ensures Commutes(u, CursorPosition(u, col, row), CursorPosition(Bound(u, limit), col, row), limit, 0)
  {
    ClearPendingCommutes(u, limit);
    PlaceCommutes(u, limit, CursorPosition(u, col, row).cursor, false);
  }

  lemma UpCommutes(u: State, limit: nat, n: nat)
    ensures Commutes(u, CursorUp(u, n), CursorUp(Bound(u, limit), n), limit, 0)
  {
    ClearPendingCommutes(u, limit);
    PlaceCommutes(u, limit, CursorUp(u, n).cursor, false);
  }

  lemma TabCommutes(u: State, limit: nat)
    ensures Commutes(u, Tab(u), Tab(Bound(u, limit)), limit, 0)
  {
    PlaceCommutes(u, limit, Tab(u).cursor, false);
  }

  lemma LineStartCommutes(u: State, limit: nat)
    ensures Commutes(u, CursorToBeginningOfLine(u), CursorToBeginningOfLine(Bound(u, limit)), limit, 0)
  {
    PlaceCommutes(u, limit, u.cursor.(col := 0), false);
  }

  lemma EditCommutes(u: State, limit: nat, e: Event)
    requires e.IsEdit() && !e.ScrollDownEvent? && |u.history| + Pushes(e) <= u.limit
    ensures Commutes(u, ApplyEdit(u, e), ApplyEdit(Bound(u, limit), e), limit, Pushes(e))
  {
    match e
    case ScrollUpEvent(n) => ScrollUpCommutes(u, limit, n);
    case _ =>
  }

  lemma SetRowCommutes(u: State, limit: nat, v: nat, row: Row)
    requires v < u.rows && RowOk(row, u.cols)
    ensures Commutes(u, SetRow(u, v, row), SetRow(Bound(u, limit), v, row), limit, 0)
  {
  }

  lemma MarkCommutes(u: State, limit: nat, v: nat)
    ensures Commutes(u, MarkRow(u, v), MarkRow(Bound(u, limit), v), limit, 0)
    ensures Commutes(u, MarkAll(u), MarkAll(Bound(u, limit)), limit, 0)
    ensures Commutes(u, MarkCursor(u), MarkCursor(Bound(u, limit)), limit, 0)
  {
  }

  lemma SetScreenCommutes(u: State, limit: nat, screen: seq<Row>)
    requires |screen| == u.rows && RowsOk(screen, u.cols)
    ensures Commutes(u, SetScreen(u, screen), SetScreen(Bound(u, limit), screen), limit, 0)
  {
  }

  lemma ClearLineCommutes(u: State, limit: nat, mode: nat)
    ensures Commutes(u, ClearLine(u, mode), ClearLine(Bound(u, limit), mode), limit, 0)
  {
    var row := ErasedLine(u, mode);
    assert ErasedLine(Bound(u, limit), mode) == row;
    SetRowCommutes(u, limit, u.cursor.row, row);
    MarkCommutes(if mode > 2 then u else SetRow(u, u.cursor.row, row), limit, u.cursor.row);
  }

  lemma ClearedAlike(u: State, limit: nat)
    ensures ClearBelow(Bound(u, limit)) == ClearBelow(u)
    ensures ClearAbove(Bound(u, limit)) == ClearAbove(u)
  {
    assert Bound(u, limit).cols == u.cols && Bound(u, limit).rows == u.rows;
    forall v | 0 <= v < u.rows
      ensures ClearBelow(Bound(u, limit))[v] == ClearBelow(u)[v]
      ensures ClearAbove(Bound(u, limit))[v] == ClearAbove(u)[v]
    {
    }
  }

  lemma DropHistoryCommutes(u: State, limit: nat)
    ensures Commutes(u, DropHistory(u), DropHistory(Bound(u, limit)), limit, 0)
  {
  }

  lemma ClearScreenCommutes(u: State, limit: nat, mode: nat)
    ensures Commutes(u, ClearScreen(u, mode), ClearScreen(Bound(u, limit), mode), limit, 0)
  {
    ClearedAlike(u, limit);
    if mode == 0 {
      RepaintCommutes(u, limit, ClearBelow(u));
    } else if mode == 1 {
      RepaintCommutes(u, limit, ClearAbove(u));
    } else if mode == 2 || mode == 3 {
      WipeCommutes(u, limit, mode == 3);
    } else {
      MarkCommutes(u, limit, 0);
    }
  }

  lemma RepaintCommutes(u: State, limit: nat, screen: seq<Row>)
    requires |screen| == u.rows && RowsOk(screen, u.cols)
    ensures Commutes(u, MarkCursor(MarkAll(SetScreen(u, screen))),
                     MarkCursor(MarkAll(SetScreen(Bound(u, limit), screen))), limit, 0)
  {
    SetScreenCommutes(u, limit, screen);
    var t := SetScreen(u, screen);
    MarkCommutes(t, limit, 0);
    MarkCommutes(MarkAll(t), limit, 0);
  }

  lemma WipeCommutes(u: State, limit: nat, dropHistory: bool)
    ensures Commutes(u, Wiped(u, dropHistory), Wiped(Bound(u, limit), dropHistory), limit, 0)
  {
    var screen := BlankRows(u.rows, u.cols);
    SetScreenCommutes(u, limit, screen);
    var t := SetScreen(u, screen);
    DropHistoryCommutes(t, limit);
    var d := if dropHistory then DropHistory(t) else t;
    MarkCommutes(d, limit, 0);
    PlaceCommutes(MarkAll(d), limit, u.cursor.(col := 0, row := 0), false);
  }

  lemma ModeCommutes(u: State, limit: nat, e: Event)
    requires e.IsMode()
    ensures Commutes(u, ApplyMode(u, e), ApplyMode(Bound(u, limit), e), limit, 0)
  {
    match e
    case RestoreCursorEvent => RestoreCommutes(u, limit);
    case ShowCursor(visible) => ShowCommutes(u, limit, visible);
    case _ =>
  }

  lemma RestoreCommutes(u: State, limit: nat)
    ensures Commutes(u, RestoreCursor(u), RestoreCursor(Bound(u, limit)), limit, 0)
  {
    var w := SetAutoWrap(WithStyle(u, u.saved.style), u.saved.wrap);
    PlaceCommutes(w, limit, u.saved.cursor, u.saved.pendingWrap);
  }

  lemma ShowCommutes(u: State, limit: nat, visible: bool)
    ensures Commutes(u, SetCursorVisible(u, visible), SetCursorVisible(Bound(u, limit), visible), limit, 0)
  {
    var w: State := u.(modes := u.modes.(cursorVisible := visible));
    PlaceCommutes(w, limit, u.cursor.(isHidden := !visible), u.pendingWrap);
  }

  /** One event on the bounded terminal is the same event on the larger one, bounded. */
  lemma StepCommutes(u: State, limit: nat, e: Event)
    requires !e.ScrollDownEvent? && !Aborts(u, e) && Held(u) + Pushes(e) <= u.limit
    ensures !Aborts(Bound(u, limit), e)
    ensures Apply(Bound(u, limit), e) == Bound(Apply(u, e), limit)
    ensures Held(Apply(u, e)) <= Held(u) + Pushes(e)
  {
    if e.AltScreen? {
      AppliesAlt(u, e.alt);
      AppliesAlt(Bound(u, limit), e.alt);
      AltCommutes(u, limit, e.alt);
    } else {
      ScreenEventCommutes(u, limit, e);
    }
  }

  lemma ScreenEventCommutes(u: State, limit: nat, e: Event)
    requires !e.AltScreen? && !e.ScrollDownEvent? && !Aborts(u, e) && |u.history| + Pushes(e) <= u.limit
    ensures !Aborts(Bound(u, limit), e)
    ensures Commutes(u, Apply(u, e), Apply(Bound(u, limit), e), limit, Pushes(e))
  {
    if e.IsMotion() {
      MotionCommutes(u, limit, e);
    } else if e.IsEdit() {
      EditCommutes(u, limit, e);
    } else if e.IsMode() {
      ModeCommutes(u, limit, e);
    } else if e.EraseScreen? {
      ClearScreenCommutes(u, limit, e.mode);
    } else if e.EraseLine? {
      ClearLineCommutes(u, limit, e.mode);
    } else if e.Write? {
      WriteCommutes(u, limit, e.c);
    } else if e.Repeat? {
      if u.lastChar.Some? {
        RepeatCommutes(u, limit, u.lastChar.value, e.n);
      }
    } else {
      SetCellsCommutes(u, limit, InsertBlankCells(u.Row().cells, u.cursor.col, e.n));
    }
  }

  lemma AltCommutes(u: State, limit: nat, alt: bool)
    ensures SetAltScreen(Bound(u, limit), alt) == Bound(SetAltScreen(u, alt), limit)
    ensures Held(SetAltScreen(u, alt)) <= Held(u)
  {
  }

  function AllPushes(es: seq<Event>): nat {
    if es == [] then 0 else Pushes(es[0]) + AllPushes(es[1..])
  }

  /** The limit decides nothing but which rows are kept: whatever the events, short of
      scrolling down, a terminal with a limit ends as the terminal with a limit it never
      meets, its history cut to the retained rows. */
  lemma {:induction false} LimitOnlyCutsHistory(u: State, limit: nat, es: seq<Event>)
    requires forall k :: 0 <= k < |es| ==> !es[k].ScrollDownEvent?
    requires Held(u) + AllPushes(es) <= u.limit
    ensures Run(Bound(u, limit), es).Some? == Run(u, es).Some?
    ensures Run(u, es).Some? ==> Run(Bound(u, limit), es).value == Bound(Run(u, es).value, limit)
    decreases |es|
  {
    if es != [] && !Aborts(u, es[0]) {
      StepCommutes(u, limit, es[0]);
      LimitOnlyCutsHistory(Apply(u, es[0]), limit, es[1..]);
    }
  }
}
