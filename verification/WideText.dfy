/** Text of narrow and wide characters: however it breaks into lines, and however many of them
    are tiered, joining the wrapped rows gives it back. */
module WideText {
  import opened Cells
  import opened Clusters
  import opened History
  import opened SpanCodec
  import opened TerminalSpec
  import opened TextLayout

  type BaseChar = c: Char | Base(c) witness Char(0x20, 1)

  /** The lines so far, and where the next character goes. */
  datatype Setting = Setting(p: seq<Row>, col: nat, pending: bool)

  /** The last line is blank from the cursor on, and holds no joiner. */
  predicate SettingOk(t: Setting, cols: nat) {
    && t.p != [] && RowsOk(t.p, cols) && t.col < cols
    && LastOk(t.p[|t.p| - 1], if t.pending then cols else t.col)
  }

  predicate LastOk(row: Row, end: nat) {
    && !row.isWrapped
    && (forall k :: 0 <= k < |row.cells| ==> row.cells[k].flags <= 1)
    && (forall k :: end <= k < |row.cells| ==> row.cells[k] == EMPTY_CELL)
  }

  function Broken(t: Setting, cols: nat): Setting
    requires t.p != []
  {
    Setting(Wrapped(t.p, cols), 0, false)
  }

  /** The setting with a pending wrap carried out. */
  function Opened(t: Setting, cols: nat): (o: Setting)
    requires SettingOk(t, cols)
    ensures SettingOk(o, cols) && !o.pending
  {
    if t.pending then Broken(t, cols) else t
  }

  /** The setting right before a character of some width is put. */
  function Ready(t: Setting, cols: nat, width: nat): (r: Setting)
    requires SettingOk(t, cols)
    ensures SettingOk(r, cols) && !r.pending
  {
    Fitted(Opened(t, cols), cols, width)
  }

  function Fitted(o: Setting, cols: nat, width: nat): (r: Setting)
    requires SettingOk(o, cols) && !o.pending
    ensures SettingOk(r, cols) && !r.pending
  {
    if o.col + width > cols then Broken(o, cols) else o
  }

  function Ink(c: BaseChar): Cell { Printed(c.code, PLAIN, 0, c.width) }

  function WithLast(p: seq<Row>, cells: seq<Cell>): seq<Row>
    requires p != []
  {
    p[|p| - 1 := p[|p| - 1].(cells := cells)]
  }

  function LastCells(t: Setting): seq<Cell>
    requires t.p != []
  {
    t.p[|t.p| - 1].cells
  }

  function Typed(t: Setting, cols: nat, c: BaseChar): (r: Setting)
    requires SettingOk(t, cols)
    ensures SettingOk(r, cols)
  {
    Inked(Ready(t, cols, c.width), cols, c)
  }

  function Inked(o: Setting, cols: nat, c: BaseChar): (r: Setting)
    requires SettingOk(o, cols) && !o.pending
    ensures SettingOk(r, cols)
  {
    var end := o.col + c.width;
    Setting(WithLast(o.p, PutCells(LastCells(o), o.col, Ink(c))), if end < cols then end else cols - 1, end >= cols)
  }

  function Typeset(text: seq<BaseChar>, n: nat, cols: nat): (t: Setting)
    requires n <= |text| && cols > 0
    ensures SettingOk(t, cols)
  {
    if n == 0 then Setting([BlankRow(cols)], 0, false) else Typed(Typeset(text, n - 1, cols), cols, text[n - 1])
  }

  // ---- The terminal shows it ---------------------------------------------------------------

  predicate ShowsSetting(s: State, t: Setting) { Shows(s, t.p, t.col, t.pending) }

  lemma ReadyShows(s: State, t: Setting, c: BaseChar)
    requires SettingOk(t, s.cols) && ShowsSetting(s, t)
    ensures WriteChar(s, c) == PutChar(Landing(s, c.width), c)
    ensures ShowsSetting(Landing(s, c.width), Ready(t, s.cols, c.width))
  {
    ResumedShows(s, t);
    FitShows(Resumed(s), Opened(t, s.cols), c);
  }

  lemma ResumedShows(s: State, t: Setting)
    requires SettingOk(t, s.cols) && ShowsSetting(s, t)
    ensures ShowsSetting(Resumed(s), Opened(t, s.cols))
  {
    if t.pending {
      WrapShows(s, t.p, t.col, true);
    }
  }

  lemma FitShows(r: State, o: Setting, c: BaseChar)
    requires SettingOk(o, r.cols) && ShowsSetting(r, o) && !o.pending
    ensures PrintAt(r, c) == PutChar(Fit(r, c.width), c)
    ensures ShowsSetting(Fit(r, c.width), if o.col + c.width > r.cols then Broken(o, r.cols) else o)
  {
    ShowsLast(r, o.p, o.col, false);
    NoJoinerBefore(r.Row().cells, o.col);
    if o.col + c.width > r.cols {
      WrapShows(r, o.p, o.col, false);
    }
  }

  lemma {:induction false} NoJoinerBefore(cells: seq<Cell>, col: nat)
    requires col <= |cells| && forall k :: 0 <= k < |cells| ==> cells[k].flags <= 1
    ensures var b := ClusterBase(cells, col); b.Some? ==> !cells[b.value].IsJoiner()
  {
    if col > 0 {
      NoJoinerBefore(cells, col - 1);
    }
  }

  lemma PutShowsSetting(n: State, o: Setting, c: BaseChar)
    requires SettingOk(o, n.cols) && ShowsSetting(n, o) && !o.pending
    ensures var end := o.col + c.width;
      Shows(PutChar(n, c), WithLast(o.p, PutCells(LastCells(o), o.col, Ink(c))),
            if end < n.cols then end else n.cols - 1, end >= n.cols)
  {
    ShowsLast(n, o.p, o.col, false);
    AfterPut(n, c);
    var k, row := Hidden(|o.p|, n.rows), n.Row().(cells := Put(n, c));
    FlagRow(n, o.p, o.p[|o.p| - 1 := row], k, row);
  }

  lemma TypedShows(s: State, t: Setting, c: BaseChar)
    requires SettingOk(t, s.cols) && ShowsSetting(s, t)
    ensures ShowsSetting(WriteChar(s, c), Typed(t, s.cols, c))
  {
    ReadyShows(s, t, c);
    PutShowsSetting(Landing(s, c.width), Ready(t, s.cols, c.width), c);
  }

  /** Any text of narrow and wide characters on a fresh terminal of any size and limit is shown
      as it is typeset. */
  lemma {:induction false} TextIsTypeset(cols: nat, rows: nat, limit: nat, text: seq<BaseChar>, n: nat)
    requires 1 <= rows && 1 <= cols <= MAX_COLS && n <= |text|
    ensures ShowsSetting(WriteAll(Fresh(cols, rows, limit), text, n), Typeset(text, n, cols))
  {
    if n == 0 {
      FreshIsTypeset(cols, rows, limit, text);
    } else {
      var i := n - 1;
      TextIsTypeset(cols, rows, limit, text, i);
      TypedShows(WriteAll(Fresh(cols, rows, limit), text, i), Typeset(text, i, cols), text[i]);
      WriteAllNext(Fresh(cols, rows, limit), text, i, n);
      TypesetNext(text, i, n, cols);
    }
  }

  lemma TypesetNext(text: seq<BaseChar>, i: nat, n: nat, cols: nat)
    requires n == i + 1 <= |text| && cols > 0
    ensures Typeset(text, n, cols) == Typed(Typeset(text, i, cols), cols, text[i])
  {
  }

  lemma FreshIsTypeset(cols: nat, rows: nat, limit: nat, text: seq<BaseChar>)
    requires 1 <= rows && 1 <= cols <= MAX_COLS
    ensures ShowsSetting(WriteAll(Fresh(cols, rows, limit), text, 0), Typeset(text, 0, cols))
  {
    FreshShows(cols, rows, limit, []);
    assert LineCells([], 0, cols, 0) == Blanks(cols);
    assert Layout([], 0, cols) == [BlankRow(cols)];
  }

  // ---- Reading it back ---------------------------------------------------------------------

  lemma {:induction false} BlankText(cells: seq<Cell>, from: nat, k: nat)
    requires from <= k <= |cells| && forall i :: from <= i < k ==> CellText(cells[i]) == []
    ensures RowText(cells, k) == RowText(cells, from)
  {
    if from < k {
      BlankText(cells, from, k - 1);
    }
  }

  lemma {:induction false} SameText(a: seq<Cell>, b: seq<Cell>, k: nat)
    requires k <= |a| && k <= |b| && forall i :: 0 <= i < k ==> a[i] == b[i]
    ensures RowText(a, k) == RowText(b, k)
  {
    if k > 0 {
      SameText(a, b, k - 1);
    }
  }

  /** Putting a character at the end of a line adds it to the line's text. */
  lemma InkText(cells: seq<Cell>, col: nat, c: BaseChar)
    requires col < |cells| && NormalCells(cells) && forall k :: col <= k < |cells| ==> cells[k] == EMPTY_CELL
    ensures var after := PutCells(cells, col, Ink(c));
      RowText(after, |after|) == RowText(cells, |cells|) + [c.code]
  {
    var after, next := PutCells(cells, col, Ink(c)), col + 1;
    BlankText(cells, col, |cells|);
    SameText(cells, after, col);
    assert RowText(after, next) == RowText(after, col) + CellText(after[col]) == RowText(cells, col) + [c.code];
    BlankText(after, next, |after|);
  }

  lemma {:induction false} FrontJoined(a: seq<Row>, b: seq<Row>, n: nat)
    requires n < |a| && n < |b| && forall i :: 0 <= i < n ==> a[i] == b[i]
    ensures TextLayout.Joined(a, n) == TextLayout.Joined(b, n)
  {
    if n > 0 {
      FrontJoined(a, b, n - 1);
    }
  }

  lemma LastJoined(p: seq<Row>, n: nat)
    requires |p| == n + 1
    ensures TextLayout.Joined(p, |p|) == TextLayout.Joined(p, n) + RowText(p[n].cells, |p[n].cells|)
  {
    assert TextLayout.Joined(p, n) + RowText(p[n].cells, |p[n].cells|) + []
        == TextLayout.Joined(p, n) + RowText(p[n].cells, |p[n].cells|);
  }

  /** Breaking a line changes nothing of the joined text. */
  lemma BrokenText(p: seq<Row>, cols: nat)
    requires p != []
    ensures var q := Wrapped(p, cols); TextLayout.Joined(q, |q|) == TextLayout.Joined(p, |p|)
  {
    var q, n, m := Wrapped(p, cols), |p| - 1, |p|;
    LastJoined(p, n);
    LastJoined(q, m);
    FrontJoined(p, q, n);
    BlankText(q[m].cells, 0, |q[m].cells|);
    assert q[n].isWrapped && q[n].cells == p[n].cells;
    assert TextLayout.Joined(q, m) == TextLayout.Joined(q, n) + RowText(p[n].cells, |p[n].cells|) + [];
  }

  /** The text of all lines so far, the wrapped ones joined. */
  function SettingText(t: Setting): seq<u32> { TextLayout.Joined(t.p, |t.p|) }

  lemma ReadyText(t: Setting, cols: nat, width: nat)
    requires SettingOk(t, cols)
    ensures SettingText(Ready(t, cols, width)) == SettingText(t)
  {
    var o := Opened(t, cols);
    BrokenText(t.p, cols);
    BrokenText(o.p, cols);
  }

  lemma TypedText(t: Setting, cols: nat, c: BaseChar)
    requires SettingOk(t, cols)
    ensures SettingText(Typed(t, cols, c)) == SettingText(t) + [c.code]
  {
    var o, r := Ready(t, cols, c.width), Typed(t, cols, c);
    var n := |o.p| - 1;
    ReadyText(t, cols, c.width);
    InkText(LastCells(o), o.col, c);
    LastJoined(o.p, n);
    LastJoined(r.p, n);
    FrontJoined(o.p, r.p, n);
    Assoc(TextLayout.Joined(o.p, n), RowText(LastCells(o), cols), [c.code]);
  }

  lemma BlankTypeset(text: seq<BaseChar>, cols: nat)
    requires cols > 0
    ensures SettingText(Typeset(text, 0, cols)) == []
  {
    LastJoined([BlankRow(cols)], 0);
    BlankText(Blanks(cols), 0, cols);
  }

  lemma {:induction false} TypesetText(text: seq<BaseChar>, n: nat, cols: nat)
    requires n <= |text| && cols > 0
    ensures SettingText(Typeset(text, n, cols)) == Codes(text, n)
  {
    if n == 0 {
      BlankTypeset(text, cols);
    } else {
      var i := n - 1;
      TypesetText(text, i, cols);
      TypedText(Typeset(text, i, cols), cols, text[i]);
      TypesetNext(text, i, n, cols);
      CodesNext(text, i, n);
    }
  }

  lemma CodesNext(text: seq<BaseChar>, i: nat, n: nat)
    requires n == i + 1 <= |text|
    ensures Codes(text, n) == Codes(text, i) + [text[i].code]
  {
  }

  /** Below the history cap joining the retained rows gives back any text of narrow and wide
      characters: no line break, no blank before a wide character that did not fit, and no
      second half of one is read as text. */
  lemma WideTextSurvives(cols: nat, rows: nat, limit: nat, text: seq<BaseChar>)
    requires 1 <= rows && 1 <= cols <= MAX_COLS
    requires Hidden(|Typeset(text, |text|, cols).p|, rows) <= HOT_CAP + TierSpace(limit)
    ensures RetainedText(WriteAll(Fresh(cols, rows, limit), text, |text|)) == Codes(text, |text|)
  {
    var n := |text|;
    var t := Typeset(text, n, cols);
    TextIsTypeset(cols, rows, limit, text, n);
    TypesetText(text, n, cols);
    ShownLines(WriteAll(Fresh(cols, rows, limit), text, n), t.p, t.col, t.pending);
  }

  // ---- Where the lines break ------------------------------------------------------------------

  function Widths(text: seq<BaseChar>, from: nat, to: nat): nat
    requires to <= |text|
  {
    if from >= to then 0 else Widths(text, from, to - 1) + text[to - 1].width
  }

  /** The codes of a part of the text. */
  function Part(text: seq<BaseChar>, from: nat, to: nat): seq<u32>
    requires to <= |text|
  {
    if from >= to then [] else Part(text, from, to - 1) + [text[to - 1].code]
  }

  /** Which character each line starts with: the first that does not fit on the line before. A
      character that is wider than the screen leaves a blank line as well. */
  function Starts(text: seq<BaseChar>, n: nat, cols: nat): (b: seq<nat>)
    requires n <= |text|
    ensures b != [] && b[|b| - 1] <= n
  {
    if n == 0 then [0]
    else
      var b, i := Starts(text, n - 1, cols), n - 1;
      var first := b[|b| - 1];
      var moved := if first < i && Widths(text, first, n) > cols then b + [i] else b;
      if text[i].width > cols then moved + [i] else moved
  }

  /** Each of the first `k` lines is not empty, fits, and would not with the character that starts
      the next. */
  predicate Greedy(text: seq<BaseChar>, b: seq<nat>, k: nat, cols: nat)
    requires k < |b|
  {
    k == 0 || (Greedy(text, b, k - 1, cols) && GreedyLine(text, b[k - 1], b[k], cols))
  }

  predicate GreedyLine(text: seq<BaseChar>, from: nat, to: nat, cols: nat) {
    from < to < |text| && Widths(text, from, to) <= cols < Widths(text, from, to + 1)
  }

  lemma {:induction false} GreedyLonger(text: seq<BaseChar>, b: seq<nat>, i: nat, k: nat, cols: nat)
    requires k < |b|
    ensures Greedy(text, b + [i], k, cols) == Greedy(text, b, k, cols)
  {
    if k > 0 {
      GreedyLonger(text, b, i, k - 1, cols);
    }
  }

  /** On two columns or more the lines are filled greedily, the last one as far as the text goes. */
  lemma {:induction false} StartsAreGreedy(text: seq<BaseChar>, n: nat, cols: nat)
    requires n <= |text| && cols >= 2
    ensures var b := Starts(text, n, cols); var k := |b| - 1;
      Greedy(text, b, k, cols) && Widths(text, b[k], n) <= cols && (n > 0 ==> b[k] < n)
  {
    if n > 0 {
      var i := n - 1;
      var b := Starts(text, i, cols);
      StartsAreGreedy(text, i, cols);
      GreedyLonger(text, b, i, |b| - 1, cols);
      StartsNext(text, i, n, cols);
      assert Widths(text, i, n) == text[i].width;
    }
  }

  predicate LineIs(row: Row, text: seq<BaseChar>, from: nat, to: nat, wrapped: bool)
    requires to <= |text|
  {
    RowText(row.cells, |row.cells|) == Part(text, from, to) && row.isWrapped == wrapped
  }

  /** The first `k` lines hold the text from each start to the next, and are wrapped. */
  predicate LinesTo(p: seq<Row>, text: seq<BaseChar>, b: seq<nat>, k: nat)
    requires k <= |p| && k < |b|
  {
    k == 0 || (LinesTo(p, text, b, k - 1) && b[k] <= |text| && LineIs(p[k - 1], text, b[k - 1], b[k], true))
  }

  lemma {:induction false} LinesStay(p: seq<Row>, q: seq<Row>, text: seq<BaseChar>, b: seq<nat>, c: seq<nat>, k: nat)
    requires k <= |p| && k <= |q| && k < |b| && k < |c| && LinesTo(p, text, b, k)
    requires (forall i :: 0 <= i < k ==> p[i] == q[i]) && forall i :: 0 <= i <= k ==> b[i] == c[i]
    ensures LinesTo(q, text, c, k)
  {
    if k > 0 {
      LinesStay(p, q, text, b, c, k - 1);
    }
  }

  predicate LinesAre(p: seq<Row>, text: seq<BaseChar>, b: seq<nat>, n: nat)
    requires n <= |text|
  {
    |p| == |b| > 0 && LinesTo(p, text, b, |b| - 1) && LineIs(p[|b| - 1], text, b[|b| - 1], n, false)
  }

  /** The cursor stands after the text of the last line, which may be full. */
  predicate CursorAfter(t: Setting, width: nat, cols: nat) {
    && t.pending == (width >= cols)
    && t.col == if width < cols then width else cols - 1
  }

  predicate BrokenAt(t: Setting, text: seq<BaseChar>, b: seq<nat>, n: nat, cols: nat)
    requires n <= |text|
  {
    LinesAre(t.p, text, b, n) && CursorAfter(t, Widths(text, b[|b| - 1], n), cols)
  }

  lemma BreakLines(t: Setting, text: seq<BaseChar>, b: seq<nat>, n: nat, cols: nat)
    requires n <= |text| && cols > 0 && BrokenAt(t, text, b, n, cols)
    ensures BrokenAt(Broken(t, cols), text, b + [n], n, cols)
  {
    BreakRows(t.p, Wrapped(t.p, cols), text, b, b + [n], n, cols, |b|);
  }

  lemma BreakRows(p: seq<Row>, q: seq<Row>, text: seq<BaseChar>, b: seq<nat>, c: seq<nat>, n: nat, cols: nat, k: nat)
    requires n <= |text| && cols > 0 && LinesAre(p, text, b, n) && k == |b|
    requires q == Wrapped(p, cols) && c == b + [n]
    ensures LinesAre(q, text, c, n)
  {
    var m := k - 1;
    BreakParts(p, q, b, c, n, cols, m, k);
    LinesStay(p, q, text, b, c, m);
    BrokenRow(p[m], text, b[m], n, cols);
    LinesOneMore(q, text, c, m, k);
  }

  lemma BreakParts(p: seq<Row>, q: seq<Row>, b: seq<nat>, c: seq<nat>, n: nat, cols: nat, m: nat, k: nat)
    requires k == m + 1 == |p| == |b| && q == Wrapped(p, cols) && c == b + [n]
    ensures |q| == |c| == k + 1 && (forall i :: 0 <= i < m ==> p[i] == q[i]) && forall i :: 0 <= i <= m ==> b[i] == c[i]
    ensures q[m] == p[m].(isWrapped := true) && q[k] == BlankRow(cols) && c[k] == n
  {
  }

  lemma LinesOneMore(p: seq<Row>, text: seq<BaseChar>, b: seq<nat>, m: nat, k: nat)
    requires k == m + 1 <= |p| && k < |b| && LinesTo(p, text, b, m)
    requires b[k] <= |text| && LineIs(p[m], text, b[m], b[k], true)
    ensures LinesTo(p, text, b, k)
  {
  }

  lemma BrokenRow(row: Row, text: seq<BaseChar>, from: nat, n: nat, cols: nat)
    requires n <= |text| && LineIs(row, text, from, n, false)
    ensures LineIs(row.(isWrapped := true), text, from, n, true)
    ensures LineIs(BlankRow(cols), text, n, n, false)
  {
    BlankText(Blanks(cols), 0, cols);
  }

  lemma PutOnLine(o: Setting, text: seq<BaseChar>, b: seq<nat>, n: nat, next: nat, cols: nat)
    requires next == n + 1 <= |text| && SettingOk(o, cols) && !o.pending && BrokenAt(o, text, b, n, cols)
    requires b[|b| - 1] <= n
    ensures BrokenAt(Inked(o, cols, text[n]), text, b, next, cols)
  {
    var cells, k := PutCells(LastCells(o), o.col, Ink(text[n])), |b| - 1;
    assert LastCells(o) == o.p[k].cells && WithLast(o.p, cells) == o.p[k := o.p[k].(cells := cells)];
    InkedText(o, cols, text[n]);
    WidthsNext(text, b[k], n, next);
    InkedLine(o.p, WithLast(o.p, cells), cells, text, b, n, next, k);
  }

  lemma InkedText(o: Setting, cols: nat, c: BaseChar)
    requires SettingOk(o, cols) && !o.pending
    ensures var cells := PutCells(LastCells(o), o.col, Ink(c));
      RowText(cells, |cells|) == RowText(LastCells(o), |LastCells(o)|) + [c.code]
  {
    InkText(LastCells(o), o.col, c);
  }

  lemma WidthsNext(text: seq<BaseChar>, from: nat, n: nat, next: nat)
    requires from <= n && next == n + 1 <= |text|
    ensures Widths(text, from, next) == Widths(text, from, n) + text[n].width
  {
  }

  lemma InkedLine(p: seq<Row>, q: seq<Row>, cells: seq<Cell>, text: seq<BaseChar>, b: seq<nat>,
                  n: nat, next: nat, k: nat)
    requires next == n + 1 <= |text| && LinesAre(p, text, b, n) && k == |b| - 1 && b[k] <= n
    requires q == p[k := p[k].(cells := cells)]
    requires RowText(cells, |cells|) == RowText(p[k].cells, |p[k].cells|) + [text[n].code]
    ensures LinesAre(q, text, b, next)
  {
    LinesStay(p, q, text, b, b, k);
    PartNext(text, b[k], n, next);
    InkedRow(p[k], cells, text, b[k], n, next);
  }

  lemma PartNext(text: seq<BaseChar>, from: nat, n: nat, next: nat)
    requires from <= n && next == n + 1 <= |text|
    ensures Part(text, from, next) == Part(text, from, n) + [text[n].code]
  {
  }

  lemma InkedRow(row: Row, cells: seq<Cell>, text: seq<BaseChar>, from: nat, n: nat, next: nat)
    requires next == n + 1 <= |text| && LineIs(row, text, from, n, false)
    requires RowText(cells, |cells|) == RowText(row.cells, |row.cells|) + [text[n].code]
    requires Part(text, from, next) == Part(text, from, n) + [text[n].code]
    ensures LineIs(row.(cells := cells), text, from, next, false)
  {
  }

  /** Every text of narrow and wide characters on a screen of any width: the lines are those that
      the starts cut the text into, and the cursor stands after the last. */
  lemma {:induction false} LinesBreakAt(text: seq<BaseChar>, n: nat, cols: nat)
    requires n <= |text| && cols > 0
    ensures BrokenAt(Typeset(text, n, cols), text, Starts(text, n, cols), n, cols)
  {
    if n == 0 {
      BlankText(Blanks(cols), 0, cols);
    } else {
      var i := n - 1;
      LinesBreakAt(text, i, cols);
      OneMoreCharacter(Typeset(text, i, cols), text, Starts(text, i, cols), i, n, cols);
      TypesetNext(text, i, n, cols);
      StartsNext(text, i, n, cols);
    }
  }

  function Moved(text: seq<BaseChar>, b: seq<nat>, i: nat, cols: nat): (r: seq<nat>)
    requires i < |text| && b != []
    ensures r != []
  {
    var first := b[|b| - 1];
    var moved := if first < i && Widths(text, first, i + 1) > cols then b + [i] else b;
    if text[i].width > cols then moved + [i] else moved
  }

  lemma StartsNext(text: seq<BaseChar>, i: nat, n: nat, cols: nat)
    requires n == i + 1 <= |text|
    ensures Starts(text, n, cols) == Moved(text, Starts(text, i, cols), i, cols)
  {
  }

  lemma {:induction false} WidthsGrow(text: seq<BaseChar>, from: nat, to: nat)
    requires to <= |text|
    ensures from < to ==> Widths(text, from, to) > 0
  {
    if from < to {
      WidthsGrow(text, from, to - 1);
    }
  }

  lemma OneMoreCharacter(t: Setting, text: seq<BaseChar>, b: seq<nat>, i: nat, n: nat, cols: nat)
    requires n == i + 1 <= |text| && SettingOk(t, cols) && BrokenAt(t, text, b, i, cols) && b[|b| - 1] <= i
    ensures BrokenAt(Typed(t, cols, text[i]), text, Moved(text, b, i, cols), n, cols)
  {
    var c := if t.pending then b + [i] else b;
    OpenedLines(t, text, b, i, cols);
    FittedLines(Opened(t, cols), text, c, i, n, cols);
    MovedIs(text, b, i, n, cols, t.pending, Opened(t, cols).col);
  }

  lemma OpenedLines(t: Setting, text: seq<BaseChar>, b: seq<nat>, i: nat, cols: nat)
    requires i <= |text| && SettingOk(t, cols) && BrokenAt(t, text, b, i, cols) && b[|b| - 1] <= i
    ensures var c := if t.pending then b + [i] else b;
      BrokenAt(Opened(t, cols), text, c, i, cols) && c[|c| - 1] <= i
    ensures Opened(t, cols).col == if t.pending then 0 else Widths(text, b[|b| - 1], i)
  {
    BreakLines(t, text, b, i, cols);
  }

  lemma FittedLines(o: Setting, text: seq<BaseChar>, c: seq<nat>, i: nat, n: nat, cols: nat)
    requires n == i + 1 <= |text| && SettingOk(o, cols) && !o.pending
    requires BrokenAt(o, text, c, i, cols) && c[|c| - 1] <= i
    ensures var d := if o.col + text[i].width > cols then c + [i] else c;
      BrokenAt(Inked(Fitted(o, cols, text[i].width), cols, text[i]), text, d, n, cols)
  {
    if o.col + text[i].width > cols {
      BreakLines(o, text, c, i, cols);
      PutOnLine(Broken(o, cols), text, c + [i], i, n, cols);
    } else {
      PutOnLine(o, text, c, i, n, cols);
    }
  }

  /** The line breaks of the terminal are those of the greedy cut. */
  lemma MovedIs(text: seq<BaseChar>, b: seq<nat>, i: nat, n: nat, cols: nat, full: bool, col: nat)
    requires n == i + 1 <= |text| && b != [] && b[|b| - 1] <= i && cols > 0
    requires full == (Widths(text, b[|b| - 1], i) >= cols)
    requires col == if full then 0 else Widths(text, b[|b| - 1], i)
    ensures var c := if full then b + [i] else b;
      Moved(text, b, i, cols) == if col + text[i].width > cols then c + [i] else c
  {
    WidthsGrow(text, b[|b| - 1], i);
    assert Widths(text, b[|b| - 1], n) == Widths(text, b[|b| - 1], i) + text[i].width;
  }
}
