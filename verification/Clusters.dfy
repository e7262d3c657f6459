/** Characters that change the one before them: joiners, variation selectors and combining
    marks, each with the exact condition under which it reaches that character. */
module Clusters {
  import opened Cells
  import opened TerminalSpec

  const ZWJ: Char := Char(0x200D, 0)
  const TEXT_SELECTOR: Char := Char(0xFE0E, 0)
  const EMOJI_SELECTOR: Char := Char(0xFE0F, 0)

  predicate Base(c: Char) { !c.IsControl() && 1 <= c.width <= 2 }

  predicate Mark(c: Char) { !c.IsControl() && c.width == 0 && !c.IsVariationSelector() && !c.IsJoiner() }

  /** What of a terminal printing shows: the rows, the cursor and the pending wrap. */
  predicate SameView(a: State, b: State) {
    a.screen == b.screen && a.history == b.history && a.cursor == b.cursor && a.pendingWrap == b.pendingWrap
  }

  // ---- Where a character lands ----------------------------------------------------------

  /** The terminal after a pending wrap was carried out. */
  function Resumed(s: State): State { if s.pendingWrap then LineWrap(s) else s }

  /** The cursor does not stand after a joiner when the next character is printed. */
  predicate NotAfterJoiner(s: State) {
    var p := Resumed(s);
    var b := ClusterBase(p.Row().cells, p.cursor.col);
    b.Some? ==> !p.Row().cells[b.value].IsJoiner()
  }

  /** The terminal right before `b` is put at its cursor. */
  function Landing(s: State, width: nat): State { Fit(Resumed(s), width) }

  lemma Lands(s: State, b: Char)
    requires Base(b) && NotAfterJoiner(s)
    ensures var n := Landing(s, b.width);
      && WriteChar(s, b) == PutChar(n, b) && !n.pendingWrap && n.style == s.style && n.modes == s.modes
      && n.cols == s.cols && n.rows == s.rows
      && (n.cursor.col + b.width <= s.cols || n.cursor.col == 0)
  {
    var p := Resumed(s);
    assert !p.pendingWrap && WriteChar(s, b) == PrintAt(p, b);
    FitsOrStarts(p, b.width);
  }

  lemma FitsOrStarts(p: State, width: nat)
    requires !p.pendingWrap
    ensures var n := Fit(p, width);
      && !n.pendingWrap && n.style == p.style && n.modes == p.modes
      && n.cols == p.cols && n.rows == p.rows
      && (n.cursor.col + width <= p.cols || n.cursor.col == 0)
  {
  }

  /** The screen with the cells of the cursor's row replaced. */
  function WithCells(s: State, cells: seq<Cell>): seq<Row> {
    s.screen[s.cursor.row := s.Row().(cells := cells)]
  }

  function Put(n: State, b: Char): (cells: seq<Cell>)
    requires Base(b)
    ensures |cells| == n.cols && NormalCells(cells) && cells[n.cursor.col] == Printed(b.code, n.style, 0, b.width)
  {
    PutCells(n.Row().cells, n.cursor.col, Printed(b.code, n.style, 0, b.width))
  }

  lemma AfterPut(n: State, b: Char)
    requires Base(b)
    ensures var r, end := PutChar(n, b), n.cursor.col + b.width;
      && r.screen == WithCells(n, Put(n, b)) && r.Row().cells == Put(n, b) && r.history == n.history
      && r.cursor == n.cursor.(col := if end < n.cols then end else n.cols - 1)
      && r.pendingWrap == (end >= n.cols && n.modes.wrap)
      && r.style == n.style && r.modes == n.modes && r.cols == n.cols
  {
  }

  /** With space after it, the wider character lands where the narrower one does. */
  lemma SameLanding(s: State, a: nat, w: nat)
    requires 1 <= a <= w <= 2 && (Landing(s, a).cursor.col + a < s.cols || a == w)
    ensures Landing(s, w) == Landing(s, a) && (a < w ==> Landing(s, a).cursor.col + w <= s.cols)
  {
  }

  // ---- Joiners -----------------------------------------------------------------------------

  lemma AfterJoiner(t: State, k: nat)
    requires ClusterBase(t.Row().cells, t.cursor.col) == Some(k) && k < t.cols && !t.Row().cells[k].IsEmpty()
    ensures var u, cells := WriteChar(t, ZWJ), t.Row().cells;
      && u.screen == WithCells(t, cells[k := cells[k].WithJoiner()])
      && u.Row().cells == cells[k := cells[k].WithJoiner()]
      && u.cursor == t.cursor && u.pendingWrap == t.pendingWrap && u.style == t.style && u.modes == t.modes
      && u.history == t.history
  {
    assert t.cursor.col > 0;
    assert WriteChar(t, ZWJ) == ChangeBase(t, ZWJ, k);
  }

  /** The next character will be absorbed by the cluster at `k` of the cursor's row. */
  predicate Armed(u: State, k: nat) {
    && !u.pendingWrap && k < u.cols && ClusterBase(u.Row().cells, u.cursor.col) == Some(k)
    && u.Row().cells[k].IsJoiner() && !u.Row().cells[k].IsEmpty()
  }

  /** The joiner finds the character it follows: there is space after it, or the line does
      not wrap and the character is wide. */
  predicate Reached(n: State, width: nat) {
    n.cursor.col + width < n.cols || (!n.modes.wrap && width == 2 && n.cols >= 2)
  }

  lemma BaseIsFound(n: State, b: Char)
    requires Base(b) && (n.cursor.col + b.width <= n.cols || n.cursor.col == 0)
    ensures var t := PutChar(n, b);
      ClusterBase(t.Row().cells, t.cursor.col) == Some(n.cursor.col)
      <==> n.cursor.col + b.width < n.cols || (b.width == 2 && n.cols >= 2)
  {
    var c, k := Put(n, b), n.cursor.col;
    AfterPut(n, b);
    if b.width == 2 && k + 2 < n.cols {
      assert c[k + 1].IsWideContinuation();
      assert ClusterBase(c, k + 2) == ClusterBase(c, k + 1);
    }
  }

  lemma JoinerIsFound(cells: seq<Cell>, k: nat, col: nat, base: Cell)
    requires k < col <= |cells| && ClusterBase(cells, col) == Some(k) && !base.IsWideContinuation()
    ensures ClusterBase(cells[k := base], col) == Some(k)
  {
    if col > k + 1 {
      JoinerIsFound(cells, k, col - 1, base);
    }
  }

  lemma AfterBaseAndJoiner(n: State, b: Char)
    requires Base(b) && Reached(n, b.width) && (n.cursor.col + b.width <= n.cols || n.cursor.col == 0)
    ensures var u, k := WriteChar(PutChar(n, b), ZWJ), n.cursor.col;
      var cells := Put(n, b)[k := Printed(b.code, n.style, 0, b.width).WithJoiner()];
      && Armed(u, k) && u.screen == WithCells(n, cells) && u.Row().cells == cells && u.history == n.history
      && u.cursor.row == n.cursor.row && u.cursor.isHidden == n.cursor.isHidden
      && u.style == n.style && u.modes == n.modes
  {
    var t, k := PutChar(n, b), n.cursor.col;
    AfterPut(n, b);
    BaseIsFound(n, b);
    AfterJoiner(t, k);
    JoinerIsFound(Put(n, b), k, t.cursor.col, Put(n, b)[k].WithJoiner());
  }

  /** Beyond the margin a joiner leaves the cursor and the pending wrap alone. */
  lemma JoinerKeeps(t: State)
    ensures var u := WriteChar(t, ZWJ);
      && u.cursor == t.cursor && u.pendingWrap == t.pendingWrap && u.style == t.style && u.modes == t.modes
      && u.cols == t.cols && u.rows == t.rows && u.history == t.history
  {
  }

  /** A joiner after a character arms its cluster exactly if it is reached. */
  lemma JoinerArmsIff(s: State, b: Char)
    requires Base(b) && NotAfterJoiner(s)
    ensures var n := Landing(s, b.width);
      Armed(WriteChar(WriteChar(s, b), ZWJ), n.cursor.col) <==> Reached(n, b.width)
  {
    var n := Landing(s, b.width);
    Lands(s, b);
    AfterPut(n, b);
    if Reached(n, b.width) {
      AfterBaseAndJoiner(n, b);
    } else {
      JoinerKeeps(PutChar(n, b));
    }
  }

  // ---- Absorbing the next character ------------------------------------------------------------

  lemma AfterMerge(u: State, c: Char, k: nat)
    requires Base(c) && Armed(u, k) && u.Row().cells[k].flags == CLUSTER_JOINER && 1 <= u.Row().cells[k].width <= 2
    ensures var r, cells := WriteChar(u, c), u.Row().cells;
      var w := ClusterWidth(cells[k].width, c.width);
      var base := Printed(cells[k].ch, u.style, 0, w);
      && r.screen == WithCells(u, GrowCluster(cells, k, base, w == 2 && cells[k].width < 2))
      && r.cursor == u.cursor.(col := if k + w < u.cols then k + w else u.cols - 1)
      && r.pendingWrap == (k + w >= u.cols && u.modes.wrap) && r.history == u.history
  {
    assert WriteChar(u, c) == MergeCluster(u, k, c.width);
  }

  /** A base that was flagged, and unflagged and widened again, leaves what the wider one
      alone leaves. */
  lemma MergedCells(cells: seq<Cell>, k: nat, first: Cell, w: u8)
    requires k < |cells| && NormalCells(cells) && !first.IsEmpty() && first.flags == 0 && 1 <= first.width <= w <= 2
    requires k + w <= |cells| || first.width == w
    ensures var joined := PutCells(cells, k, first)[k := first.WithJoiner()];
      GrowCluster(joined, k, first.(width := w), w == 2 && first.width < 2) == PutCells(cells, k, first.(width := w))
  {
    var joined := PutCells(cells, k, first)[k := first.WithJoiner()];
    assert Continuation(first.WithJoiner()) == Continuation(first.(width := w)) == Continuation(first);
    assert first.width == w ==> joined[k := first] == PutCells(cells, k, first);
    assert w == 1 ==> joined[k := first] == cells[k := first];
  }

  lemma RowReplaced(s: State, u: State, a: seq<Cell>, b: seq<Cell>)
    requires u.cursor.row == s.cursor.row && u.screen == WithCells(s, a)
    ensures WithCells(u, b) == WithCells(s, b)
  {
  }

  function Three(s: State, b: Char, c: Char): State { WriteChar(WriteChar(WriteChar(s, b), ZWJ), c) }

  /** The character that has the code of the first and the wider width of both. */
  function Joined(b: Char, c: Char): (j: Char)
    requires Base(b) && Base(c)
    ensures Base(j) && j.code == b.code && b.width <= j.width && c.width <= j.width
  {
    Char(b.code, if b.width >= c.width then b.width else c.width)
  }

  lemma AfterThree(n: State, b: Char, c: Char, w: u8)
    requires Base(b) && Base(c) && Reached(n, b.width) && (n.cursor.col + b.width <= n.cols || n.cursor.col == 0)
    requires w == Joined(b, c).width
    ensures var r, end := WriteChar(WriteChar(PutChar(n, b), ZWJ), c), n.cursor.col + w;
      && r.screen == WithCells(n, Put(n, Joined(b, c))) && r.history == n.history
      && r.cursor == n.cursor.(col := if end < n.cols then end else n.cols - 1)
      && r.pendingWrap == (end >= n.cols && n.modes.wrap)
  {
    var u, k, first := WriteChar(PutChar(n, b), ZWJ), n.cursor.col, Printed(b.code, n.style, 0, b.width);
    AfterBaseAndJoiner(n, b);
    assert u.Row().cells[k] == first.WithJoiner() == first.(flags := CLUSTER_JOINER);
    AfterMerge(u, c, k);
    MergedCells(n.Row().cells, k, first, w);
    RowReplaced(n, u, u.Row().cells, Put(n, Joined(b, c)));
  }

  lemma AfterCluster(n: State, b: Char, c: Char)
    requires Base(b) && Base(c) && Reached(n, b.width) && (n.cursor.col + b.width <= n.cols || n.cursor.col == 0)
    ensures SameView(WriteChar(WriteChar(PutChar(n, b), ZWJ), c), PutChar(n, Joined(b, c)))
  {
    AfterThree(n, b, c, Joined(b, c).width);
    AfterPut(n, Joined(b, c));
  }

  /** A character, a joiner and another character are one cluster wherever the joiner is
      reached: they leave what one character of the wider width leaves. */
  lemma ReachedJoins(s: State, b: Char, c: Char)
    requires Base(b) && Base(c) && NotAfterJoiner(s) && Reached(Landing(s, b.width), b.width)
    ensures SameView(Three(s, b, c), WriteChar(s, Joined(b, c)))
  {
    Lands(s, b);
    Lands(s, Joined(b, c));
    SameLanding(s, b.width, Joined(b, c).width);
    AfterCluster(Landing(s, b.width), b, c);
  }

  // ---- At the margin, with autowrap ---------------------------------------------------------------

  /** With the wrap pending the joiner comes too late: the second character goes to the
      start of a next row, be it a new one. */
  lemma MarginPutsBelow(n: State, b: Char, c: Char)
    requires Base(b) && Base(c) && n.modes.wrap && !Reached(n, b.width)
    ensures var r, l := WriteChar(WriteChar(PutChar(n, b), ZWJ), c), LineWrap(WriteChar(PutChar(n, b), ZWJ));
      && r == PutChar(Fit(l, c.width), c) && l.cursor.col == 0
      && l.cursor.row == (if n.cursor.row + 1 < n.rows then n.cursor.row + 1 else n.cursor.row)
      && r.Row().cells[0].ch == c.code
      && r.cursor.row >= l.cursor.row
      && (c.width < n.cols ==> r.cursor.row == l.cursor.row && !r.pendingWrap)
  {
    AfterPut(n, b);
    JoinerKeeps(PutChar(n, b));
    var u := WriteChar(PutChar(n, b), ZWJ);
    var l := LineWrap(u);
    PrintsAtStart(l, c);
    assert WriteChar(u, c) == PrintAt(l, c);
    AfterPut(Fit(l, c.width), c);
  }

  lemma PrintsAtStart(l: State, c: Char)
    requires Base(c) && l.cursor.col == 0 && l.modes.wrap
    ensures PrintAt(l, c) == PutChar(Fit(l, c.width), c)
    ensures Fit(l, c.width).cursor.col == 0 && Fit(l, c.width).cursor.row >= l.cursor.row
    ensures c.width <= l.cols ==> Fit(l, c.width) == l
  {
  }

  /** Where the wider character lands if the narrower one lands at the margin. */
  lemma MarginLanding(s: State, w: nat)
    requires s.modes.wrap && 1 <= w <= 2 && Landing(s, 1).cursor.col + 1 >= s.cols
    ensures Landing(s, 1).cursor.col == s.cols - 1
    ensures w == 2 ==> Landing(s, 2).cursor.col == 0
  {
  }

  lemma SplitsAtTheMargin(s: State, b: Char, c: Char)
    requires Base(b) && Base(c) && b.code != c.code && NotAfterJoiner(s) && s.modes.wrap
    requires Landing(s, b.width).cursor.col + b.width >= s.cols
    ensures !SameView(Three(s, b, c), WriteChar(s, Joined(b, c)))
  {
    var n, j := Landing(s, b.width), Joined(b, c);
    var m := Landing(s, j.width);
    Lands(s, b);
    Lands(s, j);
    MarginPutsBelow(n, b, c);
    AfterPut(m, j);
    if j.width == b.width {
      assert c.width >= s.cols ==> m.cursor.col == 0;
    } else {
      MarginLanding(s, 2);
    }
    var three, one := Three(s, b, c), WriteChar(s, j);
    assert one.cursor.row == three.cursor.row && one.pendingWrap == three.pendingWrap ==>
        one.Row().cells[0].ch == b.code;
  }

  /** With autowrap, two different characters with a joiner between them leave what one
      character leaves exactly if there is space after the first where it lands. */
  lemma ClusterJoinsIff(s: State, b: Char, c: Char)
    requires Base(b) && Base(c) && b.code != c.code && NotAfterJoiner(s) && s.modes.wrap
    ensures SameView(Three(s, b, c), WriteChar(s, Joined(b, c)))
       <==> Landing(s, b.width).cursor.col + b.width < s.cols
  {
    if Landing(s, b.width).cursor.col + b.width < s.cols {
      ReachedJoins(s, b, c);
    } else {
      SplitsAtTheMargin(s, b, c);
    }
  }

  // ---- At the margin, without autowrap --------------------------------------------------------------

  /** The base of the cluster before the last column, if it has one that is not blank. */
  function BeforeLast(n: State): (p: Option<nat>)
    ensures p.Some? ==> p.value + 1 < n.cols && !n.Row().cells[p.value].IsEmpty()
  {
    var p := ClusterBase(n.Row().cells, n.cols - 1);
    if p.Some? && n.Row().cells[p.value].IsEmpty() then None else p
  }

  lemma {:induction false} BaseUnchanged(a: seq<Cell>, b: seq<Cell>, col: nat)
    requires col <= |a| && col <= |b| && forall i :: 0 <= i < col ==> a[i] == b[i]
    ensures ClusterBase(a, col) == ClusterBase(b, col)
  {
    if col > 0 {
      BaseUnchanged(a, b, col - 1);
    }
  }

  /** `r`, which `n` became, has the second character instead of the first in its last column,
      as if there were no joiner; or else the cluster before absorbed it, and stands over the first
      character too if it grew and adjoins it. */
  predicate Missed(n: State, r: State, b: Char, c: Char)
    requires Base(b)
  {
    var p := BeforeLast(n);
    r.cols == n.cols
    && if p.None? then r == WriteChar(PutChar(n, b), c) && r.Row().cells[n.cols - 1].ch == c.code
       else
         var before, cells := n.Row().cells[p.value], Put(n, b);
         var w := ClusterWidth(before.width, c.width);
         var grew, base := w == 2 && before.width < 2, Printed(before.ch, n.style, before.flags, w);
         && cells[p.value] == before && r.Row().cells == GrowCluster(cells, p.value, base, grew)
         && r.Row().cells[n.cols - 1].ch == if grew && p.value + 2 == n.cols then before.ch else b.code
  }

  /** On a line that does not wrap, a narrow character in the last column is missed by the
      joiner: it goes to the cluster before, which then absorbs the second character; with no
      cluster there the second character replaces the first. */
  lemma MissedWithoutWrap(n: State, b: Char, c: Char)
    requires Base(b) && Base(c) && b.width == 1 && !n.modes.wrap && !n.pendingWrap && n.cursor.col == n.cols - 1
    requires BeforeLast(n).Some? ==> !n.Row().cells[BeforeLast(n).value].IsJoiner()
    ensures Missed(n, WriteChar(WriteChar(PutChar(n, b), ZWJ), c), b, c)
  {
    var t, p := PutChar(n, b), BeforeLast(n);
    AfterPut(n, b);
    BaseUnchanged(n.Row().cells, Put(n, b), n.cols - 1);
    if p.None? {
      BlankBefore(t, c);
    } else {
      AfterJoiner(t, p.value);
      ArmedBefore(WriteChar(t, ZWJ), t, p.value, c);
    }
  }

  lemma BlankBefore(t: State, c: Char)
    requires Base(c) && !t.modes.wrap && !t.pendingWrap && t.cursor.col == t.cols - 1 && BeforeLast(t).None?
    ensures WriteChar(t, ZWJ) == t
    ensures WriteChar(t, c).Row().cells[t.cols - 1].ch == c.code
  {
    var f := Fit(t, c.width);
    assert WriteChar(t, c) == PutChar(f, c);
    AfterPut(f, c);
  }

  lemma ArmedBefore(u: State, t: State, k: nat, c: Char)
    requires Base(c) && k + 1 < t.cols && u.cols == t.cols && u.cursor == t.cursor && t.cursor.col == t.cols - 1
    requires !u.pendingWrap && ClusterBase(t.Row().cells, t.cursor.col) == Some(k)
    requires !t.Row().cells[k].IsEmpty() && !t.Row().cells[k].IsJoiner()
    requires u.Row().cells == t.Row().cells[k := t.Row().cells[k].WithJoiner()]
    ensures var before := t.Row().cells[k];
      var w := ClusterWidth(before.width, c.width);
      WriteChar(u, c).Row().cells
        == GrowCluster(t.Row().cells, k, Printed(before.ch, u.style, before.flags, w), w == 2 && before.width < 2)
  {
    var before := t.Row().cells[k];
    Flagged(before);
    JoinerIsFound(t.Row().cells, k, t.cursor.col, before.WithJoiner());
    assert WriteChar(u, c) == MergeCluster(u, k, c.width);
  }

  lemma Flagged(c: Cell)
    requires !c.IsJoiner()
    ensures c.WithJoiner().IsJoiner() && c.WithJoiner().WithoutJoiner() == c
    ensures c.WithJoiner().IsWideContinuation() == c.IsWideContinuation()
  {
  }

  /** The same for a terminal in any state, and whatever was printed last. */
  lemma MissedJoiner(s: State, b: Char, c: Char)
    requires Base(b) && Base(c) && NotAfterJoiner(s) && !s.modes.wrap && b.width == 1
    requires Landing(s, 1).cursor.col == s.cols - 1
    ensures Missed(Landing(s, 1), Three(s, b, c), b, c)
  {
    Lands(s, b);
    assert Landing(s, 1) == Resumed(s);
    MissedWithoutWrap(Landing(s, 1), b, c);
  }

  /** The rows alone need not tell: text that is written over itself leaves the same rows
      whether the characters joined or not. */
  lemma RowsMayAgree(s: State, b: Char, c: Char)
    requires Base(b) && Base(c) && b.width == c.width == 1 && NotAfterJoiner(s) && !s.pendingWrap && s.modes.wrap
    requires s.cursor.col == s.cols - 1 && s.cursor.row + 1 < s.rows && BeforeLast(s).None?
    requires s.Row().isWrapped && s.Row().cells[s.cols - 1] == Printed(b.code, s.style, 0, 1)
    requires s.screen[s.cursor.row + 1].cells[0] == Printed(c.code, s.style, 0, 1)
    ensures Three(s, b, c).screen == s.screen == WriteChar(s, Joined(b, c)).screen
  {
    var t := PutChar(s, b);
    Lands(s, b);
    AfterPut(s, b);
    Rewritten(s, b);
    BaseUnchanged(s.Row().cells, t.Row().cells, s.cols - 1);
    assert WriteChar(t, ZWJ) == t;
    RewrittenBelow(t, c);
  }

  lemma RewrittenBelow(t: State, c: Char)
    requires Base(c) && c.width == 1 && t.pendingWrap && t.modes.wrap && t.cursor.row + 1 < t.rows
    requires t.Row().isWrapped && t.screen[t.cursor.row + 1].cells[0] == Printed(c.code, t.style, 0, 1)
    ensures WriteChar(t, c).screen == t.screen
  {
    var l, row := LineWrap(t), t.cursor.row;
    assert t.screen[row := t.screen[row].(isWrapped := true)] == t.screen == l.screen;
    PrintsAtStart(l, c);
    Rewritten(l, c);
  }

  lemma Rewritten(l: State, c: Char)
    requires Base(c) && c.width == 1 && l.Row().cells[l.cursor.col] == Printed(c.code, l.style, 0, 1)
    ensures PutChar(l, c).screen == l.screen
  {
    AfterPut(l, c);
    assert Put(l, c) == l.Row().cells && WithCells(l, l.Row().cells) == l.screen;
  }

  // ---- Variation selectors ---------------------------------------------------------------------------

  lemma AfterSelector(t: State, c: Char, k: nat)
    requires c == EMOJI_SELECTOR || c == TEXT_SELECTOR
    requires ClusterBase(t.Row().cells, t.cursor.col) == Some(k) && k + 1 < t.cols && !t.Row().cells[k].IsEmpty()
    ensures var r, cells := WriteChar(t, c), t.Row().cells;
      var w := ClusterWidth(if c == EMOJI_SELECTOR then 2 else 1, cells[k].width);
      var grew := w == 2 && cells[k].width < 2;
      && r.screen == WithCells(t, GrowCluster(cells, k, cells[k].(width := w), grew)) && r.history == t.history
      && r.cursor == (if grew then t.cursor.(col := if k + 2 < t.cols then k + 2 else t.cols - 1) else t.cursor)
      && r.pendingWrap == (if grew then k + 2 >= t.cols && t.modes.wrap else t.pendingWrap)
  {
    assert t.cursor.col > 0;
    assert WriteChar(t, c) == ChangeBase(t, c, k);
  }

  lemma WidenedCells(cells: seq<Cell>, k: nat, first: Cell)
    requires NormalCells(cells) && !first.IsEmpty() && first.flags == 0 && 1 <= first.width <= 2 && k + 1 < |cells|
    ensures GrowCluster(PutCells(cells, k, first), k, first.(width := 2), first.width < 2)
         == PutCells(cells, k, first.(width := 2))
  {
    assert Continuation(first) == Continuation(first.(width := 2));
    assert first.width == 2 ==> PutCells(cells, k, first)[k := first] == PutCells(cells, k, first);
  }

  lemma SelectorAfterPut(n: State, b: Char)
    requires Base(b) && (n.cursor.col + b.width <= n.cols || n.cursor.col == 0)
    requires n.cursor.col + b.width < n.cols || (b.width == 2 && n.cols >= 2)
    ensures SameView(WriteChar(PutChar(n, b), EMOJI_SELECTOR), PutChar(n, Char(b.code, 2)))
  {
    var t, k, first := PutChar(n, b), n.cursor.col, Printed(b.code, n.style, 0, b.width);
    AfterPut(n, b);
    BaseIsFound(n, b);
    AfterSelector(t, EMOJI_SELECTOR, k);
    WidenedCells(n.Row().cells, k, first);
    RowReplaced(n, t, Put(n, b), Put(n, Char(b.code, 2)));
    AfterPut(n, Char(b.code, 2));
  }

  /** The emoji selector is reached by the character it follows if that is wide, or has space
      after it; then both leave what the wide character leaves. */
  lemma SelectorWidens(s: State, b: Char)
    requires Base(b) && NotAfterJoiner(s)
    requires Landing(s, b.width).cursor.col + b.width < s.cols || b.width == 2
    ensures SameView(WriteChar(WriteChar(s, b), EMOJI_SELECTOR), WriteChar(s, Char(b.code, 2)))
  {
    var n := Landing(s, b.width);
    Lands(s, b);
    Lands(s, Char(b.code, 2));
    SameLanding(s, b.width, 2);
    if n.cols >= 2 {
      SelectorAfterPut(n, b);
    } else {
      AfterPut(n, b);
      assert WriteChar(PutChar(n, b), EMOJI_SELECTOR) == PutChar(n, b);
    }
  }

  /** A narrow character in the last column is missed: the selector widens the cluster before
      it, and where that is in the next to last column the character is overwritten. */
  lemma SelectorAtTheMargin(n: State, b: Char)
    requires Base(b) && b.width == 1 && n.cursor.col == n.cols - 1
    ensures var t, e, p := PutChar(n, b), WriteChar(PutChar(n, b), EMOJI_SELECTOR), BeforeLast(n);
      && e.cursor.row == n.cursor.row
      && if p.None? then e == t
         else
           var before := n.Row().cells[p.value];
           && e.Row().cells[p.value].width == 2 && e.Row().cells[p.value].ch == before.ch
           && e.Row().cells[n.cols - 1] ==
                if p.value + 2 == n.cols && before.width < 2 then Continuation(before)
                else Printed(b.code, n.style, 0, 1)
  {
    var t, p := PutChar(n, b), BeforeLast(n);
    AfterPut(n, b);
    BaseUnchanged(n.Row().cells, Put(n, b), n.cols - 1);
    if p.Some? {
      AfterSelector(t, EMOJI_SELECTOR, p.value);
    }
  }

  /** The cell of a character is that of the wide one after the emoji selector exactly if the
      character is wide or has space after it. */
  lemma SelectorReachesIff(s: State, b: Char)
    requires Base(b) && NotAfterJoiner(s)
    ensures var n, e := Landing(s, b.width), WriteChar(WriteChar(s, b), EMOJI_SELECTOR);
      && e.cursor.row == n.cursor.row
      && (e.Row().cells[n.cursor.col] == Printed(b.code, s.style, 0, 2)
          <==> n.cursor.col + b.width < s.cols || b.width == 2)
  {
    var n := Landing(s, b.width);
    Lands(s, b);
    if n.cursor.col + b.width < s.cols || b.width == 2 {
      SelectorWidens(s, b);
      Lands(s, Char(b.code, 2));
      SameLanding(s, b.width, 2);
      AfterPut(n, Char(b.code, 2));
    } else {
      SelectorAtTheMargin(n, b);
    }
  }

  /** The text selector never makes a wide character narrow: it has an effect only on a
      cluster whose base takes neither one column nor two. */
  lemma TextSelectorIff(t: State)
    ensures var b := ClusterBase(t.Row().cells, t.cursor.col);
      SameView(WriteChar(t, TEXT_SELECTOR), t)
      <==> b.None? || t.Row().cells[b.value].IsEmpty() || 1 <= t.Row().cells[b.value].width <= 2
  {
    var b := ClusterBase(t.Row().cells, t.cursor.col);
    if b.Some? && !t.Row().cells[b.value].IsEmpty() {
      var cells, k := t.Row().cells, b.value;
      assert WriteChar(t, TEXT_SELECTOR) == ChangeBase(t, TEXT_SELECTOR, k);
      var w := ClusterWidth(1, cells[k].width);
      var grown := GrowCluster(cells, k, cells[k].(width := w), w == 2 && cells[k].width < 2);
      assert w == cells[k].width ==> grown == cells && WithCells(t, grown) == t.screen;
      assert w != cells[k].width ==> WithCells(t, grown)[t.cursor.row].cells[k] != cells[k];
    }
  }

  // ---- Combining marks ----------------------------------------------------------------------------------

  /** A mark goes into the cursor's cell and does not move the cursor. */
  lemma AfterMark(t: State, m: Char)
    requires Mark(m) && t.cursor.col > 0
    ensures var u := WriteChar(t, m);
      && u.screen == WithCells(t, t.Row().cells[t.cursor.col := Printed(m.code, t.style, COMBINING, 0)])
      && u.Row().cells == t.Row().cells[t.cursor.col := Printed(m.code, t.style, COMBINING, 0)]
      && u.cursor == t.cursor && u.pendingWrap == t.pendingWrap && u.history == t.history
      && u.style == t.style && u.modes == t.modes
  {
  }

  /** The cells of a character survive a combining mark exactly if there is space after it,
      or the screen has one column and marks are dropped. */
  lemma MarkKeepsIff(s: State, b: Char, m: Char)
    requires Base(b) && Mark(m) && NotAfterJoiner(s)
    ensures var n, t := Landing(s, b.width), WriteChar(s, b); var u := WriteChar(t, m);
      && u.cursor == t.cursor
      && ((forall j :: n.cursor.col <= j < n.cursor.col + b.width && j < s.cols ==>
             u.Row().cells[j] == t.Row().cells[j])
          <==> n.cursor.col + b.width < s.cols || s.cols == 1)
  {
    var n := Landing(s, b.width);
    Lands(s, b);
    AfterPut(n, b);
    var t := PutChar(n, b);
    if s.cols == 1 {
      assert WriteChar(t, m) == t;
    } else {
      AfterMark(t, m);
      var last := s.cols - 1;
      assert n.cursor.col + b.width >= s.cols ==> WriteChar(t, m).Row().cells[last].flags == COMBINING;
      assert n.cursor.col + b.width >= s.cols ==> t.Row().cells[last].flags != COMBINING;
    }
  }

  /** The next character that fits the line takes the mark's cell: nothing of the mark is left. */
  lemma MarkIsOverwritten(t: State, m: Char, c: Char)
    requires Mark(m) && Base(c) && NotAfterJoiner(t) && !t.pendingWrap && t.cursor.col + c.width <= t.cols
    ensures SameView(WriteChar(WriteChar(t, m), c), WriteChar(t, c))
  {
    Lands(t, c);
    if t.cursor.col > 0 {
      var u := WriteChar(t, m);
      AfterMark(t, m);
      BaseUnchanged(t.Row().cells, u.Row().cells, t.cursor.col);
      Lands(u, c);
      AfterPut(u, c);
      AfterPut(t, c);
      assert Put(u, c) == Put(t, c);
      RowReplaced(t, u, u.Row().cells, Put(t, c));
    }
  }

  /** The mark would change its cell: the cursor is not in the first column, where marks are
      dropped, and the cell does not hold this very mark already. */
  predicate Marks(t: State, m: Char) {
    t.cursor.col > 0 && t.Row().cells[t.cursor.col] != Printed(m.code, t.style, COMBINING, 0)
  }

  /** The next character goes to a new line. */
  predicate GoesBelow(t: State, width: nat) {
    t.pendingWrap || (t.modes.wrap && t.cursor.col + width > t.cols)
  }

  /** Exactly when anything of a mark is left after the next character: if it changed its cell,
      and that character goes to a new line. */
  lemma MarkSurvivesIff(t: State, m: Char, c: Char)
    requires Mark(m) && Base(c) && NotAfterJoiner(t)
    ensures !SameView(WriteChar(WriteChar(t, m), c), WriteChar(t, c)) <==> Marks(t, m) && GoesBelow(t, c.width)
  {
    if t.cursor.col > 0 {
      AfterMark(t, m);
      if !Marks(t, m) {
        var u := WriteChar(t, m);
        assert u.Row().cells == t.Row().cells && u.screen == t.screen;
        StillNotAfterJoiner(t, u);
        assert SameButDirty(u, t);
        MarkChangesNothing(t, u, c);
      } else if GoesBelow(t, c.width) {
        MarkStaysAbove(t, m, c);
      } else if t.cursor.col + c.width <= t.cols {
        MarkIsOverwritten(t, m, c);
      } else {
        MarkIsPulledOver(t, m, c);
      }
    }
  }

  /** The same terminal but for the dirty bits. */
  predicate SameButDirty(a: State, b: State) { a == b.(dirty := a.dirty) }

  lemma WrapsAlike(a: State, b: State)
    requires SameButDirty(a, b)
    ensures SameButDirty(LineWrap(a), LineWrap(b))
  {
  }

  lemma PutsAlike(a: State, b: State, c: Char)
    requires SameButDirty(a, b) && Base(c)
    ensures SameView(PutChar(a, c), PutChar(b, c))
  {
    AfterPut(a, c);
    AfterPut(b, c);
  }

  lemma MarkChangesNothing(t: State, u: State, c: Char)
    requires Base(c) && NotAfterJoiner(t) && NotAfterJoiner(u) && SameButDirty(u, t)
    ensures SameView(WriteChar(u, c), WriteChar(t, c))
  {
    Lands(t, c);
    Lands(u, c);
    WrapsAlike(u, t);
    var p, q := Resumed(u), Resumed(t);
    WrapsAlike(p, q);
    PutsAlike(Fit(p, c.width), Fit(q, c.width), c);
  }

  /** The row right above the cursor. */
  function Above(n: State): Row
    requires n.cursor.row > 0 || n.history != []
  {
    if n.cursor.row > 0 then n.screen[n.cursor.row - 1] else n.history[|n.history| - 1]
  }

  lemma WrapLeavesAbove(t: State)
    ensures var w := LineWrap(t);
      && (w.cursor.row > 0 || w.history != []) && w.cursor.col == 0 && !w.pendingWrap && w.cols == t.cols
      && Above(w) == t.Row().(isWrapped := true)
  {
  }

  lemma PutKeepsAbove(n: State, c: Char)
    requires Base(c) && (n.cursor.row > 0 || n.history != [])
    ensures var r := PutChar(n, c); r.cursor.row == n.cursor.row && r.history == n.history && Above(r) == Above(n)
  {
    AfterPut(n, c);
  }

  lemma PrintsBelow(t: State, c: Char)
    requires Base(c) && NotAfterJoiner(t) && t.cols >= 2 && GoesBelow(t, c.width)
    ensures WriteChar(t, c) == PutChar(LineWrap(t), c)
  {
    Lands(t, c);
    WrapLeavesAbove(t);
  }

  lemma MarkStaysAbove(t: State, m: Char, c: Char)
    requires Mark(m) && Base(c) && NotAfterJoiner(t) && Marks(t, m) && GoesBelow(t, c.width)
    ensures !SameView(WriteChar(WriteChar(t, m), c), WriteChar(t, c))
  {
    var u := WriteChar(t, m);
    AfterMark(t, m);
    BaseUnchanged(t.Row().cells, u.Row().cells, t.cursor.col);
    StillNotAfterJoiner(t, u);
    PrintsBelow(t, c);
    PrintsBelow(u, c);
    WrapLeavesAbove(t);
    WrapLeavesAbove(u);
    PutKeepsAbove(LineWrap(t), c);
    PutKeepsAbove(LineWrap(u), c);
    assert u.Row().cells != t.Row().cells;
    DifferAbove(PutChar(LineWrap(u), c), PutChar(LineWrap(t), c));
  }

  lemma DifferAbove(a: State, b: State)
    requires (a.cursor.row > 0 || a.history != []) && (b.cursor.row > 0 || b.history != []) && Above(a) != Above(b)
    ensures !SameView(a, b)
  {
  }

  lemma StillNotAfterJoiner(t: State, u: State)
    requires NotAfterJoiner(t) && u.cursor == t.cursor && u.pendingWrap == t.pendingWrap
    requires t.cursor.col < u.cols == t.cols
    requires ClusterBase(u.Row().cells, t.cursor.col) == ClusterBase(t.Row().cells, t.cursor.col)
    requires forall i :: 0 <= i < t.cursor.col ==> u.Row().cells[i] == t.Row().cells[i]
    ensures NotAfterJoiner(u)
  {
    if u.pendingWrap {
      WrapLeavesAbove(u);
    }
  }

  lemma MarkIsPulledOver(t: State, m: Char, c: Char)
    requires Mark(m) && Base(c) && NotAfterJoiner(t) && !t.pendingWrap && !t.modes.wrap
    requires t.cursor.col > 0 && t.cursor.col + c.width > t.cols
    ensures SameView(WriteChar(WriteChar(t, m), c), WriteChar(t, c))
  {
    var u := WriteChar(t, m);
    AfterMark(t, m);
    BaseUnchanged(t.Row().cells, u.Row().cells, t.cursor.col);
    Lands(t, c);
    Lands(u, c);
    var f, g := Landing(t, c.width), Landing(u, c.width);
    AfterPut(f, c);
    AfterPut(g, c);
    assert Put(g, c) == Put(f, c);
    RowReplaced(t, u, u.Row().cells, Put(f, c));
  }
}
