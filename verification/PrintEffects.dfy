/** What printing does to every cell: where a character lands, what its cells hold, what joins, and
    what marks, selectors and repetition do. */
module PrintEffects {
  import opened Cells
  import opened Clusters
  import opened CursorEffects
  import opened TerminalSpec
  import opened TerminalRuns

  // ---- The base before a column -----------------------------------------------------------------

  /** The last cell before `col` that is no second half is that at `k`. */
  predicate BaseAt(cells: seq<Cell>, col: nat, k: nat)
    requires col <= |cells|
  {
    k < col && cells[k].flags % 2 == 0 && forall i :: k < i < col ==> cells[i].flags % 2 == 1
  }

  lemma {:induction false} BaseIs(cells: seq<Cell>, col: nat, k: nat)
    requires col <= |cells|
    ensures ClusterBase(cells, col) == Some(k) <==> BaseAt(cells, col, k)
  {
    if col > 0 && cells[col - 1].IsWideContinuation() {
      BaseIs(cells, col - 1, k);
    }
  }

  /** The cell at `k` ends in a joiner and waits for the next character. */
  predicate Joins(cells: seq<Cell>, col: nat, k: nat)
    requires col <= |cells|
  {
    BaseAt(cells, col, k) && cells[k].flags / 4 % 2 == 1 && cells[k].ch != 0
  }

  // ---- Printing -----------------------------------------------------------------------------------

  /** `cells` with a character of the current style at `col`, and its second half after it. */
  predicate Shows(s: State, cells: seq<Cell>, r: seq<Cell>, col: nat, c: Char) {
    && |r| == |cells| && col < |r|
    && r[col] == Cell(c.code, s.style.fg, s.style.bg, s.style.attrs, 0, c.width)
    && (c.width == 2 && col + 1 < |r| ==> r[col + 1] == Cell(c.code, s.style.fg, s.style.bg, s.style.attrs, 1, 0))
    && forall k :: 0 <= k < |r| && k != col && (k != col + 1 || c.width != 2) ==> r[k] == cells[k]
  }

  /** The cursor moves on by the character's width, or parks in the last column, where a wrap is
      pending if lines wrap; its row is marked, and it is flagged. */
  predicate MovedOn(n: State, r: State, col: nat) {
    && r == n.(screen := r.screen, lastChar := r.lastChar,
               dirty := n.dirty.MarkRow(n.cursor.row).(cursorChanged := true),
               cursor := n.cursor.(col := if col < n.cols then col else n.cols - 1),
               pendingWrap := col >= n.cols && n.modes.wrap)
    && r.Row().isWrapped == n.Row().isWrapped
    && forall v :: 0 <= v < n.rows && v != n.cursor.row ==> r.screen[v] == n.screen[v]
  }

  /** How many lines on a character lands, and in which column. */
  function LinesOn(s: State, width: nat): nat {
    var col := if s.pendingWrap then 0 else s.cursor.col;
    (if s.pendingWrap then 1 else 0) + (if s.modes.wrap && col + width > s.cols then 1 else 0)
  }

  function LandsIn(s: State, width: nat): nat {
    var col := if s.pendingWrap then 0 else s.cursor.col;
    if col + width <= s.cols then col else if s.modes.wrap then 0 else Less(s.cols, width)
  }

  /** The terminal `n` a character is put on: the cursor has gone on to where the character lands,
      over lines that are flagged. */
  predicate Opens(s: State, n: State, width: nat) {
    && GoneOn(s, n, LinesOn(s, width), LandsIn(s, width))
    && (LinesOn(s, width) == 0 ==> n.history == s.history && n.tiered == s.tiered && n.dirty == s.dirty)
  }

  /** Printing a character that nothing waits for. */
  lemma Prints(s: State, c: Char, r: State) returns (n: State)
    requires Run(s, [Write(c)]) == Some(r) && Base(c)
    requires !s.pendingWrap ==> forall k: nat :: !Joins(s.Row().cells, s.cursor.col, k)
    ensures Opens(s, n, c.width)
    ensures Shows(s, n.Row().cells, r.Row().cells, n.cursor.col, c)
    ensures MovedOn(n, r, n.cursor.col + c.width) && r.lastChar == Some(c)
  {
    WriteIs(s, c, r);
    n := Landing(s, c.width);
    NothingWaits(s, c);
    OpensAt(s, c.width);
    PutsAt(n, c);
    SameStyle(s, n, c.width);
  }

  lemma WriteIs(s: State, c: Char, r: State)
    requires Run(s, [Write(c)]) == Some(r)
    ensures r == WriteChar(s, c)
  {
    RunsOne(s, Write(c));
    AppliesWrite(s, c);
  }

  lemma NothingWaits(s: State, c: Char)
    requires Base(c) && (!s.pendingWrap ==> forall k: nat :: !Joins(s.Row().cells, s.cursor.col, k))
    ensures WriteChar(s, c) == PutChar(Landing(s, c.width), c)
  {
    var p := Resumed(s);
    var b := ClusterBase(p.Row().cells, p.cursor.col);
    if s.pendingWrap {
      assert p.cursor.col == 0;
    } else if b.Some? {
      BaseIs(s.Row().cells, s.cursor.col, b.value);
      assert !Joins(s.Row().cells, s.cursor.col, b.value);
    }
    assert WriteChar(s, c) == PrintAt(p, c);
  }

  lemma SameStyle(s: State, n: State, width: nat)
    requires Opens(s, n, width)
    ensures n.style == s.style
  {
  }

  lemma OpensAt(s: State, width: nat)
    requires width > 0
    ensures Opens(s, Landing(s, width), width)
  {
    ResumesAt(s);
    FitsAt(s, Resumed(s), width, if s.pendingWrap then 1 else 0);
  }

  lemma FitsAt(s: State, p: State, width: nat, q: nat)
    requires width > 0 && GoneOn(s, p, q, p.cursor.col)
    ensures var n := Fit(p, width);
      if p.cursor.col + width <= s.cols then n == p
      else if s.modes.wrap then GoneOn(s, n, q + 1, 0)
      else GoneOn(s, n, q, Less(s.cols, width)) && n.history == p.history && n.tiered == p.tiered && n.dirty == p.dirty
  {
    if p.cursor.col + width > s.cols && s.modes.wrap {
      WrapsOn(s, p, q, q + 1, p.cursor.col);
    }
  }

  lemma ResumesAt(s: State)
    ensures var p := Resumed(s);
      if s.pendingWrap then GoneOn(s, p, 1, 0) else p == s && GoneOn(s, p, 0, s.cursor.col)
  {
    NotYetOn(s);
    WrapsOn(s, ClearPending(s), 0, 1, s.cursor.col);
    WrapsEitherWay(s);
  }

  lemma NotYetOn(s: State)
    ensures GoneOn(s, ClearPending(s), 0, s.cursor.col)
  {
  }

  lemma WrapsEitherWay(s: State)
    ensures LineWrap(ClearPending(s)) == LineWrap(s)
  {
  }

  lemma PutsAt(n: State, c: Char)
    requires Base(c)
    ensures var r := PutChar(n, c);
      && Shows(n, n.Row().cells, r.Row().cells, n.cursor.col, c)
      && MovedOn(n, r, n.cursor.col + c.width) && r.lastChar == Some(c)
  {
  }

  // ---- Joining --------------------------------------------------------------------------------------

  function Wider(a: nat, b: nat): nat { if a < b then if b < 2 then b else 2 else if a < 2 then a else 2 }

  /** The cluster at `k` takes the wider width, the current style and no joiner; the cell after one
      that grew is its second half, in the style it had. */
  predicate Absorbs(s: State, cells: seq<Cell>, r: seq<Cell>, k: nat, width: nat)
    requires k < |cells|
  {
    var prev, w := cells[k], Wider(cells[k].width, width);
    && |r| == |cells| && prev.flags >= 4
    && r[k] == Cell(prev.ch, s.style.fg, s.style.bg, s.style.attrs, prev.flags - 4, w)
    && (w == 2 && prev.width < 2 && k + 1 < |r| ==> r[k + 1] == Cell(prev.ch, prev.fg, prev.bg, prev.attrs, 1, 0))
    && forall i :: 0 <= i < |r| && i != k && !(i == k + 1 && w == 2 && prev.width < 2) ==> r[i] == cells[i]
  }

  /** A character that a cluster waits for is absorbed, and not kept for repetition. */
  lemma Merges(s: State, c: Char, k: nat, r: State)
    requires Run(s, [Write(c)]) == Some(r) && Base(c) && !s.pendingWrap
    requires Joins(s.Row().cells, s.cursor.col, k)
    ensures Absorbs(s, s.Row().cells, r.Row().cells, k, c.width)
    ensures MovedOn(s, r, k + Wider(s.Row().cells[k].width, c.width)) && r.lastChar == s.lastChar
  {
    WriteIs(s, c, r);
    BaseIs(s.Row().cells, s.cursor.col, k);
    WaitsFor(s, c, k);
    MergesAt(s, k, c.width);
  }

  lemma WaitsFor(s: State, c: Char, k: nat)
    requires Base(c) && !s.pendingWrap && ClusterBase(s.Row().cells, s.cursor.col) == Some(k)
    requires s.Row().cells[k].IsJoiner() && !s.Row().cells[k].IsEmpty()
    ensures WriteChar(s, c) == MergeCluster(s, k, c.width)
  {
  }

  lemma MergesAt(s: State, k: nat, width: nat)
    requires k < s.cols && s.Row().cells[k].IsJoiner() && !s.Row().cells[k].IsEmpty() && !s.pendingWrap
    ensures var r := MergeCluster(s, k, width);
      && Absorbs(s, s.Row().cells, r.Row().cells, k, width)
      && MovedOn(s, r, k + Wider(s.Row().cells[k].width, width)) && r.lastChar == s.lastChar
  {
  }

  // ---- Characters without width ------------------------------------------------------------------

  /** Only cell `k` of the cursor's row changes, and the row is marked. */
  predicate OneCell(s: State, r: State, k: nat, cell: Cell)
    requires k < s.cols
  {
    && r == s.(screen := r.screen, dirty := s.dirty.MarkRow(s.cursor.row))
    && r.Row() == s.Row().(cells := s.Row().cells[k := cell])
    && forall v :: 0 <= v < s.rows && v != s.cursor.row ==> r.screen[v] == s.screen[v]
  }

  /** Control characters do nothing, nor does a character without width in the first column. */
  lemma NothingPrinted(s: State, c: Char, r: State)
    requires Run(s, [Write(c)]) == Some(r) && (c.IsControl() || (c.width == 0 && s.cursor.col == 0))
    ensures r == s
  {
    WriteIs(s, c, r);
  }

  /** A mark takes the cursor's cell, in the current style. */
  lemma MarkPrinted(s: State, c: Char, r: State)
    requires Run(s, [Write(c)]) == Some(r) && Mark(c) && s.cursor.col > 0
    ensures OneCell(s, r, s.cursor.col, Cell(c.code, s.style.fg, s.style.bg, s.style.attrs, 2, 0))
  {
    WriteIs(s, c, r);
    MarksAt(s, c);
  }

  /** A joiner flags the base before the cursor if it is not flagged yet. */
  lemma JoinerPrinted(s: State, c: Char, k: nat, r: State)
    requires Run(s, [Write(c)]) == Some(r) && c.code in {0x200C, 0x200D} && c.width == 0
    requires BaseAt(s.Row().cells, s.cursor.col, k) && s.Row().cells[k].ch != 0
    ensures var base := s.Row().cells[k];
      OneCell(s, r, k, if base.flags / 4 % 2 == 1 then base else base.(flags := (base.flags + 4) % 0x100))
  {
    WriteIs(s, c, r);
    BaseIs(s.Row().cells, s.cursor.col, k);
    FlagsAt(s, c, k);
  }

  /** A selector gives the base before the cursor its width, never less than it has and at most two.
      The cell after one that grew is its second half, and the cursor goes there, unless the base is
      in the last column. */
  lemma SelectorPrinted(s: State, c: Char, k: nat, r: State)
    requires Run(s, [Write(c)]) == Some(r) && c.code in {0xFE0E, 0xFE0F} && c.width == 0
    requires BaseAt(s.Row().cells, s.cursor.col, k) && s.Row().cells[k].ch != 0
    ensures Selects(s, r, k, Wider(if c.code == 0xFE0F then 2 else 1, s.Row().cells[k].width))
  {
    WriteIs(s, c, r);
    BaseIs(s.Row().cells, s.cursor.col, k);
    SelectsAt(s, c, k, Wider(if c.code == 0xFE0F then 2 else 1, s.Row().cells[k].width));
  }

  predicate Selects(s: State, r: State, k: nat, w: nat)
    requires k < s.cols
  {
    var cells, next, base := s.Row().cells, r.Row().cells, s.Row().cells[k];
    var grew := w == 2 && base.width < 2 && k + 1 < s.cols;
    && |next| == s.cols && w < 0x100 && next[k] == base.(width := w)
    && (grew ==> next[k + 1] == Cell(base.ch, base.fg, base.bg, base.attrs, 1, 0))
    && (forall i :: 0 <= i < s.cols && i != k && !(i == k + 1 && grew) ==> next[i] == cells[i])
    && (if grew then MovedOn(s, r, k + 2) && r.lastChar == s.lastChar
        else r == s.(screen := r.screen, dirty := s.dirty.MarkRow(s.cursor.row))
             && (forall v :: 0 <= v < s.rows && v != s.cursor.row ==> r.screen[v] == s.screen[v]))
  }

  lemma SelectsAt(s: State, c: Char, k: nat, w: nat)
    requires c.IsVariationSelector() && c.width == 0 && s.cursor.col > 0
    requires ClusterBase(s.Row().cells, s.cursor.col) == Some(k) && s.Row().cells[k].ch != 0
    requires w == Wider(if c.code == 0xFE0F then 2 else 1, s.Row().cells[k].width)
    ensures Selects(s, WriteChar(s, c), k, w)
  {
    assert WriteChar(s, c) == ChangeBase(s, c, k);
  }

  /** Without a base, or with an empty one, a joiner or a selector does nothing. */
  lemma NothingBefore(s: State, c: Char, r: State)
    requires Run(s, [Write(c)]) == Some(r) && c.code in {0x200C, 0x200D, 0xFE0E, 0xFE0F} && c.width == 0
    requires forall k: nat :: BaseAt(s.Row().cells, s.cursor.col, k) ==> s.Row().cells[k].ch == 0
    ensures r == s
  {
    WriteIs(s, c, r);
    FindsBase(s);
    NothingChanges(s, c);
  }

  lemma NothingChanges(s: State, c: Char)
    requires (c.IsJoiner() || c.IsVariationSelector()) && c.width == 0
    requires var b := ClusterBase(s.Row().cells, s.cursor.col); b.Some? ==> s.Row().cells[b.value].ch == 0
    ensures WriteChar(s, c) == s
  {
  }

  lemma FindsBase(s: State)
    ensures var b := ClusterBase(s.Row().cells, s.cursor.col);
      b.Some? ==> BaseAt(s.Row().cells, s.cursor.col, b.value)
  {
    var b := ClusterBase(s.Row().cells, s.cursor.col);
    if b.Some? {
      BaseIs(s.Row().cells, s.cursor.col, b.value);
    }
  }

  lemma MarksAt(s: State, c: Char)
    requires Mark(c) && s.cursor.col > 0
    ensures OneCell(s, WriteChar(s, c), s.cursor.col, Cell(c.code, s.style.fg, s.style.bg, s.style.attrs, 2, 0))
  {
  }

  lemma FlagsAt(s: State, c: Char, k: nat)
    requires c.IsJoiner() && c.width == 0 && !c.IsControl() && s.cursor.col > 0
    requires ClusterBase(s.Row().cells, s.cursor.col) == Some(k) && s.Row().cells[k].ch != 0
    ensures var base := s.Row().cells[k];
      OneCell(s, WriteChar(s, c), k, if base.flags / 4 % 2 == 1 then base else base.(flags := (base.flags + 4) % 0x100))
  {
    assert WriteChar(s, c) == ChangeBase(s, c, k);
  }

  // ---- Repetition -------------------------------------------------------------------------------

  function Copies(c: Char, n: nat): seq<Event> { seq(n, _ => Write(c)) }

  /** Repeating is printing the last character so many times again, or nothing without one. */
  lemma Repeats(s: State, n: nat)
    ensures Run(s, [Repeat(n)]) == if s.lastChar.None? then Some(s) else Run(s, Copies(s.lastChar.value, n))
  {
    RunsOne(s, Repeat(n));
    AppliesRepeat(s, n);
    if s.lastChar.Some? {
      CopiesPrinted(s, s.lastChar.value, n);
    }
  }

  lemma {:induction false} CopiesPrinted(s: State, c: Char, n: nat)
    ensures Run(s, Copies(c, n)) == Some(RepeatChar(s, c, n))
  {
    if n > 0 {
      var m := n - 1;
      CopiesPrinted(s, c, m);
      RunLast(s, Copies(c, m), Write(c));
      OneMoreCopy(s, c, m, n);
      assert Copies(c, n) == Copies(c, m) + [Write(c)];
    } else {
      assert Copies(c, 0) == [];
    }
  }

  lemma OneMoreCopy(s: State, c: Char, m: nat, n: nat)
    requires n == m + 1
    ensures Run(RepeatChar(s, c, m), [Write(c)]) == Some(RepeatChar(s, c, n))
  {
    RunsOne(RepeatChar(s, c, m), Write(c));
    AppliesWrite(RepeatChar(s, c, m), c);
  }

  lemma {:induction false} RunLast(s: State, es: seq<Event>, e: Event)
    requires Run(s, es).Some?
    ensures Run(s, es + [e]) == Run(Run(s, es).value, [e])
    decreases |es|
  {
    if es == [] {
      assert [] + [e] == [e];
    } else {
      RunLast(Apply(s, es[0]), es[1..], e);
      assert (es + [e])[0] == es[0] && (es + [e])[1..] == es[1..] + [e];
    }
  }
}
