/** The dirty bits tell the renderer of every change: whatever the events since the last
    frame, a row of the screen that differs from what it was is reported. */
module DirtySoundness {
  import opened Bits
  import opened Cells
  import opened DirtyTracking
  import opened TerminalSpec
  import opened TerminalRuns

  /** Between `s` and `r` row `v` is reported if its cells or the history changed, no report
      is lost, and no bit outside the screen is set. */
  predicate Covers(s: State, r: State, v: nat) {
    && r.rows == s.rows
    && (s.dirty.IsRowDirty(v) ==> r.dirty.IsRowDirty(v))
    && (v < s.rows && !r.dirty.IsRowDirty(v) ==> r.screen[v].cells == s.screen[v].cells && r.history == s.history)
    && (v >= s.rows && s.rows <= WORD && TestBit(r.dirty.rowBits, v) ==> TestBit(s.dirty.rowBits, v))
  }

  lemma Transitive(a: State, b: State, c: State, v: nat)
    requires Covers(a, b, v) && Covers(b, c, v)
    ensures Covers(a, c, v)
  {
  }

  // ---- Single updates -----------------------------------------------------------------

  lemma SameCover(s: State, r: State, v: nat)
    requires r.rows == s.rows && r.screen == s.screen && r.history == s.history
    requires r.dirty.rowBits == s.dirty.rowBits && r.dirty.fullRedraw == s.dirty.fullRedraw
    ensures Covers(s, r, v)
  {
  }

  lemma RowCover(s: State, row: Row, v: nat)
    requires RowOk(row, s.cols)
    ensures Covers(s, MarkRow(SetRow(s, s.cursor.row, row), s.cursor.row), v)
  {
    MarksAreMonotone(s.dirty, s.cursor.row, v);
    if v >= s.rows {
      MarkedBits(s.dirty, s.cursor.row, v);
    }
  }

  lemma MarkedBits(d: Dirty, row: nat, v: nat)
    requires row < d.rowCount <= v
    ensures d.rowCount <= WORD && TestBit(d.MarkRow(row).rowBits, v) ==> TestBit(d.rowBits, v)
    ensures d.rowCount <= WORD && TestBit(d.MarkScroll(1).rowBits, v) ==> TestBit(d.rowBits, v)
  {
    if d.rowCount <= WORD {
      assert row % 128 == row;
      SetBitTests(d.rowBits, row, v);
      SetLowTests(d.rowBits, d.rowCount, v);
      assert v != row;
    }
  }

  lemma SetCellsCover(s: State, cells: seq<Cell>, v: nat)
    requires |cells| == s.cols && NormalCells(cells)
    ensures Covers(s, SetCells(s, cells), v)
  {
    RowCover(s, s.Row().(cells := cells), v);
  }

  lemma PlaceCover(s: State, cursor: Cursor, pendingWrap: bool, v: nat)
    requires CursorOk(cursor, s.cols, s.rows)
    ensures Covers(s, Place(s, cursor, pendingWrap), v)
  {
  }

  /** Every row is reported after a scroll. */
  lemma ScrollCover(s: State, v: nat)
    ensures Covers(s, ScrollUpOne(s), v)
  {
    MarksAreMonotone(s.dirty, 0, v);
    if v >= s.rows {
      MarkedBits(s.dirty, 0, v);
    }
  }

  // ---- Operations -----------------------------------------------------------------------

  lemma NextRowCover(s: State, v: nat)
    ensures Covers(s, NextRow(s), v)
  {
    ScrollCover(s, v);
  }

  lemma FlagCover(s: State, v: nat)
    ensures Covers(s, SetRow(s, s.cursor.row, s.Row().(isWrapped := true)), v)
  {
  }

  lemma LineWrapCover(s: State, v: nat)
    ensures Covers(s, LineWrap(s), v)
  {
    var w := SetRow(s, s.cursor.row, s.Row().(isWrapped := true));
    var d := NextRow(w);
    FlagCover(s, v);
    NextRowCover(w, v);
    PlaceCover(d, d.cursor.(col := 0), false, v);
    Transitive(s, w, d, v);
    Transitive(s, d, LineWrap(s), v);
  }

  lemma AdvanceCover(s: State, width: nat, v: nat)
    ensures Covers(s, CursorAdvance(s, width), v)
  {
    SameCover(s, CursorAdvance(s, width), v);
  }

  lemma ClampCover(s: State, base: nat, width: nat, v: nat)
    ensures Covers(s, ClampCursorAfterCluster(s, base, width), v)
  {
    SameCover(s, ClampCursorAfterCluster(s, base, width), v);
  }

  lemma MergeCover(s: State, b: nat, width: nat, v: nat)
    requires b < s.cols && !s.Row().cells[b].IsEmpty()
    ensures Covers(s, MergeCluster(s, b, width), v)
  {
    var cells := s.Row().cells;
    var prev, w := cells[b], ClusterWidth(cells[b].width, width);
    var base := Printed(prev.ch, s.style, prev.WithoutJoiner().flags, w);
    var grown := GrowCluster(cells, b, base, w == 2 && prev.width < 2);
    SetCellsCover(s, grown, v);
    ClampCover(SetCells(s, grown), b, w, v);
    Transitive(s, SetCells(s, grown), MergeCluster(s, b, width), v);
  }

  lemma PutCharCover(s: State, c: Char, v: nat)
    requires !c.IsControl() && c.width > 0
    ensures Covers(s, PutChar(s, c), v)
  {
    var cells := PutCells(s.Row().cells, s.cursor.col, Printed(c.code, s.style, 0, c.width));
    var t := SetLastChar(SetCells(s, cells), c);
    SetCellsCover(s, cells, v);
    SameCover(SetCells(s, cells), t, v);
    AdvanceCover(t, c.width, v);
    Transitive(s, SetCells(s, cells), t, v);
    Transitive(s, t, PutChar(s, c), v);
  }

  lemma PrintCover(s: State, c: Char, v: nat)
    requires !c.IsControl() && c.width > 0
    ensures Covers(s, PrintAt(s, c), v)
  {
    var fit, b := Fit(s, c.width), ClusterBase(s.Row().cells, s.cursor.col);
    LineWrapCover(s, v);
    assert Covers(s, fit, v);
    PutCharCover(fit, c, v);
    Transitive(s, fit, PutChar(fit, c), v);
    if b.Some? && !s.Row().cells[b.value].IsEmpty() {
      MergeCover(s, b.value, c.width, v);
    }
  }

  lemma ChangeBaseCover(s: State, c: Char, b: nat, v: nat)
    requires b < s.cols && !s.Row().cells[b].IsEmpty()
    ensures Covers(s, ChangeBase(s, c, b), v)
  {
    var cells, base := s.Row().cells, s.Row().cells[b];
    if c.IsVariationSelector() {
      var w := ClusterWidth(if c.code == 0xFE0F then 2 else 1, base.width);
      var grown := GrowCluster(cells, b, base.(width := w), w == 2 && base.width < 2);
      var t := SetCells(s, grown);
      SetCellsCover(s, grown, v);
      ClampCover(t, b, 2, v);
      Transitive(s, t, ClampCursorAfterCluster(t, b, 2), v);
    } else {
      SetCellsCover(s, GrowCluster(cells, b, base.WithJoiner(), false), v);
    }
  }

  lemma ZeroWidthCover(s: State, c: Char, v: nat)
    requires !c.IsControl()
    ensures Covers(s, WriteZeroWidth(s, c), v)
  {
    var cells, col := s.Row().cells, s.cursor.col;
    if col > 0 && !c.IsVariationSelector() && !c.IsJoiner() {
      SetCellsCover(s, cells[col := Printed(c.code, s.style, COMBINING, 0)], v);
    } else if col > 0 {
      var b := ClusterBase(cells, col);
      if b.Some? && !cells[b.value].IsEmpty() {
        ChangeBaseCover(s, c, b.value, v);
      }
    }
  }

  lemma WriteCover(s: State, c: Char, v: nat)
    ensures Covers(s, WriteChar(s, c), v)
  {
    if !c.IsControl() {
      if c.width == 0 {
        ZeroWidthCover(s, c, v);
      } else {
        var t := if s.pendingWrap then LineWrap(s) else s;
        LineWrapCover(s, v);
        PrintCover(t, c, v);
        Transitive(s, t, PrintAt(t, c), v);
      }
    }
  }

  lemma {:induction false} RepeatCover(s: State, c: Char, n: nat, v: nat)
    ensures Covers(s, RepeatChar(s, c, n), v)
  {
    if n > 0 {
      var m := n - 1;
      var t := RepeatChar(s, c, m);
      RepeatCover(s, c, m, v);
      WriteCover(t, c, v);
      Transitive(s, t, WriteChar(t, c), v);
      RepeatNext(s, c, m, n);
    }
  }

  lemma RepeatNext(s: State, c: Char, m: nat, n: nat)
    requires n == m + 1
    ensures RepeatChar(s, c, n) == WriteChar(RepeatChar(s, c, m), c)
  {
  }

  lemma {:induction false} DownCover(s: State, n: nat, v: nat)
    ensures Covers(s, DownSteps(s, n), v)
  {
    if n > 0 {
      var t := DownSteps(s, n - 1);
      DownCover(s, n - 1, v);
      ScrollCover(t, v);
      assert Covers(t, DownStep(t), v);
      Transitive(s, t, DownStep(t), v);
    }
  }

  lemma {:induction false} ForwardCover(s: State, n: nat, v: nat)
    ensures Covers(s, ForwardSteps(s, n), v)
  {
    if n > 0 {
      var t := ForwardSteps(s, n - 1);
      ForwardCover(s, n - 1, v);
      LineWrapCover(t, v);
      assert Covers(t, ForwardStep(t), v);
      Transitive(s, t, ForwardStep(t), v);
    }
  }

  lemma {:induction false} BackCover(s: State, n: nat, v: nat)
    ensures Covers(s, BackSteps(s, n), v)
  {
    if n > 0 {
      var t := BackSteps(s, n - 1);
      BackCover(s, n - 1, v);
      assert Covers(t, BackStep(t), v);
      Transitive(s, t, BackStep(t), v);
    }
  }

  lemma MotionCover(s: State, e: Event, v: nat)
    requires e.IsMotion()
    ensures Covers(s, Apply(s, e), v)
  {
    var p, r := ClearPending(s), Apply(s, e);
    SameCover(s, p, v);
    if e.Down? {
      DownCover(p, AtLeast1(e.n), v);
      Transitive(s, p, r, v);
    } else if e.Forward? {
      ForwardCover(p, AtLeast1(e.n), v);
      Transitive(s, p, r, v);
    } else if e.Back? {
      BackCover(p, AtLeast1(e.n), v);
      Transitive(s, p, r, v);
    } else {
      SameCover(s, r, v);
    }
  }

  lemma EraseCover(s: State, e: Event, v: nat)
    requires e.EraseScreen? || e.EraseLine?
    ensures Covers(s, Apply(s, e), v)
  {
    if e.EraseScreen? {
      EraseScreenCover(s, e.mode, v);
    } else {
      EraseLineCover(s, e.mode, v);
    }
  }

  lemma EraseScreenCover(s: State, mode: nat, v: nat)
    ensures Covers(s, ClearScreen(s, mode), v)
  {
    var r := ClearScreen(s, mode);
    if mode > 3 {
      SameCover(s, r, v);
    } else {
      ErasedMarks(s, mode);
      AllMarked(s, r, v);
    }
  }

  lemma ErasedMarks(s: State, mode: nat)
    requires mode <= 3
    ensures var r := ClearScreen(s, mode); r.dirty.fullRedraw && r.dirty.rowBits == 0
  {
    if mode >= 2 {
      WipedMarks(s, mode == 3);
    } else {
      RepaintMarks(s, if mode == 0 then ClearBelow(s) else ClearAbove(s));
    }
  }

  lemma WipedMarks(s: State, dropHistory: bool)
    ensures var r := Wiped(s, dropHistory); r.dirty.fullRedraw && r.dirty.rowBits == 0
  {
  }

  lemma RepaintMarks(s: State, screen: seq<Row>)
    requires |screen| == s.rows && RowsOk(screen, s.cols)
    ensures var r := MarkCursor(MarkAll(SetScreen(s, screen))); r.dirty.fullRedraw && r.dirty.rowBits == 0
  {
  }

  lemma EraseLineCover(s: State, mode: nat, v: nat)
    ensures Covers(s, ClearLine(s, mode), v)
  {
    if mode > 2 {
      assert s.screen[s.cursor.row := s.Row()] == s.screen;
      RowCover(s, s.Row(), v);
    } else {
      RowCover(s, ErasedLine(s, mode), v);
    }
  }

  /** A full redraw reports everything. */
  lemma AllMarked(s: State, r: State, v: nat)
    requires r.rows == s.rows
    requires (r.dirty.fullRedraw && r.dirty.rowBits == 0) || (r.dirty.rowBits == s.dirty.rowBits
             && r.dirty.fullRedraw == s.dirty.fullRedraw && r.screen == s.screen && r.history == s.history)
    ensures Covers(s, r, v)
  {
    ZeroHasNoBits(v);
  }

  lemma OtherCover(s: State, e: Event, v: nat)
    requires (e.IsEdit() && !e.DeleteCharsEvent?) || e.IsMode() || e.AltScreen?
    ensures Covers(s, Apply(s, e), v)
  {
    if e.IsEdit() {
      EditMarks(s, e);
    } else if e.IsMode() {
      ModeMarks(s, e);
    } else {
      AppliesAlt(s, e.alt);
    }
    AllMarked(s, Apply(s, e), v);
  }

  lemma EditMarks(s: State, e: Event)
    requires e.IsEdit() && !e.DeleteCharsEvent?
    ensures ApplyEdit(s, e).dirty.fullRedraw && ApplyEdit(s, e).dirty.rowBits == 0
  {
  }

  lemma ModeMarks(s: State, e: Event)
    requires e.IsMode()
    ensures var r := ApplyMode(s, e);
      && r.dirty.rowBits == s.dirty.rowBits && r.dirty.fullRedraw == s.dirty.fullRedraw
      && r.screen == s.screen && r.history == s.history
  {
  }

  lemma StepCover(s: State, e: Event, v: nat)
    requires !Aborts(s, e)
    ensures Covers(s, Apply(s, e), v)
  {
    if e.IsMotion() {
      MotionCover(s, e, v);
    } else if (e.IsEdit() && !e.DeleteCharsEvent?) || e.IsMode() || e.AltScreen? {
      OtherCover(s, e, v);
    } else if e.EraseScreen? || e.EraseLine? {
      EraseCover(s, e, v);
    } else if e.Write? {
      WriteCover(s, e.c, v);
    } else if e.Repeat? {
      if s.lastChar.Some? {
        RepeatCover(s, s.lastChar.value, e.n, v);
      }
    } else {
      ShiftCover(s, e, v);
    }
  }

  lemma ShiftCover(s: State, e: Event, v: nat)
    requires !Aborts(s, e) && (e.InsertCharsEvent? || e.DeleteCharsEvent?)
    ensures Covers(s, Apply(s, e), v)
  {
    var cells, col := s.Row().cells, s.cursor.col;
    if e.InsertCharsEvent? {
      SetCellsCover(s, InsertBlankCells(cells, col, e.n), v);
    } else {
      SetCellsCover(s, DeleteCells(cells, col, Clamp(e.n, col, s.cols)), v);
    }
  }

  lemma {:induction false} RunCover(s: State, es: seq<Event>, v: nat)
    requires Run(s, es).Some?
    ensures Covers(s, Run(s, es).value, v)
    decreases |es|
  {
    if es != [] {
      var t := Apply(s, es[0]);
      StepCover(s, es[0], v);
      RunCover(t, es[1..], v);
      Transitive(s, t, Run(t, es[1..]).value, v);
    }
  }

  // ---- From frame to frame ----------------------------------------------------------------

  /** Whatever happens after the renderer took the dirty state of a frame, a row that no
      longer has the cells it had then is reported, and on at most 128 rows no bit is set
      for a row that does not exist. */
  lemma ChangesAreReported(s: State, es: seq<Event>)
    requires Run(ConsumeDirty(s), es).Some?
    ensures var r := Run(ConsumeDirty(s), es).value;
      && r.rows == s.rows
      && (forall v :: 0 <= v < s.rows && r.screen[v].cells != s.screen[v].cells ==> r.dirty.IsRowDirty(v))
      && (s.rows <= WORD ==> forall v: nat :: TestBit(r.dirty.rowBits, v) ==> v < s.rows)
  {
    var c := ConsumeDirty(s);
    var r := Run(c, es).value;
    RunKeepsGeometry(c, es);
    forall v: nat
      ensures v < s.rows && r.screen[v].cells != s.screen[v].cells ==> r.dirty.IsRowDirty(v)
      ensures s.rows <= WORD && TestBit(r.dirty.rowBits, v) ==> v < s.rows
    {
      RunCover(c, es, v);
      ZeroHasNoBits(v);
    }
  }

  /** Row `v` of the window the user sees, `scrollOffset` rows above the bottom. */
  function Seen(s: State, v: nat): Row
    requires v < s.rows
  {
    WindowRow(s.Flat(), s.rows, s.scrollOffset, v)
  }

  /** Every change in the window is reported, whatever the events after a frame. */
  ghost predicate WindowReported(s: State) {
    forall es: seq<Event> | Run(ConsumeDirty(s), es).Some? :: WindowReportedAfter(s, Run(ConsumeDirty(s), es).value)
  }

  predicate WindowReportedAfter(s: State, r: State) {
    r.rows == s.rows ==>
      forall v :: 0 <= v < s.rows && Seen(r, v).cells != Seen(s, v).cells ==> r.dirty.IsRowDirty(v)
  }

  /** The bits name rows of the screen, not of the window. That is enough exactly if the
      window is the screen, or lies entirely above it. */
  lemma WindowReportedIff(s: State)
    requires s.rows <= WORD
    ensures WindowReported(s) <==> s.scrollOffset == 0 || s.scrollOffset >= s.rows
  {
    if 0 < s.scrollOffset < s.rows {
      var c := if s.screen[0].cells[0].ch == 0x41 then Char(0x42, 1) else Char(0x41, 1);
      UnreportedWrite(s, c);
    } else {
      forall es: seq<Event> | Run(ConsumeDirty(s), es).Some?
        ensures WindowReportedAfter(s, Run(ConsumeDirty(s), es).value)
      {
        StillWindow(s, es);
      }
    }
  }

  lemma StillWindow(s: State, es: seq<Event>)
    requires s.rows <= WORD && Run(ConsumeDirty(s), es).Some?
    requires s.scrollOffset == 0 || s.scrollOffset >= s.rows
    ensures WindowReportedAfter(s, Run(ConsumeDirty(s), es).value)
  {
    var r := Run(ConsumeDirty(s), es).value;
    RunKeepsGeometry(ConsumeDirty(s), es);
    if r.rows == s.rows {
      forall v | 0 <= v < s.rows && !r.dirty.IsRowDirty(v) ensures Seen(r, v).cells == Seen(s, v).cells {
        RunCover(ConsumeDirty(s), es, v);
        StillRow(s, r, v);
      }
    }
  }

  lemma StillRow(s: State, r: State, v: nat)
    requires r.scrollOffset == s.scrollOffset
    requires s.scrollOffset == 0 || s.scrollOffset >= s.rows
    requires v < s.rows == r.rows && !r.dirty.IsRowDirty(v) && Covers(ConsumeDirty(s), r, v)
    ensures Seen(r, v).cells == Seen(s, v).cells
  {
    SeenAt(s, v);
    SeenAt(r, v);
  }

  lemma SeenAt(s: State, v: nat)
    requires v < s.rows
    ensures s.scrollOffset == 0 ==> Seen(s, v) == s.screen[v]
    ensures s.scrollOffset >= s.rows ==>
      var index := |s.history| - s.scrollOffset + v; Seen(s, v) == if index < 0 then OutOfRange() else s.history[index]
    ensures s.scrollOffset == v ==> Seen(s, v) == s.screen[0]
  {
  }

  /** Going to the top left and writing there changes the window further down than it marks. */
  lemma UnreportedWrite(s: State, c: Char)
    requires s.rows <= WORD && 0 < s.scrollOffset < s.rows
    requires !c.IsControl() && c.width == 1 && s.screen[0].cells[0].ch != c.code
    ensures var es := [MoveCursor(0, 0), Write(c)];
      Run(ConsumeDirty(s), es).Some? && !WindowReportedAfter(s, Run(ConsumeDirty(s), es).value)
  {
    var d, v := ConsumeDirty(s), s.scrollOffset;
    var m := CursorPosition(d, 0, 0);
    RunTwo(d, MoveCursor(0, 0), Write(c));
    TopLeftWrite(m, c);
    NotReported(s, WriteChar(m, c), v, c);
  }

  lemma NotReported(s: State, r: State, v: nat, c: Char)
    requires s.rows <= WORD && 0 < v < s.rows && v == s.scrollOffset
    requires SameGeometry(s, r) && r.history == s.history
    requires s.screen[0].cells[0].ch != c.code && r.screen[0].cells[0].ch == c.code
    requires r.dirty.rowBits == SetBit(0, 0) && !r.dirty.fullRedraw
    ensures !WindowReportedAfter(s, r)
  {
    SetBitTests(0, 0, v);
    ZeroHasNoBits(v);
    SeenAt(s, v);
    SeenAt(r, v);
    assert Seen(r, v).cells[0] != Seen(s, v).cells[0];
  }

  lemma RunTwo(s: State, a: Event, b: Event)
    requires !Aborts(s, a) && !Aborts(Apply(s, a), b)
    ensures Run(s, [a, b]) == Some(Apply(Apply(s, a), b))
  {
    assert [a, b][1..] == [b] && [b][1..] == [];
    assert Run(Apply(s, a), [b]) == Run(Apply(Apply(s, a), b), []);
  }

  lemma TopLeftWrite(m: State, c: Char)
    requires m.cursor.col == 0 && m.cursor.row == 0 && !m.pendingWrap
    requires !c.IsControl() && c.width == 1 && m.dirty.rowBits == 0 && !m.dirty.fullRedraw
    ensures var r := WriteChar(m, c);
      && r.screen[0].cells[0].ch == c.code && r.history == m.history
      && r.dirty.rowBits == SetBit(0, 0) && !r.dirty.fullRedraw && r.dirty.rowCount == m.rows
  {
    assert WriteChar(m, c) == PutChar(m, c);
  }
}
