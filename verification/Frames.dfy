/** Drawing frames: every pane has a range of the shared instance array, and only its
    dirty rows are encoded again. */
module Frames {
  import opened Bits
  import opened Cells
  import opened DirtyTracking
  import opened Offsets

  datatype Origin = Origin(x: int, y: int)

  /** What a cell is encoded to; how is of no concern here but for what it depends on, and
      that a slot cleared for growth looks like a cell that draws nothing at the origin. */
  datatype Instance = Clear | Drawn(cell: Cell, row: nat, col: nat, origin: Origin)

  /** No glyph, default colours, not reversed. */
  predicate DrawsNothing(cell: Cell) {
    (cell.IsEmpty() || cell.IsWideContinuation()) && cell.fg == 0 && cell.bg == 0 && cell.attrs / 32 % 2 == 0
  }

  function Encoded(cell: Cell, row: nat, col: nat, origin: Origin): Instance {
    if row == 0 && col == 0 && origin == Origin(0, 0) && DrawsNothing(cell) then Clear
    else Drawn(cell, row, col, origin)
  }

  datatype RawPane = Pane(view: seq<seq<Cell>>, rows: nat, cols: nat, dirty: Dirty, origin: Origin) {
    function Size(): nat { Start(rows, cols) }
  }

  predicate PaneOk(p: RawPane) {
    && |p.view| == p.rows
    && forall r :: 0 <= r < p.rows ==> |p.view[r]| == p.cols
  }

  type Pane = p: RawPane | PaneOk(p) witness Pane([], 0, 0, Clean(0), Origin(0, 0))

  datatype Layout = Layout(origin: Origin, base: nat, cols: nat, rows: nat)

  function EncodedRow(p: Pane, r: nat): (row: seq<Instance>)
    requires r < p.rows
    ensures |row| == p.cols
    ensures forall c :: 0 <= c < p.cols ==> row[c] == Encoded(p.view[r][c], r, c, p.origin)
  {
    seq(p.cols, c requires 0 <= c < p.cols => Encoded(p.view[r][c], r, c, p.origin))
  }

  /** The whole pane, drawn from nothing. */
  function FullEncoding(p: Pane, n: nat): (insts: seq<Instance>)
    requires n <= p.rows
    ensures |insts| == Start(n, p.cols)
  {
    if n == 0 then [] else FullEncoding(p, n - 1) + EncodedRow(p, n - 1)
  }

  predicate Full(p: Pane, force: bool) {
    force || p.dirty.fullRedraw || p.dirty.scrollDelta != 0
  }

  /** The rows a frame encodes again. */
  predicate Listed(p: Pane, force: bool, r: nat) {
    Full(p, force) || TestBit(p.dirty.rowBits, r)
  }

  function Put(insts: seq<Instance>, off: nat, row: seq<Instance>): (out: seq<Instance>)
    requires off + |row| <= |insts|
    ensures |out| == |insts|
  {
    insts[..off] + row + insts[off + |row|..]
  }

  /** The array after the listed ones of the first `n` rows were encoded into it. */
  function DrawRows(insts: seq<Instance>, p: Pane, base: nat, force: bool, n: nat): (out: seq<Instance>)
    requires n <= p.rows && base + Start(n, p.cols) <= |insts|
    ensures |out| == |insts|
  {
    if n == 0 then insts
    else
      var before := DrawRows(insts, p, base, force, n - 1);
      if Listed(p, force, n - 1) then Put(before, base + Start(n - 1, p.cols), EncodedRow(p, n - 1)) else before
  }

  /** Row `r` of the range that starts at `base`. */
  function RowAt(insts: seq<Instance>, base: nat, r: nat, cols: nat): (row: seq<Instance>)
    requires base + Start(r, cols) + cols <= |insts|
    ensures |row| == cols
  {
    var off := base + Start(r, cols);
    insts[off..off + cols]
  }

  lemma PutAt(insts: seq<Instance>, off: nat, row: seq<Instance>, lo: nat, hi: nat)
    requires off + |row| <= |insts| && lo <= hi <= |insts|
    ensures lo == off && hi == off + |row| ==> Put(insts, off, row)[lo..hi] == row
    ensures hi <= off || off + |row| <= lo ==> Put(insts, off, row)[lo..hi] == insts[lo..hi]
  {
  }

  lemma Fits(p: Pane, n: nat, r: nat)
    requires r < n <= p.rows
    ensures Start(r, p.cols) + p.cols <= Start(n, p.cols) <= p.Size()
  {
    LineStart(r, n, p.cols);
    if n < p.rows {
      LineStart(n, p.rows, p.cols);
    }
  }

  /** A row of the range holds its new encoding if it is listed, and what it held before
      otherwise. */
  lemma {:induction false} DrawnRow(insts: seq<Instance>, p: Pane, base: nat, force: bool, n: nat, r: nat)
    requires r < n <= p.rows && base + Start(n, p.cols) <= |insts|
    ensures Start(r, p.cols) + p.cols <= Start(n, p.cols)
    ensures RowAt(DrawRows(insts, p, base, force, n), base, r, p.cols)
         == if Listed(p, force, r) then EncodedRow(p, r) else RowAt(insts, base, r, p.cols)
  {
    var m := n - 1;
    Fits(p, n, r);
    var lo := base + Start(r, p.cols);
    var before, off, hi := DrawRows(insts, p, base, force, m), base + Start(m, p.cols), lo + p.cols;
    PutAt(before, off, EncodedRow(p, m), lo, hi);
    assert DrawRows(insts, p, base, force, n)
        == if Listed(p, force, m) then Put(before, off, EncodedRow(p, m)) else before;
    if r < m {
      DrawnRow(insts, p, base, force, m, r);
    } else {
      DrawnOutside(insts, p, base, force, m, lo, hi);
    }
  }

  /** Nothing outside the range of the first `n` rows is touched. */
  lemma {:induction false} DrawnOutside(insts: seq<Instance>, p: Pane, base: nat, force: bool, n: nat, lo: nat, hi: nat)
    requires n <= p.rows && base + Start(n, p.cols) <= |insts| && lo <= hi <= |insts|
    requires hi <= base || base + Start(n, p.cols) <= lo
    ensures DrawRows(insts, p, base, force, n)[lo..hi] == insts[lo..hi]
  {
    if n > 0 {
      var m := n - 1;
      DrawnOutside(insts, p, base, force, m, lo, hi);
      PutAt(DrawRows(insts, p, base, force, m), base + Start(m, p.cols), EncodedRow(p, m), lo, hi);
    }
  }

  /** Rows that are not listed cost nothing. */
  lemma {:induction false} SkipRows(insts: seq<Instance>, p: Pane, base: nat, force: bool, a: nat, b: nat)
    requires a <= b <= p.rows && base + p.Size() <= |insts|
    requires forall r :: a <= r < b ==> !Listed(p, force, r)
    ensures Start(a, p.cols) <= Start(b, p.cols) <= p.Size()
    ensures DrawRows(insts, p, base, force, b) == DrawRows(insts, p, base, force, a)
  {
    if b < p.rows {
      LineStart(b, p.rows, p.cols);
    }
    if a < b {
      SkipRows(insts, p, base, force, a, b - 1);
    }
  }

  // ---- The pane's rows make up its range -------------------------------------------------

  ghost predicate RowsShown(insts: seq<Instance>, p: Pane, base: nat, n: nat)
    requires n <= p.rows && base + p.Size() <= |insts|
  {
    forall r :: 0 <= r < n ==> RowShown(insts, p, base, r)
  }

  ghost predicate RowShown(insts: seq<Instance>, p: Pane, base: nat, r: nat)
    requires r < p.rows && base + p.Size() <= |insts|
  {
    Fits(p, p.rows, r);
    RowAt(insts, base, r, p.cols) == EncodedRow(p, r)
  }

  lemma {:induction false} RangeIsRows(insts: seq<Instance>, p: Pane, base: nat, n: nat, end: nat)
    requires n <= p.rows && base + p.Size() <= |insts| && end == base + Start(n, p.cols)
    ensures end <= |insts|
    ensures insts[base..end] == FullEncoding(p, n) <==> RowsShown(insts, p, base, n)
  {
    if n > 0 {
      var m := n - 1;
      Fits(p, p.rows, m);
      var mid := base + Start(m, p.cols);
      RangeIsRows(insts, p, base, m, mid);
      SplitRange(insts[base..end], insts[base..mid], insts[mid..end], FullEncoding(p, m), EncodedRow(p, m));
      assert RowShown(insts, p, base, m) <==> insts[mid..end] == EncodedRow(p, m);
    }
  }

  lemma SplitRange(whole: seq<Instance>, a: seq<Instance>, b: seq<Instance>, x: seq<Instance>, y: seq<Instance>)
    requires whole == a + b && |a| == |x|
    ensures whole == x + y <==> a == x && b == y
  {
    if whole == x + y {
      assert a == whole[..|a|] && x == (x + y)[..|a|];
      assert b == whole[|a|..] && y == (x + y)[|a|..];
    }
  }

  // ---- All panes of a frame ------------------------------------------------------------------

  function Base(ps: seq<Pane>, i: nat): nat
    requires i <= |ps|
  {
    if i == 0 then 0 else Base(ps, i - 1) + ps[i - 1].Size()
  }

  function LayoutOf(ps: seq<Pane>, i: nat): Layout
    requires i < |ps|
  {
    Layout(ps[i].origin, Base(ps, i), ps[i].cols, ps[i].rows)
  }

  function Layouts(ps: seq<Pane>, n: nat): (ls: seq<Layout>)
    requires n <= |ps|
    ensures |ls| == n && forall i :: 0 <= i < n ==> ls[i] == LayoutOf(ps, i)
  {
    if n == 0 then [] else Layouts(ps, n - 1) + [LayoutOf(ps, n - 1)]
  }

  /** A pane whose place is not that of the last frame is drawn in full. */
  predicate Forced(ps: seq<Pane>, last: seq<Layout>, i: nat)
    requires i < |ps|
  {
    i >= |last| || last[i] != LayoutOf(ps, i)
  }

  /** The ranges are consecutive and disjoint. */
  lemma {:induction false} RangesAreDisjoint(ps: seq<Pane>, i: nat, j: nat)
    requires i < j <= |ps|
    ensures Base(ps, i) + ps[i].Size() <= Base(ps, j)
    ensures i + 1 == j ==> Base(ps, i) + ps[i].Size() == Base(ps, j)
  {
    if i + 1 < j {
      RangesAreDisjoint(ps, i, j - 1);
    }
  }

  function DrawPanes(insts: seq<Instance>, ps: seq<Pane>, last: seq<Layout>, n: nat): (out: seq<Instance>)
    requires n <= |ps| && Base(ps, n) <= |insts|
    ensures |out| == |insts|
  {
    if n == 0 then insts
    else
      DrawRows(DrawPanes(insts, ps, last, n - 1), ps[n - 1], Base(ps, n - 1), Forced(ps, last, n - 1), ps[n - 1].rows)
  }

  ghost predicate RowDrawn(insts: seq<Instance>, out: seq<Instance>, p: Pane, base: nat, force: bool, r: nat)
    requires r < p.rows && base + p.Size() <= |insts| == |out|
  {
    Fits(p, p.rows, r);
    RowAt(out, base, r, p.cols) == if Listed(p, force, r) then EncodedRow(p, r) else RowAt(insts, base, r, p.cols)
  }

  /** After a frame every row of every pane holds its new encoding if it is listed, and
      what it held before otherwise; no pane writes into another's range. */
  lemma {:induction false} FrameRow(insts: seq<Instance>, ps: seq<Pane>, last: seq<Layout>, n: nat, i: nat, r: nat)
    requires i < n <= |ps| && Base(ps, n) <= |insts| && r < ps[i].rows
    ensures Base(ps, i) + ps[i].Size() <= |insts|
    ensures RowDrawn(insts, DrawPanes(insts, ps, last, n), ps[i], Base(ps, i), Forced(ps, last, i), r)
  {
    var p, base, m := ps[i], Base(ps, i), n - 1;
    var before := DrawPanes(insts, ps, last, m);
    RangesAreDisjoint(ps, i, n);
    Fits(p, p.rows, r);
    var lo := base + Start(r, p.cols);
    if i < m {
      RangesAreDisjoint(ps, i, m);
      FrameRow(insts, ps, last, m, i, r);
      DrawnOutside(before, ps[m], Base(ps, m), Forced(ps, last, m), ps[m].rows, lo, lo + p.cols);
    } else {
      DrawnRow(before, p, base, Forced(ps, last, m), p.rows, r);
      EarlierOutside(insts, ps, last, m, lo, lo + p.cols);
    }
  }

  lemma {:induction false} EarlierOutside(insts: seq<Instance>, ps: seq<Pane>, last: seq<Layout>,
                                          n: nat, lo: nat, hi: nat)
    requires n <= |ps| && Base(ps, n) <= lo <= hi <= |insts|
    ensures DrawPanes(insts, ps, last, n)[lo..hi] == insts[lo..hi]
  {
    if n > 0 {
      var m := n - 1;
      EarlierOutside(insts, ps, last, m, lo, hi);
      DrawnOutside(DrawPanes(insts, ps, last, m), ps[m], Base(ps, m), Forced(ps, last, m), ps[m].rows, lo, hi);
    }
  }

  // ---- Incremental drawing is drawing in full ---------------------------------------------

  /** The range of pane `i` is the pane drawn in full. */
  predicate PaneShown(insts: seq<Instance>, ps: seq<Pane>, i: nat)
    requires i < |ps|
  {
    var base, end := Base(ps, i), Base(ps, i) + ps[i].Size();
    end <= |insts| && insts[base..end] == FullEncoding(ps[i], ps[i].rows)
  }

  predicate AllShown(insts: seq<Instance>, ps: seq<Pane>) {
    forall i :: 0 <= i < |ps| ==> PaneShown(insts, ps, i)
  }

  /** If a pane stayed at its place, the rows that changed since the last frame are listed. */
  predicate Reported(was: seq<Pane>, ps: seq<Pane>, i: nat)
    requires i < |ps|
  {
    i < |was| && LayoutOf(was, i) == LayoutOf(ps, i) ==>
      forall r :: 0 <= r < ps[i].rows && was[i].view[r] != ps[i].view[r] ==> Listed(ps[i], false, r)
  }

  lemma ShownByRows(insts: seq<Instance>, ps: seq<Pane>, i: nat, base: nat)
    requires i < |ps| && base == Base(ps, i) && base + ps[i].Size() <= |insts|
    ensures PaneShown(insts, ps, i) <==> RowsShown(insts, ps[i], base, ps[i].rows)
  {
    RangeIsRows(insts, ps[i], base, ps[i].rows, base + ps[i].Size());
  }

  lemma PaneKeepsShown(insts: seq<Instance>, was: seq<Pane>, ps: seq<Pane>, i: nat)
    requires AllShown(insts, was) && i < |ps| && Reported(was, ps, i) && Base(ps, |ps|) <= |insts|
    ensures PaneShown(DrawPanes(insts, ps, Layouts(was, |was|), |ps|), ps, i)
  {
    var base, n := Base(ps, i), |ps|;
    RangesAreDisjoint(ps, i, n);
    forall r | 0 <= r < ps[i].rows ensures RowShown(DrawPanes(insts, ps, Layouts(was, |was|), n), ps[i], base, r) {
      RowKeepsShown(insts, was, ps, i, n, base, r);
    }
    ShownByRows(DrawPanes(insts, ps, Layouts(was, |was|), n), ps, i, base);
  }

  lemma RowKeepsShown(insts: seq<Instance>, was: seq<Pane>, ps: seq<Pane>, i: nat, n: nat, base: nat, r: nat)
    requires AllShown(insts, was) && i < n <= |ps| && Reported(was, ps, i) && Base(ps, n) <= |insts|
    requires base == Base(ps, i) && r < ps[i].rows
    ensures base + ps[i].Size() <= |insts|
    ensures RowShown(DrawPanes(insts, ps, Layouts(was, |was|), n), ps[i], base, r)
  {
    var last := Layouts(was, |was|);
    FrameRow(insts, ps, last, n, i, r);
    if !Listed(ps[i], Forced(ps, last, i), r) {
      UnlistedRow(insts, was, ps, i, base, r);
    }
    ShownAfter(insts, DrawPanes(insts, ps, last, n), ps[i], base, Forced(ps, last, i), r);
  }

  lemma ShownAfter(insts: seq<Instance>, out: seq<Instance>, p: Pane, base: nat, force: bool, r: nat)
    requires r < p.rows && base + p.Size() <= |insts| == |out|
    requires RowDrawn(insts, out, p, base, force, r)
    requires Listed(p, force, r) || RowShown(insts, p, base, r)
    ensures RowShown(out, p, base, r)
  {
  }

  lemma UnlistedRow(insts: seq<Instance>, was: seq<Pane>, ps: seq<Pane>, i: nat, base: nat, r: nat)
    requires AllShown(insts, was) && i < |ps| && Reported(was, ps, i) && base == Base(ps, i)
    requires base + ps[i].Size() <= |insts|
    requires r < ps[i].rows && !Listed(ps[i], Forced(ps, Layouts(was, |was|), i), r)
    ensures RowShown(insts, ps[i], base, r)
  {
    assert LayoutOf(was, i) == LayoutOf(ps, i) && PaneShown(insts, was, i);
    ShownByRows(insts, was, i, base);
    UnchangedRow(insts, was[i], ps[i], base, r);
  }

  /** A row that did not change is encoded as it was. */
  lemma UnchangedRow(insts: seq<Instance>, was: Pane, p: Pane, base: nat, r: nat)
    requires was.rows == p.rows && was.cols == p.cols && was.origin == p.origin
    requires r < p.rows && was.view[r] == p.view[r] && base + p.Size() <= |insts|
    requires RowsShown(insts, was, base, was.rows)
    ensures RowShown(insts, p, base, r)
  {
    assert RowShown(insts, was, base, r);
    assert EncodedRow(was, r) == EncodedRow(p, r);
  }

  /** With an array that did not grow, the frame shows every pane as a redraw would. */
  lemma FrameKeepsShown(insts: seq<Instance>, was: seq<Pane>, ps: seq<Pane>)
    requires AllShown(insts, was) && Base(ps, |ps|) <= |insts|
    requires forall i :: 0 <= i < |ps| ==> Reported(was, ps, i)
    ensures AllShown(DrawPanes(insts, ps, Layouts(was, |was|), |ps|), ps)
  {
    forall i | 0 <= i < |ps| ensures PaneShown(DrawPanes(insts, ps, Layouts(was, |was|), |ps|), ps, i) {
      PaneKeepsShown(insts, was, ps, i);
    }
  }

  /** Every row of pane `i` that is encoded differently than what its place shows is listed. */
  predicate Repaints(was: seq<Pane>, ps: seq<Pane>, i: nat)
    requires i < |was| && i < |ps| && was[i].rows == ps[i].rows
  {
    forall r :: 0 <= r < ps[i].rows && EncodedRow(was[i], r) != EncodedRow(ps[i], r) ==> Listed(ps[i], false, r)
  }

  /** Whatever pane takes an unchanged place, of the same terminal or of another: it is shown
      exactly if it repaints what differs. */
  lemma PlaceShownIff(insts: seq<Instance>, was: seq<Pane>, ps: seq<Pane>, i: nat)
    requires AllShown(insts, was) && Base(ps, |ps|) <= |insts|
    requires i < |ps| && i < |was| && LayoutOf(was, i) == LayoutOf(ps, i)
    ensures PaneShown(DrawPanes(insts, ps, Layouts(was, |was|), |ps|), ps, i) <==> Repaints(was, ps, i)
  {
    var base, last := Base(ps, i), Layouts(was, |was|);
    var out := DrawPanes(insts, ps, last, |ps|);
    RangesAreDisjoint(ps, i, |ps|);
    ShownByRows(out, ps, i, base);
    assert PaneShown(insts, was, i);
    ShownByRows(insts, was, i, base);
    forall r | 0 <= r < ps[i].rows
      ensures RowShown(out, ps[i], base, r) <==>
        EncodedRow(was[i], r) == EncodedRow(ps[i], r) || Listed(ps[i], false, r)
    {
      FrameRow(insts, ps, last, |ps|, i, r);
      PlaceRow(insts, out, was[i], ps[i], base, r);
    }
  }

  lemma PlaceRow(insts: seq<Instance>, out: seq<Instance>, was: Pane, p: Pane, base: nat, r: nat)
    requires was.rows == p.rows && was.cols == p.cols && r < p.rows && base + p.Size() <= |insts| == |out|
    requires RowsShown(insts, was, base, was.rows) && RowDrawn(insts, out, p, base, false, r)
    ensures RowShown(out, p, base, r) <==> EncodedRow(was, r) == EncodedRow(p, r) || Listed(p, false, r)
  {
    assert RowShown(insts, was, base, r);
  }

  /** A pane that scrolled, or is to be drawn in full, is shown whatever its place showed before. */
  lemma FullPaneIsShown(insts: seq<Instance>, ps: seq<Pane>, last: seq<Layout>, i: nat)
    requires i < |ps| && Base(ps, |ps|) <= |insts| && (ps[i].dirty.fullRedraw || ps[i].dirty.scrollDelta != 0)
    ensures PaneShown(DrawPanes(insts, ps, last, |ps|), ps, i)
  {
    var out, base := DrawPanes(insts, ps, last, |ps|), Base(ps, i);
    RangesAreDisjoint(ps, i, |ps|);
    forall r | 0 <= r < ps[i].rows ensures RowShown(out, ps[i], base, r) {
      FrameRow(insts, ps, last, |ps|, i, r);
    }
    ShownByRows(out, ps, i, base);
  }

  // ---- Growing the array wipes it -----------------------------------------------------------

  function Cleared(n: nat): (insts: seq<Instance>)
    ensures |insts| == n && forall k :: 0 <= k < n ==> insts[k] == Clear
  {
    seq(n, _ => Clear)
  }

  /** A row that looks like cleared slots: it has no cells, or one, at the window's origin, that
      draws nothing. */
  predicate LooksCleared(p: Pane, r: nat)
    requires r < p.rows
  {
    p.cols == 0 || (p.cols == 1 && r == 0 && p.origin == Origin(0, 0) && DrawsNothing(p.view[0][0]))
  }

  /** Every row of the pane is listed or looks like cleared slots. */
  predicate SurvivesGrowth(ps: seq<Pane>, last: seq<Layout>, i: nat)
    requires i < |ps|
  {
    forall r :: 0 <= r < ps[i].rows ==> Listed(ps[i], Forced(ps, last, i), r) || LooksCleared(ps[i], r)
  }

  predicate AllSurvive(ps: seq<Pane>, last: seq<Layout>) {
    forall i :: 0 <= i < |ps| ==> SurvivesGrowth(ps, last, i)
  }

  /** After the array grew a pane is shown exactly if every row of it is drawn again or looks
      cleared. A pane that stayed at its place and is clean loses its rows. */
  lemma GrowthShowsIff(n: nat, ps: seq<Pane>, last: seq<Layout>, i: nat)
    requires i < |ps| && Base(ps, |ps|) <= n
    ensures PaneShown(DrawPanes(Cleared(n), ps, last, |ps|), ps, i) <==> SurvivesGrowth(ps, last, i)
  {
    var p, base := ps[i], Base(ps, i);
    var out := DrawPanes(Cleared(n), ps, last, |ps|);
    RangesAreDisjoint(ps, i, |ps|);
    RangeIsRows(out, p, base, p.rows, base + p.Size());
    forall r | 0 <= r < p.rows
      ensures RowShown(out, p, base, r) <==> Listed(p, Forced(ps, last, i), r) || LooksCleared(p, r)
    {
      FrameRow(Cleared(n), ps, last, |ps|, i, r);
      ClearedRowIff(n, p, base, r);
    }
  }

  lemma ClearedRowIff(n: nat, p: Pane, base: nat, r: nat)
    requires r < p.rows && base + p.Size() <= n
    ensures base + Start(r, p.cols) + p.cols <= n
    ensures RowAt(Cleared(n), base, r, p.cols) == EncodedRow(p, r) <==> LooksCleared(p, r)
  {
    Fits(p, p.rows, r);
    var row, drawn := RowAt(Cleared(n), base, r, p.cols), EncodedRow(p, r);
    if p.cols > 1 {
      assert row[1] == Clear && drawn[1] != Clear;
    } else if p.cols == 1 {
      assert row[0] == Clear;
      assert drawn == [drawn[0]] && row == [row[0]];
    }
  }

  /** Opening a second pane beside a clean one that filled the array wipes the first. */
  lemma SplitWipesTheFirst(a: Pane, b: Pane)
    requires a.rows > 0 && !LooksCleared(a, a.rows - 1) && a.dirty == Clean(a.rows)
    ensures var n := a.Size() + b.Size();
      Base([a, b], 2) == n && !PaneShown(DrawPanes(Cleared(n), [a, b], Layouts([a], 1), 2), [a, b], 0)
  {
    var ps := [a, b];
    assert Base(ps, 1) == a.Size() && Base(ps, 2) == Base(ps, 1) + b.Size();
    GrowthShowsIff(a.Size() + b.Size(), ps, Layouts([a], 1), 0);
    assert Layouts([a], 1)[0] == LayoutOf([a], 0) == LayoutOf(ps, 0);
    ZeroHasNoBits(a.rows - 1);
    assert !Listed(ps[0], Forced(ps, Layouts([a], 1), 0), a.rows - 1);
  }
}
