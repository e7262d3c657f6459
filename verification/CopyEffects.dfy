/** What copying a selection gives: the characters of exactly the cells that are selected, and any
    part of a printed line. */
module CopyEffects {
  import opened Cells
  import opened Offsets
  import opened Selections
  import opened TerminalSpec
  import opened TextLayout

  /** The characters of the selected ones of the first `k` cells of row `r`; empty cells and second
      halves hold none. */
  function SelectedChars(cells: seq<Cell>, sel: Selection, cols: nat, r: nat, k: nat): seq<u32>
    requires k <= |cells| && cols > 0
  {
    if k == 0 then []
    else
      var c := cells[k - 1];
      SelectedChars(cells, sel, cols, r, k - 1)
      + (if IsSelected(sel, cols, r, k - 1) && c.ch != 0 && c.flags % 2 == 0 then [c.ch] else [])
  }

  /** The selected characters of the first `n` rows, with a line break after every selected row that
      is not wrapped but the last. */
  function SelectedText(w: seq<Row>, sel: Selection, cols: nat, n: nat): seq<u32>
    requires n <= |w| && cols > 0
  {
    if n == 0 then []
    else
      var r := n - 1;
      SelectedText(w, sel, cols, r)
      + (SelectedChars(w[r].cells, sel, cols, r, |w[r].cells|)
         + if sel.Top().row <= r < sel.Bottom().row && !w[r].isWrapped then [10] else [])
  }

  /** Where copying does not abort it gives the selected characters of the window, whatever the
      selection, row by row in column order. */
  lemma CopiesSelected(w: seq<Row>, sel: Selection, cols: nat)
    requires sel.Bottom().row < |w| && cols > 0 && CopiedText(w, sel, cols).Some?
    ensures CopiedText(w, sel, cols).value == SelectedText(w, sel, cols, |w|)
  {
    RowsCopied(w, sel, cols, sel.Bottom().row + 1);
    NothingBelow(w, sel, cols, sel.Bottom().row + 1, |w|);
  }

  lemma {:induction false} RowsCopied(w: seq<Row>, sel: Selection, cols: nat, n: nat)
    requires Within(sel, w, cols) && n <= sel.Bottom().row + 1 && Copied(w, sel, cols, n).Some?
    ensures Copied(w, sel, cols, n).value == SelectedText(w, sel, cols, n)
  {
    if n > 0 {
      var r := n - 1;
      SelectedNext(w, sel, cols, r, n);
      if n <= sel.Top().row {
        RowsCopied(w, sel, cols, r);
        NoneSelected(w[r].cells, sel, cols, r, |w[r].cells|);
      } else {
        CopiedNext(w, sel, cols, r, n);
        RowsCopied(w, sel, cols, r);
        LineCopied(w[r], sel, cols, r);
      }
    }
  }

  lemma SelectedNext(w: seq<Row>, sel: Selection, cols: nat, r: nat, n: nat)
    requires n == r + 1 <= |w| && cols > 0
    ensures SelectedText(w, sel, cols, n) ==
      SelectedText(w, sel, cols, r)
      + (SelectedChars(w[r].cells, sel, cols, r, |w[r].cells|)
         + if sel.Top().row <= r < sel.Bottom().row && !w[r].isWrapped then [10] else [])
  {
  }

  lemma {:induction false} NothingBelow(w: seq<Row>, sel: Selection, cols: nat, m: nat, n: nat)
    requires Within(sel, w, cols) && sel.Bottom().row < m <= n <= |w|
    ensures SelectedText(w, sel, cols, n) == SelectedText(w, sel, cols, m)
  {
    if m < n {
      NothingBelow(w, sel, cols, m, n - 1);
      NoneSelected(w[n - 1].cells, sel, cols, n - 1, |w[n - 1].cells|);
    }
  }

  lemma {:induction false} NoneSelected(cells: seq<Cell>, sel: Selection, cols: nat, r: nat, k: nat)
    requires k <= |cells| && cols > 0 && (r < sel.Top().row || sel.Bottom().row < r)
    ensures SelectedChars(cells, sel, cols, r, k) == []
  {
    if k > 0 {
      NoneSelected(cells, sel, cols, r, k - 1);
    }
  }

  lemma LineCopied(row: Row, sel: Selection, cols: nat, r: nat)
    requires cols > 0 && sel.Top().row <= r <= sel.Bottom().row && CopiedLine(row, sel, cols, r).Some?
    ensures CopiedLine(row, sel, cols, r).value
         == SelectedChars(row.cells, sel, cols, r, |row.cells|)
            + if r < sel.Bottom().row && !row.isWrapped then [10] else []
  {
    var from, to := sel.From(r), sel.To(r, cols);
    PartIsSelected(row.cells, sel, cols, r, from, PartEnd(row, to));
  }

  /** The cells from `from` to `end` are the selected ones. */
  predicate SelectedAre(cells: seq<Cell>, sel: Selection, cols: nat, r: nat, from: nat, end: nat) {
    && cols > 0 && from <= end <= |cells|
    && forall c :: 0 <= c < |cells| ==> (IsSelected(sel, cols, r, c) <==> from <= c < end)
  }

  lemma PartIsSelected(cells: seq<Cell>, sel: Selection, cols: nat, r: nat, from: nat, end: nat)
    requires SelectedAre(cells, sel, cols, r, from, end)
    ensures SelectedChars(cells, sel, cols, r, |cells|) == RowText(cells[from..end], end - from)
  {
    PartSelected(cells, sel, cols, r, from, end, end, end - from);
    NoneAfter(cells, sel, cols, r, from, end, |cells|);
  }

  lemma {:induction false} NoneBefore(cells: seq<Cell>, sel: Selection, cols: nat, r: nat, from: nat, end: nat, k: nat)
    requires SelectedAre(cells, sel, cols, r, from, end) && k <= from
    ensures SelectedChars(cells, sel, cols, r, k) == []
  {
    if k > 0 {
      NoneBefore(cells, sel, cols, r, from, end, k - 1);
    }
  }

  lemma {:induction false} PartSelected(cells: seq<Cell>, sel: Selection, cols: nat, r: nat,
                                        from: nat, end: nat, k: nat, i: nat)
    requires SelectedAre(cells, sel, cols, r, from, end) && k == from + i <= end
    ensures SelectedChars(cells, sel, cols, r, k) == RowText(cells[from..end], i)
  {
    if i == 0 {
      NoneBefore(cells, sel, cols, r, from, end, k);
    } else {
      PartSelected(cells, sel, cols, r, from, end, k - 1, i - 1);
      OneCellMore(cells, sel, cols, r, k - 1, k);
      TextNext(cells[from..end], i - 1, i);
    }
  }

  lemma {:induction false} NoneAfter(cells: seq<Cell>, sel: Selection, cols: nat, r: nat, from: nat, end: nat, k: nat)
    requires SelectedAre(cells, sel, cols, r, from, end) && end <= k <= |cells|
    ensures SelectedChars(cells, sel, cols, r, k) == SelectedChars(cells, sel, cols, r, end)
  {
    if end < k {
      NoneAfter(cells, sel, cols, r, from, end, k - 1);
    }
  }

  lemma OneCellMore(cells: seq<Cell>, sel: Selection, cols: nat, r: nat, j: nat, k: nat)
    requires k == j + 1 <= |cells| && cols > 0
    ensures SelectedChars(cells, sel, cols, r, k) == SelectedChars(cells, sel, cols, r, j)
      + (if IsSelected(sel, cols, r, j) && cells[j].ch != 0 && cells[j].flags % 2 == 0 then [cells[j].ch] else [])
  {
  }

  lemma TextNext(cells: seq<Cell>, j: nat, k: nat)
    requires k == j + 1 <= |cells|
    ensures RowText(cells, k) == RowText(cells, j) + CellText(cells[j])
  {
  }

  // ---- A part of a printed line ----------------------------------------------------------------------

  /** Text of narrow characters that fits the screen of a new terminal: selecting columns `a` to `b`
      of line `r` copies exactly the characters printed there. */
  lemma PartOfLineCopies(cols: nat, rows: nat, limit: nat, text: Text, r: nat, a: nat, b: nat, first: nat, last: nat)
    requires 1 <= rows && 1 <= cols <= MAX_COLS && LastLine(|text|, cols) < rows
    requires r < rows && a <= b < cols && first == r * cols + a && last == r * cols + b + 1
    ensures CopiedText(WindowRows(WriteAll(Fresh(cols, rows, limit), text, |text|)),
                       Selection(Position(r, a), Position(r, b)), cols)
         == Some(CodesOf(text, Min(first, |text|), Min(last, |text|)))
  {
    TextIsLaidOut(cols, rows, limit, text, |text|);
    StartIsProduct(r, cols);
    PartCopies(WriteAll(Fresh(cols, rows, limit), text, |text|), cols, text, r, a, b, first, last);
  }

  lemma PartCopies(s: State, cols: nat, text: Text, r: nat, a: nat, b: nat, first: nat, last: nat)
    requires cols == s.cols && r < s.rows && LastLine(|text|, cols) < s.rows && a <= b < cols
    requires Shows(s, Layout(text, |text|, cols), Column(|text|, cols), Pending(|text|, cols))
    requires first == Start(r, cols) + a && last == Start(r, cols) + b + 1
    ensures CopiedText(WindowRows(s), Selection(Position(r, a), Position(r, b)), cols)
         == Some(CodesOf(text, Min(first, |text|), Min(last, |text|)))
  {
    PrintedRow(s, text, r);
    LineCopies(WindowRows(s), text, Start(r, cols), cols, r, a, b, first, last);
  }

  /** The codes of the characters from `from` on, before `to`. */
  function CodesOf(text: Text, from: nat, to: nat): seq<u32>
    requires from <= to <= |text|
  {
    seq(to - from, i requires 0 <= i < to - from => text[from + i].code)
  }

  lemma PrintedRow(s: State, text: Text, r: nat)
    requires r < s.rows && LastLine(|text|, s.cols) < s.rows
    requires Shows(s, Layout(text, |text|, s.cols), Column(|text|, s.cols), Pending(|text|, s.cols))
    ensures HoldsText(WindowRows(s)[r].cells, text, Start(r, s.cols), s.cols)
  {
    var n := |text|;
    var p := Layout(text, n, s.cols);
    var blanks := BlankRows(s.rows - |p|, s.cols);
    assert s.scrollOffset == 0;
    SeesScreen(s);
    ShownParts(s, p, Column(n, s.cols), Pending(n, s.cols), 0, blanks);
    LayoutHolds(text, p, blanks, s.cols, r, s.screen[r]);
  }

  lemma LayoutHolds(text: Text, p: seq<Row>, blanks: seq<Row>, cols: nat, r: nat, row: Row)
    requires cols > 0 && p == Layout(text, |text|, cols) && blanks == BlankRows(|blanks|, cols)
    requires r < |p + blanks| && row == (p[0..] + blanks)[r]
    ensures HoldsText(row.cells, text, Start(r, cols), cols)
  {
    var n := |text|;
    if r < |p| {
      assert row == p[r] == LayoutRow(text, n, cols, r, LastLine(n, cols));
    } else {
      assert row == blanks[r - |p|] == BlankRow(cols);
      EndOfLines(n, cols, |p|);
      StartsGrow(|p|, r, cols);
    }
  }

  /** The cells are those of the text from position `start` on. */
  predicate HoldsText(cells: seq<Cell>, text: Text, start: nat, k: nat) {
    |cells| == k && forall c :: 0 <= c < k ==> cells[c] == CellAt(text, |text|, start + c)
  }

  lemma {:induction false} StartsGrow(i: nat, j: nat, cols: nat)
    requires i <= j
    ensures Start(i, cols) <= Start(j, cols)
  {
    if i < j {
      StartsGrow(i, j - 1, cols);
    }
  }

  lemma LineCopies(w: seq<Row>, text: Text, start: nat, cols: nat, r: nat, a: nat, b: nat, first: nat, last: nat)
    requires r < |w| && a <= b < cols && HoldsText(w[r].cells, text, start, cols)
    requires first == start + a && last == start + b + 1
    ensures CopiedText(w, Selection(Position(r, a), Position(r, b)), cols)
         == Some(CodesOf(text, Min(first, |text|), Min(last, |text|)))
  {
    var sel, cells, end := Selection(Position(r, a), Position(r, b)), w[r].cells, b + 1;
    OneLine(w, sel, cols, r);
    assert sel.Left() == a && sel.Right() == b;
    PartIs(w[r], a, b, end);
    PartHolds(cells, text, start, cols, a, end, first);
    PlainCodes(cells[a..end], text, first, last, end - a, end - a);
  }

  lemma PartIs(row: Row, a: nat, b: nat, end: nat)
    requires a <= b && end == b + 1 <= |row.cells|
    ensures PartText(row, a, b) == Some(RowText(row.cells[a..end], end - a))
  {
  }

  lemma PartHolds(cells: seq<Cell>, text: Text, start: nat, cols: nat, a: nat, end: nat, first: nat)
    requires a <= end <= cols && HoldsText(cells, text, start, cols) && first == start + a
    ensures HoldsText(cells[a..end], text, first, end - a)
  {
    forall c | 0 <= c < end - a ensures cells[a..end][c] == CellAt(text, |text|, first + c) {
      assert cells[a + c] == CellAt(text, |text|, start + (a + c));
    }
  }

  lemma OneLine(w: seq<Row>, sel: Selection, cols: nat, r: nat)
    requires r < |w| && cols > 0 && sel.start.row == sel.end.row == r
    ensures CopiedText(w, sel, cols) == PartText(w[r], sel.Left(), sel.Right())
  {
    var part, line := PartText(w[r], sel.Left(), sel.Right()), CopiedLine(w[r], sel, cols, r);
    assert sel.Top().row == sel.Bottom().row == r && sel.From(r) == sel.Left() && sel.To(r, cols) == sel.Right();
    CopiedNext(w, sel, cols, r, r + 1);
    assert Copied(w, sel, cols, r) == Some([]);
    assert CopiedText(w, sel, cols) == Followed(Some([]), line);
    if part.Some? {
      assert part.value + [] == part.value && [] + part.value == part.value;
    }
  }

  lemma {:induction false} PlainCodes(cells: seq<Cell>, text: Text, first: nat, last: nat, k: nat, size: nat)
    requires HoldsText(cells, text, first, size) && k <= size && last == first + k
    ensures RowText(cells, k) == CodesOf(text, Min(first, |text|), Min(last, |text|))
  {
    if k > 0 {
      PlainCodes(cells, text, first, last - 1, k - 1, size);
      assert cells[k - 1] == CellAt(text, |text|, first + (k - 1));
    }
  }
}
