/** Scrolling down. The source promises blank lines at the top of the screen; they enter above
    the raw history, so the rows that scrolled out last come back instead. */
module ScrollLaws {
  import opened Cells
  import opened TerminalSpec
  import opened TerminalRuns

  /** The raw grid: the history that is not tiered, then the screen. */
  function Raw(s: State): seq<Row> { s.history[s.tiered..] + s.screen }

  lemma RawParts(s: State)
    ensures |Raw(s)| == |s.history| - s.tiered + s.rows
    ensures Raw(s)[|s.history| - s.tiered..] == s.screen
    ensures s.history == s.history[..s.tiered] + s.history[s.tiered..]
  {
  }

  /** `n` blank rows enter at the front and as many leave at the back. */
  function Lowered(rows: seq<Row>, n: nat, cols: nat): seq<Row> {
    var k := Min(n, |rows|);
    BlankRows(k, cols) + rows[..|rows| - k]
  }

  /** Where the rows that scrolling down moves end up, for every number of lines: the tiered rows
      and the size of the history stay, and the raw grid is lowered as a whole. */
  lemma {:induction false} DownClosed(s: State, n: nat)
    ensures var r := ScrollDownTimes(s, n);
      && r == s.(history := r.history, screen := r.screen)
      && |r.history| == |s.history| && r.history[..s.tiered] == s.history[..s.tiered]
      && Raw(r) == Lowered(Raw(s), n, s.cols)
  {
    if n == 0 {
      assert Lowered(Raw(s), 0, s.cols) == Raw(s);
    } else {
      var m := n - 1;
      DownClosed(s, m);
      DownOneRaw(ScrollDownTimes(s, m));
      LoweredNext(Raw(s), m, n, s.cols);
      DownNext(s, m, n);
    }
  }

  lemma DownNext(s: State, m: nat, n: nat)
    requires n == m + 1
    ensures ScrollDownTimes(s, n) == ScrollDownOne(ScrollDownTimes(s, m))
  {
  }

  lemma DownOneRaw(s: State)
    ensures var r := ScrollDownOne(s);
      && r == s.(history := r.history, screen := r.screen)
      && |r.history| == |s.history| && r.history[..s.tiered] == s.history[..s.tiered]
      && Raw(r) == [BlankRow(s.cols)] + Raw(s)[..|Raw(s)| - 1]
  {
    if |s.history| == s.tiered {
      assert Raw(s) == s.screen;
    } else {
      DownDeep(s.history, s.tiered, s.screen, BlankRow(s.cols));
    }
  }

  lemma DownDeep(h: seq<Row>, t: nat, v: seq<Row>, blank: Row)
    requires t < |h| && v != []
    ensures var h', v' := h[..t] + [blank] + h[t..|h| - 1], [h[|h| - 1]] + v[..|v| - 1];
      && h'[..t] == h[..t]
      && h'[t..] + v' == [blank] + (h[t..] + v)[..|h| - t + |v| - 1]
  {
    var h', raw := h[..t] + [blank] + h[t..|h| - 1], h[t..] + v;
    assert h'[t..] == [blank] + h[t..|h| - 1];
    assert raw[..|raw| - 1] == h[t..|h| - 1] + [h[|h| - 1]] + v[..|v| - 1];
  }

  lemma LoweredNext(rows: seq<Row>, m: nat, n: nat, cols: nat)
    requires n == m + 1 && rows != []
    ensures var r := Lowered(rows, m, cols); Lowered(rows, n, cols) == [BlankRow(cols)] + r[..|r| - 1]
  {
  }

  /** The event does just that, and marks everything. */
  lemma LowersGrid(s: State, n: nat, r: State)
    requires Run(s, [ScrollDownEvent(n)]) == Some(r)
    ensures |r.history| == |s.history| && r.history[..s.tiered] == s.history[..s.tiered]
    ensures r == s.(history := r.history, screen := r.screen, dirty := s.dirty.MarkAll())
    ensures Raw(r) == Lowered(Raw(s), n, s.cols)
  {
    OneEdit(s, ScrollDownEvent(n), r);
    DownClosed(s, n);
  }

  /** What scrolling down is said to do to the screen. */
  function BlankLinesEnter(s: State, n: nat): seq<Row> { Lowered(s.screen, n, s.cols) }

  /** Of the rows `h` above a screen of `rows` rows, those that scrolling down by `n` leaves on
      the screen are blank. */
  predicate OnlyBlanksEnter(h: seq<Row>, rows: nat, n: nat, cols: nat) {
    forall i: nat :: i < |h| && |h| <= i + n < |h| + rows ==> h[i] == BlankRow(cols)
  }

  /** `n` blank lines enter at the top of the screen exactly if every row of the raw history that
      moves onto it is blank. */
  lemma ScrollDownIff(s: State, n: nat)
    ensures ScrollDown(s, n).screen == BlankLinesEnter(s, n) <==>
      OnlyBlanksEnter(s.history[s.tiered..], s.rows, n, s.cols)
  {
    var r := ScrollDownTimes(s, n);
    DownClosed(s, n);
    RawParts(r);
    LoweredTail(s.history[s.tiered..], s.screen, n, s.cols);
  }

  lemma LoweredTail(h: seq<Row>, v: seq<Row>, n: nat, cols: nat)
    ensures Lowered(h + v, n, cols)[|h|..] == Lowered(v, n, cols) <==> OnlyBlanksEnter(h, |v|, n, cols)
  {
    var a, b := Lowered(h + v, n, cols)[|h|..], Lowered(v, n, cols);
    assert |a| == |b| == |v|;
    forall k | 0 <= k < |v|
      ensures a[k] == LoweredAt(h, v, n, k, cols)
      ensures b[k] == if k < n then BlankRow(cols) else v[k - n]
    {
    }
    if i: nat :| i < |h| && |h| <= i + n < |h| + |v| && h[i] != BlankRow(cols) {
      assert a[i + n - |h|] != b[i + n - |h|];
    } else {
      assert a == b;
    }
  }

  /** Row `k` below the first of `v` after `h + v` was lowered. */
  function LoweredAt(h: seq<Row>, v: seq<Row>, n: nat, k: nat, cols: nat): Row
    requires k < |v|
  {
    if k >= n then v[k - n]
    else if |h| + k >= n then h[|h| + k - n]
    else BlankRow(cols)
  }

  // ---- Scrolling down undoes scrolling up -------------------------------------------------------

  predicate EndsIn(rows: seq<Row>, tail: seq<Row>) {
    |tail| <= |rows| && rows[|rows| - |tail|..] == tail
  }

  /** No more rows than the raw history keeps: the screen comes back as it was, with no blank
      line. */
  lemma DownUndoesUp(s: State, n: nat)
    requires n <= HOT_CAP
    ensures ScrollDown(ScrollUp(s, n), n).screen == s.screen
  {
    var u := MarkAll(ScrollUpTimes(s, n));
    UpTail(s, n);
    DownClosed(u, n);
    RawParts(ScrollDownTimes(u, n));
    LoweredBack(Raw(u), s.screen, n, s.cols);
  }

  lemma LoweredBack(raw: seq<Row>, v: seq<Row>, n: nat, cols: nat)
    requires EndsIn(raw, v + BlankRows(n, cols))
    ensures EndsIn(Lowered(raw, n, cols), v)
  {
    var l, from := Lowered(raw, n, cols), |raw| - |v| - n;
    forall k | 0 <= k < |v| ensures l[|raw| - |v| + k] == v[k] {
      assert raw[from..][k] == v[k];
    }
  }

  /** The raw grid ends in the old screen and the blank rows that entered. */
  lemma {:induction false} UpTail(s: State, n: nat)
    requires n <= HOT_CAP
    ensures EndsIn(Raw(ScrollUpTimes(s, n)), s.screen + BlankRows(n, s.cols))
  {
    if n == 0 {
      RawParts(s);
      assert s.screen + BlankRows(0, s.cols) == s.screen;
    } else {
      var m := n - 1;
      var u, blanks := ScrollUpTimes(s, m), BlankRows(m, s.cols);
      UpTail(s, m);
      UpOneRaw(u);
      RawParts(u);
      UpNext(s, m, n);
      TailNext(Raw(u), Raw(ScrollUpOne(u)), s.screen + blanks, BlankRow(s.cols));
      assert BlankRows(n, s.cols) == blanks + [BlankRow(s.cols)];
      assert (s.screen + blanks) + [BlankRow(s.cols)] == s.screen + (blanks + [BlankRow(s.cols)]);
    }
  }

  lemma UpNext(s: State, m: nat, n: nat)
    requires n == m + 1
    ensures ScrollUpTimes(s, n) == ScrollUpOne(ScrollUpTimes(s, m))
  {
  }

  lemma UpOneRaw(s: State)
    ensures Raw(ScrollUpOne(s))
         == (if |s.history| - s.tiered < HOT_CAP then Raw(s) else Raw(s)[1..]) + [BlankRow(s.cols)]
  {
    UpDeep(s.history, s.tiered, s.screen, BlankRow(s.cols));
  }

  lemma UpDeep(h: seq<Row>, t: nat, v: seq<Row>, blank: Row)
    requires t <= |h| && v != []
    ensures (h + [v[0]])[t..] + (v[1..] + [blank]) == h[t..] + v + [blank]
    ensures t < |h| ==> (h + [v[0]])[t + 1..] + (v[1..] + [blank]) == (h[t..] + v)[1..] + [blank]
    ensures t < |h| ==> (h[..t] + h[t + 1..] + [v[0]])[t..] + (v[1..] + [blank]) == (h[t..] + v)[1..] + [blank]
  {
    if t < |h| {
      assert (h[..t] + h[t + 1..] + [v[0]])[t..] == h[t + 1..] + [v[0]];
    }
  }

  lemma TailNext(rows: seq<Row>, next: seq<Row>, tail: seq<Row>, row: Row)
    requires EndsIn(rows, tail)
    requires next == rows + [row] || (|rows| > |tail| && next == rows[1..] + [row])
    ensures EndsIn(next, tail + [row])
  {
    assert next[|next| - |tail| - 1..] == rows[|rows| - |tail|..] + [row];
  }

  /** A new terminal of any size and limit: print a character, scroll up by a line and down again.
      The character is back, where a blank line should have entered. */
  lemma OldRowComesBack(cols: nat, rows: nat, limit: nat, c: Char)
    requires 1 <= rows && 1 <= cols <= MAX_COLS && 0 < c.width <= cols && !c.IsControl()
    ensures var es := [Write(c), ScrollUpEvent(1), ScrollDownEvent(1)];
      var r := Run(Fresh(cols, rows, limit), es);
      r.Some? && r.value.screen[0].cells[0].ch == c.code && r.value.screen[0] != BlankRow(cols)
  {
    var f := Fresh(cols, rows, limit);
    FirstCharacter(f, c);
    ThreeEvents(f, Write(c), ScrollUpEvent(1), ScrollDownEvent(1));
    BackAgain(PutChar(f, c));
  }

  lemma BackAgain(s: State)
    ensures Apply(Apply(s, ScrollUpEvent(1)), ScrollDownEvent(1)).screen == s.screen
  {
    AppliesScroll(s, 1);
    AppliesScroll(ScrollUp(s, 1), 1);
    DownUndoesUp(s, 1);
  }

  lemma AppliesScroll(s: State, n: nat)
    ensures Apply(s, ScrollUpEvent(n)) == ScrollUp(s, n)
    ensures Apply(s, ScrollDownEvent(n)) == ScrollDown(s, n)
  {
  }

  lemma FirstCharacter(s: State, c: Char)
    requires s.cursor.col == 0 && s.cursor.row == 0 && !s.pendingWrap
    requires 0 < c.width <= s.cols && !c.IsControl()
    ensures Apply(s, Write(c)) == PutChar(s, c)
    ensures var row := PutChar(s, c).screen[0]; row.cells[0].ch == c.code && (c.code != 0 ==> row != BlankRow(s.cols))
  {
  }

  lemma ThreeEvents(s: State, a: Event, b: Event, c: Event)
    requires !Aborts(s, a) && !Aborts(Apply(s, a), b) && !Aborts(Apply(Apply(s, a), b), c)
    ensures Run(s, [a, b, c]) == Some(Apply(Apply(Apply(s, a), b), c))
  {
    assert [a, b, c][1..] == [b, c] && [b, c][1..] == [c] && [c][1..] == [];
    var t := Apply(Apply(s, a), b);
    assert Run(t, [c]) == Run(Apply(t, c), []);
    assert Run(Apply(s, a), [b, c]) == Run(t, [c]);
  }
}
