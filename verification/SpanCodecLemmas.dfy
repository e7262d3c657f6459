/** What the span codec promises: reading back what was written, the exact set of
    rows it reproduces unchanged, and how few spans and bytes it needs. */
module SpanCodecLemmas {
  import opened Bits
  import opened Cells
  import opened SpanCodec

  // ---- Bytes and bits ---------------------------------------------------------

  predicate ByteAt(body: seq<u8>, pos: nat, bytes: seq<u8>, i: nat)
    requires i < |bytes|
  {
    pos + i < |body| && body[pos + i] == bytes[i]
  }

  /** `bytes[k..]` stand in `body` from `pos + k` on. */
  predicate Holds(body: seq<u8>, pos: nat, bytes: seq<u8>, k: nat := 0)
    requires k <= |bytes|
    decreases |bytes| - k
  {
    k == |bytes| || (ByteAt(body, pos, bytes, k) && Holds(body, pos, bytes, k + 1))
  }

  lemma {:induction false} HoldsAt(body: seq<u8>, pos: nat, bytes: seq<u8>, i: nat, k: nat := 0)
    requires k <= i < |bytes| && Holds(body, pos, bytes, k)
    ensures ByteAt(body, pos, bytes, i)
    decreases i - k
  {
    if k < i {
      HoldsAt(body, pos, bytes, i, k + 1);
    }
  }

  lemma {:induction false} HoldsAll(body: seq<u8>, pos: nat, bytes: seq<u8>, k: nat := 0)
    requires k <= |bytes|
    requires forall i :: k <= i < |bytes| ==> ByteAt(body, pos, bytes, i)
    ensures Holds(body, pos, bytes, k)
    decreases |bytes| - k
  {
    if k < |bytes| {
      HoldsAll(body, pos, bytes, k + 1);
    }
  }

  lemma HoldsSplit(body: seq<u8>, pos: nat, a: seq<u8>, b: seq<u8>)
    requires Holds(body, pos, a + b)
    ensures Holds(body, pos, a) && Holds(body, pos + |a|, b)
  {
    forall i | 0 <= i < |a| ensures ByteAt(body, pos, a, i) {
      HoldsAt(body, pos, a + b, i);
    }
    forall i {:trigger ByteAt(body, pos + |a|, b, i)} | 0 <= i < |b| ensures ByteAt(body, pos + |a|, b, i) {
      HoldsAt(body, pos, a + b, |a| + i);
    }
    HoldsAll(body, pos, a);
    HoldsAll(body, pos + |a|, b);
  }

  lemma HoldsLonger(body: seq<u8>, pos: nat, bytes: seq<u8>, more: seq<u8>)
    requires Holds(body, pos, bytes)
    ensures Holds(body + more, pos, bytes)
  {
    forall i | 0 <= i < |bytes| ensures ByteAt(body + more, pos, bytes, i) {
      HoldsAt(body, pos, bytes, i);
    }
    HoldsAll(body + more, pos, bytes);
  }

  lemma HoldsLast(body: seq<u8>, bytes: seq<u8>)
    ensures Holds(body + bytes, |body|, bytes)
  {
    forall i | 0 <= i < |bytes| ensures ByteAt(body + bytes, |body|, bytes, i) {
    }
    HoldsAll(body + bytes, |body|, bytes);
  }

  lemma LeRoundTrip(x: u32, b: seq<u8>, pos: nat)
    requires Holds(b, pos, ToLeBytes(x))
    ensures pos + 4 <= |b| && FromLeBytes(b, pos) == x
  {
    HoldsAt(b, pos, ToLeBytes(x), 0);
    HoldsAt(b, pos, ToLeBytes(x), 1);
    HoldsAt(b, pos, ToLeBytes(x), 2);
    HoldsAt(b, pos, ToLeBytes(x), 3);
    assert x / 0x1_0000 == x / 0x100 / 0x100 && x / 0x100_0000 == x / 0x1_0000 / 0x100;
  }

  lemma StyleRoundTrip(c: Cell)
    ensures PackStyle(c) % 0x1_0000 == c.attrs
    ensures PackStyle(c) / 0x1_0000 % 0x100 == c.flags
    ensures PackStyle(c) / 0x100_0000 == c.width
  {
    var hi := c.flags + 0x100 * c.width;
    assert PackStyle(c) == c.attrs + 0x1_0000 * hi;
    assert PackStyle(c) / 0x1_0000 == hi;
  }

  /** The bitset holds exactly the wrapped flags, and nothing past the last row. */
  lemma {:induction false} WrappedBitsHold(rows: seq<Row>, n: nat, i: nat)
    requires n <= |rows| && i / 8 < (n + 7) / 8
    ensures TestBit(WrappedBits(rows, n)[i / 8], i % 8) == (i < n && rows[i].isWrapped)
  {
    var m := n - 1;
    var before := WrappedBits(rows, m);
    if i / 8 < |before| {
      WrappedBitsHold(rows, m, i);
    }
    PushWrappedTests(before, rows[m].isWrapped, m, i);
  }

  lemma PushWrappedTests(before: seq<u8>, isWrapped: bool, m: nat, i: nat)
    requires |before| == (m + 7) / 8 && i / 8 <= m / 8
    ensures i / 8 < |PushWrapped(before, isWrapped, m)|
    ensures TestBit(PushWrapped(before, isWrapped, m)[i / 8], i % 8)
         == ((i == m && isWrapped) || (i / 8 < |before| && TestBit(before[i / 8], i % 8)))
  {
    if i / 8 < |before| {
      SetBitTests(before[i / 8], m % 8, i % 8);
    } else {
      SetBitTests(0, m % 8, i % 8);
      ZeroHasNoBits(i % 8);
    }
  }

  // ---- Reading one row back ---------------------------------------------------

  lemma CellRoundTrip(body: seq<u8>, pos: nat, c: Cell, len: nat)
    requires 1 <= len <= MAX_RUN && !c.IsEmpty()
    requires Holds(body, pos, SpanBytes(c, len))
    ensures pos + 17 <= |body| && body[pos] == len && ReadCell(body, pos + 1) == c
  {
    var style := ToLeBytes(PackStyle(c));
    HoldsSplit(body, pos, [len], ToLeBytes(c.ch) + (ToLeBytes(c.fg) + (ToLeBytes(c.bg) + style)));
    HoldsSplit(body, pos + 1, ToLeBytes(c.ch), ToLeBytes(c.fg) + (ToLeBytes(c.bg) + style));
    HoldsSplit(body, pos + 5, ToLeBytes(c.fg), ToLeBytes(c.bg) + style);
    HoldsSplit(body, pos + 9, ToLeBytes(c.bg), style);
    LeRoundTrip(c.ch, body, pos + 1);
    LeRoundTrip(c.fg, body, pos + 5);
    LeRoundTrip(c.bg, body, pos + 9);
    LeRoundTrip(PackStyle(c), body, pos + 13);
    StyleRoundTrip(c);
  }

  /** The cells read so far: normalised up to `i`, still blank from there on. */
  function PartlyRead(cells: seq<Cell>, i: nat): (r: seq<Cell>)
    ensures |r| == |cells|
  {
    seq(|cells|, k requires 0 <= k < |cells| => if k < i then cells[k].Normalised() else EMPTY_CELL)
  }

  lemma SpansSplit(body: seq<u8>, pos: nat, cells: seq<Cell>, i: nat, e: nat)
    requires i < |cells| && e == RunEnd(cells, i, i + 1) && Holds(body, pos, EncodeSpans(cells, i))
    ensures Holds(body, pos, RunBytes(cells, i, e))
    ensures Holds(body, pos + |RunBytes(cells, i, e)|, EncodeSpans(cells, e))
    ensures |EncodeSpans(cells, i)| == |RunBytes(cells, i, e)| + |EncodeSpans(cells, e)|
  {
    HoldsSplit(body, pos, RunBytes(cells, i, e), EncodeSpans(cells, e));
  }

  lemma {:induction false} SpansRoundTrip(body: seq<u8>, pos: nat, cells: seq<Cell>, i: nat)
    requires i <= |cells| && Holds(body, pos, EncodeSpans(cells, i))
    requires Holds(body, pos + |EncodeSpans(cells, i)|, [0])
    ensures ReadRow(body, pos, PartlyRead(cells, i), i)
         == Some(Parsed(NormaliseCells(cells), pos + |EncodeSpans(cells, i)| + 1))
    decreases |cells| - i
  {
    if i == |cells| {
      assert PartlyRead(cells, i) == NormaliseCells(cells);
    } else {
      var e := RunEnd(cells, i, i + 1);
      SpansSplit(body, pos, cells, i, e);
      SpanRoundTrip(body, pos, cells, i, e);
      SpansRoundTrip(body, pos + |RunBytes(cells, i, e)|, cells, e);
    }
  }

  /** One turn of the reader's loop undoes one turn of the writer's. */
  lemma SpanRoundTrip(body: seq<u8>, pos: nat, cells: seq<Cell>, i: nat, e: nat)
    requires i < e <= |cells| && e <= i + MAX_RUN
    requires forall k :: i <= k < e ==> cells[k] == cells[i]
    requires Holds(body, pos, RunBytes(cells, i, e))
    ensures ReadRow(body, pos, PartlyRead(cells, i), i)
         == ReadRow(body, pos + |RunBytes(cells, i, e)|, PartlyRead(cells, e), e)
  {
    var c := cells[i];
    if c.IsEmpty() {
        assert PartlyRead(cells, i) == PartlyRead(cells, e);
    } else {
      CellRoundTrip(body, pos, c, e - i);
      assert Fill(PartlyRead(cells, i), i, e, c) == PartlyRead(cells, e);
    }
  }

  lemma RowRoundTrip(body: seq<u8>, pos: nat, cells: seq<Cell>)
    requires Holds(body, pos, EncodeRow(cells))
    ensures ReadRow(body, pos, Blanks(|cells|), 0)
         == Some(Parsed(NormaliseCells(cells), pos + |EncodeRow(cells)|))
  {
    HoldsSplit(body, pos, EncodeSpans(cells, 0), [0]);
    SpansRoundTrip(body, pos, cells, 0);
    assert PartlyRead(cells, 0) == Blanks(|cells|);
  }

  lemma NormalIffUnchanged(cells: seq<Cell>)
    ensures NormaliseCells(cells) == cells <==> NormalCells(cells)
  {
    if NormaliseCells(cells) == cells {
      forall k | 0 <= k < |cells| ensures cells[k].IsNormal() {
        assert NormaliseCells(cells)[k] == cells[k].Normalised();
      }
    }
  }

  // ---- Reading whole buffers back ---------------------------------------------

  function NormaliseRow(row: Row): Row {
    Row(NormaliseCells(row.cells), row.isWrapped)
  }

  function NormaliseRows(rows: seq<Row>): (r: seq<Row>)
    ensures |r| == |rows|
    ensures forall i :: 0 <= i < |rows| ==> r[i] == NormaliseRow(rows[i])
  {
    seq(|rows|, i requires 0 <= i < |rows| => NormaliseRow(rows[i]))
  }

  predicate WidthsAre(rows: seq<Row>, cols: nat) {
    forall i :: 0 <= i < |rows| ==> |rows[i].cells| == cols
  }

  lemma {:induction false} EncodeRowsPrefix(rows: seq<Row>, i: nat, n: nat)
    requires i < n <= |rows|
    ensures Holds(EncodeRows(rows, n), |EncodeRows(rows, i)|, EncodeRow(rows[i].cells))
  {
    if i < n - 1 {
      EncodeRowsPrefix(rows, i, n - 1);
      HoldsLonger(EncodeRows(rows, n - 1), |EncodeRows(rows, i)|,
                  EncodeRow(rows[i].cells), EncodeRow(rows[n - 1].cells));
    } else {
      HoldsLast(EncodeRows(rows, i), EncodeRow(rows[i].cells));
    }
  }

  lemma EncodeRowsNext(rows: seq<Row>, i: nat, j: nat)
    requires j == i + 1 <= |rows|
    ensures EncodeRows(rows, j) == EncodeRows(rows, i) + EncodeRow(rows[i].cells)
  {
  }

  lemma RowAt(rows: seq<Row>, i: nat, n: nat)
    requires i < n <= |rows|
    ensures ReadRow(EncodeRows(rows, n), |EncodeRows(rows, i)|, Blanks(|rows[i].cells|), 0)
         == Some(Parsed(NormaliseCells(rows[i].cells), |EncodeRows(rows, i + 1)|))
  {
    EncodeRowsPrefix(rows, i, n);
    RowRoundTrip(EncodeRows(rows, n), |EncodeRows(rows, i)|, rows[i].cells);
    EncodeRowsNext(rows, i, i + 1);
  }

  lemma WrappedRoundTrip(rows: seq<Row>, i: nat, n: nat)
    requires i < n <= |rows|
    ensures WrappedAt(WrappedBits(rows, n), i) == Some(rows[i].isWrapped)
  {
    WrappedBitsHold(rows, n, i);
  }

  lemma {:induction false} RowsRoundTrip(rows: seq<Row>, blk: ColdBlock, n: nat)
    requires WidthsAre(rows, blk.cols) && n <= |rows|
    requires blk.wrapped == WrappedBits(rows, |rows|) && blk.data == EncodeRows(rows, |rows|)
    ensures ReadRows(blk, n).Some? && ReadRows(blk, n).value.next == |EncodeRows(rows, n)|
    ensures forall i :: 0 <= i < n ==> ReadRows(blk, n).value.item[i] == NormaliseRow(rows[i])
  {
    if n > 0 {
      var m := n - 1;
      RowsRoundTrip(rows, blk, m);
      NextRowReads(rows, blk, m, n);
      OneRowMore(ReadRows(blk, m).value.item, rows, m, n);
    }
  }

  lemma OneRowMore(item: seq<Row>, rows: seq<Row>, m: nat, n: nat)
    requires n == m + 1 <= |rows| && |item| == m && forall i :: 0 <= i < m ==> item[i] == NormaliseRow(rows[i])
    ensures forall i :: 0 <= i < n ==> (item + [NormaliseRow(rows[m])])[i] == NormaliseRow(rows[i])
  {
  }

  lemma NextRowReads(rows: seq<Row>, blk: ColdBlock, m: nat, n: nat)
    requires n == m + 1 <= |rows| && |rows[m].cells| == blk.cols
    requires blk.wrapped == WrappedBits(rows, |rows|) && blk.data == EncodeRows(rows, |rows|)
    requires ReadRows(blk, m).Some? && ReadRows(blk, m).value.next == |EncodeRows(rows, m)|
    ensures ReadRows(blk, n)
         == Some(Parsed(ReadRows(blk, m).value.item + [NormaliseRow(rows[m])], |EncodeRows(rows, n)|))
  {
    RowAt(rows, m, |rows|);
    WrappedRoundTrip(rows, m, |rows|);
    ReadRowsNext(blk, m, n);
  }

  lemma ReadRowsNext(blk: ColdBlock, m: nat, n: nat)
    requires n == m + 1 && ReadRows(blk, m).Some? && WrappedAt(blk.wrapped, m).Some?
    requires ReadRow(blk.data, ReadRows(blk, m).value.next, Blanks(blk.cols), 0).Some?
    ensures var p := ReadRows(blk, m).value;
      var q := ReadRow(blk.data, p.next, Blanks(blk.cols), 0).value;
      ReadRows(blk, n) == Some(Parsed(p.item + [Row(q.item, WrappedAt(blk.wrapped, m).value)], q.next))
  {
    assert ReadRows(blk, n) == ReadOneMore(blk, ReadRows(blk, m).value);
  }

  /** Reading a block back gives its rows with every empty cell normalised. The row
      count is kept in sixteen bits, so of a longer input only the remainder is left. */
  lemma BlockRoundTrip(rows: seq<Row>, cols: u16)
    requires WidthsAre(rows, cols)
    ensures RowsOfBlock(BlockOf(rows, cols)) == Some(NormaliseRows(rows)[..|rows| % 0x1_0000])
  {
    var blk, n := BlockOf(rows, cols), |rows| % 0x1_0000;
    RowsRoundTrip(rows, blk, n);
    assert ReadRows(blk, n).value.item == NormaliseRows(rows)[..n];
  }

  /** Every row read back from a block is as wide as the block. */
  lemma {:induction false} RowsReadHaveWidth(blk: ColdBlock, n: nat)
    requires ReadRows(blk, n).Some?
    ensures WidthsAre(ReadRows(blk, n).value.item, blk.cols)
  {
    if n > 0 {
      RowsReadHaveWidth(blk, n - 1);
    }
  }

  /** The codec is lossless exactly on blocks of at most 65535 rows that are as wide as the
      block and whose empty cells carry no style. */
  lemma BlockLosslessIff(rows: seq<Row>, cols: u16)
    ensures RowsOfBlock(BlockOf(rows, cols)) == Some(rows) <==> |rows| < 0x1_0000 && RowsOk(rows, cols)
  {
    var blk := BlockOf(rows, cols);
    if RowsOfBlock(blk) == Some(rows) {
      RowsReadHaveWidth(blk, blk.rows);
    }
    if WidthsAre(rows, cols) {
      BlockRoundTrip(rows, cols);
      if |rows| < 0x1_0000 {
        assert NormaliseRows(rows)[..|rows|] == NormaliseRows(rows);
        UnchangedIffOk(rows, cols);
      }
    } else {
      assert !RowsOk(rows, cols);
    }
  }

  lemma UnchangedIffOk(rows: seq<Row>, cols: nat)
    requires WidthsAre(rows, cols)
    ensures NormaliseRows(rows) == rows <==> RowsOk(rows, cols)
  {
    forall i | 0 <= i < |rows| ensures NormaliseRows(rows)[i] == rows[i] <==> RowOk(rows[i], cols) {
      NormalIffUnchanged(rows[i].cells);
    }
  }

  lemma {:induction false} RowStarts(rows: seq<Row>, i: nat, n: nat)
    requires i <= n <= |rows|
    ensures RowStart(EncodeRows(rows, n), i) == Some(|EncodeRows(rows, i)|)
  {
    if i > 0 {
      var j := i - 1;
      RowStarts(rows, j, n);
      RowAt(rows, j, n);
      NextIsIndependent(EncodeRows(rows, n), |EncodeRows(rows, j)|, Blanks(|rows[j].cells|), 0, [], 0);
      RowStartNext(EncodeRows(rows, n), j, i);
    }
  }

  lemma RowStartNext(buf: seq<u8>, j: nat, i: nat)
    requires i == j + 1 && RowStart(buf, j).Some?
    ensures RowStart(buf, i) ==
      var q := ReadRow(buf, RowStart(buf, j).value, [], 0);
      if q.None? then None else Some(q.value.next)
  {
  }

  /** Every row of the pending stream reads back, and reading one past the end runs
      off the buffer. */
  lemma ScratchRoundTrip(rows: seq<Row>, cols: nat, i: nat)
    requires WidthsAre(rows, cols)
    ensures ScratchRow(EncodeRows(rows, |rows|), cols, WrappedBits(rows, |rows|), i)
         == if i < |rows| then Some(NormaliseRows(rows)[i]) else None
  {
    var n := |rows|;
    if i < n {
      RowStarts(rows, i, n);
      RowAt(rows, i, n);
      WrappedRoundTrip(rows, i, n);
    } else {
      RowStarts(rows, n, n);
      if i > n {
        RowStartNext(EncodeRows(rows, n), n, n + 1);
        StartStaysNone(EncodeRows(rows, n), n + 1, i);
      }
    }
  }

  // ---- How few spans and bytes ------------------------------------------------

  function SpanCount(cells: seq<Cell>, i: nat): nat
    requires i <= |cells|
    decreases |cells| - i
  {
    if i == |cells| then 0 else 1 + SpanCount(cells, RunEnd(cells, i, i + 1))
  }

  lemma {:induction false} SpansCostAtMost17(cells: seq<Cell>, i: nat)
    requires i <= |cells|
    ensures |EncodeSpans(cells, i)| <= 17 * SpanCount(cells, i) <= 17 * (|cells| - i)
    decreases |cells| - i
  {
    if i < |cells| {
      SpansCostAtMost17(cells, RunEnd(cells, i, i + 1));
    }
  }

  lemma RowSize(cells: seq<Cell>)
    ensures |EncodeRow(cells)| <= 17 * |cells| + 1
  {
    SpansCostAtMost17(cells, 0);
  }

  predicate MaximalRun(cells: seq<Cell>, i: nat, j: nat) {
    i < j <= |cells| && (forall k :: i <= k < j ==> cells[k] == cells[i]) && (j < |cells| ==> cells[j] != cells[i])
  }

  lemma RunEndOfMaximal(cells: seq<Cell>, i: nat, j: nat)
    requires MaximalRun(cells, i, j)
    ensures RunEnd(cells, i, i + 1) == if j - i <= MAX_RUN then j else i + MAX_RUN
  {
  }

  /** A maximal run of equal cells costs exactly ceil(length / 127) spans. */
  lemma {:induction false} MaximalRunSpans(cells: seq<Cell>, i: nat, j: nat)
    requires MaximalRun(cells, i, j)
    ensures SpanCount(cells, i) == (j - i + 126) / 127 + SpanCount(cells, j)
    decreases j - i
  {
    RunEndOfMaximal(cells, i, j);
    if j - i > MAX_RUN {
      MaximalRunSpans(cells, i + MAX_RUN, j);
    }
  }

  lemma {:induction false} BlankSpansAreOneByte(cols: nat, i: nat)
    requires i <= cols
    ensures |EncodeSpans(Blanks(cols), i)| == SpanCount(Blanks(cols), i)
    decreases cols - i
  {
    if i < cols {
      BlankSpansAreOneByte(cols, RunEnd(Blanks(cols), i, i + 1));
    }
  }

  lemma BlankRowSize(cols: nat)
    ensures |EncodeRow(Blanks(cols))| == (cols + 126) / 127 + 1
  {
    BlankSpansAreOneByte(cols, 0);
    if cols > 0 {
      MaximalRunSpans(Blanks(cols), 0, cols);
    }
  }

  /** Any way of spelling `cells` as spans of 1 to 127 equal cells. */
  datatype Span = Span(c: Cell, len: nat)

  predicate Spells(spans: seq<Span>, cells: seq<Cell>, i: nat)
    requires i <= |cells|
  {
    if spans == [] then i == |cells|
    else
      var s := spans[0];
      && 1 <= s.len <= MAX_RUN && i + s.len <= |cells|
      && (forall k :: i <= k < i + s.len ==> cells[k] == s.c)
      && Spells(spans[1..], cells, i + s.len)
  }

  lemma {:induction false} LaterStartsCostLess(cells: seq<Cell>, i: nat, j: nat)
    requires i <= j <= |cells|
    ensures SpanCount(cells, j) <= SpanCount(cells, i)
    decreases |cells| - i, j - i
  {
    if i < j {
      var e := RunEnd(cells, i, i + 1);
      if j >= e {
        LaterStartsCostLess(cells, e, j);
      } else {
        var e' := RunEnd(cells, j, j + 1);
        assert e <= e' by {
          assert forall k :: i <= k < e ==> cells[k] == cells[j];
          assert e' < |cells| && e' < j + MAX_RUN ==> cells[e'] != cells[j];
        }
        LaterStartsCostLess(cells, e, e');
      }
    }
  }

  /** The encoder is optimal: no other list of spans for the same cells is shorter. */
  lemma {:induction false} FewestSpans(spans: seq<Span>, cells: seq<Cell>, i: nat)
    requires i <= |cells| && Spells(spans, cells, i)
    ensures SpanCount(cells, i) <= |spans|
  {
    if spans != [] {
      var m, e := spans[0].len, RunEnd(cells, i, i + 1);
      FewestSpans(spans[1..], cells, i + m);
      assert i + m <= e by {
        assert cells[i] == spans[0].c;
      }
      LaterStartsCostLess(cells, i + m, e);
    }
  }
}
