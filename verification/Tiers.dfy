/** The two encoded tiers of the history: cold blocks, then the pending span buffer.
    What rows they stand for, and that tiering rows and flushing a block lose nothing. */
module Tiers {
  import opened Cells
  import opened SpanCodec
  import opened SpanCodecLemmas

  datatype ColdStore = ColdStore(blocks: seq<ColdBlock>, totalRows: nat) {
    function PushBack(blk: ColdBlock): ColdStore {
      ColdStore(blocks + [blk], totalRows + blk.rows)
    }
  }

  datatype EncodedTiers = EncodedTiers(cold: ColdStore, scratch: seq<u8>, wrapped: seq<u8>, count: nat)

  /** A block holds exactly BLOCK_ROWS rows and reads back. */
  ghost predicate BlockOk(blk: ColdBlock, cols: nat) {
    && RowsOfBlock(blk).Some?
    && blk.rows == |RowsOfBlock(blk).value| == BLOCK_ROWS
    && RowsOk(RowsOfBlock(blk).value, cols)
  }

  ghost predicate BlocksOk(blocks: seq<ColdBlock>, cols: nat) {
    forall b :: 0 <= b < |blocks| ==> BlockOk(blocks[b], cols)
  }

  ghost function ColdRow(blocks: seq<ColdBlock>, cols: nat, i: nat): Row
    requires BlocksOk(blocks, cols) && i < BlockStart(|blocks|)
  {
    assert BlockOk(blocks[BlockIndex(i)], cols);
    RowsOfBlock(blocks[BlockIndex(i)]).value[BlockOffset(i)]
  }

  ghost function ColdRows(blocks: seq<ColdBlock>, cols: nat): (r: seq<Row>)
    requires BlocksOk(blocks, cols)
    ensures |r| == BlockStart(|blocks|)
    ensures forall i :: 0 <= i < |r| ==> r[i] == ColdRow(blocks, cols, i)
  {
    seq(BlockStart(|blocks|), i requires 0 <= i < BlockStart(|blocks|) => ColdRow(blocks, cols, i))
  }

  lemma BlockSplit(b: nat, c: nat)
    requires c < BLOCK_ROWS
    ensures BlockIndex(BlockStart(b) + c) == b && BlockOffset(BlockStart(b) + c) == c
  {
  }

  lemma ColdRowAt(blocks: seq<ColdBlock>, cols: nat, bi: nat, i: nat, idx: nat)
    requires BlocksOk(blocks, cols) && bi < |blocks| && i < BLOCK_ROWS && idx == BlockStart(bi) + i
    ensures BlockOk(blocks[bi], cols) && idx < |ColdRows(blocks, cols)|
    ensures ColdRows(blocks, cols)[idx] == RowsOfBlock(blocks[bi]).value[i]
  {
    BlockSplit(bi, i);
    assert ColdRows(blocks, cols)[idx] == ColdRow(blocks, cols, idx);
  }

  ghost function PendingRow(t: EncodedTiers, cols: nat, i: nat): Row {
    var r := ScratchRow(t.scratch, cols, t.wrapped, i);
    if r.Some? then r.value else BlankRow(cols)
  }

  ghost function PendingRows(t: EncodedTiers, cols: nat): (r: seq<Row>)
    ensures |r| == t.count
    ensures forall i :: 0 <= i < t.count ==> r[i] == PendingRow(t, cols, i)
  {
    seq(t.count, i requires 0 <= i < t.count => PendingRow(t, cols, i))
  }

  /** The pending buffer is the encoding of the rows it reads back as. */
  ghost predicate PendingOk(t: EncodedTiers, cols: nat) {
    var p := PendingRows(t, cols);
    && RowsOk(p, cols)
    && t.scratch == EncodeRows(p, t.count)
    && t.wrapped == WrappedBits(p, t.count)
  }

  ghost predicate TiersOk(t: EncodedTiers, cols: u16) {
    && BlocksOk(t.cold.blocks, cols)
    && t.cold.totalRows == BlockStart(|t.cold.blocks|)
    && t.count <= BLOCK_ROWS
    && PendingOk(t, cols)
  }

  /** The rows the encoded tiers stand for, oldest first. */
  ghost function TieredRows(t: EncodedTiers, cols: u16): (r: seq<Row>)
    requires TiersOk(t, cols)
    ensures |r| == t.cold.totalRows + t.count
  {
    ColdRows(t.cold.blocks, cols) + PendingRows(t, cols)
  }

  const NO_TIERS: EncodedTiers := EncodedTiers(ColdStore([], 0), [], [], 0)

  lemma EmptyTiers(cols: u16)
    ensures TiersOk(NO_TIERS, cols) && TieredRows(NO_TIERS, cols) == []
  {
  }

  // ---- Streams of rows ------------------------------------------------------------

  lemma {:induction false} StreamExtends(p: seq<Row>, q: seq<Row>, n: nat)
    requires n <= |p| && n <= |q| && forall i :: 0 <= i < n ==> p[i] == q[i]
    ensures EncodeRows(p, n) == EncodeRows(q, n) && WrappedBits(p, n) == WrappedBits(q, n)
  {
    if n > 0 {
      StreamExtends(p, q, n - 1);
    }
  }

  lemma RowsOkWidths(rows: seq<Row>, cols: nat)
    requires RowsOk(rows, cols)
    ensures WidthsAre(rows, cols) && NormaliseRows(rows) == rows
  {
    assert WidthsAre(rows, cols);
    UnchangedIffOk(rows, cols);
  }

  /** A buffer written from `rows` is a valid pending tier standing for `rows`. */
  lemma PendingFrom(t: EncodedTiers, rows: seq<Row>, cols: nat)
    requires RowsOk(rows, cols) && t.count == |rows|
    requires t.scratch == EncodeRows(rows, |rows|) && t.wrapped == WrappedBits(rows, |rows|)
    ensures PendingOk(t, cols) && PendingRows(t, cols) == rows
  {
    RowsOkWidths(rows, cols);
    forall i | 0 <= i < |rows| ensures PendingRow(t, cols, i) == rows[i] {
      ScratchRoundTrip(rows, cols, i);
    }
    assert PendingRows(t, cols) == rows;
  }

  /** Reading row `i` of the pending buffer gives that row, or runs off its end. */
  lemma PendingReads(t: EncodedTiers, cols: nat, i: nat)
    requires PendingOk(t, cols)
    ensures ScratchRow(t.scratch, cols, t.wrapped, i)
         == if i < t.count then Some(PendingRows(t, cols)[i]) else None
  {
    var p := PendingRows(t, cols);
    RowsOkWidths(p, cols);
    ScratchRoundTrip(p, cols, i);
  }

  // ---- Tiering a row, flushing a block -----------------------------------------------

  function WithRow(t: EncodedTiers, row: Row): EncodedTiers
    requires row.isWrapped && t.count % 8 != 0 ==> t.wrapped != []
  {
    t.(scratch := t.scratch + EncodeRow(row.cells),
       wrapped := PushWrapped(t.wrapped, row.isWrapped, t.count),
       count := t.count + 1)
  }

  lemma RowsOkPush(rows: seq<Row>, row: Row, cols: nat)
    requires RowsOk(rows, cols) && RowOk(row, cols)
    ensures RowsOk(rows + [row], cols)
  {
  }

  lemma PendStream(p: seq<Row>, row: Row, q: seq<Row>, m: nat)
    requires q == p + [row] && m == |p| + 1
    ensures EncodeRows(q, m) == EncodeRows(p, |p|) + EncodeRow(row.cells)
    ensures WrappedBits(q, m) == PushWrapped(WrappedBits(p, |p|), row.isWrapped, |p|)
  {
    StreamExtends(p, q, |p|);
    EncodeRowsNext(q, |p|, m);
    WrappedBitsNext(q, |p|, m);
  }

  lemma PendRow(t: EncodedTiers, cols: nat, row: Row)
    requires PendingOk(t, cols) && RowOk(row, cols)
    requires row.isWrapped && t.count % 8 != 0 ==> t.wrapped != []
    ensures PendingOk(WithRow(t, row), cols)
    ensures PendingRows(WithRow(t, row), cols) == PendingRows(t, cols) + [row]
  {
    var p := PendingRows(t, cols);
    var q := p + [row];
    RowsOkPush(p, row, cols);
    PendStream(p, row, q, |q|);
    PendingFrom(WithRow(t, row), q, cols);
  }

  /** Encoding a row appends it to the tiered rows. */
  lemma TierRow(t: EncodedTiers, cols: u16, row: Row)
    requires TiersOk(t, cols) && t.count < BLOCK_ROWS && RowOk(row, cols)
    ensures t.count % 8 != 0 ==> t.wrapped != []
    ensures TiersOk(WithRow(t, row), cols)
    ensures TieredRows(WithRow(t, row), cols) == TieredRows(t, cols) + [row]
  {
    PendRow(t, cols, row);
    Assoc(ColdRows(t.cold.blocks, cols), PendingRows(t, cols), [row]);
  }

  lemma WrappedBitsNext(rows: seq<Row>, i: nat, j: nat)
    requires j == i + 1 <= |rows|
    ensures WrappedBits(rows, j) == PushWrapped(WrappedBits(rows, i), rows[i].isWrapped, i)
  {
  }

  function Flushed(t: EncodedTiers, cols: u16): EncodedTiers
    requires t.count <= BLOCK_ROWS
  {
    EncodedTiers(t.cold.PushBack(ColdBlock(t.count, cols, t.wrapped, t.scratch)), [], [], 0)
  }

  /** Turning a full pending buffer into a block changes no row. */
  lemma FlushKeepsRows(t: EncodedTiers, cols: u16)
    requires TiersOk(t, cols) && t.count == BLOCK_ROWS
    ensures TiersOk(Flushed(t, cols), cols)
    ensures TieredRows(Flushed(t, cols), cols) == TieredRows(t, cols)
  {
    var p := PendingRows(t, cols);
    RowsOkWidths(p, cols);
    BlockLosslessIff(p, cols);
    var blk := ColdBlock(t.count, cols, t.wrapped, t.scratch);
    assert BlockOf(p, cols) == blk;
    var f := Flushed(t, cols);
    assert BlocksOk(f.cold.blocks, cols);
    PendingFrom(f, [], cols);
    ColdRowsPush(t.cold.blocks, blk, cols);
    assert TieredRows(f, cols) == ColdRows(f.cold.blocks, cols);
  }

  lemma ColdRowsPush(blocks: seq<ColdBlock>, blk: ColdBlock, cols: nat)
    requires BlocksOk(blocks, cols) && BlockOk(blk, cols)
    ensures BlocksOk(blocks + [blk], cols)
    ensures ColdRows(blocks + [blk], cols) == ColdRows(blocks, cols) + RowsOfBlock(blk).value
  {
    var more, n := blocks + [blk], BlockStart(|blocks|);
    forall i | 0 <= i < n + BLOCK_ROWS
      ensures ColdRows(more, cols)[i] == (ColdRows(blocks, cols) + RowsOfBlock(blk).value)[i]
    {
      assert i < n ==> BlockIndex(i) < |blocks|;
      assert i >= n ==> BlockIndex(i) == |blocks| && BlockOffset(i) == i - n;
    }
  }
}
