/** The run-length span codec of the scrollback: byte-level specification of the
    stream, and the loops that write and read it.

    Reading past the end of a buffer aborts the original program. Readers here are
    total and return `None` in exactly that case. zlib is the identity. */
module SpanCodec {
  import opened Bits
  import opened Cells

  const BLOCK_ROWS: nat := 128

  function BlockStart(b: nat): nat { 128 * b }
  function BlockIndex(row: nat): nat { row / 128 }
  function BlockOffset(row: nat): nat { row % 128 }

  const MAX_RUN: nat := 0x7F
  const EMPTY_RUN: nat := 0x80

  // ---- Numbers as bytes ----------------------------------------------------

  function ToLeBytes(x: u32): (b: seq<u8>)
    ensures |b| == 4
  {
    [x % 0x100, x / 0x100 % 0x100, x / 0x1_0000 % 0x100, x / 0x100_0000]
  }

  function FromLeBytes(b: seq<u8>, pos: nat): u32
    requires pos + 4 <= |b|
  {
    var b0: int, b1: int, b2: int, b3: int := b[pos], b[pos + 1], b[pos + 2], b[pos + 3];
    b0 + 0x100 * b1 + 0x1_0000 * b2 + 0x100_0000 * b3
  }

  function PackStyle(c: Cell): u32 {
    c.attrs + 0x1_0000 * c.flags + 0x100_0000 * c.width
  }

  // ---- The wrapped-flag bitset ----------------------------------------------

  /** The bitset after the flag of row `rowIdx` was appended. */
  function PushWrapped(wrapped: seq<u8>, isWrapped: bool, rowIdx: nat): seq<u8>
    requires isWrapped && rowIdx % 8 != 0 ==> wrapped != []
  {
    var w: seq<u8> := if rowIdx % 8 == 0 then wrapped + [0] else wrapped;
    if isWrapped then
      SetBitRange(w[|w| - 1], rowIdx % 8, 8);
      w[|w| - 1 := SetBit(w[|w| - 1], rowIdx % 8)]
    else w
  }

  // ---- Encoding ---------------------------------------------------------------

  /** The end of the run that starts at `i`, at most MAX_RUN cells on. */
  function RunEnd(cells: seq<Cell>, i: nat, j: nat): (e: nat)
    requires i < j <= |cells| && j <= i + MAX_RUN
    requires forall k :: i <= k < j ==> cells[k] == cells[i]
    ensures j <= e <= |cells| && e <= i + MAX_RUN
    ensures forall k :: i <= k < e ==> cells[k] == cells[i]
    ensures e < |cells| && e < i + MAX_RUN ==> cells[e] != cells[i]
    decreases |cells| - j
  {
    if j < |cells| && j < i + MAX_RUN && cells[j] == cells[i] then RunEnd(cells, i, j + 1) else j
  }

  function SpanBytes(c: Cell, len: nat): seq<u8>
    requires 1 <= len <= MAX_RUN
  {
    if c.IsEmpty() then [EMPTY_RUN + len]
    else [len] + (ToLeBytes(c.ch) + (ToLeBytes(c.fg) + (ToLeBytes(c.bg) + ToLeBytes(PackStyle(c)))))
  }

  /** The span for the run `cells[i..e]`. */
  function RunBytes(cells: seq<Cell>, i: nat, e: nat): seq<u8>
    requires i < e <= |cells| && e <= i + MAX_RUN
  {
    SpanBytes(cells[i], e - i)
  }

  /** The spans of `cells[i..]`, without the terminator. */
  function EncodeSpans(cells: seq<Cell>, i: nat): seq<u8>
    requires i <= |cells|
    decreases |cells| - i
  {
    if i == |cells| then []
    else
      var e := RunEnd(cells, i, i + 1);
      RunBytes(cells, i, e) + EncodeSpans(cells, e)
  }

  function EncodeRow(cells: seq<Cell>): seq<u8> {
    EncodeSpans(cells, 0) + [0]
  }

  /** The stream of the first `n` rows. */
  function EncodeRows(rows: seq<Row>, n: nat): seq<u8>
    requires n <= |rows|
  {
    if n == 0 then [] else EncodeRows(rows, n - 1) + EncodeRow(rows[n - 1].cells)
  }

  /** The wrapped bitset of the first `n` rows. */
  function WrappedBits(rows: seq<Row>, n: nat): (w: seq<u8>)
    requires n <= |rows|
    ensures |w| == (n + 7) / 8
  {
    if n == 0 then [] else PushWrapped(WrappedBits(rows, n - 1), rows[n - 1].isWrapped, n - 1)
  }

  datatype ColdBlock = ColdBlock(rows: u16, cols: u16, wrapped: seq<u8>, data: seq<u8>)

  function BlockOf(rows: seq<Row>, cols: u16): ColdBlock {
    ColdBlock(|rows| % 0x1_0000, cols, WrappedBits(rows, |rows|), EncodeRows(rows, |rows|))
  }

  method PushSpan(buf: seq<u8>, cells: seq<Cell>, start: nat, i: nat) returns (buf': seq<u8>)
    requires start < i <= |cells| && i <= start + MAX_RUN
    ensures buf' == buf + RunBytes(cells, start, i)
  {
    var c, len := cells[start], i - start;
    buf' := buf;
    if c.IsEmpty() {
      buf' := buf' + [EMPTY_RUN + len];
    } else {
      buf' := buf' + [len];
      buf' := buf' + ToLeBytes(c.ch);
      buf' := buf' + ToLeBytes(c.fg);
      buf' := buf' + ToLeBytes(c.bg);
      buf' := buf' + ToLeBytes(PackStyle(c));
    }
  }

  method AppendFlag(wrapped: seq<u8>, isWrapped: bool, rowIdx: nat) returns (wrapped': seq<u8>)
    requires isWrapped && rowIdx % 8 != 0 ==> wrapped != []
    ensures wrapped' == PushWrapped(wrapped, isWrapped, rowIdx)
  {
    wrapped' := wrapped;
    if rowIdx % 8 == 0 {
      wrapped' := wrapped' + [0];
    }
    if isWrapped {
      SetBitRange(wrapped'[|wrapped'| - 1], rowIdx % 8, 8);
      wrapped' := wrapped'[|wrapped'| - 1 := SetBit(wrapped'[|wrapped'| - 1], rowIdx % 8)];
    }
  }

  method ScanRun(cells: seq<Cell>, start: nat) returns (i: nat)
    requires start < |cells|
    ensures i == RunEnd(cells, start, start + 1)
  {
    i := start + 1;
    while i < |cells| && i - start < MAX_RUN && cells[i] == cells[start]
      invariant start < i <= |cells| && i - start <= MAX_RUN
      invariant forall k :: start <= k < i ==> cells[k] == cells[start]
      invariant RunEnd(cells, start, i) == RunEnd(cells, start, start + 1)
    {
      i := i + 1;
    }
  }

  /** The buffer after the spans of `cells[i..]` were pushed onto `buf` one by one. */
  function PushSpans(buf: seq<u8>, cells: seq<Cell>, i: nat): seq<u8>
    requires i <= |cells|
    decreases |cells| - i
  {
    if i == |cells| then buf
    else
      var e := RunEnd(cells, i, i + 1);
      PushSpans(buf + RunBytes(cells, i, e), cells, e)
  }

  lemma {:induction false} PushSpansAppends(buf: seq<u8>, cells: seq<Cell>, i: nat)
    requires i <= |cells|
    ensures PushSpans(buf, cells, i) == buf + EncodeSpans(cells, i)
    decreases |cells| - i
  {
    if i == |cells| {
      assert buf + [] == buf;
    } else {
      var e := RunEnd(cells, i, i + 1);
      PushSpansAppends(buf + RunBytes(cells, i, e), cells, e);
      Assoc(buf, RunBytes(cells, i, e), EncodeSpans(cells, e));
    }
  }

  lemma Assoc<T>(a: seq<T>, b: seq<T>, c: seq<T>)
    ensures (a + b) + c == a + (b + c)
  {
  }

  lemma RowAppends(buf: seq<u8>, cells: seq<Cell>)
    ensures PushSpans(buf, cells, 0) + [0] == buf + EncodeRow(cells)
  {
    PushSpansAppends(buf, cells, 0);
    Assoc(buf, EncodeSpans(cells, 0), [0]);
  }

  method EncodeRowInto(cells: seq<Cell>, isWrapped: bool, buf: seq<u8>, wrapped: seq<u8>, rowIdx: nat)
    returns (buf': seq<u8>, wrapped': seq<u8>)
    requires isWrapped && rowIdx % 8 != 0 ==> wrapped != []
    ensures buf' == buf + EncodeRow(cells)
    ensures wrapped' == PushWrapped(wrapped, isWrapped, rowIdx)
  {
    wrapped' := AppendFlag(wrapped, isWrapped, rowIdx);
    buf' := buf;
    var i := 0;
    while i < |cells|
      invariant i <= |cells|
      invariant PushSpans(buf', cells, i) == PushSpans(buf, cells, 0)
    {
      var start := i;
      i := ScanRun(cells, start);
      buf' := PushSpan(buf', cells, start, i);
    }
    RowAppends(buf, cells);
    buf' := buf' + [0];
  }

  method EncodeBlock(rows: seq<Row>, cols: u16) returns (blk: ColdBlock)
    ensures blk == BlockOf(rows, cols)
  {
    var buf: seq<u8>, wrapped: seq<u8> := [], [];
    for i := 0 to |rows|
      invariant buf == EncodeRows(rows, i) && wrapped == WrappedBits(rows, i)
    {
      buf, wrapped := EncodeRowInto(rows[i].cells, rows[i].isWrapped, buf, wrapped, i);
    }
    blk := ColdBlock(|rows| % 0x1_0000, cols, wrapped, buf);
  }

  // ---- Decoding ---------------------------------------------------------------

  function ReadCell(body: seq<u8>, pos: nat): Cell
    requires pos + 16 <= |body|
  {
    var style := FromLeBytes(body, pos + 12);
    Cell(FromLeBytes(body, pos), FromLeBytes(body, pos + 4), FromLeBytes(body, pos + 8),
         style % 0x1_0000, style / 0x1_0000 % 0x100, style / 0x100_0000)
  }

  function Fill(cells: seq<Cell>, lo: nat, hi: nat, c: Cell): (r: seq<Cell>)
    ensures |r| == |cells|
    ensures forall k :: 0 <= k < |cells| ==> r[k] == if lo <= k < hi then c else cells[k]
  {
    seq(|cells|, k requires 0 <= k < |cells| => if lo <= k < hi then c else cells[k])
  }

  datatype Parsed<T> = Parsed(item: T, next: nat)

  /** One row read from `pos`, written over `cells` from column `ci` on. */
  function ReadRow(body: seq<u8>, pos: nat, cells: seq<Cell>, ci: nat): (r: Option<Parsed<seq<Cell>>>)
    ensures r.Some? ==> |r.value.item| == |cells| && pos < r.value.next <= |body|
    decreases |body| - pos
  {
    if pos >= |body| then None
    else
      var tag := body[pos];
      if tag == 0 then Some(Parsed(cells, pos + 1))
      else if tag >= EMPTY_RUN then ReadRow(body, pos + 1, cells, ci + (tag - EMPTY_RUN))
      else if pos + 17 > |body| then None
      else ReadRow(body, pos + 17, Fill(cells, ci, ci + tag, ReadCell(body, pos + 1)), ci + tag)
  }

  /** The wrapped flag of row `i`; an empty bitset reads as all clear. */
  function WrappedAt(wrapped: seq<u8>, i: nat): Option<bool> {
    if wrapped == [] then Some(false)
    else if i / 8 >= |wrapped| then None
    else Some(TestBit(wrapped[i / 8], i % 8))
  }

  /** The first `n` rows of a block, and where the next one starts. */
  function ReadRows(blk: ColdBlock, n: nat): (r: Option<Parsed<seq<Row>>>)
    ensures r.Some? ==> |r.value.item| == n
  {
    if n == 0 then Some(Parsed([], 0))
    else match ReadRows(blk, n - 1)
      case None => None
      case Some(p) => ReadOneMore(blk, p)
  }

  /** Row `|p.item|` of the block, after the rows read so far. */
  function ReadOneMore(blk: ColdBlock, p: Parsed<seq<Row>>): (r: Option<Parsed<seq<Row>>>)
    ensures r.Some? ==> |r.value.item| == |p.item| + 1
  {
    match ReadRow(blk.data, p.next, Blanks(blk.cols), 0)
    case None => None
    case Some(q) =>
      match WrappedAt(blk.wrapped, |p.item|)
      case None => None
      case Some(w) => Some(Parsed(p.item + [Row(q.item, w)], q.next))
  }

  function RowsOfBlock(blk: ColdBlock): Option<seq<Row>> {
    match ReadRows(blk, blk.rows)
    case None => None
    case Some(p) => Some(p.item)
  }

  /** Where row `i` of an uncompressed stream starts. */
  function RowStart(buf: seq<u8>, i: nat): Option<nat> {
    if i == 0 then Some(0)
    else match RowStart(buf, i - 1)
      case None => None
      case Some(pos) =>
        match ReadRow(buf, pos, [], 0)
        case None => None
        case Some(q) => Some(q.next)
  }

  function ScratchRow(buf: seq<u8>, cols: nat, wrapped: seq<u8>, i: nat): Option<Row> {
    match RowStart(buf, i)
    case None => None
    case Some(pos) =>
      match ReadRow(buf, pos, Blanks(cols), 0)
      case None => None
      case Some(q) =>
        match WrappedAt(wrapped, i)
        case None => None
        case Some(w) => Some(Row(q.item, w))
  }

  /** How far a row reaches in the stream does not depend on what is done with its cells. */
  lemma NextIsIndependent(body: seq<u8>, pos: nat, cells: seq<Cell>, ci: nat, cells': seq<Cell>, ci': nat)
    ensures ReadRow(body, pos, cells, ci).Some? == ReadRow(body, pos, cells', ci').Some?
    ensures ReadRow(body, pos, cells, ci).Some? ==>
              ReadRow(body, pos, cells, ci).value.next == ReadRow(body, pos, cells', ci').value.next
    decreases |body| - pos
  {
    if pos < |body| {
      var tag := body[pos];
      if tag == 0 {
      } else if tag >= EMPTY_RUN {
        NextIsIndependent(body, pos + 1, cells, ci + (tag - EMPTY_RUN), cells', ci' + (tag - EMPTY_RUN));
      } else if pos + 17 <= |body| {
        var c := ReadCell(body, pos + 1);
        NextIsIndependent(body, pos + 17, Fill(cells, ci, ci + tag, c), ci + tag,
                          Fill(cells', ci', ci' + tag, c), ci' + tag);
      }
    }
  }

  /** The span loop both readers share; `keep` says whether the cells are stored. */
  method ReadSpans(body: seq<u8>, start: nat, blank: seq<Cell>, keep: bool)
    returns (r: Option<Parsed<seq<Cell>>>)
    ensures keep ==> r == ReadRow(body, start, blank, 0)
    ensures !keep ==> r.Some? == ReadRow(body, start, [], 0).Some?
    ensures !keep && r.Some? ==> r.value.next == ReadRow(body, start, [], 0).value.next
  {
    var pos: nat, ci: nat, cells := start, 0, blank;
    while true
      invariant |cells| == |blank|
      invariant keep ==> ReadRow(body, pos, cells, ci) == ReadRow(body, start, blank, 0)
      invariant !keep ==> ReadRow(body, pos, [], ci) == ReadRow(body, start, [], 0)
      decreases |body| - pos
    {
      if pos >= |body| {
        return None;
      }
      var tag := body[pos];
      pos := pos + 1;
      if tag == 0 {
        return Some(Parsed(cells, pos));
      }
      if tag >= EMPTY_RUN {
        ci := ci + (tag - EMPTY_RUN);
      } else {
        if pos + 16 > |body| {
          return None;
        }
        var cell := ReadCell(body, pos);
        pos := pos + 16;
        ghost var old_cells := cells;
        if keep {
          var end := if ci + tag < |cells| then ci + tag else |cells|;
          var k: nat := ci;
          while k < end
            invariant ci <= k && (k <= end || k == ci)
            invariant cells == Fill(old_cells, ci, k, cell)
          {
            cells := cells[k := cell];
            k := k + 1;
          }
          assert cells == Fill(old_cells, ci, ci + tag, cell);
        }
        assert Fill([], ci, ci + tag, cell) == [];
        ci := ci + tag;
      }
    }
  }

  method DecodeBlock(blk: ColdBlock) returns (r: Option<seq<Row>>)
    ensures r == RowsOfBlock(blk)
  {
    var out: seq<Row>, pos := [], 0;
    for ri := 0 to blk.rows
      invariant ReadRows(blk, ri) == Some(Parsed(out, pos))
    {
      var row := ReadSpans(blk.data, pos, Blanks(blk.cols), true);
      var w := WrappedAt(blk.wrapped, ri);
      if row.None? || w.None? {
        NoneStaysNone(blk, ri + 1, blk.rows);
        return None;
      }
      out, pos := out + [Row(row.value.item, w.value)], row.value.next;
    }
    r := Some(out);
  }

  lemma NoneStaysNone(blk: ColdBlock, m: nat, n: nat)
    requires m <= n && ReadRows(blk, m).None?
    ensures ReadRows(blk, n).None?
  {
    if m < n {
      NoneStaysNone(blk, m, n - 1);
    }
  }

  method DecodeScratchRow(buf: seq<u8>, cols: nat, wrapped: seq<u8>, rowIdx: nat) returns (r: Option<Row>)
    ensures r == ScratchRow(buf, cols, wrapped, rowIdx)
  {
    var pos, cur, cells := 0, 0, Blanks(cols);
    while cur <= rowIdx
      invariant cur <= rowIdx + 1
      invariant cur <= rowIdx ==> RowStart(buf, cur) == Some(pos) && cells == Blanks(cols)
      invariant cur == rowIdx + 1 ==> RowStart(buf, rowIdx).Some?
      invariant cur == rowIdx + 1 ==>
                  ReadRow(buf, RowStart(buf, rowIdx).value, Blanks(cols), 0) == Some(Parsed(cells, pos))
    {
      var p := ReadSpans(buf, pos, cells, cur == rowIdx);
      if p.None? {
        if cur < rowIdx {
          StartStaysNone(buf, cur + 1, rowIdx);
        }
        return None;
      }
      if cur == rowIdx {
        cells := p.value.item;
      }
      pos := p.value.next;
      cur := cur + 1;
    }
    var w := WrappedAt(wrapped, rowIdx);
    if w.None? {
      return None;
    }
    r := Some(Row(cells, w.value));
  }

  lemma StartStaysNone(buf: seq<u8>, m: nat, n: nat)
    requires m <= n && RowStart(buf, m).None?
    ensures RowStart(buf, n).None?
  {
    if m < n {
      StartStaysNone(buf, m, n - 1);
    }
  }
}
