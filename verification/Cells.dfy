/** Cells, rows and the small value types every other module shares. */
module Cells {

  type u8 = x: int | 0 <= x < 0x100
  type u16 = x: int | 0 <= x < 0x1_0000
  type u32 = x: int | 0 <= x < 0x1_0000_0000

  datatype Option<+T> = None | Some(value: T)

  function Min(a: nat, b: nat): nat { if a <= b then a else b }

  // Bits of Cell.flags.
  const WIDE_CONTINUATION: u8 := 1
  const COMBINING: u8 := 2
  const CLUSTER_JOINER: u8 := 4

  datatype Cell = Cell(ch: u32, fg: u32, bg: u32, attrs: u16, flags: u8, width: u8) {
    predicate IsEmpty() { ch == 0 }

    predicate IsWideContinuation() { flags % 2 == 1 }

    predicate IsJoiner() { flags / 4 % 2 == 1 }

    function WithJoiner(): Cell {
      if IsJoiner() then this else this.(flags := (flags + CLUSTER_JOINER) % 0x100)
    }

    function WithoutJoiner(): Cell {
      if IsJoiner() then this.(flags := flags - CLUSTER_JOINER) else this
    }

    /** An empty cell carries no style: the cells the codec reproduces exactly. */
    predicate IsNormal() { ch == 0 ==> this == EMPTY_CELL }

    /** What the codec turns a cell into. */
    function Normalised(): Cell { if ch == 0 then EMPTY_CELL else this }
  }

  const EMPTY_CELL: Cell := Cell(0, 0, 0, 0, 0, 1)

  datatype Row = Row(cells: seq<Cell>, isWrapped: bool)

  function Blanks(n: nat): (cells: seq<Cell>)
    ensures |cells| == n
    ensures forall k :: 0 <= k < n ==> cells[k] == EMPTY_CELL
  {
    seq(n, _ => EMPTY_CELL)
  }

  function BlankRow(cols: nat): Row {
    Row(Blanks(cols), false)
  }

  function BlankRows(n: nat, cols: nat): (rows: seq<Row>)
    ensures |rows| == n
    ensures forall k :: 0 <= k < n ==> rows[k] == BlankRow(cols)
  {
    seq(n, _ => BlankRow(cols))
  }

  predicate NormalCells(cells: seq<Cell>) {
    forall k :: 0 <= k < |cells| ==> cells[k].IsNormal()
  }

  function NormaliseCells(cells: seq<Cell>): (r: seq<Cell>)
    ensures |r| == |cells|
    ensures forall k :: 0 <= k < |cells| ==> r[k] == cells[k].Normalised()
  {
    seq(|cells|, k requires 0 <= k < |cells| => cells[k].Normalised())
  }

  /** A row as wide as the terminal, with every empty cell unstyled. */
  predicate RowOk(row: Row, cols: nat) {
    |row.cells| == cols && NormalCells(row.cells)
  }

  predicate RowsOk(rows: seq<Row>, cols: nat) {
    forall i :: 0 <= i < |rows| ==> RowOk(rows[i], cols)
  }

  /** What an index past the last row reads as. */
  function OutOfRange(): Row { BlankRow(1) }

  /** Row `vrow` of the window that ends `offset` rows above the bottom. Above the first row
      the index wraps around to one past every row. */
  function WindowRow(flat: seq<Row>, rows: nat, offset: nat, vrow: nat): Row
    requires vrow < rows <= |flat|
  {
    var index := |flat| - rows - offset + vrow;
    if index < 0 then OutOfRange() else flat[index]
  }
}
