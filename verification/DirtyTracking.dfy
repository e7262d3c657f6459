/** The row bitset that tells the renderer which visible rows changed. */
module DirtyTracking {
  import opened Bits

  const I32_MAX: int := 0x7FFF_FFFF
  const WORD: nat := 128

  /** `rowBits` is a 128-bit word. Shift amounts wrap at its width, as they do in an
      optimised build; with at most 128 rows no shift wraps. */
  datatype Dirty = Dirty(rowBits: nat, rowCount: nat, cursorChanged: bool, scrollDelta: int, fullRedraw: bool) {

    function MarkRow(row: nat): Dirty {
      if fullRedraw then this
      else if row >= rowCount then this.(fullRedraw := true, rowBits := 0)
      else this.(rowBits := SetBit(rowBits, row % 128))
    }

    function MarkAll(): Dirty {
      this.(fullRedraw := true, rowBits := 0, scrollDelta := 0)
    }

    function MarkScroll(delta: nat): Dirty {
      var total := if scrollDelta + delta > I32_MAX then I32_MAX else scrollDelta + delta;
      if rowCount <= WORD then this.(scrollDelta := total, rowBits := SetLow(rowBits, rowCount))
      else this.(scrollDelta := total, fullRedraw := true, rowBits := 0)
    }

    predicate IsRowDirty(row: nat) {
      fullRedraw || (row < rowCount && TestBit(rowBits, row % 128))
    }
  }

  function Clean(rowCount: nat): Dirty {
    Dirty(0, rowCount, false, 0, false)
  }

  /** Marking never forgets: a dirty row stays dirty, and the marked rows become dirty. */
  lemma MarksAreMonotone(d: Dirty, row: nat, j: nat)
    ensures d.IsRowDirty(j) ==> d.MarkRow(row).IsRowDirty(j) && d.MarkAll().IsRowDirty(j)
    ensures d.IsRowDirty(j) ==> forall delta: nat :: d.MarkScroll(delta).IsRowDirty(j)
    ensures d.MarkRow(row).IsRowDirty(row)
    ensures j < d.rowCount ==> forall delta: nat :: d.MarkScroll(delta).IsRowDirty(j)
  {
    SetBitTests(d.rowBits, row % 128, j % 128);
    SetBitTests(d.rowBits, row % 128, row % 128);
    SetLowTests(d.rowBits, d.rowCount, j % 128);
  }

  /** On at most 128 rows the marks are exact: marking a row makes that row dirty and no other,
      scrolling and marking all make all of them dirty, and none of them touches the cursor's flag. */
  lemma MarksAreExact(d: Dirty, row: nat, delta: nat, j: nat)
    requires row < d.rowCount <= WORD && j < d.rowCount
    ensures d.MarkRow(row).IsRowDirty(j) <==> d.IsRowDirty(j) || j == row
    ensures d.MarkAll() == Dirty(0, d.rowCount, d.cursorChanged, 0, true)
    ensures d.MarkScroll(delta).IsRowDirty(j) && d.MarkScroll(delta).fullRedraw == d.fullRedraw
    ensures d.MarkScroll(delta).scrollDelta
         == if d.scrollDelta + delta <= 0x7FFF_FFFF then d.scrollDelta + delta else 0x7FFF_FFFF
    ensures d.MarkRow(row).cursorChanged == d.MarkScroll(delta).cursorChanged == d.cursorChanged
    ensures d.MarkRow(row).scrollDelta == d.scrollDelta
    ensures d.MarkRow(row).rowCount == d.MarkScroll(delta).rowCount == d.rowCount
  {
    SetBitTests(d.rowBits, row % 128, j % 128);
    SetLowTests(d.rowBits, d.rowCount, j % 128);
  }

  /** A row that alone is marked is listed exactly if it is one of the first 128. */
  lemma MarkedIsListedIff(row: nat, rowCount: nat)
    requires row < rowCount
    ensures TestBit(Clean(rowCount).MarkRow(row).rowBits, row) <==> row < WORD
  {
    SetBitTests(0, row % 128, row);
    ZeroHasNoBits(row);
  }

  // ---- Listing the set bits -----------------------------------------------------

  /** The rows are exactly the set bits, in ascending order, and the loop ends. */
  method DirtyRows(d: Dirty) returns (out: seq<nat>)
    ensures forall i, j :: 0 <= i < j < |out| ==> out[i] < out[j]
    ensures forall r: nat :: r in out <==> TestBit(d.rowBits, r)
  {
    out := [];
    var bits := d.rowBits;
    while bits != 0
      invariant forall i, j :: 0 <= i < j < |out| ==> out[i] < out[j]
      invariant forall r: nat :: TestBit(d.rowBits, r) <==> r in out || TestBit(bits, r)
      invariant forall i, r: nat :: 0 <= i < |out| && TestBit(bits, r) ==> out[i] < r
      decreases bits
    {
      var idx := TrailingZeros(bits);
      var rest := And(bits, bits - 1);
      forall r: nat
        ensures TestBit(bits, r) <==> r == idx || TestBit(rest, r)
        ensures TestBit(rest, r) ==> idx < r
      {
        LowestSetBit(bits, r);
        LowestSetBit(bits, idx);
      }
      DropLowest(bits);
      assert TestBit(bits, idx);
      out := out + [idx];
      bits := rest;
    }
    forall r: nat ensures !TestBit(0, r) {
      ZeroHasNoBits(r);
    }
  }
}
