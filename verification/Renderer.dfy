/** The renderer's instance arrays, updated in place: the array the encoder writes, and the
    buffer the drawing reads, to which only encoded rows are uploaded. */
module Renderer {
  import opened Bits
  import opened DirtyTracking
  import opened Frames
  import opened Offsets

  /** No bit is set for a row that does not exist. */
  ghost predicate BitsInside(p: Pane) {
    forall r: nat :: TestBit(p.dirty.rowBits, r) ==> r < p.rows
  }

  /** The listed rows, in ascending order. */
  ghost predicate IsRowList(list: seq<nat>, p: Pane, force: bool) {
    && (forall i, j :: 0 <= i < j < |list| ==> list[i] < list[j])
    && (forall r: nat :: r in list <==> r < p.rows && Listed(p, force, r))
  }

  /** The row after the first `j` listed ones and the unlisted ones that follow. */
  function Upto(list: seq<nat>, j: nat, rows: nat): nat
    requires j <= |list|
  {
    if j < |list| then list[j] else rows
  }

  lemma Gap(list: seq<nat>, p: Pane, force: bool, j: nat, from: nat)
    requires IsRowList(list, p, force) && j <= |list| && from == (if j == 0 then 0 else list[j - 1] + 1)
    ensures from <= Upto(list, j, p.rows) <= p.rows
    ensures forall r :: from <= r < Upto(list, j, p.rows) ==> !Listed(p, force, r)
  {
    assert j > 0 ==> list[j - 1] in list;
    assert j < |list| ==> list[j] in list;
    forall r: nat | r in list ensures r < from || r >= Upto(list, j, p.rows) {
      var k :| 0 <= k < |list| && list[k] == r;
      assert k < j ==> list[k] <= list[j - 1];
    }
    assert forall r: nat :: r < p.rows && Listed(p, force, r) ==> r in list;
  }

  /** Encoding a listed row carries the array on to the next listed row. */
  lemma NextListed(insts: seq<Instance>, p: Pane, base: nat, force: bool, list: seq<nat>, j: nat, next: nat)
    requires IsRowList(list, p, force) && j < |list| && next == j + 1 && base + p.Size() <= |insts|
    ensures list[j] < p.rows && base + Start(list[j], p.cols) + p.cols <= |insts|
    ensures Upto(list, next, p.rows) <= p.rows && base + Start(Upto(list, next, p.rows), p.cols) <= |insts|
    ensures DrawRows(insts, p, base, force, Upto(list, next, p.rows))
         == Put(DrawRows(insts, p, base, force, list[j]), base + Start(list[j], p.cols), EncodedRow(p, list[j]))
  {
    var r := list[j];
    assert r in list;
    Fits(p, p.rows, r);
    var after := r + 1;
    Gap(list, p, force, next, after);
    SkipRows(insts, p, base, force, after, Upto(list, next, p.rows));
    assert DrawRows(insts, p, base, force, after)
        == Put(DrawRows(insts, p, base, force, r), base + Start(r, p.cols), EncodedRow(p, r));
  }

  lemma FirstListed(insts: seq<Instance>, p: Pane, base: nat, force: bool, list: seq<nat>)
    requires IsRowList(list, p, force) && base + p.Size() <= |insts|
    ensures Upto(list, 0, p.rows) <= p.rows && base + Start(Upto(list, 0, p.rows), p.cols) <= |insts|
    ensures DrawRows(insts, p, base, force, Upto(list, 0, p.rows)) == insts
  {
    Gap(list, p, force, 0, 0);
    SkipRows(insts, p, base, force, 0, Upto(list, 0, p.rows));
  }

  /** The finished array holds the new encoding of a listed row. */
  lemma ListedRow(insts: seq<Instance>, p: Pane, base: nat, force: bool, list: seq<nat>, j: nat)
    requires IsRowList(list, p, force) && j < |list| && base + p.Size() <= |insts|
    ensures list[j] < p.rows && base + Start(list[j], p.cols) + p.cols <= |insts|
    ensures RowAt(DrawRows(insts, p, base, force, p.rows), base, list[j], p.cols) == EncodedRow(p, list[j])
  {
    assert list[j] in list;
    DrawnRow(insts, p, base, force, p.rows, list[j]);
  }

  /** The array after making space for `cells`: growing clears every slot. */
  function WithCapacity(insts: seq<Instance>, cells: nat): (out: seq<Instance>)
    ensures cells <= |out|
  {
    if cells <= |insts| && insts != [] then insts else Cleared(if cells == 0 then 1 else cells)
  }

  lemma PaneStep(from: seq<Instance>, ps: seq<Pane>, last: seq<Layout>, i: nat, next: nat)
    requires next == i + 1 <= |ps| && Base(ps, |ps|) <= |from|
    ensures Base(ps, i) <= Base(ps, i) + ps[i].Size() == Base(ps, next) <= |from|
    ensures DrawPanes(from, ps, last, next)
         == DrawRows(DrawPanes(from, ps, last, i), ps[i], Base(ps, i), Forced(ps, last, i), ps[i].rows)
    ensures Layouts(ps, next) == Layouts(ps, i) + [LayoutOf(ps, i)]
  {
    RangesAreDisjoint(ps, i, |ps|);
  }

  function AllRows(n: nat): (list: seq<nat>)
    ensures |list| == n && forall r :: 0 <= r < n ==> list[r] == r
    ensures forall r: nat :: r in list <==> r < n
  {
    if n == 0 then [] else AllRows(n - 1) + [n - 1]
  }

  class Encoder {
    var instances: seq<Instance>
    var buffer: seq<Instance>
    var capacity: nat
    var lastLayout: seq<Layout>

    /** The buffer is a copy of the array. */
    ghost predicate Valid()
      reads this
    {
      |instances| == capacity && buffer == instances
    }

    constructor ()
      ensures Valid() && instances == [] && lastLayout == []
    {
      instances, buffer, capacity, lastLayout := [], [], 0, [];
    }

    method EnsureCapacity(cells: nat)
      requires Valid()
      modifies this`instances, this`buffer, this`capacity
      ensures Valid() && instances == WithCapacity(old(instances), cells)
    {
      if cells <= capacity && instances != [] {
        return;
      }
      capacity := if cells == 0 then 1 else cells;
      instances := Cleared(capacity);
      buffer := instances;
    }

    method EncodeRow(p: Pane, r: nat, off: nat)
      requires r < p.rows && off + p.cols <= |instances|
      modifies this`instances
      ensures instances == Put(old(instances), off, EncodedRow(p, r))
    {
      ghost var before, row := instances, EncodedRow(p, r);
      for c := 0 to p.cols
        invariant |instances| == |before|
        invariant forall k :: 0 <= k < |before| ==>
                    instances[k] == if off <= k < off + c then row[k - off] else before[k]
      {
        instances := instances[off + c := Encoded(p.view[r][c], r, c, p.origin)];
      }
    }

    method RowList(p: Pane, force: bool) returns (list: seq<nat>)
      requires BitsInside(p)
      ensures IsRowList(list, p, force)
    {
      if force || p.dirty.fullRedraw || p.dirty.scrollDelta != 0 {
        list := AllRows(p.rows);
      } else {
        list := DirtyRows(p.dirty);
      }
    }

    method EncodeRows(p: Pane, base: nat, force: bool, list: seq<nat>)
      requires IsRowList(list, p, force) && base + p.Size() <= |instances|
      modifies this`instances
      ensures instances == DrawRows(old(instances), p, base, force, p.rows)
    {
      ghost var before := instances;
      FirstListed(before, p, base, force, list);
      for j := 0 to |list|
        invariant Upto(list, j, p.rows) <= p.rows && base + Start(Upto(list, j, p.rows), p.cols) <= |before|
        invariant instances == DrawRows(before, p, base, force, Upto(list, j, p.rows))
      {
        NextListed(before, p, base, force, list, j, j + 1);
        EncodeRow(p, list[j], base + Start(list[j], p.cols));
      }
    }

    method UploadRows(p: Pane, base: nat, force: bool, list: seq<nat>)
      requires IsRowList(list, p, force) && base + p.Size() <= |buffer|
      requires instances == DrawRows(buffer, p, base, force, p.rows)
      modifies this`buffer
      ensures buffer == instances
    {
      ghost var before := buffer;
      FirstListed(before, p, base, force, list);
      for j := 0 to |list|
        invariant Upto(list, j, p.rows) <= p.rows && base + Start(Upto(list, j, p.rows), p.cols) <= |before|
        invariant buffer == DrawRows(before, p, base, force, Upto(list, j, p.rows))
      {
        NextListed(before, p, base, force, list, j, j + 1);
        ListedRow(before, p, base, force, list, j);
        var off := base + Start(list[j], p.cols);
        buffer := Put(buffer, off, instances[off..off + p.cols]);
      }
    }

    method RenderGrid(p: Pane, base: nat, force: bool)
      requires Valid() && BitsInside(p) && base + p.Size() <= capacity
      modifies this`instances, this`buffer
      ensures Valid() && instances == DrawRows(old(instances), p, base, force, p.rows)
    {
      var list := RowList(p, force);
      EncodeRows(p, base, force, list);
      UploadRows(p, base, force, list);
    }

    /** A pane that is not where it was in the last frame is drawn in full. */
    method RenderPane(ps: seq<Pane>, i: nat, base: nat) returns (layout: Layout)
      requires Valid() && i < |ps| && BitsInside(ps[i]) && base == Base(ps, i) && base + ps[i].Size() <= capacity
      modifies this`instances, this`buffer
      ensures Valid() && layout == LayoutOf(ps, i)
      ensures instances == DrawRows(old(instances), ps[i], base, Forced(ps, lastLayout, i), ps[i].rows)
    {
      layout := Layout(ps[i].origin, base, ps[i].cols, ps[i].rows);
      var force := i >= |lastLayout| || lastLayout[i] != layout;
      RenderGrid(ps[i], base, force);
    }

    /** One frame of all panes, one range after the other. */
    method Render(ps: seq<Pane>)
      requires Valid() && forall i :: 0 <= i < |ps| ==> BitsInside(ps[i])
      modifies this
      ensures Valid() && lastLayout == Layouts(ps, |ps|)
      ensures instances == DrawPanes(WithCapacity(old(instances), Base(ps, |ps|)), ps, old(lastLayout), |ps|)
    {
      EnsureCapacity(Base(ps, |ps|));
      ghost var from := instances;
      var layouts: seq<Layout>, base: nat := [], 0;
      for i := 0 to |ps|
        invariant Valid() && lastLayout == old(lastLayout)
        invariant base == Base(ps, i) && base <= |from| && layouts == Layouts(ps, i)
        invariant instances == DrawPanes(from, ps, lastLayout, i)
      {
        PaneStep(from, ps, lastLayout, i, i + 1);
        var layout := RenderPane(ps, i, base);
        layouts := layouts + [layout];
        base := base + ps[i].Size();
      }
      lastLayout := layouts;
    }
  }
}
