/** Texture coordinates over whole runs of frames: a slot keeps the coordinates it was drawn with,
    so exactly the slots not drawn since the atlas last grew address the wrong pixels. */
module AtlasFrames {
  import opened Atlas

  /** What a slot of the instance array keeps of a glyph: its entry as fractions of the size the
      texture had when the slot was drawn. */
  datatype Slot = Slot(entry: Entry, size: nat)

  datatype Draw = Draw(slot: nat, glyph: Glyph)

  datatype Sheet = Sheet(slots: seq<Slot>, entries: map<Key, Entry>, packer: Packer)

  predicate SheetOk(s: Sheet) {
    && 0 < s.packer.size && (forall k :: k in s.entries ==> 0 < s.entries[k].w)
    && forall i :: 0 <= i < |s.slots| ==> 0 < s.slots[i].size && 0 < s.slots[i].entry.w
  }

  predicate DrawsOk(s: Sheet, ds: seq<Draw>) {
    forall i :: 0 <= i < |ds| ==> ds[i].slot < |s.slots|
  }

  /** The slot's fractions, scaled to a texture of `now`, are the pixels of its entry. */
  predicate Addresses(slot: Slot, now: nat)
    requires 0 < slot.size
  {
    && Fraction(slot.entry.w, slot.size) * now as real == slot.entry.w as real
    && Fraction(slot.entry.x, slot.size) * now as real == slot.entry.x as real
  }

  lemma AddressesIff(slot: Slot, now: nat)
    requires 0 < slot.size && 0 < slot.entry.w && 0 < now
    ensures Addresses(slot, now) <==> slot.size == now
  {
    CoordinatesHoldIff(slot.entry, slot.size, now);
  }

  /** Slot `k` samples the pixels of its glyph. */
  predicate Holds(s: Sheet, k: nat)
    requires SheetOk(s) && k < |s.slots|
  {
    Addresses(s.slots[k], s.packer.size)
  }

  function DrawOne(s: Sheet, d: Draw): (r: Sheet)
    requires SheetOk(s) && d.slot < |s.slots|
    ensures SheetOk(r) && |r.slots| == |s.slots| && s.packer.size <= r.packer.size
    ensures r.slots[d.slot].size == r.packer.size
    ensures forall i :: 0 <= i < |s.slots| && i != d.slot ==> r.slots[i] == s.slots[i]
  {
    var g := d.glyph;
    if g.key in s.entries then s.(slots := s.slots[d.slot := Slot(s.entries[g.key], s.packer.size)])
    else
      var p := Place(s.packer, g.W(), g.H());
      var e := Entry(p.x, p.y, g.W(), g.H());
      Sheet(s.slots[d.slot := Slot(e, p.size)], s.entries[g.key := e], Taken(p, g.W(), g.H()))
  }

  /** The first `n` cells that the frames draw, in order, over any number of frames. */
  function DrawAll(s: Sheet, ds: seq<Draw>, n: nat): (r: Sheet)
    requires SheetOk(s) && DrawsOk(s, ds) && n <= |ds|
    ensures SheetOk(r) && |r.slots| == |s.slots|
  {
    if n == 0 then s else DrawOne(DrawAll(s, ds, n - 1), ds[n - 1])
  }

  function SizeAfter(s: Sheet, ds: seq<Draw>, n: nat): nat
    requires SheetOk(s) && DrawsOk(s, ds) && n <= |ds|
  {
    DrawAll(s, ds, n).packer.size
  }

  /** How many cells were drawn when slot `k` was drawn last; none if it was not. */
  function LastDraw(ds: seq<Draw>, n: nat, k: nat): (j: nat)
    requires n <= |ds|
    ensures j <= n
  {
    if n == 0 then 0 else if ds[n - 1].slot == k then n else LastDraw(ds, n - 1, k)
  }

  /** One of the cells from `from` on made the texture double. */
  predicate GrowsIn(s: Sheet, ds: seq<Draw>, from: nat, to: nat)
    requires SheetOk(s) && DrawsOk(s, ds) && to <= |ds|
  {
    from < to && (SizeAfter(s, ds, to - 1) < SizeAfter(s, ds, to) || GrowsIn(s, ds, from, to - 1))
  }

  lemma {:induction false} SlotKeeps(s: Sheet, ds: seq<Draw>, n: nat, k: nat)
    requires SheetOk(s) && DrawsOk(s, ds) && n <= |ds| && k < |s.slots|
    ensures var j := LastDraw(ds, n, k);
      DrawAll(s, ds, n).slots[k].size == if j == 0 then s.slots[k].size else SizeAfter(s, ds, j)
  {
    if n > 0 && ds[n - 1].slot != k {
      SlotKeeps(s, ds, n - 1, k);
    }
  }

  lemma {:induction false} SameSizeIff(s: Sheet, ds: seq<Draw>, from: nat, to: nat)
    requires SheetOk(s) && DrawsOk(s, ds) && from <= to <= |ds|
    ensures SizeAfter(s, ds, from) <= SizeAfter(s, ds, to)
    ensures SizeAfter(s, ds, from) == SizeAfter(s, ds, to) <==> !GrowsIn(s, ds, from, to)
  {
    if from < to {
      SameSizeIff(s, ds, from, to - 1);
    }
  }

  /** Over any frames, a slot addresses its glyph exactly if the atlas did not grow after it was
      drawn last: one that is drawn, or was right before and is not listed, and no other. */
  lemma SlotHoldsIff(s: Sheet, ds: seq<Draw>, n: nat, k: nat)
    requires SheetOk(s) && DrawsOk(s, ds) && n <= |ds| && k < |s.slots|
    requires LastDraw(ds, n, k) == 0 ==> Holds(s, k)
    ensures Holds(DrawAll(s, ds, n), k) <==> !GrowsIn(s, ds, LastDraw(ds, n, k), n)
  {
    var r, j := DrawAll(s, ds, n), LastDraw(ds, n, k);
    SlotKeeps(s, ds, n, k);
    SameSizeIff(s, ds, j, n);
    AddressesIff(s.slots[k], s.packer.size);
    AddressesIff(r.slots[k], r.packer.size);
  }

  // ---- Space between glyphs ---------------------------------------------------------------------

  /** A column or a row of pixels lies between the two. */
  predicate Apart(a: Entry, b: Entry) {
    a.x + a.w < b.x || b.x + b.w < a.x || a.y + a.h < b.y || b.y + b.h < a.y
  }

  /** One ends right where the other starts, at the border where the texture once doubled. */
  predicate AtBorder(a: Entry, b: Entry) {
    (a.y + a.h == b.y && b.y % 1024 == 0) || (b.y + b.h == a.y && a.y % 1024 == 0)
  }

  predicate Spaced(entries: map<Key, Entry>, p: Packer) {
    && p.size % 1024 == 0
    && (forall k :: k in entries ==> ClearOf(entries[k], p))
    && (forall j, k :: j in entries && k in entries && j != k ==>
          Apart(entries[j], entries[k]) || AtBorder(entries[j], entries[k]))
  }

  /** Inside the texture, and a pixel left of the next place or above its shelf, or above a border. */
  predicate ClearOf(e: Entry, p: Packer) {
    && e.y + e.h <= p.size
    && ((e.y == p.y && e.h <= p.h && e.x + e.w < p.x) || e.y + e.h < p.y || (e.y + e.h == p.y && p.y % 1024 == 0))
  }

  lemma PlaceKeepsSpaced(entries: map<Key, Entry>, p: Packer, w: nat, h: nat)
    requires Spaced(entries, p)
    ensures Spaced(entries, Place(p, w, h))
  {
    PlaceIs(p, w, h);
    forall k | k in entries ensures ClearOf(entries[k], Place(p, w, h)) {
    }
  }

  lemma TakeKeepsSpaced(entries: map<Key, Entry>, p: Packer, key: Key, w: nat, h: nat)
    requires Spaced(entries, p) && key !in entries && FitsAt(p, w, h)
    ensures Spaced(entries[key := Entry(p.x, p.y, w, h)], Taken(p, w, h))
  {
    PlaceIs(p, w, h);
    var e, next := Entry(p.x, p.y, w, h), entries[key := Entry(p.x, p.y, w, h)];
    forall k | k in next ensures ClearOf(next[k], Taken(p, w, h)) {
    }
    forall k | k in entries ensures Apart(entries[k], e) || AtBorder(entries[k], e) {
      assert ClearOf(entries[k], p);
    }
  }

  lemma DrawKeepsSpaced(s: Sheet, d: Draw)
    requires SheetOk(s) && d.slot < |s.slots| && Spaced(s.entries, s.packer) && FitsDraw(s, d)
    ensures Spaced(DrawOne(s, d).entries, DrawOne(s, d).packer)
  {
    var g := d.glyph;
    if g.key !in s.entries {
      PlaceKeepsSpaced(s.entries, s.packer, g.W(), g.H());
      TakeKeepsSpaced(s.entries, Place(s.packer, g.W(), g.H()), g.key, g.W(), g.H());
    }
  }

  /** The glyph is known, or finds a place inside the texture: the program survives. */
  predicate FitsDraw(s: Sheet, d: Draw) {
    d.glyph.key in s.entries || FitsAt(Place(s.packer, d.glyph.W(), d.glyph.H()), d.glyph.W(), d.glyph.H())
  }

  predicate AllFit(s: Sheet, ds: seq<Draw>, n: nat)
    requires SheetOk(s) && DrawsOk(s, ds) && n <= |ds|
  {
    n == 0 || (AllFit(s, ds, n - 1) && FitsDraw(DrawAll(s, ds, n - 1), ds[n - 1]))
  }

  /** Over all frames that survive, any two glyphs of the atlas have a pixel between them, or lie on
      either side of a border where it doubled. */
  lemma {:induction false} GlyphsStayApart(s: Sheet, ds: seq<Draw>, n: nat)
    requires SheetOk(s) && DrawsOk(s, ds) && n <= |ds| && Spaced(s.entries, s.packer) && AllFit(s, ds, n)
    ensures Spaced(DrawAll(s, ds, n).entries, DrawAll(s, ds, n).packer)
  {
    if n > 0 {
      GlyphsStayApart(s, ds, n - 1);
      DrawKeepsSpaced(DrawAll(s, ds, n - 1), ds[n - 1]);
    }
  }

  /** A glyph that does not fit below the current shelves makes every other slot wrong. */
  lemma GrowthSpoilsTheOthers(s: Sheet, d: Draw, k: nat)
    requires SheetOk(s) && d.slot < |s.slots| && k < |s.slots| && k != d.slot && Holds(s, k)
    requires d.glyph.key !in s.entries && NextShelf(s.packer, d.glyph.W()).y + d.glyph.H() > s.packer.size
    ensures !Holds(DrawOne(s, d), k) && Holds(DrawOne(s, d), d.slot)
  {
    var r := DrawOne(s, d);
    AddressesIff(s.slots[k], s.packer.size);
    AddressesIff(r.slots[k], r.packer.size);
    AddressesIff(r.slots[d.slot], r.packer.size);
  }
}
