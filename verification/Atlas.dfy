/** The glyph atlas: a shelf packer over a texture that doubles when it is full. */
module Atlas {
  import opened Cells
  import opened Offsets

  const INITIAL_SIZE: nat := 1024

  type Key = nat
  datatype Entry = Entry(x: nat, y: nat, w: nat, h: nat)

  /** A rasterised glyph; `bitmap` is empty for a glyph without pixels, and otherwise has a
      byte of coverage for every pixel, row by row. */
  datatype Glyph = Glyph(key: Key, width: nat, height: nat, bitmap: seq<u8>) {
    function W(): nat { if width == 0 then 1 else width }
    function H(): nat { if height == 0 then 1 else height }

    predicate Ok() { bitmap == [] || |bitmap| == Start(H(), W()) }

    function Pixel(dx: nat, dy: nat): u8
      requires Ok() && dx < W() && dy < H()
    {
      if bitmap == [] then 0 else LineStart(dy, H(), W()); bitmap[Start(dy, W()) + dx]
    }
  }

  // ---- Packing --------------------------------------------------------------------------

  /** Where the next glyph of the current shelf goes, how high the shelf is, and how large
      the texture is. */
  datatype Packer = Packer(x: nat, y: nat, h: nat, size: nat)

  const EMPTY: Packer := Packer(1, 0, 0, INITIAL_SIZE)

  predicate Inside(e: Entry, size: nat) {
    e.x + e.w <= size && e.y + e.h <= size
  }

  predicate Disjoint(a: Entry, b: Entry) {
    || a.x + a.w <= b.x || b.x + b.w <= a.x
    || a.y + a.h <= b.y || b.y + b.h <= a.y
  }

  /** Above the current shelf, or on it and left of the next place. */
  predicate Before(e: Entry, p: Packer) {
    e.y + e.h <= p.y || (e.y == p.y && e.h <= p.h && e.x + e.w < p.x)
  }

  predicate Packed(entries: map<Key, Entry>, p: Packer) {
    && (forall k :: k in entries ==> Inside(entries[k], p.size) && Before(entries[k], p))
    && (forall j, k :: j in entries && k in entries && j != k ==> Disjoint(entries[j], entries[k]))
  }

  /** The place for a glyph that is `w` by `h`: on the current shelf, on a new one, or on the
      first shelf of the lower half of a doubled texture. */
  function Place(p: Packer, w: nat, h: nat): Packer {
    Grown(NextShelf(p, w), h)
  }

  function NextShelf(p: Packer, w: nat): Packer {
    if p.x + w + 1 > p.size then Packer(1, p.y + p.h + 1, 0, p.size) else p
  }

  function Grown(p: Packer, h: nat): Packer {
    if p.y + h > p.size then Packer(1, p.size, 0, 2 * p.size) else p
  }

  function Taken(p: Packer, w: nat, h: nat): Packer {
    p.(x := p.x + w + 1, h := if p.h >= h then p.h else h)
  }

  predicate FitsAt(p: Packer, w: nat, h: nat) {
    Inside(Entry(p.x, p.y, w, h), p.size)
  }

  /** No earlier entry reaches the place, whether or not the texture grew. */
  lemma PlaceKeepsPacked(entries: map<Key, Entry>, p: Packer, w: nat, h: nat)
    requires Packed(entries, p)
    ensures Packed(entries, Place(p, w, h))
  {
  }

  lemma TakeKeepsPacked(entries: map<Key, Entry>, p: Packer, key: Key, w: nat, h: nat)
    requires Packed(entries, p) && key !in entries && FitsAt(p, w, h)
    ensures Packed(entries[key := Entry(p.x, p.y, w, h)], Taken(p, w, h))
  {
  }

  /** Where a glyph goes: on the current shelf if that is wide and high enough; else at the start of a
      new one, a pixel below; else at the top of the lower half of a doubled texture. The next glyph
      goes a pixel right of it. */
  lemma PlaceIs(p: Packer, w: nat, h: nat)
    ensures var shelf := p.x + w + 1 <= p.size; var top := if shelf then p.y else p.y + p.h + 1;
      Place(p, w, h) ==
        if top + h > p.size then Packer(1, p.size, 0, 2 * p.size)
        else if shelf then p
        else Packer(1, top, 0, p.size)
    ensures Taken(p, w, h) == Packer(p.x + w + 1, p.y, if h > p.h then h else p.h, p.size)
  {
  }

  /** Exactly the glyphs that find a place inside the texture: no higher than the texture
      is, and no wider than the rest of a shelf, unless the texture doubles on the way. */
  lemma FitsIff(p: Packer, w: nat, h: nat)
    requires 1 <= p.x
    ensures var grows := NextShelf(p, w).y + h > p.size;
      var q := Place(p, w, h);
      FitsAt(q, w, h) <==> (if grows then h <= p.size && 1 + w <= 2 * p.size else p.x + w < p.size || 1 + w <= p.size)
  {
  }

  lemma SmallAlwaysFits(p: Packer, w: nat, h: nat)
    requires 1 <= p.x && w + 1 <= p.size && h <= p.size
    ensures FitsAt(Place(p, w, h), w, h)
  {
    FitsIff(p, w, h);
  }

  // ---- Texture coordinates --------------------------------------------------------------

  /** A texture coordinate: a number of pixels as a fraction of the texture's size. */
  function Fraction(pixels: nat, size: nat): real
    requires size > 0
  {
    pixels as real / size as real
  }

  /** The coordinates handed out while the texture had `size` address the entry's pixels in
      a texture of `now` exactly if it has not grown since. */
  lemma CoordinatesHoldIff(e: Entry, size: nat, now: nat)
    requires 0 < e.w && 0 < size && 0 < now
    ensures (Fraction(e.w, size) * now as real == e.w as real && Fraction(e.x, size) * now as real == e.x as real)
            <==> size == now
  {
    Rescaled(e.w as real, size as real, now as real);
    Rescaled(e.x as real, size as real, now as real);
  }

  lemma Rescaled(x: real, s: real, t: real)
    requires s > 0.0
    ensures s == t ==> x / s * t == x
    ensures x > 0.0 && x / s * t == x ==> s == t
  {
    var f := x / s;
    assert f * s == x;
    if x > 0.0 && f * t == x {
      assert f * (s - t) == 0.0 && f != 0.0;
    }
  }

  // ---- The texture -------------------------------------------------------------------------

  class GlyphAtlas {
    var texture: array2<u8>
    var entries: map<Key, Entry>
    var packer: Packer
    var generation: nat

    /** The glyph each entry was made for. */
    ghost var glyphs: map<Key, Glyph>

    ghost predicate Valid()
      reads this, texture
    {
      && texture.Length0 == packer.size && texture.Length1 == packer.size
      && INITIAL_SIZE <= packer.size && 1 <= packer.x
      && Packed(entries, packer)
      && glyphs.Keys == entries.Keys
      && forall k :: k in entries ==> Shows(texture, entries[k], glyphs[k])
    }

    constructor ()
      ensures Valid() && fresh(texture) && entries == map[] && packer == EMPTY
    {
      texture := new u8[INITIAL_SIZE, INITIAL_SIZE];
      entries, glyphs := map[], map[];
      packer := EMPTY;
      generation := 0;
    }

    /** The entry of a glyph, uploading it on first use; `None` is an upload that leaves the
        texture, which aborts. */
    method Ensure(g: Glyph) returns (r: Option<Entry>)
      requires Valid() && g.Ok()
      modifies this, texture
      ensures r.Some? ==> Valid() && (fresh(texture) || texture == old(texture))
      ensures g.key in old(entries) ==>
        r == Some(old(entries)[g.key]) && entries == old(entries) && glyphs == old(glyphs)
      ensures g.key !in old(entries) ==>
        var p := Place(old(packer), g.W(), g.H());
        && r.Some? == FitsAt(p, g.W(), g.H())
        && (r.Some? ==>
              && r.value == Entry(p.x, p.y, g.W(), g.H())
              && entries == old(entries)[g.key := r.value] && glyphs == old(glyphs)[g.key := g]
              && packer == Taken(p, g.W(), g.H())
              && generation == old(generation) + (if p.size > old(packer).size then 1 else 0))
    {
      if g.key in entries {
        return Some(entries[g.key]);
      }
      PlaceKeepsPacked(entries, packer, g.W(), g.H());
      packer := NextShelf(packer, g.W());
      if packer.y + g.H() > packer.size {
        Grow();
      }
      var e := Entry(packer.x, packer.y, g.W(), g.H());
      if !Inside(e, packer.size) {
        return None;
      }
      TakeKeepsPacked(entries, packer, g.key, g.W(), g.H());
      packer := Taken(packer, g.W(), g.H());
      Upload(e, g);
      entries := entries[g.key := e];
      glyphs := glyphs[g.key := g];
      r := Some(e);
    }

    method Upload(e: Entry, g: Glyph)
      requires g.Ok() && e.w == g.W() && e.h == g.H()
      requires texture.Length0 == texture.Length1 && Inside(e, texture.Length0)
      modifies texture
      ensures Shows(texture, e, g)
      ensures forall f: Entry, o: Glyph :: Disjoint(e, f) && old(Shows(texture, f, o)) ==> Shows(texture, f, o)
    {
      forall row, col | e.y <= row < e.y + e.h && e.x <= col < e.x + e.w {
        texture[row, col] := g.Pixel(col - e.x, row - e.y);
      }
    }

    /** Twice the texture, the old one in its top left corner. */
    method Grow()
      requires texture.Length0 == packer.size && texture.Length1 == packer.size
      modifies this`texture, this`packer, this`generation
      ensures fresh(texture) && packer == Packer(1, old(packer).size, 0, 2 * old(packer).size)
      ensures texture.Length0 == packer.size && texture.Length1 == packer.size
      ensures generation == old(generation) + 1
      ensures forall f: Entry, o: Glyph :: old(Shows(texture, f, o)) ==> Shows(texture, f, o)
    {
      var size := packer.size;
      var larger := new u8[2 * size, 2 * size];
      forall row, col | 0 <= row < size && 0 <= col < size {
        larger[row, col] := texture[row, col];
      }
      texture := larger;
      packer := Packer(1, size, 0, 2 * size);
      generation := generation + 1;
    }
  }

  /** The pixels of `e` are those of `g`. */
  ghost predicate Shows(texture: array2<u8>, e: Entry, g: Glyph)
    reads texture
  {
    && texture.Length0 == texture.Length1 && Inside(e, texture.Length0)
    && g.Ok() && e.w == g.W() && e.h == g.H()
    && forall row, col :: e.y <= row < e.y + e.h && e.x <= col < e.x + e.w ==>
         texture[row, col] == g.Pixel(col - e.x, row - e.y)
  }

  // ---- Runs ----------------------------------------------------------------------------------

  /** Which glyph every key stands for once the first `n` of `gs` were asked for: the first one
      asked for under it. */
  function Requested(glyphs: map<Key, Glyph>, gs: seq<Glyph>, n: nat): map<Key, Glyph>
    requires n <= |gs|
  {
    if n == 0 then glyphs
    else
      var m := Requested(glyphs, gs, n - 1);
      if gs[n - 1].key in m then m else m[gs[n - 1].key := gs[n - 1]]
  }

  /** A key stands for one glyph, among those asked for and those already known. */
  predicate OneGlyphPerKey(glyphs: map<Key, Glyph>, gs: seq<Glyph>) {
    && (forall i :: 0 <= i < |gs| && gs[i].key in glyphs ==> glyphs[gs[i].key] == gs[i])
    && forall i, j :: 0 <= i < |gs| && 0 <= j < |gs| && gs[i].key == gs[j].key ==> gs[i] == gs[j]
  }

  /** Everyone who asks gets the glyph asked for exactly if a key stands for one glyph. */
  lemma RequestedIff(glyphs: map<Key, Glyph>, gs: seq<Glyph>)
    ensures var m := Requested(glyphs, gs, |gs|);
      (forall i :: 0 <= i < |gs| ==> gs[i].key in m && m[gs[i].key] == gs[i]) <==> OneGlyphPerKey(glyphs, gs)
  {
    RequestedKeys(glyphs, gs, |gs|);
    if OneGlyphPerKey(glyphs, gs) {
      RequestedFirst(glyphs, gs, |gs|);
    }
  }

  lemma {:induction false} RequestedKeys(glyphs: map<Key, Glyph>, gs: seq<Glyph>, n: nat)
    requires n <= |gs|
    ensures var m := Requested(glyphs, gs, n);
      && (forall i :: 0 <= i < n ==> gs[i].key in m)
      && forall k :: k in glyphs ==> k in m && m[k] == glyphs[k]
  {
    if n > 0 {
      RequestedKeys(glyphs, gs, n - 1);
    }
  }

  lemma {:induction false} RequestedFirst(glyphs: map<Key, Glyph>, gs: seq<Glyph>, n: nat)
    requires n <= |gs| && OneGlyphPerKey(glyphs, gs)
    ensures var m := Requested(glyphs, gs, n);
      forall i :: 0 <= i < |gs| && gs[i].key in m ==> m[gs[i].key] == gs[i]
  {
    if n > 0 {
      RequestedFirst(glyphs, gs, n - 1);
    }
  }

  /** Whatever glyphs are asked for, none of them wider or higher than the initial texture
      allows: every key gets an entry that shows the first glyph asked for under it, so where a
      key stands for one glyph all of them are shown; the entries are inside the texture and
      disjoint, and an entry once handed out never changes. */
  method EnsureAll(atlas: GlyphAtlas, gs: seq<Glyph>)
    requires atlas.Valid()
    requires forall i :: 0 <= i < |gs| ==> gs[i].Ok() && gs[i].W() + 1 <= INITIAL_SIZE && gs[i].H() <= INITIAL_SIZE
    modifies atlas, atlas.texture
    ensures atlas.Valid() && atlas.glyphs == Requested(old(atlas.glyphs), gs, |gs|)
    ensures forall i :: 0 <= i < |gs| ==> gs[i].key in atlas.entries
    ensures OneGlyphPerKey(old(atlas.glyphs), gs) ==>
              forall i :: 0 <= i < |gs| ==> Shows(atlas.texture, atlas.entries[gs[i].key], gs[i])
    ensures forall k :: k in old(atlas.entries) ==> k in atlas.entries && atlas.entries[k] == old(atlas.entries)[k]
    ensures forall k :: k in old(atlas.entries) ==> atlas.glyphs[k] == old(atlas.glyphs)[k]
  {
    ghost var known := atlas.glyphs;
    RequestedKeys(known, gs, |gs|);
    RequestedIff(known, gs);
    for i := 0 to |gs|
      invariant atlas.Valid() && (fresh(atlas.texture) || atlas.texture == old(atlas.texture))
      invariant atlas.glyphs == Requested(known, gs, i)
      invariant forall k :: k in old(atlas.entries) ==> k in atlas.entries && atlas.entries[k] == old(atlas.entries)[k]
    {
      EnsureOne(atlas, gs[i]);
    }
  }

  method EnsureOne(atlas: GlyphAtlas, g: Glyph)
    requires atlas.Valid() && g.Ok() && g.W() + 1 <= INITIAL_SIZE && g.H() <= INITIAL_SIZE
    modifies atlas, atlas.texture
    ensures atlas.Valid() && (fresh(atlas.texture) || atlas.texture == old(atlas.texture))
    ensures atlas.glyphs == if g.key in old(atlas.glyphs) then old(atlas.glyphs) else old(atlas.glyphs)[g.key := g]
    ensures forall k :: k in old(atlas.entries) ==> k in atlas.entries && atlas.entries[k] == old(atlas.entries)[k]
  {
    SmallAlwaysFits(atlas.packer, g.W(), g.H());
    var e := atlas.Ensure(g);
  }
}
