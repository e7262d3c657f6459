/** Reading the history between any events: the one-block cache against plain reads of the rows.
    Exactly which terminals the cache is harmless on, and which reads spoil it. */
module Reads {
  import opened Cells
  import opened History
  import opened SpanCodec
  import opened Terminal
  import opened TerminalSpec
  import opened TerminalStore
  import opened Tiers

  datatype Step = Do(e: Event) | Read(idx: nat)

  /** A terminal with what its caches are filed under. */
  datatype Reader = Reader(s: State, caches: Caches)

  /** How many rows lie in whole blocks; the other tiered ones are pending. */
  function ColdCount(tiered: nat): nat { BlockStart(BlockIndex(tiered)) }

  /** A cache holds a whole block under its base, or one row; of tiered rows only. */
  predicate EntryOk(e: Option<Entry>, tiered: nat) {
    e.Some? ==>
      && (e.value.len == 1 || (e.value.len == BLOCK_ROWS && BlockOffset(e.value.base) == 0))
      && e.value.base + e.value.len <= tiered
  }

  predicate ReaderOk(r: Reader) {
    && EntryOk(r.caches.shown, r.s.tiered)
    && (if r.s.alt.Some? then EntryOk(r.caches.aside, r.s.alt.value.tiered) else r.caches.aside == None)
  }

  function Applied(r: Reader, e: Event): Reader
    requires !Aborts(r.s, e)
  {
    Reader(Apply(r.s, e), CachesAfter(r.caches, r.s.modes.altScreen, e))
  }

  function HasRead(r: Reader, idx: nat): Reader {
    var cold := ColdCount(r.s.tiered);
    r.(caches := r.caches.(shown := EntryAfter(r.caches.shown, cold, r.s.tiered - cold, idx)))
  }

  predicate ReadFails(r: Reader, idx: nat) {
    Collides(r.caches.shown, ColdCount(r.s.tiered), idx)
  }

  function RowAt(s: State, idx: nat): Row {
    if idx < |s.Flat()| then s.Flat()[idx] else OutOfRange()
  }

  /** The rows read by the terminal, through its cache; `None` once the program aborts. */
  function CachedReads(r: Reader, steps: seq<Step>): Option<seq<Row>>
    decreases |steps|
  {
    if steps == [] then Some([])
    else match steps[0]
      case Do(e) => if Aborts(r.s, e) then None else CachedReads(Applied(r, e), steps[1..])
      case Read(idx) =>
        if ReadFails(r, idx) then None else Prepend(RowAt(r.s, idx), CachedReads(HasRead(r, idx), steps[1..]))
  }

  /** The rows of the history that were asked for, without any cache. */
  function PlainReads(s: State, steps: seq<Step>): Option<seq<Row>>
    decreases |steps|
  {
    if steps == [] then Some([])
    else match steps[0]
      case Do(e) => if Aborts(s, e) then None else PlainReads(Apply(s, e), steps[1..])
      case Read(idx) => Prepend(RowAt(s, idx), PlainReads(s, steps[1..]))
  }

  function Prepend(row: Row, rows: Option<seq<Row>>): Option<seq<Row>> {
    if rows.None? then None else Some([row] + rows.value)
  }

  // ---- What spoils the cache ------------------------------------------------------------------

  /** One row under the base of a block that the limit lets fill up. */
  predicate Spoilt(e: Option<Entry>, limit: nat) {
    && e.Some? && e.value.len == 1 && BlockOffset(e.value.base) == 0
    && e.value.base + BLOCK_ROWS <= TierSpace(limit)
  }

  predicate ReaderSpoilt(r: Reader) {
    Spoilt(r.caches.shown, r.s.limit) || Spoilt(r.caches.aside, r.s.limit)
  }

  /** Reading the oldest pending row, of a block that the limit lets fill up. */
  predicate Spoils(s: State, idx: nat) {
    idx == ColdCount(s.tiered) < s.tiered && idx + BLOCK_ROWS <= TierSpace(s.limit)
  }

  predicate Careful(s: State, steps: seq<Step>)
    decreases |steps|
  {
    steps == [] || match steps[0]
      case Do(e) => Aborts(s, e) || Careful(Apply(s, e), steps[1..])
      case Read(idx) => !Spoils(s, idx) && Careful(s, steps[1..])
  }

  lemma TieredFromHistory(history: seq<Row>, tiered: nat, limit: nat)
    requires RetentionOk(history, tiered, limit)
    ensures tiered == if |history| <= HOT_CAP then 0 else |history| - HOT_CAP
    ensures tiered <= TierSpace(limit)
  {
  }

  lemma TieredGrows(s: State, e: Event)
    requires !Aborts(s, e) && e != EraseScreen(3) && !e.AltScreen?
    ensures s.tiered <= Apply(s, e).tiered && Apply(s, e).alt == s.alt
  {
    var r := Apply(s, e);
    TieredFromHistory(s.history, s.tiered, s.limit);
    TieredFromHistory(r.history, r.tiered, r.limit);
  }

  lemma AppliedOk(r: Reader, e: Event)
    requires ReaderOk(r) && !Aborts(r.s, e)
    ensures ReaderOk(Applied(r, e))
    ensures ReaderSpoilt(Applied(r, e)) ==> ReaderSpoilt(r)
  {
    if e == EraseScreen(3) {
      AppliesErase(r.s, 3);
    } else if e.AltScreen? {
      AppliesAlt(r.s, e.alt);
    } else {
      TieredGrows(r.s, e);
    }
  }

  lemma BaseSplit(idx: nat)
    ensures idx == BlockStart(BlockIndex(idx)) + BlockOffset(idx) && BlockOffset(idx) < BLOCK_ROWS
    ensures BlockOffset(BlockStart(BlockIndex(idx))) == 0
  {
  }

  lemma BaseBelow(idx: nat, tiered: nat)
    requires idx < ColdCount(tiered)
    ensures BlockStart(BlockIndex(idx)) + BLOCK_ROWS <= ColdCount(tiered) <= tiered
  {
  }

  /** A pending row lies under a block's base exactly if it is the oldest one. */
  lemma PendingBase(idx: nat, tiered: nat)
    requires ColdCount(tiered) <= idx < tiered
    ensures BlockOffset(idx) == 0 <==> idx == ColdCount(tiered)
  {
  }

  lemma HasReadOk(r: Reader, idx: nat)
    requires ReaderOk(r)
    ensures ReaderOk(HasRead(r, idx))
  {
    var cold := ColdCount(r.s.tiered);
    if idx < cold {
      BaseSplit(idx);
      BaseBelow(idx, r.s.tiered);
    }
  }

  /** A read leaves a spoilt cache exactly if it is of the oldest pending row of a block that can
      fill up, or finds a spoilt one and leaves it as it is. */
  lemma SpoilsIff(r: Reader, idx: nat)
    requires ReaderOk(r)
    ensures var after := HasRead(r, idx).caches.shown;
      Spoilt(after, r.s.limit) <==> Spoils(r.s, idx) || (after == r.caches.shown && Spoilt(r.caches.shown, r.s.limit))
  {
    var cold := ColdCount(r.s.tiered);
    if idx >= cold && idx < r.s.tiered {
      PendingBase(idx, r.s.tiered);
    }
  }

  /** A read fails only on a spoilt cache. */
  lemma FailsOnlyWhenSpoilt(r: Reader, idx: nat)
    requires ReaderOk(r) && ReadFails(r, idx)
    ensures Spoilt(r.caches.shown, r.s.limit)
  {
    BaseSplit(idx);
    BaseBelow(idx, r.s.tiered);
    TieredFromHistory(r.s.history, r.s.tiered, r.s.limit);
  }

  /** Over any events and reads that do not spoil it, an unspoilt cache is invisible. */
  lemma {:induction false} CarefulReads(r: Reader, steps: seq<Step>)
    requires ReaderOk(r) && !ReaderSpoilt(r) && Careful(r.s, steps)
    ensures CachedReads(r, steps) == PlainReads(r.s, steps)
    decreases |steps|
  {
    if steps != [] {
      match steps[0]
      case Do(e) =>
        if !Aborts(r.s, e) {
          AppliedOk(r, e);
          CarefulReads(Applied(r, e), steps[1..]);
        }
      case Read(idx) =>
        if ReadFails(r, idx) {
          FailsOnlyWhenSpoilt(r, idx);
        }
        HasReadOk(r, idx);
        SpoilsIff(r, idx);
        CarefulReads(HasRead(r, idx), steps[1..]);
    }
  }

  // ---- A spoilt cache is reached ---------------------------------------------------------------

  /** Fill the block up, and read its second row. */
  function FillAndRead(n: nat, idx: nat): seq<Step> { [Do(ScrollUpEvent(n)), Read(idx)] }

  lemma {:induction false} ScrollTiers(s: State, n: nat)
    requires s.tiered > 0 && s.tiered + n <= TierSpace(s.limit)
    ensures ScrollUpTimes(s, n).tiered == s.tiered + n && |ScrollUpTimes(s, n).history| == |s.history| + n
  {
    if n > 0 {
      var m := n - 1;
      ScrollTiers(s, m);
      OneMoreScroll(s, m, n);
    }
  }

  function Missing(base: nat, tiered: nat): nat {
    if base + BLOCK_ROWS <= tiered then 0 else base + BLOCK_ROWS - tiered
  }

  function Fill(r: Reader): seq<Step>
    requires r.caches.shown.Some?
  {
    var base := r.caches.shown.value.base;
    FillAndRead(Missing(base, r.s.tiered), base + 1)
  }

  lemma FillsUp(s: State, base: nat, n: nat)
    requires base < s.tiered <= TierSpace(s.limit) && base + BLOCK_ROWS <= TierSpace(s.limit)
    requires n == Missing(base, s.tiered)
    ensures base + BLOCK_ROWS <= Apply(s, ScrollUpEvent(n)).tiered
  {
    ScrollTiers(s, n);
  }

  lemma ShownFails(r: Reader)
    requires ReaderOk(r) && Spoilt(r.caches.shown, r.s.limit)
    ensures Careful(r.s, Fill(r)) && CachedReads(r, Fill(r)) == None && PlainReads(r.s, Fill(r)).Some?
  {
    var base := r.caches.shown.value.base;
    var n := Missing(base, r.s.tiered);
    TieredFromHistory(r.s.history, r.s.tiered, r.s.limit);
    FillsUp(r.s, base, n);
    SecondRowFails(base, Apply(r.s, ScrollUpEvent(n)).tiered);
    TwoSteps(r, ScrollUpEvent(n), base + 1);
  }

  lemma SecondRowFails(base: nat, tiered: nat)
    requires BlockOffset(base) == 0 && base + BLOCK_ROWS <= tiered
    ensures BlockStart(BlockIndex(base + 1)) == base && base + 1 < ColdCount(tiered)
  {
  }

  lemma TwoSteps(r: Reader, e: Event, idx: nat)
    requires !Aborts(r.s, e) && ReadFails(Applied(r, e), idx) && idx < ColdCount(Apply(r.s, e).tiered)
    ensures var steps := [Do(e), Read(idx)];
      Careful(r.s, steps) && CachedReads(r, steps) == None && PlainReads(r.s, steps).Some?
  {
    var steps, t := [Do(e), Read(idx)], Apply(r.s, e);
    assert steps[1..] == [Read(idx)] && [Read(idx)][1..] == [];
    assert Careful(t, [Read(idx)]);
    assert CachedReads(Applied(r, e), [Read(idx)]) == None;
    assert PlainReads(t, [Read(idx)]) == Prepend(RowAt(t, idx), PlainReads(t, []));
  }

  lemma FirstStep(r: Reader, e: Event, rest: seq<Step>)
    requires !Aborts(r.s, e)
    ensures var steps := [Do(e)] + rest;
      && CachedReads(r, steps) == CachedReads(Applied(r, e), rest)
      && PlainReads(r.s, steps) == PlainReads(Apply(r.s, e), rest)
      && (Careful(r.s, steps) <==> Careful(Apply(r.s, e), rest))
  {
    assert ([Do(e)] + rest)[1..] == rest;
  }

  lemma SwitchShows(r: Reader)
    requires ReaderOk(r) && Spoilt(r.caches.aside, r.s.limit)
    ensures var t := Applied(r, AltScreen(false));
      ReaderOk(t) && t.s.limit == r.s.limit && t.caches.shown == r.caches.aside
  {
    AppliesAlt(r.s, false);
    AppliedOk(r, AltScreen(false));
  }

  /** The steps that make the terminal abort. */
  function Spoiler(r: Reader): seq<Step>
    requires ReaderOk(r) && ReaderSpoilt(r)
  {
    if Spoilt(r.caches.shown, r.s.limit) then Fill(r)
    else SwitchShows(r); [Do(AltScreen(false))] + Fill(Applied(r, AltScreen(false)))
  }

  /** From a spoilt cache, careful steps end in an abort where the rows are there to read. */
  lemma SpoiltFails(r: Reader)
    requires ReaderOk(r) && ReaderSpoilt(r)
    ensures var steps := Spoiler(r);
      Careful(r.s, steps) && CachedReads(r, steps) == None && PlainReads(r.s, steps).Some?
  {
    if Spoilt(r.caches.shown, r.s.limit) {
      ShownFails(r);
    } else {
      var t := Applied(r, AltScreen(false));
      SwitchShows(r);
      ShownFails(t);
      FirstStep(r, AltScreen(false), Fill(t));
    }
  }

  /** The cache is invisible to all careful runs exactly if it is not spoilt, whatever the
      terminal went through before. */
  lemma CacheInvisibleIff(r: Reader)
    requires ReaderOk(r)
    ensures (forall steps :: Careful(r.s, steps) ==> CachedReads(r, steps) == PlainReads(r.s, steps))
            <==> !ReaderSpoilt(r)
  {
    if ReaderSpoilt(r) {
      SpoiltFails(r);
      assert !(Careful(r.s, Spoiler(r)) ==> CachedReads(r, Spoiler(r)) == PlainReads(r.s, Spoiler(r)));
    } else {
      forall steps | Careful(r.s, steps) ensures CachedReads(r, steps) == PlainReads(r.s, steps) {
        CarefulReads(r, steps);
      }
    }
  }

  // ---- A new terminal --------------------------------------------------------------------------

  function FreshReader(cols: nat, rows: nat, limit: nat): Reader
    requires 1 <= rows && 1 <= cols <= MAX_COLS
  {
    Reader(Fresh(cols, rows, limit), Caches(None, None))
  }

  lemma {:induction false} ShortLimitIsCareful(s: State, steps: seq<Step>)
    requires TierSpace(s.limit) < BLOCK_ROWS
    ensures Careful(s, steps)
    decreases |steps|
  {
    if steps != [] {
      match steps[0]
      case Do(e) =>
        if !Aborts(s, e) {
          ShortLimitIsCareful(Apply(s, e), steps[1..]);
        }
      case Read(_) => ShortLimitIsCareful(s, steps[1..]);
    }
  }

  /** On a new terminal the cache is invisible exactly if the history limit is too low for a
      whole block. */
  lemma FreshCacheIff(cols: nat, rows: nat, limit: nat)
    requires 1 <= rows && 1 <= cols <= MAX_COLS
    ensures var r := FreshReader(cols, rows, limit);
      (forall steps :: CachedReads(r, steps) == PlainReads(r.s, steps)) <==> TierSpace(limit) < BLOCK_ROWS
  {
    var r := FreshReader(cols, rows, limit);
    if TierSpace(limit) < BLOCK_ROWS {
      forall steps ensures CachedReads(r, steps) == PlainReads(r.s, steps) {
        ShortLimitIsCareful(r.s, steps);
        CarefulReads(r, steps);
      }
    } else {
      var steps := FreshFails(cols, rows, limit);
    }
  }

  lemma FreshFails(cols: nat, rows: nat, limit: nat) returns (steps: seq<Step>)
    requires 1 <= rows && 1 <= cols <= MAX_COLS && TierSpace(limit) >= BLOCK_ROWS
    ensures var r := FreshReader(cols, rows, limit); CachedReads(r, steps) == None && PlainReads(r.s, steps).Some?
  {
    var r, e := FreshReader(cols, rows, limit), ScrollUpEvent(HOT_CAP + 1);
    var t := Applied(r, e);
    FreshScrolls(cols, rows, limit, HOT_CAP + 1);
    assert t.s.tiered == 1 && t.caches == r.caches;
    var u := HasRead(t, 0);
    HasReadOk(t, 0);
    SpoilsIff(t, 0);
    SpoiltFails(u);
    ReadFirst(t, 0, Spoiler(u));
    steps := [Do(e)] + ([Read(0)] + Spoiler(u));
    FirstStep(r, e, [Read(0)] + Spoiler(u));
  }

  lemma ReadFirst(r: Reader, idx: nat, rest: seq<Step>)
    requires !ReadFails(r, idx)
    ensures var steps := [Read(idx)] + rest;
      && CachedReads(r, steps) == Prepend(RowAt(r.s, idx), CachedReads(HasRead(r, idx), rest))
      && PlainReads(r.s, steps) == Prepend(RowAt(r.s, idx), PlainReads(r.s, rest))
  {
    assert ([Read(idx)] + rest)[1..] == rest;
  }

  // ---- The terminal ----------------------------------------------------------------------------

  lemma ColdCountIs(blocks: nat, pending: nat, cold: nat, tiered: nat)
    requires pending < BLOCK_ROWS && cold == BlockStart(blocks) && tiered == cold + pending
    ensures cold == ColdCount(tiered)
  {
    BlockSplit(blocks, pending);
  }

  ghost function ReaderOf(t: TerminalState): Reader
    reads t
  {
    Reader(t.model, t.Caches())
  }

  /** What a valid terminal's caches hold. */
  lemma ReaderOfOk(t: TerminalState)
    requires t.Valid()
    ensures ReaderOk(ReaderOf(t))
  {
  }

  /** Any events and reads, in any order: the rows are those of the cached reads above, and the
      program survives exactly where they do; so from an unspoilt cache careful steps read the
      rows of the history. */
  method ReadRun(t: TerminalState, steps: seq<Step>) returns (rows: Option<seq<Row>>)
    requires t.Valid()
    modifies t
    ensures t.Valid() && rows == CachedReads(old(ReaderOf(t)), steps)
    ensures !ReaderSpoilt(old(ReaderOf(t))) && Careful(old(t.model), steps) ==> rows == PlainReads(old(t.model), steps)
  {
    CarefulHere(t, steps);
    var out: seq<Row> := [];
    ghost var all := CachedReads(ReaderOf(t), steps);
    RestStarts(ReaderOf(t), steps);
    for i := 0 to |steps|
      invariant t.Valid() && all == Rest(ReaderOf(t), steps, i, out)
    {
      RestTurn(ReaderOf(t), steps, i, out);
      match steps[i]
      case Do(e) =>
        var ok := EventStep(t, e);
        if !ok {
          return None;
        }
      case Read(idx) =>
        var row := ReadStep(t, idx);
        if row.None? {
          return None;
        }
        out := out + [row.value];
    }
    RestEnds(ReaderOf(t), steps, out);
    rows := Some(out);
  }

  lemma CarefulHere(t: TerminalState, steps: seq<Step>)
    requires t.Valid()
    ensures !ReaderSpoilt(ReaderOf(t)) && Careful(t.model, steps) ==>
              CachedReads(ReaderOf(t), steps) == PlainReads(t.model, steps)
  {
    ReaderOfOk(t);
    if !ReaderSpoilt(ReaderOf(t)) && Careful(t.model, steps) {
      CarefulReads(ReaderOf(t), steps);
    }
  }

  /** The rows read so far and those of the steps from `i` on. */
  function Rest(r: Reader, steps: seq<Step>, i: nat, out: seq<Row>): Option<seq<Row>>
    requires i <= |steps|
  {
    var rows := CachedReads(r, steps[i..]);
    if rows.None? then None else Some(out + rows.value)
  }

  lemma RestStarts(r: Reader, steps: seq<Step>)
    ensures Rest(r, steps, 0, []) == CachedReads(r, steps)
  {
    assert steps[0..] == steps;
    var rows := CachedReads(r, steps);
    assert rows.Some? ==> [] + rows.value == rows.value;
  }

  lemma RestEnds(r: Reader, steps: seq<Step>, out: seq<Row>)
    ensures Rest(r, steps, |steps|, out) == Some(out)
  {
    assert steps[|steps|..] == [] && out + [] == out;
  }

  lemma RestTurn(r: Reader, steps: seq<Step>, i: nat, out: seq<Row>)
    requires i < |steps|
    ensures steps[i].Do? ==>
      Rest(r, steps, i, out) ==
        if Aborts(r.s, steps[i].e) then None else Rest(Applied(r, steps[i].e), steps, i + 1, out)
    ensures steps[i].Read? ==>
      var idx := steps[i].idx;
      Rest(r, steps, i, out) ==
        if ReadFails(r, idx) then None else Rest(HasRead(r, idx), steps, i + 1, out + [RowAt(r.s, idx)])
  {
    var rest := steps[i..];
    assert rest[0] == steps[i] && rest[1..] == steps[i + 1..];
    match steps[i]
    case Do(e) =>
    case Read(idx) =>
      var rows := CachedReads(HasRead(r, idx), rest[1..]);
      if rows.Some? {
        Assoc(out, [RowAt(r.s, idx)], rows.value);
      }
  }

  method EventStep(t: TerminalState, e: Event) returns (ok: bool)
    requires t.Valid()
    modifies t
    ensures t.Valid() && ok == !Aborts(old(t.model), e)
    ensures ok ==> ReaderOf(t) == Applied(old(ReaderOf(t)), e)
  {
    assert t.modes.altScreen == t.model.modes.altScreen;
    ok := t.ApplyEvent(e);
  }

  method ReadStep(t: TerminalState, idx: nat) returns (row: Option<Row>)
    requires t.Valid()
    modifies t`coldCache
    ensures t.Valid() && ReaderOf(t) == HasRead(old(ReaderOf(t)), idx)
    ensures row == if ReadFails(old(ReaderOf(t)), idx) then None else Some(RowAt(t.model, idx))
  {
    ColdCountIs(|t.tiers.cold.blocks|, t.tiers.count, t.tiers.cold.totalRows, t.model.tiered);
    FlatIsHistoryAndScreen(t.Value(), t.model);
    row := t.GridRow(idx);
  }
}
