/** Terminals and the renderer together: over any run of events and frames the instance
    buffer shows every pane as if each frame had drawn everything. */
module RenderedTerminals {
  import opened Bits
  import opened Cells
  import opened DirtySoundness
  import opened DirtyTracking
  import opened Frames
  import opened Renderer
  import opened TerminalRuns
  import Spec = TerminalSpec

  function ScreenCells(s: Spec.State): (view: seq<seq<Cell>>)
    ensures |view| == s.rows && forall v :: 0 <= v < s.rows ==> view[v] == s.screen[v].cells
  {
    seq(s.rows, v requires 0 <= v < s.rows => s.screen[v].cells)
  }

  /** What the renderer gets of a terminal that is not scrolled back. */
  function PaneOf(s: Spec.State, origin: Origin): Pane {
    Pane(ScreenCells(s), s.rows, s.cols, s.dirty, origin)
  }

  /** A terminal's events between two frames leave every changed row listed. */
  lemma TerminalIsReported(s: Spec.State, es: seq<Spec.Event>, r: Spec.State, origin: Origin)
    requires s.rows <= WORD && Run(Spec.ConsumeDirty(s), es) == Some(r)
    ensures r.rows == s.rows && BitsInside(PaneOf(r, origin))
    ensures forall v :: 0 <= v < r.rows && ScreenCells(s)[v] != ScreenCells(r)[v] ==>
              Listed(PaneOf(r, origin), false, v)
  {
    ChangesAreReported(s, es);
    forall v | 0 <= v < r.rows && ScreenCells(s)[v] != ScreenCells(r)[v] ensures Listed(PaneOf(r, origin), false, v) {
      assert r.screen[v].cells != s.screen[v].cells;
      DirtyIsListed(PaneOf(r, origin), v);
    }
  }

  lemma DirtyIsListed(p: Pane, v: nat)
    requires v < WORD && p.dirty.IsRowDirty(v)
    ensures Listed(p, false, v)
  {
  }

  /** Another terminal of the same size at a pane's place, as after a switch of tabs: it is shown
      exactly if its own changes list every row that the old one shows differently. */
  lemma SwitchShownIff(insts: seq<Instance>, s: Spec.State, t: Spec.State, origin: Origin)
    requires s.rows == t.rows && s.cols == t.cols && AllShown(insts, [PaneOf(s, origin)])
    ensures var was, ps := [PaneOf(s, origin)], [PaneOf(t, origin)];
      && Base(ps, 1) <= |insts|
      && (PaneShown(DrawPanes(insts, ps, Layouts(was, 1), 1), ps, 0) <==> Repaints(was, ps, 0))
  {
    var was, ps := [PaneOf(s, origin)], [PaneOf(t, origin)];
    assert PaneShown(insts, was, 0);
    assert Base(was, 1) == Base(was, 0) + was[0].Size() && Base(ps, 1) == Base(ps, 0) + ps[0].Size();
    PlaceShownIff(insts, was, ps, 0);
  }

  /** Without output since its last frame it shows none of the rows that differ. */
  lemma CleanSwitchIsStale(insts: seq<Instance>, s: Spec.State, t: Spec.State, origin: Origin, r: nat)
    requires s.rows == t.rows && s.cols == t.cols && AllShown(insts, [PaneOf(s, origin)]) && t.dirty == Clean(t.rows)
    requires r < t.rows && EncodedRow(PaneOf(s, origin), r) != EncodedRow(PaneOf(t, origin), r)
    ensures var was, ps := [PaneOf(s, origin)], [PaneOf(t, origin)];
      Base(ps, 1) <= |insts| && !PaneShown(DrawPanes(insts, ps, Layouts(was, 1), 1), ps, 0)
  {
    SwitchShownIff(insts, s, t, origin);
    ZeroHasNoBits(r);
    assert !Listed(PaneOf(t, origin), false, r);
  }

  // ---- Runs --------------------------------------------------------------------------------

  /** The terminals of one frame, where their panes are, and the events each has applied
      since the frame before. */
  datatype Shot = Shot(terms: seq<Spec.State>, origins: seq<Origin>, events: seq<seq<Spec.Event>>)

  predicate ShotOk(f: Shot) {
    && |f.origins| == |f.terms| && |f.events| == |f.terms|
    && forall i :: 0 <= i < |f.terms| ==> f.terms[i].rows <= WORD && f.terms[i].scrollOffset == 0
  }

  function Panes(f: Shot): (ps: seq<Pane>)
    requires ShotOk(f)
    ensures |ps| == |f.terms| && forall i :: 0 <= i < |ps| ==> ps[i] == PaneOf(f.terms[i], f.origins[i])
  {
    seq(|f.terms|, i requires 0 <= i < |f.terms| => PaneOf(f.terms[i], f.origins[i]))
  }

  /** Pane `i` shows in `g` the terminal it showed in `f`, after the events of `g`. */
  ghost predicate SameTerminal(f: Shot, g: Shot, i: nat)
    requires ShotOk(f) && ShotOk(g) && i < |f.terms| && i < |g.terms|
  {
    Run(Spec.ConsumeDirty(f.terms[i]), g.events[i]) == Some(g.terms[i])
  }

  /** A pane at the place of a pane of the last frame is the same terminal; the dirty bits of
      every other are within its rows. */
  ghost predicate Follows(f: Shot, g: Shot) {
    && ShotOk(f) && ShotOk(g)
    && forall i :: 0 <= i < |g.terms| ==>
         if i < |f.terms| && LayoutOf(Panes(f), i) == LayoutOf(Panes(g), i) then SameTerminal(f, g, i)
         else BitsInside(Panes(g)[i])
  }

  lemma FollowsReports(f: Shot, g: Shot, i: nat)
    requires Follows(f, g) && i < |g.terms|
    ensures Reported(Panes(f), Panes(g), i) && BitsInside(Panes(g)[i])
  {
    if i < |f.terms| && LayoutOf(Panes(f), i) == LayoutOf(Panes(g), i) {
      TerminalIsReported(f.terms[i], g.events[i], g.terms[i], g.origins[i]);
    }
  }

  lemma NextFrameShows(insts: seq<Instance>, f: Shot, g: Shot)
    requires Follows(f, g) && AllShown(insts, Panes(f)) && Instances(g) <= |insts|
    ensures forall i :: 0 <= i < |Panes(g)| ==> BitsInside(Panes(g)[i])
    ensures AllShown(DrawPanes(insts, Panes(g), Layouts(Panes(f), |Panes(f)|), |Panes(g)|), Panes(g))
  {
    forall i | 0 <= i < |g.terms| ensures Reported(Panes(f), Panes(g), i) && BitsInside(Panes(g)[i]) {
      FollowsReports(f, g, i);
    }
    FrameKeepsShown(insts, Panes(f), Panes(g));
  }

  lemma FirstFrameShows(n: nat, ps: seq<Pane>)
    requires Base(ps, |ps|) <= n
    ensures AllShown(DrawPanes(Cleared(n), ps, [], |ps|), ps)
  {
    forall i | 0 <= i < |ps| ensures PaneShown(DrawPanes(Cleared(n), ps, [], |ps|), ps, i) {
      GrowthShowsIff(n, ps, [], i);
    }
  }

  function Instances(f: Shot): nat
    requires ShotOk(f)
  {
    Base(Panes(f), |Panes(f)|)
  }

  /** The frames of terminals, each after its events. */
  ghost predicate FramesOk(shots: seq<Shot>) {
    && shots != [] && ShotOk(shots[0])
    && (forall i :: 0 <= i < |shots[0].terms| ==> BitsInside(Panes(shots[0])[i]))
    && (forall k :: 0 < k < |shots| ==> FollowsAt(shots, k))
  }

  ghost predicate FollowsAt(shots: seq<Shot>, k: nat)
    requires 0 < k < |shots|
  {
    Follows(shots[k - 1], shots[k])
  }

  lemma FrameOk(shots: seq<Shot>, k: nat)
    requires FramesOk(shots) && k < |shots|
    ensures ShotOk(shots[k])
    ensures k > 0 ==> Follows(shots[k - 1], shots[k])
  {
    assert k > 0 ==> FollowsAt(shots, k);
  }

  /** The instance array after frame `k`. */
  ghost function ArrayAfter(shots: seq<Shot>, k: nat): (insts: seq<Instance>)
    requires FramesOk(shots) && k < |shots|
    ensures insts != []
  {
    FrameOk(shots, k);
    var ps := Panes(shots[k]);
    if k == 0 then DrawPanes(WithCapacity([], Base(ps, |ps|)), ps, [], |ps|)
    else
      var was := Panes(shots[k - 1]);
      DrawPanes(WithCapacity(ArrayAfter(shots, k - 1), Base(ps, |ps|)), ps, Layouts(was, |was|), |ps|)
  }

  /** Frame `k` fits the array, or whatever of its panes the growth clears is drawn again. */
  ghost predicate GrowsSafely(shots: seq<Shot>, k: nat)
    requires FramesOk(shots) && k < |shots|
  {
    FrameOk(shots, k);
    k == 0 || Instances(shots[k]) <= |ArrayAfter(shots, k - 1)|
    || AllSurvive(Panes(shots[k]), Layouts(Panes(shots[k - 1]), |Panes(shots[k - 1])|))
  }

  /** The range of each pane of frame `k` is the full encoding of its screen. */
  ghost predicate FrameShown(shots: seq<Shot>, k: nat)
    requires FramesOk(shots) && k < |shots|
  {
    FrameOk(shots, k);
    AllShown(ArrayAfter(shots, k), Panes(shots[k]))
  }

  lemma GrownFrame(shots: seq<Shot>, k: nat)
    requires FramesOk(shots) && 0 < k < |shots|
    requires ShotOk(shots[k]) && Instances(shots[k]) > |ArrayAfter(shots, k - 1)|
    ensures FrameShown(shots, k) <==> GrowsSafely(shots, k)
  {
    FrameOk(shots, k);
    var was, ps := Panes(shots[k - 1]), Panes(shots[k]);
    var last, n := Layouts(was, |was|), Base(ps, |ps|);
    assert ArrayAfter(shots, k) == DrawPanes(Cleared(n), ps, last, |ps|);
    GrownPanes(n, ps, last);
  }

  lemma GrownPanes(n: nat, ps: seq<Pane>, last: seq<Layout>)
    requires Base(ps, |ps|) <= n
    ensures AllShown(DrawPanes(Cleared(n), ps, last, |ps|), ps) <==> AllSurvive(ps, last)
  {
    forall i | 0 <= i < |ps|
      ensures PaneShown(DrawPanes(Cleared(n), ps, last, |ps|), ps, i) <==> SurvivesGrowth(ps, last, i)
    {
      GrowthShowsIff(n, ps, last, i);
    }
  }

  /** Drawing only the dirty rows is drawing everything: over any run of events and frames, a
      frame after one that is shown is shown exactly if it fits the array, or all that growing
      clears is drawn again. */
  lemma FrameShownIff(shots: seq<Shot>, k: nat)
    requires FramesOk(shots) && k < |shots| && (k > 0 ==> FrameShown(shots, k - 1))
    ensures FrameShown(shots, k) <==> GrowsSafely(shots, k)
  {
    FrameOk(shots, k);
    if k == 0 {
      var ps := Panes(shots[0]);
      FirstFrameShows(|WithCapacity([], Base(ps, |ps|))|, ps);
    } else if Instances(shots[k]) > |ArrayAfter(shots, k - 1)| {
      GrownFrame(shots, k);
    } else {
      FrameOk(shots, k - 1);
      NextFrameShows(ArrayAfter(shots, k - 1), shots[k - 1], shots[k]);
    }
  }

  ghost predicate AllFramesShown(shots: seq<Shot>, n: nat)
    requires FramesOk(shots) && n <= |shots|
  {
    n == 0 || (AllFramesShown(shots, n - 1) && FrameShown(shots, n - 1))
  }

  ghost predicate AllGrowSafely(shots: seq<Shot>, n: nat)
    requires FramesOk(shots) && n <= |shots|
  {
    n == 0 || (AllGrowSafely(shots, n - 1) && GrowsSafely(shots, n - 1))
  }

  /** The first `n` frames of a run are all shown in full exactly if each of them grows safely. */
  lemma {:induction false} RunShownIff(shots: seq<Shot>, n: nat)
    requires FramesOk(shots) && n <= |shots|
    ensures AllFramesShown(shots, n) <==> AllGrowSafely(shots, n)
  {
    if n > 0 {
      var m := n - 1;
      RunShownIff(shots, m);
      if AllFramesShown(shots, m) {
        FrameShownIff(shots, m);
      }
    }
  }

  /** The renderer after frame `k`. */
  ghost predicate RanTo(e: Encoder, shots: seq<Shot>, k: nat)
    requires FramesOk(shots) && k < |shots|
    reads e
  {
    FrameOk(shots, k);
    && e.Valid() && e.instances == ArrayAfter(shots, k)
    && e.lastLayout == Layouts(Panes(shots[k]), |Panes(shots[k])|)
  }

  lemma FollowsInside(f: Shot, g: Shot)
    requires Follows(f, g)
    ensures forall i :: 0 <= i < |Panes(g)| ==> BitsInside(Panes(g)[i])
  {
    forall i | 0 <= i < |Panes(g)| ensures BitsInside(Panes(g)[i]) {
      FollowsReports(f, g, i);
    }
  }

  method RenderNext(e: Encoder, shots: seq<Shot>, k: nat, next: nat)
    requires FramesOk(shots) && next == k + 1 < |shots| && RanTo(e, shots, k)
    modifies e
    ensures RanTo(e, shots, next)
  {
    FrameOk(shots, next);
    FollowsInside(shots[k], shots[next]);
    e.Render(Panes(shots[next]));
  }

  method RenderFirst(shots: seq<Shot>) returns (e: Encoder)
    requires FramesOk(shots)
    ensures fresh(e) && RanTo(e, shots, 0)
  {
    e := new Encoder();
    FrameOk(shots, 0);
    e.Render(Panes(shots[0]));
  }

  /** The loop over the frames leaves in the buffer what the run says, up to every frame. */
  method RenderRun(shots: seq<Shot>, n: nat) returns (e: Encoder)
    requires FramesOk(shots) && n < |shots|
    ensures fresh(e) && e.Valid() && e.buffer == ArrayAfter(shots, n)
  {
    e := RenderFirst(shots);
    for k := 0 to n
      invariant RanTo(e, shots, k)
    {
      RenderNext(e, shots, k, k + 1);
    }
  }
}
