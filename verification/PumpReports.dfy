/** What a pump reports over its whole run, whatever else runs in between: one message after the
    other, as a function of the turns it took. */
module PumpReports {
  import opened AgentPump
  import opened Cells

  // ---- What should be reported ------------------------------------------------------------------

  /** The last hint before a line, and the last kind a line without hint showed. */
  function LastHint(lines: seq<Line>): Option<Hint>
    decreases |lines|
  {
    if lines == [] then None
    else
      var line := lines[|lines| - 1];
      if line.hint.Some? then line.hint else LastHint(lines[..|lines| - 1])
  }

  function LastKind(lines: seq<Line>): Option<nat>
    decreases |lines|
  {
    if lines == [] then None
    else
      var line := lines[|lines| - 1];
      if line.hint.None? && line.kind != 0 then Some(line.kind) else LastKind(lines[..|lines| - 1])
  }

  /** A line shows a new kind of activity, 400 ms or more after the last one that was sent. */
  predicate ShowsActivity(before: seq<Line>, line: Line)
    decreases |before|, 1
  {
    line.hint.None? && line.kind != 0 && LastKind(before) != Some(line.kind) && line.now >= LastSent(before) + 400
  }

  function LastSent(lines: seq<Line>): nat
    decreases |lines|, 0
  {
    if lines == [] then 0
    else
      var before, line := lines[..|lines| - 1], lines[|lines| - 1];
      if ShowsActivity(before, line) then line.now else LastSent(before)
  }

  predicate ChangesHint(before: seq<Line>, line: Line) {
    line.hint.Some? && LastHint(before) != line.hint
  }

  function LineReport(before: seq<Line>, line: Line): seq<Message> {
    if ChangesHint(before, line) then
      if line.hint == Some(NeedsApproval) then [StateChanged, PermissionRequested] else [StateChanged]
    else if ShowsActivity(before, line) then [Activity]
    else []
  }

  function LinesReport(before: seq<Line>, lines: seq<Line>): seq<Message>
    decreases |lines|
  {
    if lines == [] then [] else LineReport(before, lines[0]) + LinesReport(before + [lines[0]], lines[1..])
  }

  /** A stopped pump only reports its exit; one that ended by itself its final state, unless the
      session had one, and its completion if the code is 0. */
  function EndReport(u: Turn): seq<Message> {
    if u.stopped then [Exited]
    else if !u.exited then []
    else (if u.terminal then [] else [StateChanged]) + (if u.code == Some(0) then [Completed] else []) + [Exited]
  }

  function ChunkReport(before: seq<Line>, u: Turn): seq<Message> {
    match u.chunk
    case None => []
    case Some(lines) => LinesReport(before, lines) + [Output]
  }

  /** All lines of the first `n` turns. */
  function Lines(turns: seq<Turn>, n: nat): seq<Line>
    requires n <= |turns|
  {
    if n == 0 then []
    else Lines(turns, n - 1) + (if turns[n - 1].chunk.Some? then turns[n - 1].chunk.value else [])
  }

  function Report(turns: seq<Turn>, n: nat): seq<Message>
    requires n <= |turns|
  {
    if n == 0 then [StateChanged, Started]
    else Report(turns, n - 1) + TurnReport(turns, n - 1)
  }

  function TurnReport(turns: seq<Turn>, i: nat): seq<Message>
    requires i < |turns|
  {
    ChunkReport(Lines(turns, i), turns[i]) + EndReport(turns[i])
  }

  /** The turns that pump `t` took in the first `n` moves. */
  function Turns(w: World, ms: seq<Move>, n: nat, t: nat): seq<Turn>
    requires n <= |ms|
  {
    if n == 0 then []
    else
      var before := Exec(w, ms, n - 1);
      var turns := Turns(w, ms, n - 1, t);
      if before.Some? && t < |before.value.threads| then turns + Took(before.value.threads[t], ms[n - 1], t) else turns
  }

  function Took(th: Thread, m: Move, t: nat): seq<Turn> {
    if m.Begin? && m.t == t && th.phase == Looping then [m.turn] else []
  }

  // ---- Trackers ---------------------------------------------------------------------------------

  function TrackerOf(lines: seq<Line>): Tracker { Tracker(LastHint(lines), LastKind(lines), LastSent(lines)) }

  lemma TracksLine(before: seq<Line>, line: Line)
    ensures Track(TrackerOf(before), line) == TrackerOf(before + [line])
  {
    OneLineMore(before, line, before + [line]);
  }

  lemma OneLineMore(before: seq<Line>, line: Line, all: seq<Line>)
    requires all == before + [line]
    ensures LastHint(all) == if line.hint.Some? then line.hint else LastHint(before)
    ensures LastKind(all) == if line.hint.None? && line.kind != 0 then Some(line.kind) else LastKind(before)
    ensures LastSent(all) == if ShowsActivity(before, line) then line.now else LastSent(before)
  {
    assert all != [] && all[..|all| - 1] == before && all[|all| - 1] == line;
  }

  lemma {:induction false} TracksLines(before: seq<Line>, lines: seq<Line>)
    ensures TrackAll(TrackerOf(before), lines) == TrackerOf(before + lines)
    decreases |lines|
  {
    if lines == [] {
      assert before + lines == before;
    } else {
      TracksLine(before, lines[0]);
      TracksLines(before + [lines[0]], lines[1..]);
      assert before + lines == (before + [lines[0]]) + lines[1..];
    }
  }

  // ---- Programs -----------------------------------------------------------------------------------

  lemma LineSends(s: nat, before: seq<Line>, line: Line)
    ensures Sends(LineActions(s, TrackerOf(before), line)) == LineReport(before, line)
  {
    var t, w, g := TrackerOf(before), Guarded(WorkLock(s)), Guarded(SessionLock(s));
    SoundGuarded(WorkLock(s));
    SoundGuarded(SessionLock(s));
    if ChangesHint(before, line) {
      HintSends(s, line.hint);
    } else if line.hint.None? && line.kind != 0 && t.lastKind != Some(line.kind) {
      SoundWhen(Emits(t, line), Activity);
      SendsJoined(w, When(Emits(t, line), [Send(Activity)]));
    }
  }

  lemma HintSends(s: nat, hint: Option<Hint>)
    ensures Sends(Guarded(WorkLock(s)) + Guarded(SessionLock(s)) + [Send(StateChanged)]
                  + When(hint == Some(NeedsApproval), [Send(PermissionRequested)]))
         == if hint == Some(NeedsApproval) then [StateChanged, PermissionRequested] else [StateChanged]
  {
    var w, g := Guarded(WorkLock(s)), Guarded(SessionLock(s));
    SoundGuarded(WorkLock(s));
    SoundGuarded(SessionLock(s));
    SoundSend(StateChanged);
    SoundWhen(hint == Some(NeedsApproval), PermissionRequested);
    SendsJoined(w, g);
    SendsJoined(w + g, [Send(StateChanged)]);
    SendsJoined(w + g + [Send(StateChanged)], When(hint == Some(NeedsApproval), [Send(PermissionRequested)]));
  }

  lemma {:induction false} LinesSend(s: nat, before: seq<Line>, lines: seq<Line>)
    ensures Sends(LinesActions(s, TrackerOf(before), lines)) == LinesReport(before, lines)
    decreases |lines|
  {
    if lines != [] {
      var t := TrackerOf(before);
      LineSends(s, before, lines[0]);
      TracksLine(before, lines[0]);
      LinesSend(s, before + [lines[0]], lines[1..]);
      SendsJoined(LineActions(s, t, lines[0]), LinesActions(s, Track(t, lines[0]), lines[1..]));
    }
  }

  lemma ChunkSends(s: nat, before: seq<Line>, lines: seq<Line>)
    ensures Sends(ChunkActions(s, TrackerOf(before), lines)) == LinesReport(before, lines) + [Output]
  {
    var g, l := Guarded(SessionLock(s)), LinesActions(s, TrackerOf(before), lines);
    SoundGuarded(SessionLock(s));
    LinesSend(s, before, lines);
    SoundSend(Output);
    SendsJoined(g, g);
    SendsJoined(g + g, l);
    SendsJoined(g + g + l, g);
    SendsJoined(g + g + l + g, [Send(Output)]);
    assert Sends(g + g) == [] + [] == [];
    assert Sends(g + g + l) == [] + Sends(l) == Sends(l);
    assert Sends(g + g + l + g) == Sends(l) + [] == Sends(l);
  }

  lemma FinishSends(s: nat, u: Turn)
    requires u.exited && !u.stopped
    ensures Sends(FinishActions(s, u.code, u.terminal)) == EndReport(u)
  {
    var a, b := Guarded(SessionLock(s)), Guarded(WorkLock(s));
    var c, d := When(!u.terminal, [Send(StateChanged)]), When(u.code == Some(0), [Send(Completed)]);
    SoundGuarded(SessionLock(s));
    SoundGuarded(WorkLock(s));
    SoundWhen(!u.terminal, StateChanged);
    SoundWhen(u.code == Some(0), Completed);
    SoundSend(Exited);
    SendsJoined(a, b);
    SendsJoined(a + b, c);
    SendsJoined(a + b + c, d);
    SendsJoined(a + b + c + d, [Send(Exited)]);
    assert Sends(a + b) == [] + [] == [];
    assert Sends(a + b + c) == [] + Sends(c) == Sends(c);
    assert Sends(FinishActions(s, u.code, u.terminal)) == Sends(c) + Sends(d) + [Exited];
  }

  lemma TurnSends(s: nat, before: seq<Line>, u: Turn)
    ensures Sends(TurnActions(s, TrackerOf(before), u)) == ChunkReport(before, u) + EndReport(u)
  {
    var a := if u.chunk.Some? then ChunkActions(s, TrackerOf(before), u.chunk.value) else [];
    var b := if u.exited && !u.stopped then FinishActions(s, u.code, u.terminal) else When(u.stopped, [Send(Exited)]);
    if u.chunk.Some? {
      ChunkSends(s, before, u.chunk.value);
    }
    if u.exited && !u.stopped {
      FinishSends(s, u);
    }
    SoundWhen(u.stopped, Exited);
    SendsJoined(a, b);
  }

  // ---- Every interleaving ---------------------------------------------------------------------------

  /** A pump's messages, sent or still to be sent, are those of its turns. */
  predicate Reports(th: Thread, turns: seq<Turn>) {
    && (th.phase == New ==> turns == [] && th.log == [] && Sends(th.todo) == [])
    && (th.phase != New ==>
          && th.log + Sends(th.todo) == Report(turns, |turns|)
          && th.tracker == TrackerOf(Lines(turns, |turns|)))
    && (th.phase == Ended <==> turns != [] && turns[|turns| - 1].Ends())
  }

  lemma {:induction false} PrefixReports(turns: seq<Turn>, more: seq<Turn>, n: nat)
    requires n <= |turns|
    ensures Report(turns + more, n) == Report(turns, n) && Lines(turns + more, n) == Lines(turns, n)
  {
    if n > 0 {
      PrefixReports(turns, more, n - 1);
      assert (turns + more)[n - 1] == turns[n - 1];
    }
  }

  lemma OneTurnMore(turns: seq<Turn>, u: Turn, m: nat, n: nat)
    requires m == |turns| && n == m + 1
    ensures var next := turns + [u];
      && Report(next, n) == Report(turns, m) + (ChunkReport(Lines(turns, m), u) + EndReport(u))
      && Lines(next, n) == Lines(turns, m) + (if u.chunk.Some? then u.chunk.value else [])
  {
    var next := turns + [u];
    PrefixReports(turns, [u], m);
    ReportNext(next, m, n);
    assert next[m] == u;
  }

  lemma BegunReports(th: Thread, u: Turn, turns: seq<Turn>)
    requires Reports(th, turns) && th.todo == []
    ensures Reports(Begun(th, u), turns + (if th.phase == Looping then [u] else []))
  {
    assert th.log + [] == th.log;
    if th.phase == New {
      SoundStart(th.sess);
      assert turns + [] == [] && [] + [StateChanged, Started] == [StateChanged, Started];
    } else if th.phase == Looping {
      TurnReports(th, u, turns, |turns|, |turns| + 1);
    } else {
      assert turns + [] == turns;
    }
  }

  lemma TurnReports(th: Thread, u: Turn, turns: seq<Turn>, m: nat, n: nat)
    requires Reports(th, turns) && th.todo == [] && th.phase == Looping && m == |turns| && n == m + 1
    ensures Reports(Begun(th, u), turns + [u])
  {
    OneTurnMore(turns, u, m, n);
    TurnSends(th.sess, Lines(turns, m), u);
    TurnTracks(th, u, Lines(turns, m));
    assert th.log + [] == th.log;
    ReportsAfter(Begun(th, u), turns + [u], u, n);
  }

  lemma TurnTracks(th: Thread, u: Turn, before: seq<Line>)
    requires th.phase == Looping && th.tracker == TrackerOf(before)
    ensures Begun(th, u).tracker == TrackerOf(before + (if u.chunk.Some? then u.chunk.value else []))
  {
    TracksLines(before, if u.chunk.Some? then u.chunk.value else []);
    assert before + [] == before;
  }

  lemma ReportsAfter(th: Thread, turns: seq<Turn>, u: Turn, n: nat)
    requires n == |turns| > 0 && turns[n - 1] == u && th.phase == (if u.Ends() then Ended else Looping)
    requires th.log + Sends(th.todo) == Report(turns, n) && th.tracker == TrackerOf(Lines(turns, n))
    ensures Reports(th, turns)
  {
  }

  lemma ActedReports(th: Thread, channelEmpty: bool, turns: seq<Turn>)
    requires Reports(th, turns) && th.todo != []
    ensures Reports(Acted(th, channelEmpty), turns)
  {
    SameMessages(th, channelEmpty);
  }

  lemma SameMessages(th: Thread, channelEmpty: bool)
    requires th.todo != []
    ensures var r := Acted(th, channelEmpty);
      && r.phase == th.phase && r.tracker == th.tracker && r.log + Sends(r.todo) == th.log + Sends(th.todo)
      && (th.log == [] && Sends(th.todo) == [] ==> r.log == [] && Sends(r.todo) == [])
  {
    var rest := Sends(th.todo[1..]);
    if th.todo[0].Send? {
      assert th.log + ([th.todo[0].e] + rest) == th.log + [th.todo[0].e] + rest;
      assert Sends(th.todo) == [th.todo[0].e] + rest;
    } else {
      assert Sends(th.todo) == [] + rest == rest;
    }
  }

  lemma MoveReports(w: World, m: Move, t: nat, turns: seq<Turn>)
    requires 0 < t < |w.threads| && Next(w, m).Some? && Reports(w.threads[t], turns)
    ensures t < |Next(w, m).value.threads|
    ensures Reports(Next(w, m).value.threads[t], turns + Took(w.threads[t], m, t))
  {
    assert turns + [] == turns;
    match m
    case Do(u) =>
      if u == t {
        ActedReports(w.threads[t], w.channel == [], turns);
      }
    case Begin(u, turn) =>
      if u == t {
        BegunReports(w.threads[t], turn, turns);
      }
    case CallUi(_) =>
  }

  /** Over every interleaving, a pump's log and what it still has to send are the report of the turns
      it took. */
  lemma {:induction false} PumpsReport(w: World, ms: seq<Move>, n: nat, t: nat)
    requires Initial(w) && n <= |ms| && Exec(w, ms, n).Some? && 0 < t < |w.threads|
    ensures t < |Exec(w, ms, n).value.threads|
    ensures Reports(Exec(w, ms, n).value.threads[t], Turns(w, ms, n, t))
  {
    if n > 0 {
      PumpsReport(w, ms, n - 1, t);
      MoveReports(Exec(w, ms, n - 1).value, ms[n - 1], t, Turns(w, ms, n - 1, t));
    }
  }

  // ---- What a report says ---------------------------------------------------------------------------

  function Chunks(turns: seq<Turn>, n: nat): nat
    requires n <= |turns|
  {
    if n == 0 then 0 else Chunks(turns, n - 1) + (if turns[n - 1].chunk.Some? then 1 else 0)
  }

  /** Only the last of the turns ends the pump. */
  predicate EndsOnce(turns: seq<Turn>) {
    turns != [] && turns[|turns| - 1].Ends() && forall i :: 0 <= i < |turns| - 1 ==> !turns[i].Ends()
  }

  lemma {:induction false} LinesSay(before: seq<Line>, lines: seq<Line>)
    ensures var r := multiset(LinesReport(before, lines));
      r[Output] == 0 && r[Completed] == 0 && r[Exited] == 0 && r[Started] == 0
    decreases |lines|
  {
    if lines != [] {
      var a, b := LineReport(before, lines[0]), LinesReport(before + [lines[0]], lines[1..]);
      LinesSay(before + [lines[0]], lines[1..]);
      LineSays(before, lines[0]);
      assert multiset(LinesReport(before, lines)) == multiset(a) + multiset(b);
    }
  }

  lemma LineSays(before: seq<Line>, line: Line)
    ensures var r := multiset(LineReport(before, line));
      r[Output] == 0 && r[Completed] == 0 && r[Exited] == 0 && r[Started] == 0
  {
  }

  lemma ChunkSays(before: seq<Line>, u: Turn)
    ensures var r := multiset(ChunkReport(before, u));
      && r[Output] == (if u.chunk.Some? then 1 else 0)
      && r[Completed] == 0 && r[Exited] == 0 && r[Started] == 0
  {
    if u.chunk.Some? {
      LinesSay(before, u.chunk.value);
    }
  }

  lemma EndSays(u: Turn)
    ensures var r := multiset(EndReport(u));
      && r[Output] == 0 && r[Started] == 0 && r[Exited] == (if u.Ends() then 1 else 0)
      && r[Completed] == (if u.exited && !u.stopped && u.code == Some(0) then 1 else 0)
    ensures u.Ends() ==> EndReport(u) != [] && EndReport(u)[|EndReport(u)| - 1] == Exited
    ensures !u.Ends() ==> EndReport(u) == []
  {
    if u.exited && !u.stopped {
      var a, b := if u.terminal then [] else [StateChanged], if u.code == Some(0) then [Completed] else [];
      assert EndReport(u) == a + b + [Exited];
      assert multiset(EndReport(u)) == multiset(a) + multiset(b) + multiset{Exited};
    }
  }

  lemma TurnSays(report: seq<Message>, before: seq<Line>, u: Turn, next: seq<Message>)
    requires next == report + (ChunkReport(before, u) + EndReport(u))
    ensures var a, b := multiset(report), multiset(next);
      && b[Output] == a[Output] + (if u.chunk.Some? then 1 else 0)
      && b[Started] == a[Started] && b[Exited] == a[Exited] + (if u.Ends() then 1 else 0)
      && b[Completed] == a[Completed] + (if u.exited && !u.stopped && u.code == Some(0) then 1 else 0)
  {
    ChunkSays(before, u);
    EndSays(u);
    assert multiset(next) == multiset(report) + (multiset(ChunkReport(before, u)) + multiset(EndReport(u)));
  }

  /** How often the messages that come from outside a line occur. */
  predicate Counts(log: seq<Message>, outputs: nat, completed: nat, exited: nat) {
    var r := multiset(log);
    r[Started] == 1 && r[Output] == outputs && r[Completed] == completed && r[Exited] == exited
  }

  lemma {:induction false} ReportCounts(turns: seq<Turn>, n: nat)
    requires n <= |turns| && forall i :: 0 <= i < n ==> !turns[i].Ends()
    ensures Counts(Report(turns, n), Chunks(turns, n), 0, 0)
  {
    if n > 0 {
      var m := n - 1;
      ReportCounts(turns, m);
      ReportNext(turns, m, n);
      TurnCounts(Report(turns, m), Lines(turns, m), turns[m], Report(turns, n),
                 Chunks(turns, m), Chunks(turns, n), 0, 0);
    }
  }

  lemma ReportNext(turns: seq<Turn>, m: nat, n: nat)
    requires n == m + 1 <= |turns|
    ensures Report(turns, n) == Report(turns, m) + (ChunkReport(Lines(turns, m), turns[m]) + EndReport(turns[m]))
    ensures Lines(turns, n) == Lines(turns, m) + (if turns[m].chunk.Some? then turns[m].chunk.value else [])
    ensures Chunks(turns, n) == Chunks(turns, m) + (if turns[m].chunk.Some? then 1 else 0)
  {
  }

  lemma TurnCounts(report: seq<Message>, before: seq<Line>, u: Turn, next: seq<Message>,
                   outputs: nat, outputsNext: nat, completed: nat, exited: nat)
    requires next == report + (ChunkReport(before, u) + EndReport(u)) && Counts(report, outputs, 0, 0)
    requires outputsNext == outputs + (if u.chunk.Some? then 1 else 0)
    requires completed == (if u.exited && !u.stopped && u.code == Some(0) then 1 else 0)
    requires exited == (if u.Ends() then 1 else 0)
    ensures Counts(next, outputsNext, completed, exited)
  {
    TurnSays(report, before, u, next);
  }

  lemma {:induction false} ReportStarts(turns: seq<Turn>, n: nat)
    requires n <= |turns|
    ensures [StateChanged, Started] <= Report(turns, n)
  {
    if n > 0 {
      var m := n - 1;
      ReportStarts(turns, m);
      ReportNext(turns, m, n);
      StillStarts([StateChanged, Started], Report(turns, m),
                  ChunkReport(Lines(turns, m), turns[m]) + EndReport(turns[m]), Report(turns, n));
    }
  }

  lemma StillStarts(a: seq<Message>, b: seq<Message>, c: seq<Message>, all: seq<Message>)
    requires a <= b && all == b + c
    ensures a <= all
  {
  }

  /** What the log of a pump that ended says: `StateChanged` and `Started` first and `Exited` last,
      an `Output` for every chunk, and exactly if the last turn exited, with code 0 and not stopped, a
      `Completed`, once; what comes after the last chunk is the final state, if the session had
      none, and the outcome. */
  predicate OutcomeReported(turns: seq<Turn>, log: seq<Message>) {
    && EndsOnce(turns) && [StateChanged, Started] <= log
    && var u := turns[|turns| - 1];
    && Counts(log, Chunks(turns, |turns|), if u.exited && !u.stopped && u.code == Some(0) then 1 else 0, 1)
    && EndsIn(log, EndReport(u))
  }

  predicate EndsIn(log: seq<Message>, tail: seq<Message>) {
    |tail| <= |log| && log[|log| - |tail|..] == tail
  }

  lemma ReportEnds(turns: seq<Turn>, m: nat, n: nat)
    requires EndsOnce(turns) && n == |turns| == m + 1
    ensures OutcomeReported(turns, Report(turns, n))
  {
    var u := turns[m];
    ReportStarts(turns, n);
    LastTurnCounts(turns, m, n);
    ReportNext(turns, m, n);
    EndsWith(Report(turns, m), ChunkReport(Lines(turns, m), u), EndReport(u), Report(turns, n));
  }

  lemma LastTurnCounts(turns: seq<Turn>, m: nat, n: nat)
    requires EndsOnce(turns) && n == |turns| == m + 1
    ensures var u := turns[m];
      Counts(Report(turns, n), Chunks(turns, n), if u.exited && !u.stopped && u.code == Some(0) then 1 else 0, 1)
  {
    var u := turns[m];
    ReportCounts(turns, m);
    ReportNext(turns, m, n);
    TurnCounts(Report(turns, m), Lines(turns, m), u, Report(turns, n), Chunks(turns, m), Chunks(turns, n),
               if u.exited && !u.stopped && u.code == Some(0) then 1 else 0, 1);
  }

  lemma EndsWith(a: seq<Message>, b: seq<Message>, c: seq<Message>, all: seq<Message>)
    requires all == a + (b + c)
    ensures EndsIn(all, c)
  {
    assert all == (a + b) + c;
  }

  lemma {:induction false} TurnsEndOnce(w: World, ms: seq<Move>, n: nat, t: nat)
    requires Initial(w) && n <= |ms| && Exec(w, ms, n).Some? && 0 < t < |w.threads|
    ensures NoneEndsBefore(Turns(w, ms, n, t))
  {
    if n > 0 {
      var m := n - 1;
      TurnsEndOnce(w, ms, m, t);
      PumpsReport(w, ms, m, t);
      OneTurnAtMost(Exec(w, ms, m).value.threads[t], ms[m], t, Turns(w, ms, m, t));
    }
  }

  predicate NoneEndsBefore(turns: seq<Turn>) {
    forall i :: 0 <= i < |turns| - 1 ==> !turns[i].Ends()
  }

  lemma OneTurnAtMost(th: Thread, m: Move, t: nat, turns: seq<Turn>)
    requires Reports(th, turns) && NoneEndsBefore(turns)
    ensures NoneEndsBefore(turns + Took(th, m, t))
  {
  }

  /** In every interleaving: a pump that ended and has nothing left to do has reported this. */
  lemma EndedPumpReported(w: World, ms: seq<Move>, n: nat, t: nat, r: World)
    requires Initial(w) && n <= |ms| && Exec(w, ms, n) == Some(r) && 0 < t < |w.threads| && t < |r.threads|
    requires r.threads[t].phase == Ended && r.threads[t].todo == []
    ensures var turns, log := Turns(w, ms, n, t), r.threads[t].log;
      log == Report(turns, |turns|) && OutcomeReported(turns, log)
  {
    PumpsReport(w, ms, n, t);
    TurnsEndOnce(w, ms, n, t);
    EndedReports(r.threads[t], Turns(w, ms, n, t));
  }

  lemma EndedReports(th: Thread, turns: seq<Turn>)
    requires Reports(th, turns) && th.phase == Ended && th.todo == [] && NoneEndsBefore(turns)
    ensures th.log == Report(turns, |turns|) && OutcomeReported(turns, th.log)
  {
    assert th.log + [] == th.log;
    ReportEnds(turns, |turns| - 1, |turns|);
  }

  // ---- Activity is rare ------------------------------------------------------------------------------

  predicate SendsActivity(lines: seq<Line>, i: nat)
    requires i < |lines|
  {
    ShowsActivity(lines[..i], lines[i])
  }

  lemma {:induction false} LastSentCovers(lines: seq<Line>, i: nat, n: nat)
    requires i < n <= |lines| && SendsActivity(lines, i)
    ensures lines[i].now <= LastSent(lines[..n])
  {
    assert lines[..n][..n - 1] == lines[..n - 1] && lines[..n][n - 1] == lines[n - 1];
    if i < n - 1 {
      LastSentCovers(lines, i, n - 1);
    }
  }

  /** Any two lines that an activity is sent for are 400 ms apart or more. */
  lemma ActivityIsRare(lines: seq<Line>, i: nat, j: nat)
    requires i < j < |lines| && SendsActivity(lines, i) && SendsActivity(lines, j)
    ensures lines[i].now + 400 <= lines[j].now
  {
    LastSentCovers(lines, i, j);
  }

  // ---- Locks -------------------------------------------------------------------------------------------

  /** The locks a program takes, in order. */
  function Locks(todo: seq<Action>): seq<Mutex> {
    if todo == [] then [] else (if todo[0].Acquire? then [todo[0].m] else []) + Locks(todo[1..])
  }

  lemma {:induction false} LocksJoined(a: seq<Action>, b: seq<Action>)
    ensures Locks(a + b) == Locks(a) + Locks(b)
    decreases |a|
  {
    if a == [] {
      assert a + b == b;
    } else {
      LocksJoined(a[1..], b);
      assert (a + b)[0] == a[0] && (a + b)[1..] == a[1..] + b;
    }
  }

  lemma GuardTakes(m: Mutex)
    ensures Locks(Guarded(m)) == [m]
  {
    var g := Guarded(m);
    assert g[1..] == [Release(m)] && g[1..][1..] == [];
    assert Locks(g[1..]) == [] + Locks([]);
  }

  lemma NoLocks(todo: seq<Action>)
    requires |todo| <= 1 && forall i :: 0 <= i < |todo| ==> !todo[i].Acquire?
    ensures Locks(todo) == []
  {
  }

  /** A new state is written into the work record and then into the session's, a new activity or a
      command into the work record. */
  lemma LineTakes(s: nat, before: seq<Line>, line: Line)
    ensures Locks(LineActions(s, TrackerOf(before), line)) ==
      if line.hint.Some? then if ChangesHint(before, line) then [WorkLock(s), SessionLock(s)] else []
      else if (line.kind != 0 && LastKind(before) != Some(line.kind)) || line.command then [WorkLock(s)]
      else []
  {
    var t, w, g := TrackerOf(before), Guarded(WorkLock(s)), Guarded(SessionLock(s));
    GuardTakes(WorkLock(s));
    GuardTakes(SessionLock(s));
    if ChangesHint(before, line) {
      var end := When(line.hint == Some(NeedsApproval), [Send(PermissionRequested)]);
      NoLocks(end);
      NoLocks([Send(StateChanged)]);
      LocksJoined(w, g);
      LocksJoined(w + g, [Send(StateChanged)]);
      LocksJoined(w + g + [Send(StateChanged)], end);
    } else if line.hint.None? && line.kind != 0 && t.lastKind != Some(line.kind) {
      NoLocks(When(Emits(t, line), [Send(Activity)]));
      LocksJoined(w, When(Emits(t, line), [Send(Activity)]));
    }
  }

  /** Starting writes the session's record. */
  lemma StartTakes(s: nat)
    ensures Locks(StartActions(s)) == [SessionLock(s)]
  {
    GuardTakes(SessionLock(s));
    NoLocks([Send(Started)]);
    assert [Send(StateChanged), Send(Started)][1..] == [Send(Started)];
    LocksJoined(Guarded(SessionLock(s)), [Send(StateChanged), Send(Started)]);
  }

  /** A chunk is counted and located in the session's record before its lines, and its event counted
      after them. */
  lemma ChunkTakes(s: nat, t: Tracker, lines: seq<Line>)
    ensures Locks(ChunkActions(s, t, lines))
         == [SessionLock(s), SessionLock(s)] + Locks(LinesActions(s, t, lines)) + [SessionLock(s)]
  {
    var g, l := Guarded(SessionLock(s)), LinesActions(s, t, lines);
    GuardTakes(SessionLock(s));
    NoLocks([Send(Output)]);
    LocksJoined(g, g);
    assert Locks(g + g) == [SessionLock(s)] + [SessionLock(s)] == [SessionLock(s), SessionLock(s)];
    LocksJoined(g + g, l);
    LocksJoined(g + g + l, g);
    LocksJoined(g + g + l + g, [Send(Output)]);
    assert Locks(g + g + l + g) + [] == Locks(g + g + l + g);
  }

  /** Ending writes the session's record, then the work record. */
  lemma FinishTakes(s: nat, code: Option<int>, terminal: bool)
    ensures Locks(FinishActions(s, code, terminal)) == [SessionLock(s), WorkLock(s)]
  {
    var a, b := Guarded(SessionLock(s)), Guarded(WorkLock(s));
    var c, d := When(!terminal, [Send(StateChanged)]), When(code == Some(0), [Send(Completed)]);
    GuardTakes(SessionLock(s));
    GuardTakes(WorkLock(s));
    NoLocks(c);
    NoLocks(d);
    NoLocks([Send(Exited)]);
    LocksJoined(a, b);
    LocksJoined(a + b, c);
    LocksJoined(a + b + c, d);
    LocksJoined(a + b + c + d, [Send(Exited)]);
  }

  function EachInTurn(n: nat): seq<Mutex> {
    if n == 0 then [] else EachInTurn(n - 1) + [WorkLock(n - 1), SessionLock(n - 1)]
  }

  /** A snapshot reads the work record, then the session's; a list of sessions does so for each. */
  lemma {:induction false} ListTakes(n: nat)
    ensures Locks(CallActions(ListSessions(n))) == EachInTurn(n)
  {
    if n > 0 {
      var m := n - 1;
      ListTakes(m);
      SnapshotTakes(m);
      LocksJoined(ListActions(m), SnapshotActions(m));
      assert CallActions(ListSessions(n)) == CallActions(ListSessions(m)) + CallActions(GetSession(m));
    }
  }

  lemma SnapshotTakes(s: nat)
    ensures Locks(CallActions(GetSession(s))) == [WorkLock(s), SessionLock(s)]
    ensures Locks(CallActions(RawState(s))) == [SessionLock(s)]
  {
    GuardTakes(WorkLock(s));
    GuardTakes(SessionLock(s));
    LocksJoined(Guarded(WorkLock(s)), Guarded(SessionLock(s)));
  }

  /** Stopping, from an idle user interface with the session's lock free: the new state is reported
      unless the session had a final one or the channel is full, and nothing else changes. */
  lemma StopReports(w: World, s: nat, terminal: bool) returns (ms: seq<Move>, r: World)
    requires Inv(w) && w.threads[0].todo == [] && Free(w, SessionLock(s))
    ensures Leads(w, ms, r) && r.threads == w.threads && r.capacity == w.capacity
    ensures r.channel == if terminal || |w.channel| == w.capacity then w.channel else w.channel + [StateChanged]
  {
    var call := CallUi(Stop(s, terminal));
    var a := Next(w, call).value;
    OneMove(w, call);
    if terminal {
      assert a.threads[0].todo == [Acquire(SessionLock(s)), Release(SessionLock(s))];
    } else {
      assert a.threads[0].todo == [Acquire(SessionLock(s)), TrySend(StateChanged), Release(SessionLock(s))];
    }
    var b := Act(a, 0);
    assert Free(a, SessionLock(s));
    ms := StepUi(w, [call], a, b);
    var c := Act(b, 0);
    ms := StepUi(w, ms, b, c);
    r := c;
    if !terminal {
      r := Act(c, 0);
      ms := StepUi(w, ms, c, r);
    }
    assert w.threads[0].holding == None;
    assert r.threads[0] == w.threads[0];
  }

  lemma StepUi(w: World, ms: seq<Move>, m: World, r: World) returns (next: seq<Move>)
    requires Leads(w, ms, m) && 0 < |m.threads| && m.threads[0].todo != [] && Enabled(m, 0) && r == Act(m, 0)
    ensures Leads(w, next, r)
  {
    OneMove(m, Do(0));
    LeadsOn(w, ms, m, [Do(0)], r);
    next := ms + [Do(0)];
  }
}
