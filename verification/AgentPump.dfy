/** The agent pumps as a step system: one thread per agent and the user interface thread,
    with a mutex per session record, one per work record, and a bounded event channel. */
module AgentPump {
  import opened Cells

  const COALESCE_MS: nat := 400

  datatype Mutex = SessionLock(s: nat) | WorkLock(s: nat)
  datatype Message = StateChanged | Started | Activity | PermissionRequested | Output | Completed | Exited

  /** What can make a thread wait, and the two channel operations that cannot. */
  datatype Action = Acquire(m: Mutex) | Release(m: Mutex) | Send(e: Message) | TrySend(e: Message) | TryRecv

  // ---- What the threads do ----------------------------------------------------------------

  /** A block under one lock. */
  function Guarded(m: Mutex): seq<Action> { [Acquire(m), Release(m)] }

  function When(c: bool, actions: seq<Action>): seq<Action> { if c then actions else [] }

  datatype Hint = Working | Waiting | NeedsApproval

  /** A line of output as the heuristics read it; kind 0 is an unknown activity. */
  datatype Line = Line(hint: Option<Hint>, kind: nat, command: bool, now: nat)
  datatype Tracker = Tracker(lastHint: Option<Hint>, lastKind: Option<nat>, lastEmit: nat)

  const NEW_TRACKER: Tracker := Tracker(None, None, 0)

  function Track(t: Tracker, line: Line): Tracker {
    if line.hint.Some? then t.(lastHint := line.hint)
    else if line.kind != 0 && t.lastKind != Some(line.kind) then
      t.(lastKind := Some(line.kind), lastEmit := if Emits(t, line) then line.now else t.lastEmit)
    else t
  }

  predicate Emits(t: Tracker, line: Line) {
    line.now >= t.lastEmit + COALESCE_MS
  }

  /** A new state goes into both records, each under its own lock, and is sent after them;
      a new activity goes into the work record and is sent at most once per window. */
  function LineActions(s: nat, t: Tracker, line: Line): seq<Action> {
    if line.hint.Some? then
      if t.lastHint == line.hint then []
      else
        Guarded(WorkLock(s)) + Guarded(SessionLock(s)) + [Send(StateChanged)]
        + When(line.hint == Some(NeedsApproval), [Send(PermissionRequested)])
    else if line.kind != 0 && t.lastKind != Some(line.kind) then
      Guarded(WorkLock(s)) + When(Emits(t, line), [Send(Activity)])
    else When(line.command, Guarded(WorkLock(s)))
  }

  function LinesActions(s: nat, t: Tracker, lines: seq<Line>): seq<Action>
    decreases |lines|
  {
    if lines == [] then [] else LineActions(s, t, lines[0]) + LinesActions(s, Track(t, lines[0]), lines[1..])
  }

  function TrackAll(t: Tracker, lines: seq<Line>): Tracker
    decreases |lines|
  {
    if lines == [] then t else TrackAll(Track(t, lines[0]), lines[1..])
  }

  /** Counting the bytes, reading the directory, the lines, counting the event, the output. */
  function ChunkActions(s: nat, t: Tracker, lines: seq<Line>): seq<Action> {
    Guarded(SessionLock(s)) + Guarded(SessionLock(s)) + LinesActions(s, t, lines)
    + Guarded(SessionLock(s)) + [Send(Output)]
  }

  function StartActions(s: nat): seq<Action> {
    Guarded(SessionLock(s)) + [Send(StateChanged), Send(Started)]
  }

  /** `terminal`: the session had already reached a final state when it was looked at. */
  function FinishActions(s: nat, code: Option<int>, terminal: bool): seq<Action> {
    Guarded(SessionLock(s)) + Guarded(WorkLock(s))
    + When(!terminal, [Send(StateChanged)]) + When(code == Some(0), [Send(Completed)]) + [Send(Exited)]
  }

  /** What one turn of the pump's loop sees. */
  datatype Turn = Turn(chunk: Option<seq<Line>>, exited: bool, stopped: bool, code: Option<int>, terminal: bool) {
    predicate Ends() { exited || stopped }
  }

  function TurnActions(s: nat, t: Tracker, u: Turn): seq<Action> {
    (if u.chunk.Some? then ChunkActions(s, t, u.chunk.value) else [])
    + (if u.exited && !u.stopped then FinishActions(s, u.code, u.terminal) else When(u.stopped, [Send(Exited)]))
  }

  /** What the user interface calls. Stopping reports the new state under the session's lock,
      but without waiting for the channel. */
  datatype Call = Drain | Stop(s: nat, terminal: bool) | GetSession(s: nat) | ListSessions(n: nat) | RawState(s: nat)

  function CallActions(c: Call): seq<Action> {
    match c
    case Drain => [TryRecv]
    case Stop(s, terminal) =>
      [Acquire(SessionLock(s))] + When(!terminal, [TrySend(StateChanged)]) + [Release(SessionLock(s))]
    case GetSession(s) => SnapshotActions(s)
    case ListSessions(n) => ListActions(n)
    case RawState(s) => Guarded(SessionLock(s))
  }

  /** Work first, then session, never nested. */
  function SnapshotActions(s: nat): seq<Action> { Guarded(WorkLock(s)) + Guarded(SessionLock(s)) }

  function ListActions(n: nat): seq<Action> {
    if n == 0 then [] else ListActions(n - 1) + SnapshotActions(n - 1)
  }

  // ---- The step system -----------------------------------------------------------------------

  datatype Phase = New | Looping | Ended

  /** `todo` is what the thread does next; `log` is what a pump has sent. */
  datatype Thread = Thread(
    sess: nat, phase: Phase, tracker: Tracker, todo: seq<Action>, holding: Option<Mutex>, log: seq<Message>)

  /** Thread 0 is the user interface; the others are pumps. */
  datatype World = World(threads: seq<Thread>, channel: seq<Message>, capacity: nat)

  datatype Move = Do(t: nat) | Begin(t: nat, turn: Turn) | CallUi(c: Call)

  predicate Free(w: World, m: Mutex) {
    forall t :: 0 <= t < |w.threads| ==> w.threads[t].holding != Some(m)
  }

  /** Whether a thread's next action can be done now. */
  predicate Enabled(w: World, t: nat)
    requires t < |w.threads| && w.threads[t].todo != []
  {
    match w.threads[t].todo[0]
    case Acquire(m) => Free(w, m)
    case Send(_) => |w.channel| < w.capacity
    case _ => true
  }

  function SetThread(w: World, t: nat, th: Thread): World
    requires t < |w.threads|
  {
    w.(threads := w.threads[t := th])
  }

  /** A thread after its next action. Receiving repeats until the channel is empty. */
  function Acted(th: Thread, channelEmpty: bool): Thread
    requires th.todo != []
  {
    var rest := th.(todo := th.todo[1..]);
    match th.todo[0]
    case Acquire(m) => rest.(holding := Some(m))
    case Release(_) => rest.(holding := None)
    case Send(e) => rest.(log := th.log + [e])
    case TrySend(_) => rest
    case TryRecv => if channelEmpty then rest else th
  }

  function ChannelAfter(w: World, a: Action): seq<Message> {
    match a
    case Send(e) => w.channel + [e]
    case TrySend(e) => if |w.channel| < w.capacity then w.channel + [e] else w.channel
    case TryRecv => if w.channel == [] then [] else w.channel[1..]
    case _ => w.channel
  }

  function Act(w: World, t: nat): World
    requires t < |w.threads| && w.threads[t].todo != []
  {
    SetThread(w, t, Acted(w.threads[t], w.channel == [])).(channel := ChannelAfter(w, w.threads[t].todo[0]))
  }

  /** An idle pump begins: the start, then turn after turn until one ends it. */
  function Begun(th: Thread, u: Turn): Thread {
    match th.phase
    case New => th.(phase := Looping, todo := StartActions(th.sess), tracker := NEW_TRACKER)
    case Looping =>
      th.(phase := if u.Ends() then Ended else Looping, todo := TurnActions(th.sess, th.tracker, u),
          tracker := if u.chunk.Some? then TrackAll(th.tracker, u.chunk.value) else th.tracker)
    case Ended => th
  }

  function Next(w: World, m: Move): Option<World> {
    match m
    case Do(t) => if t < |w.threads| && w.threads[t].todo != [] && Enabled(w, t) then Some(Act(w, t)) else None
    case Begin(t, u) =>
      if 0 < t < |w.threads| && w.threads[t].todo == [] then Some(SetThread(w, t, Begun(w.threads[t], u))) else None
    case CallUi(c) =>
      if 0 < |w.threads| && w.threads[0].todo == [] then
        Some(SetThread(w, 0, w.threads[0].(todo := CallActions(c))))
      else None
  }

  function Exec(w: World, ms: seq<Move>, n: nat): Option<World>
    requires n <= |ms|
  {
    if n == 0 then Some(w)
    else
      var before := Exec(w, ms, n - 1);
      if before.None? then None else Next(before.value, ms[n - 1])
  }

  predicate Initial(w: World) {
    && w.threads != [] && w.channel == [] && w.capacity > 0
    && forall t :: 0 <= t < |w.threads| ==>
         var th := w.threads[t];
         th.phase == New && th.todo == [] && th.holding == None && th.log == []
  }

  // ---- The discipline ---------------------------------------------------------------------

  /** At most one lock is held at a time, and nothing that waits is done under it. */
  predicate Disciplined(todo: seq<Action>, holding: Option<Mutex>) {
    if todo == [] then holding == None
    else match todo[0]
      case Acquire(m) => holding == None && Disciplined(todo[1..], Some(m))
      case Release(m) => holding == Some(m) && Disciplined(todo[1..], None)
      case Send(_) => holding == None && Disciplined(todo[1..], None)
      case TrySend(_) => Disciplined(todo[1..], holding)
      case TryRecv => holding == None && Disciplined(todo[1..], None)
  }

  /** The messages `todo` will send by waiting for the channel. */
  function Sends(todo: seq<Action>): seq<Message> {
    if todo == [] then [] else (if todo[0].Send? then [todo[0].e] else []) + Sends(todo[1..])
  }

  lemma {:induction false} Joined(a: seq<Action>, b: seq<Action>, holding: Option<Mutex>)
    requires Disciplined(a, holding) && Disciplined(b, None)
    ensures Disciplined(a + b, holding)
    decreases |a|
  {
    if a == [] {
      assert a + b == b;
    } else {
      var after := match a[0] case Acquire(m) => Some(m) case TrySend(_) => holding case _ => None;
      Joined(a[1..], b, after);
      assert (a + b)[0] == a[0] && (a + b)[1..] == a[1..] + b;
    }
  }

  lemma {:induction false} SendsJoined(a: seq<Action>, b: seq<Action>)
    ensures Sends(a + b) == Sends(a) + Sends(b)
    decreases |a|
  {
    if a == [] {
      assert a + b == b;
    } else {
      var head := if a[0].Send? then [a[0].e] else [];
      SendsJoined(a[1..], b);
      assert (a + b)[0] == a[0] && (a + b)[1..] == a[1..] + b;
      assert Sends(a + b) == head + (Sends(a[1..]) + Sends(b)) == (head + Sends(a[1..])) + Sends(b);
    }
  }

  /** A program a thread may start: disciplined, and its messages. */
  predicate Sound(todo: seq<Action>, sends: seq<Message>) {
    Disciplined(todo, None) && Sends(todo) == sends
  }

  lemma SoundJoin(a: seq<Action>, x: seq<Message>, b: seq<Action>, y: seq<Message>)
    requires Sound(a, x) && Sound(b, y)
    ensures Sound(a + b, x + y)
  {
    Joined(a, b, None);
    SendsJoined(a, b);
  }

  lemma SoundGuarded(m: Mutex)
    ensures Sound(Guarded(m), [])
  {
    var g := Guarded(m);
    assert g[1..] == [Release(m)] && g[1..][1..] == [];
    assert Disciplined(g[1..], Some(m)) && Sends(g[1..]) == [];
  }

  lemma SoundSend(e: Message)
    ensures Sound([Send(e)], [e])
  {
    assert [Send(e)][1..] == [];
  }

  lemma SoundWhen(c: bool, e: Message)
    ensures Sound(When(c, [Send(e)]), if c then [e] else [])
  {
    SoundSend(e);
  }

  /** A heuristic line sends no `Exited`. */
  lemma SoundLine(s: nat, t: Tracker, line: Line)
    ensures Disciplined(LineActions(s, t, line), None) && Exited !in Sends(LineActions(s, t, line))
  {
    SoundGuarded(WorkLock(s));
    SoundGuarded(SessionLock(s));
    if line.hint.Some? && t.lastHint != line.hint {
      SoundSend(StateChanged);
      SoundWhen(line.hint == Some(NeedsApproval), PermissionRequested);
      SoundJoin(Guarded(WorkLock(s)), [], Guarded(SessionLock(s)), []);
      SoundJoin(Guarded(WorkLock(s)) + Guarded(SessionLock(s)), [], [Send(StateChanged)], [StateChanged]);
      SoundJoin(Guarded(WorkLock(s)) + Guarded(SessionLock(s)) + [Send(StateChanged)], [StateChanged],
                When(line.hint == Some(NeedsApproval), [Send(PermissionRequested)]),
                if line.hint == Some(NeedsApproval) then [PermissionRequested] else []);
    } else if line.hint.None? && line.kind != 0 && t.lastKind != Some(line.kind) {
      SoundWhen(Emits(t, line), Activity);
      SoundJoin(Guarded(WorkLock(s)), [],
                When(Emits(t, line), [Send(Activity)]), if Emits(t, line) then [Activity] else []);
    }
  }

  lemma {:induction false} SoundLines(s: nat, t: Tracker, lines: seq<Line>)
    ensures Disciplined(LinesActions(s, t, lines), None) && Exited !in Sends(LinesActions(s, t, lines))
    decreases |lines|
  {
    if lines != [] {
      var a, b := LineActions(s, t, lines[0]), LinesActions(s, Track(t, lines[0]), lines[1..]);
      SoundLine(s, t, lines[0]);
      SoundLines(s, Track(t, lines[0]), lines[1..]);
      SoundJoin(a, Sends(a), b, Sends(b));
    }
  }

  lemma SoundChunk(s: nat, t: Tracker, lines: seq<Line>)
    ensures Disciplined(ChunkActions(s, t, lines), None) && Exited !in Sends(ChunkActions(s, t, lines))
  {
    var g, l := Guarded(SessionLock(s)), LinesActions(s, t, lines);
    SoundGuarded(SessionLock(s));
    SoundLines(s, t, lines);
    SoundSend(Output);
    SoundJoin(g, [], g, []);
    SoundJoin(g + g, [], l, Sends(l));
    SoundJoin(g + g + l, [] + [] + Sends(l), g, []);
    SoundJoin(g + g + l + g, [] + [] + Sends(l) + [], [Send(Output)], [Output]);
  }

  lemma SoundStart(s: nat)
    ensures Sound(StartActions(s), [StateChanged, Started])
  {
    var g := Guarded(SessionLock(s));
    SoundGuarded(SessionLock(s));
    SoundSend(StateChanged);
    SoundSend(Started);
    SoundJoin([Send(StateChanged)], [StateChanged], [Send(Started)], [Started]);
    assert [Send(StateChanged)] + [Send(Started)] == [Send(StateChanged), Send(Started)];
    SoundJoin(g, [], [Send(StateChanged), Send(Started)], [StateChanged, Started]);
  }

  /** `Exited` is sent once, after everything else. */
  predicate ExitedLast(sends: seq<Message>) {
    sends != [] && sends[|sends| - 1] == Exited && Exited !in sends[..|sends| - 1]
  }

  lemma SoundFinish(s: nat, code: Option<int>, terminal: bool)
    ensures Disciplined(FinishActions(s, code, terminal), None) && ExitedLast(Sends(FinishActions(s, code, terminal)))
  {
    var a, b := Guarded(SessionLock(s)), Guarded(WorkLock(s));
    var c, d := When(!terminal, [Send(StateChanged)]), When(code == Some(0), [Send(Completed)]);
    var x := if !terminal then [StateChanged] else [];
    var y := if code == Some(0) then [Completed] else [];
    SoundGuarded(SessionLock(s));
    SoundGuarded(WorkLock(s));
    SoundWhen(!terminal, StateChanged);
    SoundWhen(code == Some(0), Completed);
    SoundSend(Exited);
    SoundJoin(a, [], b, []);
    SoundJoin(a + b, [] + [], c, x);
    SoundJoin(a + b + c, [] + [] + x, d, y);
    SoundJoin(a + b + c + d, [] + [] + x + y, [Send(Exited)], [Exited]);
    assert ([] + [] + x + y + [Exited])[..|x + y|] == x + y;
  }

  /** A turn of the loop is disciplined, and sends `Exited`, last, exactly if it ends the pump. */
  lemma SoundTurn(s: nat, t: Tracker, u: Turn)
    ensures Disciplined(TurnActions(s, t, u), None)
    ensures var sends := Sends(TurnActions(s, t, u));
      if u.Ends() then ExitedLast(sends) else Exited !in sends
  {
    var a := if u.chunk.Some? then ChunkActions(s, t, u.chunk.value) else [];
    var b := if u.exited && !u.stopped then FinishActions(s, u.code, u.terminal) else When(u.stopped, [Send(Exited)]);
    if u.chunk.Some? {
      SoundChunk(s, t, u.chunk.value);
    }
    SoundFinish(s, u.code, u.terminal);
    SoundWhen(u.stopped, Exited);
    SoundJoin(a, Sends(a), b, Sends(b));
    if u.Ends() {
      AfterOthers(Sends(a), Sends(b));
    }
  }

  lemma AfterOthers(a: seq<Message>, b: seq<Message>)
    requires Exited !in a && ExitedLast(b)
    ensures ExitedLast(a + b)
  {
    var all := a + b;
    assert all[..|all| - 1] == a + b[..|b| - 1];
  }

  lemma SoundSnapshot(s: nat)
    ensures Sound(SnapshotActions(s), [])
  {
    SoundGuarded(WorkLock(s));
    SoundGuarded(SessionLock(s));
    SoundJoin(Guarded(WorkLock(s)), [], Guarded(SessionLock(s)), []);
  }

  lemma {:induction false} SoundList(n: nat)
    ensures Sound(ListActions(n), [])
  {
    if n > 0 {
      SoundList(n - 1);
      SoundSnapshot(n - 1);
      SoundJoin(ListActions(n - 1), [], SnapshotActions(n - 1), []);
    }
  }

  lemma SoundStop(s: nat, terminal: bool)
    ensures Sound(CallActions(Stop(s, terminal)), [])
  {
    var all, end := CallActions(Stop(s, terminal)), [Release(SessionLock(s))];
    assert end[1..] == [];
    assert Sends(end[1..]) == [] && Sends(end) == [] + Sends(end[1..]);
    assert Disciplined(end, Some(SessionLock(s)));
    var tail := all[1..];
    if terminal {
      assert tail == end;
    } else {
      assert tail[0] == TrySend(StateChanged) && tail[1..] == end;
      assert Disciplined(tail, Some(SessionLock(s)));
      assert Sends(tail) == [] + Sends(end) == [];
    }
  }

  /** No call of the user interface waits for the channel. */
  lemma SoundCall(c: Call)
    ensures Sound(CallActions(c), [])
  {
    match c
    case Drain => assert [TryRecv][1..] == [];
    case Stop(s, terminal) => SoundStop(s, terminal);
    case GetSession(s) => SoundSnapshot(s);
    case ListSessions(n) => SoundList(n);
    case RawState(s) => SoundGuarded(SessionLock(s));
  }

  // ---- What every interleaving keeps ------------------------------------------------------------

  predicate ThreadOk(th: Thread) {
    && Disciplined(th.todo, th.holding)
    && (if th.phase == Ended then ExitedLast(th.log + Sends(th.todo)) else Exited !in th.log + Sends(th.todo))
  }

  predicate Inv(w: World) {
    && w.threads != [] && |w.channel| <= w.capacity && 0 < w.capacity
    && (forall t :: 0 <= t < |w.threads| ==> ThreadOk(w.threads[t]))
    && (forall t, u :: 0 <= t < u < |w.threads| && w.threads[t].holding.Some? ==>
          w.threads[t].holding != w.threads[u].holding)
    && Sends(w.threads[0].todo) == []
  }

  lemma ActedOk(th: Thread, channelEmpty: bool)
    requires ThreadOk(th) && th.todo != []
    ensures ThreadOk(Acted(th, channelEmpty))
    ensures Sends(th.todo) == [] ==> Sends(Acted(th, channelEmpty).todo) == []
    ensures Acted(th, channelEmpty).holding ==
      match th.todo[0]
      case Acquire(m) => Some(m)
      case Release(_) => None
      case _ => th.holding
  {
    var rest := Sends(th.todo[1..]);
    if th.todo[0].Send? {
      assert th.log + ([th.todo[0].e] + rest) == th.log + [th.todo[0].e] + rest;
    } else {
      assert Sends(th.todo) == [] + rest == rest;
    }
  }

  lemma ActKeepsInv(w: World, t: nat)
    requires Inv(w) && t < |w.threads| && w.threads[t].todo != [] && Enabled(w, t)
    ensures Inv(Act(w, t))
  {
    ActedOk(w.threads[t], w.channel == []);
  }

  lemma BegunOk(th: Thread, u: Turn)
    requires ThreadOk(th) && th.todo == []
    ensures ThreadOk(Begun(th, u)) && Begun(th, u).holding == None
  {
    SoundStart(th.sess);
    SoundTurn(th.sess, th.tracker, u);
    assert th.log + [] == th.log;
    if th.phase == New {
      assert Exited !in th.log + Sends(StartActions(th.sess));
    } else if th.phase == Looping && u.Ends() {
      AfterOthers(th.log, Sends(TurnActions(th.sess, th.tracker, u)));
    }
  }

  lemma NextKeepsInv(w: World, m: Move)
    requires Inv(w) && Next(w, m).Some?
    ensures Inv(Next(w, m).value)
  {
    match m
    case Do(t) => ActKeepsInv(w, t);
    case Begin(t, u) => BegunOk(w.threads[t], u);
    case CallUi(c) =>
      SoundCall(c);
      CalledOk(w.threads[0], c);
  }

  lemma CalledOk(th: Thread, c: Call)
    requires ThreadOk(th) && th.todo == []
    ensures ThreadOk(th.(todo := CallActions(c)))
  {
    SoundCall(c);
  }

  /** Every interleaving of every pumps' turns and user interface calls keeps the invariant. */
  lemma {:induction false} ReachableInv(w: World, ms: seq<Move>, n: nat)
    requires Initial(w) && n <= |ms| && Exec(w, ms, n).Some?
    ensures Inv(Exec(w, ms, n).value)
  {
    if n > 0 {
      ReachableInv(w, ms, n - 1);
      NextKeepsInv(Exec(w, ms, n - 1).value, ms[n - 1]);
    }
  }

  // ---- Freedom from deadlock ------------------------------------------------------------------

  /** In every reachable world: a thread that is about to wait, for a lock or for the
      channel, holds no lock; no lock has two holders; and the user interface never waits
      for the channel. */
  lemma NoWaitUnderALock(w: World, ms: seq<Move>, n: nat, t: nat)
    requires Initial(w) && n <= |ms| && Exec(w, ms, n).Some?
    requires t < |Exec(w, ms, n).value.threads|
    ensures var r := Exec(w, ms, n).value; var th := r.threads[t];
      && (th.todo != [] && (th.todo[0].Send? || th.todo[0].Acquire? || th.todo[0].TryRecv?) ==> th.holding == None)
      && (t == 0 ==> th.todo == [] || !th.todo[0].Send?)
      && (forall u :: 0 <= u < |r.threads| && u != t && th.holding.Some? ==> r.threads[u].holding != th.holding)
  {
    ReachableInv(w, ms, n);
  }

  /** A thread waiting for a lock always has a holder that can move. */
  lemma HolderCanMove(w: World, t: nat) returns (u: nat)
    requires Inv(w) && t < |w.threads| && w.threads[t].todo != []
    requires w.threads[t].todo[0].Acquire? && !Enabled(w, t)
    ensures u < |w.threads| && u != t && w.threads[u].holding == Some(w.threads[t].todo[0].m)
    ensures w.threads[u].todo != [] && Enabled(w, u)
  {
    u :| 0 <= u < |w.threads| && w.threads[u].holding == Some(w.threads[t].todo[0].m);
    assert ThreadOk(w.threads[u]) && ThreadOk(w.threads[t]);
  }

  lemma {:induction false} ExecFront(w: World, m: Move, ms: seq<Move>, n: nat)
    requires n <= |ms| && Next(w, m).Some?
    ensures Exec(w, [m] + ms, n + 1) == Exec(Next(w, m).value, ms, n)
  {
    if n > 0 {
      ExecFront(w, m, ms, n - 1);
    } else {
      assert Exec(w, [m] + ms, 0) == Some(w);
    }
  }

  /** Left to itself, a holder lets go of its lock, whatever all other threads do and however
      full the channel is. */
  lemma HolderReleases(w: World, u: nat) returns (ms: seq<Move>)
    requires Inv(w) && u < |w.threads| && w.threads[u].holding.Some?
    ensures |ms| <= |w.threads[u].todo| && forall i :: 0 <= i < |ms| ==> ms[i] == Do(u)
    ensures Exec(w, ms, |ms|).Some?
    ensures Exec(w, ms, |ms|).value.threads == w.threads[u := Exec(w, ms, |ms|).value.threads[u]]
    ensures Exec(w, ms, |ms|).value.threads[u].holding == None
    decreases |w.threads[u].todo|
  {
    assert ThreadOk(w.threads[u]);
    var r := Act(w, u);
    if w.threads[u].todo[0].Release? {
      ms := [Do(u)];
      assert Exec(w, ms, 0) == Some(w);
    } else {
      ActKeepsInv(w, u);
      var rest := HolderReleases(r, u);
      ms := [Do(u)] + rest;
      ExecFront(w, Do(u), rest, |rest|);
    }
  }

  /** Some thread can move, or the user interface is idle and every thread with work waits
      for a place in the full channel. */
  lemma SomeoneCanMove(w: World, t: nat) returns (u: nat)
    requires Inv(w) && t < |w.threads| && w.threads[t].todo != []
    ensures u < |w.threads|
    ensures (w.threads[u].todo != [] && Enabled(w, u))
         || (w.threads[0].todo == [] && w.threads[t].todo[0].Send? && |w.channel| == w.capacity)
  {
    u := t;
    if !Enabled(w, t) {
      if w.threads[t].todo[0].Acquire? {
        u := HolderCanMove(w, t);
      } else if w.threads[0].todo != [] {
        u := 0;
        if !Enabled(w, 0) {
          u := HolderCanMove(w, 0);
        }
      }
    }
  }

  /** Draining makes a place for a thread that waits for the channel: with a drain every
      reachable world in which a thread has work can move on. */
  lemma DrainUnblocks(w: World, t: nat)
    requires Inv(w) && 0 < t < |w.threads| && w.threads[0].todo == []
    requires w.threads[t].todo != [] && w.threads[t].todo[0].Send? && |w.channel| == w.capacity
    ensures Exec(w, [CallUi(Drain), Do(0)], 2).Some? && CanSend(Exec(w, [CallUi(Drain), Do(0)], 2).value, t)
  {
    var ms := [CallUi(Drain), Do(0)];
    assert Exec(w, ms, 0) == Some(w);
    assert Exec(w, ms, 1) == Next(w, CallUi(Drain));
  }

  /** No reachable world is stuck: if any thread has work, a thread can move, at once or after
      the idle user interface drained a message. */
  lemma NoDeadlock(w: World, ms: seq<Move>, n: nat, t: nat)
    requires Initial(w) && n <= |ms| && Exec(w, ms, n).Some?
    requires t < |Exec(w, ms, n).value.threads| && Exec(w, ms, n).value.threads[t].todo != []
    ensures var r := Exec(w, ms, n).value;
      || (exists u :: 0 <= u < |r.threads| && r.threads[u].todo != [] && Enabled(r, u))
      || (Exec(r, [CallUi(Drain), Do(0)], 2).Some? && CanSend(Exec(r, [CallUi(Drain), Do(0)], 2).value, t))
  {
    ReachableInv(w, ms, n);
    var r := Exec(w, ms, n).value;
    var u := SomeoneCanMove(r, t);
    if r.threads[u].todo == [] || !Enabled(r, u) {
      DrainUnblocks(r, t);
    }
  }

  // ---- Everything can be finished -----------------------------------------------------------

  predicate Idle(w: World) {
    forall t :: 0 <= t < |w.threads| ==> w.threads[t].todo == []
  }

  /** The actions all threads still have to do. */
  function Work(threads: seq<Thread>): nat {
    if threads == [] then 0 else |threads[0].todo| + Work(threads[1..])
  }

  lemma {:induction false} WorkReplaced(threads: seq<Thread>, t: nat, th: Thread)
    requires t < |threads|
    ensures Work(threads[t := th]) + |threads[t].todo| == Work(threads) + |th.todo|
    decreases |threads|
  {
    var next := threads[t := th];
    if t > 0 {
      assert next[1..] == threads[1..][t - 1 := th];
      WorkReplaced(threads[1..], t - 1, th);
    } else {
      assert next[1..] == threads[1..];
    }
  }

  lemma {:induction false} ExecJoined(w: World, a: seq<Move>, b: seq<Move>, n: nat)
    requires n <= |b| && Exec(w, a, |a|).Some?
    ensures Exec(w, a + b, |a| + n) == Exec(Exec(w, a, |a|).value, b, n)
  {
    if n > 0 {
      var m := n - 1;
      ExecJoined(w, a, b, m);
      ExecNext(w, a + b, |a| + m, |a| + n);
      ExecNext(Exec(w, a, |a|).value, b, m, n);
    } else {
      ExecPrefix(w, a, b, |a|);
    }
  }

  lemma ExecNext(w: World, ms: seq<Move>, m: nat, n: nat)
    requires n == m + 1 <= |ms|
    ensures Exec(w, ms, n) == if Exec(w, ms, m).None? then None else Next(Exec(w, ms, m).value, ms[m])
  {
  }

  lemma {:induction false} ExecPrefix(w: World, a: seq<Move>, b: seq<Move>, n: nat)
    requires n <= |a|
    ensures Exec(w, a + b, n) == Exec(w, a, n)
  {
    if n > 0 {
      ExecPrefix(w, a, b, n - 1);
    }
  }

  /** The moves `ms` lead from `w` to `r`. */
  predicate Leads(w: World, ms: seq<Move>, r: World) { Exec(w, ms, |ms|) == Some(r) }

  lemma LeadsOn(w: World, a: seq<Move>, m: World, b: seq<Move>, r: World)
    requires Leads(w, a, m) && Leads(m, b, r)
    ensures Leads(w, a + b, r)
  {
    ExecJoined(w, a, b, |b|);
  }

  lemma OneMove(w: World, m: Move)
    requires Next(w, m).Some?
    ensures Leads(w, [m], Next(w, m).value)
  {
    assert Exec(w, [m], 0) == Some(w);
  }

  /** The rest of a drain empties the channel and leaves everything else alone. */
  lemma DrainEmpties(w: World) returns (ms: seq<Move>, r: World)
    requires Inv(w) && w.threads[0].todo == [TryRecv]
    ensures Leads(w, ms, r) && Inv(r) && r.channel == []
    ensures r.threads == w.threads[0 := w.threads[0].(todo := [])]
    decreases |w.channel|
  {
    var next := Act(w, 0);
    ActKeepsInv(w, 0);
    OneMove(w, Do(0));
    if w.channel == [] {
      ms, r := [Do(0)], next;
    } else {
      assert next.threads == w.threads;
      var rest;
      rest, r := DrainEmpties(next);
      ms := [Do(0)] + rest;
      LeadsOn(w, [Do(0)], next, rest, r);
    }
  }

  /** With the user interface idle, a drain leaves an empty channel and nothing else. */
  lemma CanDrain(w: World) returns (ms: seq<Move>, r: World)
    requires Inv(w) && w.threads[0].todo == []
    ensures Leads(w, ms, r) && Inv(r) && r.channel == [] && r.threads == w.threads
  {
    var call := CallUi(Drain);
    NextKeepsInv(w, call);
    OneMove(w, call);
    var d, rest := Next(w, call).value, [];
    rest, r := DrainEmpties(d);
    ms := [call] + rest;
    LeadsOn(w, [call], d, rest, r);
    assert d.threads[0 := d.threads[0].(todo := [])] == w.threads;
  }

  /** Some moves do one of the actions still to be done, or take a message out of the channel. */
  lemma Progress(w: World) returns (ms: seq<Move>, r: World)
    requires Inv(w) && !Idle(w)
    ensures Leads(w, ms, r) && Inv(r)
    ensures Work(r.threads) < Work(w.threads) || (Work(r.threads) == Work(w.threads) && |r.channel| < |w.channel|)
  {
    var t: nat :| t < |w.threads| && w.threads[t].todo != [];
    var u := SomeoneCanMove(w, t);
    if w.threads[u].todo != [] && Enabled(w, u) {
      ms, r := [Do(u)], Act(w, u);
      OneMove(w, Do(u));
      ActKeepsInv(w, u);
      WorkReplaced(w.threads, u, Acted(w.threads[u], w.channel == []));
    } else {
      ms, r := CanDrain(w);
    }
  }

  /** From every world that keeps the invariant, and so from every reachable one, some moves
      lead to one in which all threads are idle. */
  lemma CanFinish(w: World) returns (ms: seq<Move>, r: World)
    requires Inv(w)
    ensures Leads(w, ms, r) && Idle(r)
    decreases Work(w.threads), |w.channel|
  {
    if Idle(w) {
      ms, r := [], w;
    } else {
      var first, next := Progress(w);
      var rest;
      rest, r := CanFinish(next);
      ms := first + rest;
      LeadsOn(w, first, next, rest, r);
    }
  }

  predicate CanSend(w: World, t: nat) {
    t < |w.threads| && w.threads[t].todo != [] && w.threads[t].todo[0].Send? && Enabled(w, t)
  }

  /** A pump run that ended has sent exactly one `Exited`, and nothing after it; before that
      it has sent none. */
  lemma ExitedOnceAndLast(w: World, ms: seq<Move>, n: nat, t: nat)
    requires Initial(w) && n <= |ms| && Exec(w, ms, n).Some?
    requires t < |Exec(w, ms, n).value.threads|
    ensures var th := Exec(w, ms, n).value.threads[t];
      && (th.phase == Ended && th.todo == [] ==> ExitedLast(th.log))
      && (Exited in th.log ==> th.phase == Ended && ExitedLast(th.log) && Sends(th.todo) == [])
  {
    ReachableInv(w, ms, n);
    var th := Exec(w, ms, n).value.threads[t];
    assert ThreadOk(th);
    assert th.log + [] == th.log;
    if Exited in th.log {
      NothingAfter(th.log, Sends(th.todo));
    }
  }

  lemma NothingAfter(a: seq<Message>, b: seq<Message>)
    requires ExitedLast(a + b)
    ensures b != [] ==> Exited !in a
  {
    if b != [] {
      var all := a + b;
      assert all[..|all| - 1] == a + b[..|b| - 1];
    }
  }
}
