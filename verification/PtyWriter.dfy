/** Input to a child process: a byte queue that is written to the kernel in chunks, never
    blocking. */
module PtyWriter {
  import opened Cells

  const COMPACT_AT: nat := 0x1_0000
  const CHUNK: nat := 1024

  // ---- The queue -----------------------------------------------------------------------

  /** A first-in first-out buffer whose front is removed by moving an offset. */
  class PendingWrite {
    var buf: seq<u8>
    var head: nat

    /** Bytes consumed so far, and bytes moved so far by compacting. */
    ghost var consumed: nat
    ghost var moved: nat

    /** The dead prefix is short, or shorter than what is queued; and every byte that was
        moved has been paid for by a byte consumed. */
    ghost predicate Valid()
      reads this
    {
      && head <= |buf|
      && (head < COMPACT_AT || head < |buf| - head)
      && moved + head <= consumed
    }

    ghost function Contents(): seq<u8>
      reads this
      requires Valid()
    {
      buf[head..]
    }

    constructor ()
      ensures Valid() && Contents() == []
    {
      buf, head := [], 0;
      consumed, moved := 0, 0;
    }

    method IsEmpty() returns (empty: bool)
      requires Valid()
      ensures empty == (Contents() == [])
    {
      empty := head >= |buf|;
    }

    method Len() returns (n: nat)
      requires Valid()
      ensures n == |Contents()|
    {
      n := |buf| - head;
    }

    method Push(data: seq<u8>)
      requires Valid()
      modifies this`buf
      ensures Valid() && Contents() == old(Contents()) + data
    {
      buf := buf + data;
    }

    method Front(n: nat) returns (front: seq<u8>)
      requires Valid()
      ensures front == Contents()[..Min(n, |Contents()|)]
    {
      var k := Min(n, |buf| - head);
      front := buf[head..head + k];
    }

    /** Removes bytes from the front, dropping the dead prefix once it is large. */
    method Consume(n: nat)
      requires Valid() && n <= |Contents()|
      modifies this
      ensures Valid() && Contents() == old(Contents())[n..]
      ensures consumed == old(consumed) + n
      ensures moved == old(moved) +
        if old(head) + n >= 0x1_0000 && (old(head) + n) * 2 >= |old(buf)| then |Contents()| else 0
    {
      head := head + n;
      consumed := consumed + n;
      if head >= COMPACT_AT && head * 2 >= |buf| {
        moved := moved + (|buf| - head);
        buf := buf[head..];
        head := 0;
      }
    }

    method Clear()
      requires Valid()
      modifies this
      ensures Valid() && Contents() == [] && consumed == old(consumed) && moved == old(moved)
    {
      buf, head := [], 0;
    }
  }

  // ---- Writing and flushing ------------------------------------------------------------------

  /** What the kernel does with a chunk: it takes up to so many bytes, or none for now, or
      the child is gone, or there is no writer. */
  datatype Kernel = Takes(n: nat) | WouldBlock | Fails | NoWriter

  /** What the kernel has got, and what is still queued. */
  datatype Pipe = Pipe(delivered: seq<u8>, queued: seq<u8>)

  function Flushed(p: Pipe, k: Kernel): Pipe {
    match k
    case Takes(n) =>
      var taken := Min(n, Min(|p.queued|, CHUNK));
      Pipe(p.delivered + p.queued[..taken], p.queued[taken..])
    case Fails => if p.queued == [] then p else p.(queued := [])
    case _ => p
  }

  datatype Call = Write(data: seq<u8>, k: Kernel) | ReadAvailable(k: Kernel)

  function Called(p: Pipe, c: Call): Pipe {
    match c
    case Write(data, k) => Flushed(p.(queued := p.queued + data), k)
    case ReadAvailable(k) => Flushed(p, k)
  }

  class Session {
    const pending: PendingWrite
    ghost var delivered: seq<u8>

    ghost predicate Valid()
      reads this, pending
    {
      pending.Valid()
    }

    ghost function Value(): Pipe
      reads this, pending
      requires Valid()
    {
      Pipe(delivered, pending.Contents())
    }

    constructor ()
      ensures Valid() && fresh(pending) && Value() == Pipe([], [])
    {
      pending := new PendingWrite();
      delivered := [];
    }

    /** One chunk to the kernel. Nothing is lost unless the kernel fails. */
    method FlushPending(k: Kernel)
      requires Valid()
      modifies this, pending
      ensures Valid() && Value() == Flushed(old(Value()), k)
    {
      ghost var p := Value();
      var empty := pending.IsEmpty();
      if empty || k == NoWriter {
        assert p.queued[..0] == [] && p.delivered + [] == p.delivered;
        return;
      }
      var len := pending.Len();
      var front := pending.Front(Min(len, CHUNK));
      match k {
        case Takes(n) =>
          var taken := Min(n, |front|);
          if taken > 0 {
            pending.Consume(taken);
          }
          delivered := delivered + front[..taken];
          assert front[..taken] == p.queued[..taken];
        case Fails =>
          pending.Clear();
        case WouldBlock =>
      }
    }

    method WriteInput(data: seq<u8>, k: Kernel)
      requires Valid()
      modifies this, pending
      ensures Valid() && Value() == Called(old(Value()), Write(data, k))
    {
      pending.Push(data);
      FlushPending(k);
    }

    method ReadOutput(k: Kernel)
      requires Valid()
      modifies this, pending
      ensures Valid() && Value() == Called(old(Value()), ReadAvailable(k))
    {
      FlushPending(k);
    }
  }

  /** One call, whatever the kernel answers: what it takes of the first 1024 bytes is delivered and
      leaves the queue; a failure empties it; otherwise all of it waits. */
  lemma OneCall(p: Pipe, c: Call, queue: seq<u8>)
    requires queue == p.queued + (if c.Write? then c.data else [])
    ensures c.k.Takes? ==>
      var taken := if c.k.n <= 1024 && c.k.n <= |queue| then c.k.n else if |queue| <= 1024 then |queue| else 1024;
      Called(p, c) == Pipe(p.delivered + queue[..taken], queue[taken..])
    ensures c.k == Fails ==> Called(p, c) == Pipe(p.delivered, [])
    ensures c.k == WouldBlock || c.k == NoWriter ==> Called(p, c) == Pipe(p.delivered, queue)
  {
    assert p.queued + [] == p.queued;
  }

  // ---- Runs ------------------------------------------------------------------------------------

  function CallAll(p: Pipe, cs: seq<Call>, n: nat): Pipe
    requires n <= |cs|
  {
    if n == 0 then p else Called(CallAll(p, cs, n - 1), cs[n - 1])
  }

  /** The bytes of the first `n` calls that write. */
  function Written(cs: seq<Call>, n: nat): seq<u8>
    requires n <= |cs|
  {
    if n == 0 then [] else Written(cs, n - 1) + (if cs[n - 1].Write? then cs[n - 1].data else [])
  }

  /** As long as the kernel does not fail every byte written is delivered or queued, in
      order, and no call delivers more than a chunk. */
  lemma {:induction false} BytesAreConserved(p: Pipe, cs: seq<Call>, n: nat)
    requires n <= |cs| && forall i :: 0 <= i < n ==> cs[i].k != Fails
    ensures var r := CallAll(p, cs, n);
      && r.delivered + r.queued == p.delivered + p.queued + Written(cs, n)
      && |r.delivered| <= |p.delivered| + n * 1024
  {
    if n > 0 {
      var m := n - 1;
      BytesAreConserved(p, cs, m);
      CallConserves(CallAll(p, cs, m), cs[m]);
      var data := if cs[m].Write? then cs[m].data else [];
      assert p.delivered + p.queued + Written(cs, n) == (p.delivered + p.queued + Written(cs, m)) + data;
    }
  }

  lemma CallConserves(p: Pipe, c: Call)
    requires c.k != Fails
    ensures var r := Called(p, c);
      && r.delivered + r.queued == p.delivered + p.queued + (if c.Write? then c.data else [])
      && |p.delivered| <= |r.delivered| <= |p.delivered| + 1024
  {
  }

  /** What leaves the queue in one call: a chunk that is delivered, or, if the kernel fails,
      everything there is. */
  datatype Leaving = Delivered(bytes: seq<u8>) | Lost(bytes: seq<u8>)

  function LeavesIn(p: Pipe, c: Call): (l: Leaving)
    ensures l.Lost? <==> c.k == Fails
  {
    var queue := if c.Write? then p.queued + c.data else p.queued;
    match c.k
    case Takes(n) => Delivered(queue[..Min(n, Min(|queue|, CHUNK))])
    case Fails => Lost(queue)
    case _ => Delivered([])
  }

  /** All bytes that left the queue in the first `n` calls, in order. */
  function Left(p: Pipe, cs: seq<Call>, n: nat): seq<u8>
    requires n <= |cs|
  {
    if n == 0 then [] else Left(p, cs, n - 1) + LeavesIn(CallAll(p, cs, n - 1), cs[n - 1]).bytes
  }

  /** Of these, the delivered ones. */
  function LeftDelivered(p: Pipe, cs: seq<Call>, n: nat): seq<u8>
    requires n <= |cs|
  {
    if n == 0 then []
    else
      var l := LeavesIn(CallAll(p, cs, n - 1), cs[n - 1]);
      LeftDelivered(p, cs, n - 1) + (if l.Delivered? then l.bytes else [])
  }

  /** Whatever the kernel answers, the bytes written are those that left the queue followed by
      those still in it. */
  lemma {:induction false} BytesLeaveInOrder(p: Pipe, cs: seq<Call>, n: nat)
    requires n <= |cs|
    ensures Left(p, cs, n) + CallAll(p, cs, n).queued == p.queued + Written(cs, n)
  {
    if n > 0 {
      var m := n - 1;
      var q, l := CallAll(p, cs, m), LeavesIn(CallAll(p, cs, m), cs[m]);
      BytesLeaveInOrder(p, cs, m);
      CallLeaves(q, cs[m]);
      NextCall(p, cs, m, n);
      var data := if cs[m].Write? then cs[m].data else [];
      Rebracket(Left(p, cs, m), l.bytes, Called(q, cs[m]).queued, q.queued, data, p.queued, Written(cs, m));
    } else {
      assert p.queued + [] == [] + p.queued;
    }
  }

  /** What the kernel got are the bytes that left the queue but for the queues at the failing
      calls. */
  lemma {:induction false} OnlyFailuresLose(p: Pipe, cs: seq<Call>, n: nat)
    requires n <= |cs|
    ensures CallAll(p, cs, n).delivered == p.delivered + LeftDelivered(p, cs, n)
  {
    if n > 0 {
      var m := n - 1;
      var l := LeavesIn(CallAll(p, cs, m), cs[m]);
      OnlyFailuresLose(p, cs, m);
      CallLeaves(CallAll(p, cs, m), cs[m]);
      NextCall(p, cs, m, n);
      Brackets(p.delivered, LeftDelivered(p, cs, m), if l.Delivered? then l.bytes else []);
    }
  }

  lemma Brackets(a: seq<u8>, b: seq<u8>, c: seq<u8>)
    ensures (a + b) + c == a + (b + c)
  {
  }

  lemma NextCall(p: Pipe, cs: seq<Call>, m: nat, n: nat)
    requires n == m + 1 <= |cs|
    ensures CallAll(p, cs, n) == Called(CallAll(p, cs, m), cs[m])
    ensures Written(cs, n) == Written(cs, m) + (if cs[m].Write? then cs[m].data else [])
    ensures var l := LeavesIn(CallAll(p, cs, m), cs[m]);
      && Left(p, cs, n) == Left(p, cs, m) + l.bytes
      && LeftDelivered(p, cs, n) == LeftDelivered(p, cs, m) + (if l.Delivered? then l.bytes else [])
  {
  }

  lemma Rebracket(left: seq<u8>, l: seq<u8>, rest: seq<u8>, queue: seq<u8>, data: seq<u8>, first: seq<u8>, w: seq<u8>)
    requires left + queue == first + w && l + rest == queue + data
    ensures (left + l) + rest == first + (w + data)
  {
    assert (left + l) + rest == left + (l + rest);
    assert left + (queue + data) == (left + queue) + data;
    assert (first + w) + data == first + (w + data);
  }

  lemma CallLeaves(p: Pipe, c: Call)
    ensures var r, l := Called(p, c), LeavesIn(p, c);
      && l.bytes + r.queued == p.queued + (if c.Write? then c.data else [])
      && r.delivered == p.delivered + (if l.Delivered? then l.bytes else [])
  {
  }

  /** If every flush is accepted by at least one byte, `|queued|` reads empty the queue; a
      queue of any length needs at least one read for every chunk of it. */
  lemma {:induction false} QueueEmpties(p: Pipe, cs: seq<Call>, n: nat)
    requires n <= |cs| && forall i :: 0 <= i < n ==> cs[i].ReadAvailable? && cs[i].k.Takes? && cs[i].k.n > 0
    ensures var r := CallAll(p, cs, n);
      && |r.queued| <= (if n <= |p.queued| then |p.queued| - n else 0)
      && |p.queued| <= |r.queued| + n * 1024
      && (n >= |p.queued| ==> r.queued == [] && r.delivered == p.delivered + p.queued)
  {
    var r := CallAll(p, cs, n);
    BytesAreConserved(p, cs, n);
    NoneWritten(cs, n);
    assert p.delivered + p.queued + [] == p.delivered + p.queued;
    if n > 0 {
      QueueEmpties(p, cs, n - 1);
    }
    if r.queued == [] {
      assert r.delivered + r.queued == r.delivered;
    }
  }

  /** If the kernel takes whole chunks, every read takes 1024 bytes off the queue until it is
      empty: no more reads than chunks. */
  lemma {:induction false} ChunksLeave(p: Pipe, cs: seq<Call>, n: nat)
    requires n <= |cs| && forall i :: 0 <= i < n ==> cs[i].ReadAvailable? && cs[i].k.Takes? && cs[i].k.n >= 1024
    ensures |CallAll(p, cs, n).queued| == if n * 1024 <= |p.queued| then |p.queued| - n * 1024 else 0
  {
    if n > 0 {
      var q := CallAll(p, cs, n - 1);
      ChunksLeave(p, cs, n - 1);
      OneCall(q, cs[n - 1], q.queued);
    }
  }

  lemma {:induction false} NoneWritten(cs: seq<Call>, n: nat)
    requires n <= |cs| && forall i :: 0 <= i < n ==> cs[i].ReadAvailable?
    ensures Written(cs, n) == []
  {
    if n > 0 {
      NoneWritten(cs, n - 1);
    }
  }
}
