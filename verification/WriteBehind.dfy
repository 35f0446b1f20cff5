/** The write-behind queue of a File: what is queued, and what reaches the disk and when. */
module WriteBehind {
  import opened Bytes

  const BUF_SIZE := 4096

  /** One FileBuf: `data` is filled from the left, `done` of it is already on disk. */
  datatype Buf = Buf(data: seq<byte>, done: nat)

  /** A queued buffer: something is left of it. */
  type Queued = b: Buf | b.done < |b.data| <= BUF_SIZE witness Buf([0], 0)

  predicate Full(b: Buf)
  {
    |b.data| >= BUF_SIZE
  }

  function Left(b: Queued): seq<byte>
  {
    b.data[b.done..]
  }

  predicate AllFull(bufs: seq<Queued>)
  {
    forall i :: 0 <= i < |bufs| ==> Full(bufs[i])
  }

  /** All buffers but the last are full. */
  predicate Shaped(bufs: seq<Queued>)
  {
    forall i :: 0 <= i < |bufs| - 1 ==> Full(bufs[i])
  }

  type Queue = bufs: seq<Queued> | Shaped(bufs)

  type Count = n: nat | 0 < n witness 1

  /** What one write() does: take some of the bytes offered (all, when `n` is larger), refuse them
      for now, or fail. */
  datatype WriteResult = Wrote(n: Count) | WouldBlock | Fails(errno: int)

  /** How HandleWrite's loop ends. */
  datatype Outcome = Drained | Blocked | Failed

  /** `stuck`: the last attempt to write ended in an error other than "later".
      `disk`, `submitted`: every byte written, and every byte given to Write. */
  datatype FileState = FileState(bufs: Queue, writing: bool, flush: bool, stuck: bool,
                                 disk: seq<byte>, submitted: seq<byte>)

  /** The bytes still to be written, in order. */
  function Pending(bufs: Queue): seq<byte>
  {
    if bufs == [] then [] else Left(bufs[0]) + Pending(bufs[1..])
  }

  // ---- queueing ----

  predicate HasRoom(bufs: Queue)
  {
    bufs != [] && !Full(bufs[|bufs| - 1])
  }

  function Room(bufs: Queue): nat
  {
    if HasRoom(bufs) then BUF_SIZE - |bufs[|bufs| - 1].data| else BUF_SIZE
  }

  /** The last buffer takes the bytes, or a new one when it is full. */
  function Put(bufs: Queue, bytes: seq<byte>): Queue
    requires 0 < |bytes| <= Room(bufs)
  {
    if HasRoom(bufs) then
      var last := bufs[|bufs| - 1];
      bufs[..|bufs| - 1] + [last.(data := last.data + bytes)]
    else bufs + [Buf(bytes, 0)]
  }

  /** The queue after `bytes`, and whether a buffer was found full on the way. */
  function Enqueue(bufs: Queue, bytes: seq<byte>): (r: (Queue, bool))
    decreases |bytes|
  {
    if bytes == [] then (bufs, false)
    else
      var n := Min(Room(bufs), |bytes|);
      var r := Enqueue(Put(bufs, bytes[..n]), bytes[n..]);
      (r.0, r.1 || (bufs != [] && !HasRoom(bufs)))
  }

  lemma {:induction false} PendingSnoc(bufs: seq<Queued>, b: Queued)
    requires AllFull(bufs)
    ensures Pending(bufs + [b]) == Pending(bufs) + Left(b)
  {
    if bufs == [] {
      assert [b][1..] == [];
      assert Pending([b]) == Left(b) + [];
      assert Left(b) + [] == Left(b) == [] + Left(b);
    } else {
      assert (bufs + [b])[1..] == bufs[1..] + [b];
      PendingSnoc(bufs[1..], b);
      Assoc(Left(bufs[0]), Pending(bufs[1..]), Left(b));
    }
  }

  lemma PendingGrows(front: seq<Queued>, b: Queued, more: seq<byte>)
    requires AllFull(front) && |b.data + more| <= BUF_SIZE
    ensures Pending(front + [b.(data := b.data + more)]) == Pending(front + [b]) + more
  {
    PendingSnoc(front, b);
    PendingSnoc(front, b.(data := b.data + more));
    assert (b.data + more)[b.done..] == b.data[b.done..] + more;
    Assoc(Pending(front), Left(b), more);
  }

  lemma PutAdds(bufs: Queue, bytes: seq<byte>)
    requires 0 < |bytes| <= Room(bufs)
    ensures Pending(Put(bufs, bytes)) == Pending(bufs) + bytes
  {
    if HasRoom(bufs) {
      var front, last := bufs[..|bufs| - 1], bufs[|bufs| - 1];
      assert front + [last] == bufs;
      PendingGrows(front, last, bytes);
    } else {
      assert bufs != [] ==> bufs == bufs[..|bufs| - 1] + [bufs[|bufs| - 1]];
      PendingSnoc(bufs, Buf(bytes, 0));
    }
  }

  /** What one turn takes of the bytes, and what is left of them. */
  lemma EnqueueNext(bufs: Queue, bytes: seq<byte>) returns (put: Queue, taken: seq<byte>, rest: seq<byte>)
    requires bytes != []
    ensures bytes == taken + rest && |rest| < |bytes|
    ensures Pending(put) == Pending(bufs) + taken && Enqueue(bufs, bytes).0 == Enqueue(put, rest).0
  {
    var n := Min(Room(bufs), |bytes|);
    taken, rest := bytes[..n], bytes[n..];
    put := Put(bufs, taken);
    PutAdds(bufs, taken);
  }

  lemma {:induction false} EnqueuePending(bufs: Queue, bytes: seq<byte>)
    ensures Pending(Enqueue(bufs, bytes).0) == Pending(bufs) + bytes
    decreases |bytes|
  {
    if bytes == [] {
      assert Pending(bufs) + [] == Pending(bufs);
    } else {
      var put, taken, rest := EnqueueNext(bufs, bytes);
      EnqueuePending(put, rest);
      Assoc(Pending(bufs), taken, rest);
    }
  }

  lemma PutCounts(bufs: Queue, bytes: seq<byte>)
    requires 0 < |bytes| <= Room(bufs)
    ensures |Put(bufs, bytes)| == if HasRoom(bufs) then |bufs| else |bufs| + 1
    ensures !HasRoom(Put(bufs, bytes)) ==> |bytes| == Room(bufs)
  {}

  lemma {:induction false} EnqueueCounts(bufs: Queue, bytes: seq<byte>)
    ensures var r := Enqueue(bufs, bytes);
      |r.0| >= |bufs| && (r.1 <==> |r.0| > |bufs| && |r.0| > 1)
    decreases |bytes|
  {
    if bytes != [] {
      var n := Min(Room(bufs), |bytes|);
      PutCounts(bufs, bytes[..n]);
      EnqueueCounts(Put(bufs, bytes[..n]), bytes[n..]);
    }
  }

  /** Queueing adds exactly the bytes, and finds a buffer full exactly when it leaves more than one
      buffer, and more than there were. */
  lemma EnqueueAdds(bufs: Queue, bytes: seq<byte>)
    ensures Pending(Enqueue(bufs, bytes).0) == Pending(bufs) + bytes
    ensures |Enqueue(bufs, bytes).0| >= |bufs|
    ensures Enqueue(bufs, bytes).1 <==> |Enqueue(bufs, bytes).0| > |bufs| && |Enqueue(bufs, bytes).0| > 1
  {
    EnqueuePending(bufs, bytes);
    EnqueueCounts(bufs, bytes);
  }

  // ---- writing ----

  /** The queue, and the bytes written. */
  datatype Progress = Progress(bufs: Queue, disk: seq<byte>, outcome: Outcome)

  predicate Wants(bufs: Queue, flush: bool)
  {
    bufs != [] && (flush || Full(bufs[0]))
  }

  /** The head buffer after `m` more of its bytes are on disk: gone when that was all of it. */
  function Processed(bufs: Queue, m: nat): Queue
    requires bufs != [] && m <= |Left(bufs[0])|
  {
    var b := bufs[0].(done := bufs[0].done + m);
    if b.done >= |b.data| then bufs[1..] else [b] + bufs[1..]
  }

  /** HandleWrite's loop. `kernel` answers its write() calls in turn; past its end the answer is "later". */
  function Drain(bufs: Queue, flush: bool, disk: seq<byte>, kernel: seq<WriteResult>): Progress
    decreases |kernel|
  {
    if !Wants(bufs, flush) then Progress(bufs, disk, Drained)
    else if kernel == [] || kernel[0].WouldBlock? then Progress(bufs, disk, Blocked)
    else if kernel[0].Fails? then Progress(bufs, disk, Failed)
    else
      var m := Min(kernel[0].n, |Left(bufs[0])|);
      Drain(Processed(bufs, m), flush, disk + Left(bufs[0])[..m], kernel[1..])
  }

  lemma ProcessedKeeps(bufs: Queue, m: nat)
    requires bufs != [] && m <= |Left(bufs[0])|
    ensures Left(bufs[0])[..m] + Pending(Processed(bufs, m)) == Pending(bufs)
  {
    var l := Left(bufs[0]);
    var b := bufs[0].(done := bufs[0].done + m);
    if b.done >= |b.data| {
      assert l[..m] == l;
    } else {
      assert ([b] + bufs[1..])[1..] == bufs[1..];
      assert Left(b) == l[m..];
      Assoc(l[..m], l[m..], Pending(bufs[1..]));
      assert l[..m] + l[m..] == l;
    }
  }

  /** Whatever the kernel does, the loop moves bytes from the queue to the disk in order; when it
      ends without an error it leaves nothing, or (not flushing) at most one buffer, not full. */
  lemma {:induction false} DrainMoves(bufs: Queue, flush: bool, disk: seq<byte>, kernel: seq<WriteResult>)
    ensures var p := Drain(bufs, flush, disk, kernel);
      && p.disk + Pending(p.bufs) == disk + Pending(bufs)
      && (p.outcome.Drained? ==> if flush then p.bufs == [] else |p.bufs| <= 1 && (p.bufs != [] ==> !Full(p.bufs[0])))
    decreases |kernel|
  {
    if Wants(bufs, flush) && kernel != [] && kernel[0].Wrote? {
      var m := Min(kernel[0].n, |Left(bufs[0])|);
      var l := Left(bufs[0])[..m];
      ProcessedKeeps(bufs, m);
      DrainMoves(Processed(bufs, m), flush, disk + l, kernel[1..]);
      Assoc(disk, l, Pending(Processed(bufs, m)));
    }
  }

  // ---- operations ----

  function HandleWrite(s: FileState, kernel: seq<WriteResult>): FileState
  {
    var p := Drain(s.bufs, s.flush, s.disk, kernel);
    s.(bufs := p.bufs, disk := p.disk, writing := p.outcome.Blocked?, stuck := p.outcome.Failed?)
  }

  function Write(s: FileState, bytes: seq<byte>, kernel: seq<WriteResult>): FileState
  {
    var r := Enqueue(s.bufs, bytes);
    var t := s.(bufs := r.0, submitted := s.submitted + bytes);
    if r.1 && !s.writing then HandleWrite(t, kernel) else t
  }

  function ResumeWrite(s: FileState, kernel: seq<WriteResult>): FileState
  {
    if s.bufs != [] then HandleWrite(s, kernel) else s
  }

  /** Closing with data waiting only starts to flush it. */
  function Close(s: FileState, kernel: seq<WriteResult>): FileState
  {
    if s.bufs == [] then s.(writing := false, flush := false)
    else
      var t := s.(flush := true);
      if t.writing then t else HandleWrite(t, kernel)
  }

  /** Nothing lost, nothing twice, in order; and unless a write is deferred or failed, at most one
      buffer is waiting. */
  predicate Inv(s: FileState)
  {
    && s.disk + Pending(s.bufs) == s.submitted
    && (!s.writing && !s.stuck ==> |s.bufs| <= 1)
  }

  lemma HandleWriteKeepsInv(s: FileState, kernel: seq<WriteResult>)
    requires s.disk + Pending(s.bufs) == s.submitted
    ensures Inv(HandleWrite(s, kernel))
  {
    DrainMoves(s.bufs, s.flush, s.disk, kernel);
  }

  lemma WriteKeepsInv(s: FileState, bytes: seq<byte>, kernel: seq<WriteResult>)
    requires Inv(s)
    ensures Inv(Write(s, bytes, kernel))
  {
    var r := Enqueue(s.bufs, bytes);
    EnqueueAdds(s.bufs, bytes);
    Assoc(s.disk, Pending(s.bufs), bytes);
    if r.1 && !s.writing {
      HandleWriteKeepsInv(s.(bufs := r.0, submitted := s.submitted + bytes), kernel);
    }
  }

  datatype Event = DoWrite(bytes: seq<byte>, kernel: seq<WriteResult>)
                 | DoHandleWrite(kernel: seq<WriteResult>)
                 | DoResume(kernel: seq<WriteResult>)
                 | DoClose(kernel: seq<WriteResult>)

  function Apply(s: FileState, e: Event): FileState
  {
    match e
    case DoWrite(bytes, kernel) => Write(s, bytes, kernel)
    case DoHandleWrite(kernel) => HandleWrite(s, kernel)
    case DoResume(kernel) => ResumeWrite(s, kernel)
    case DoClose(kernel) => Close(s, kernel)
  }

  function After(s: FileState, es: seq<Event>): FileState
    decreases |es|
  {
    if es == [] then s else After(Apply(s, es[0]), es[1..])
  }

  /** Over any run, whatever the kernel answers. */
  lemma {:induction false} RunKeepsInv(s: FileState, es: seq<Event>)
    requires Inv(s)
    ensures Inv(After(s, es))
    decreases |es|
  {
    if es != [] {
      match es[0] {
        case DoWrite(bytes, kernel) => WriteKeepsInv(s, bytes, kernel);
        case DoHandleWrite(kernel) => HandleWriteKeepsInv(s, kernel);
        case DoResume(kernel) => HandleWriteKeepsInv(s, kernel);
        case DoClose(kernel) => HandleWriteKeepsInv(s.(flush := true), kernel);
      }
      RunKeepsInv(Apply(s, es[0]), es[1..]);
    }
  }

  // ---- closing ----

  /** Every write() takes at least a byte, and there are as many as there are bytes. */
  predicate Enough(kernel: seq<WriteResult>, bufs: Queue)
  {
    |kernel| >= |Pending(bufs)| && forall i :: 0 <= i < |kernel| ==> kernel[i].Wrote?
  }

  lemma EnoughNext(bufs: Queue, kernel: seq<WriteResult>) returns (m: nat)
    requires bufs != [] && Enough(kernel, bufs)
    ensures kernel != [] && kernel[0].Wrote? && m == Min(kernel[0].n, |Left(bufs[0])|)
    ensures Enough(kernel[1..], Processed(bufs, m))
  {
    m := Min(kernel[0].n, |Left(bufs[0])|);
    ProcessedKeeps(bufs, m);
    assert |Pending(bufs)| == m + |Pending(Processed(bufs, m))|;
  }

  lemma {:induction false} DrainCompletes(bufs: Queue, flush: bool, disk: seq<byte>, kernel: seq<WriteResult>)
    requires Enough(kernel, bufs)
    ensures Drain(bufs, flush, disk, kernel).outcome.Drained?
    decreases |kernel|
  {
    if Wants(bufs, flush) {
      var m := EnoughNext(bufs, kernel);
      DrainCompletes(Processed(bufs, m), flush, disk + Left(bufs[0])[..m], kernel[1..]);
    }
  }

  /** Resuming, or the event that a write was deferred for, leaves no more waiting than one buffer that is not
      full, and nothing when the file is to be flushed, once the kernel takes as much. */
  lemma ResumeDrains(s: FileState, kernel: seq<WriteResult>)
    requires Enough(kernel, s.bufs)
    ensures s.bufs != [] ==> ResumeWrite(s, kernel) == HandleWrite(s, kernel)
    ensures var t := HandleWrite(s, kernel);
      && |t.bufs| <= 1 && (t.bufs != [] ==> !Full(t.bufs[0]) && !s.flush)
      && t.disk + Pending(t.bufs) == s.disk + Pending(s.bufs) && !t.writing && !t.stuck
  {
    DrainCompletes(s.bufs, s.flush, s.disk, kernel);
    DrainMoves(s.bufs, s.flush, s.disk, kernel);
  }

  /** A close with bytes waiting puts all that was submitted on disk, once the kernel takes it: at once, or with
      the events that come when a write is deferred. */
  lemma CloseCompletes(s: FileState, kernel: seq<WriteResult>)
    requires Inv(s) && s.bufs != [] && Enough(kernel, s.bufs)
    ensures var t := if s.writing then HandleWrite(Close(s, []), kernel) else Close(s, kernel);
      t.bufs == [] && t.disk == t.submitted == s.submitted && !t.writing && !t.stuck
  {
    DrainCompletes(s.bufs, true, s.disk, kernel);
    DrainMoves(s.bufs, true, s.disk, kernel);
    var d := Drain(s.bufs, true, s.disk, kernel).disk;
    assert d + [] == d;
  }

  /** With nothing waiting all that was submitted is on disk, and stays there. */
  lemma CloseEmpty(s: FileState, kernel: seq<WriteResult>)
    requires Inv(s) && s.bufs == []
    ensures var t := Close(s, kernel); t.bufs == [] && t.disk == s.submitted && !t.writing && !t.flush
  {
    assert s.disk + [] == s.disk;
  }

  // ---- the last flush ----

  /** What of `bytes` one write() puts on disk; its result is not looked at. */
  function Taken(bytes: seq<byte>, keep: bool, result: WriteResult): seq<byte>
  {
    if keep && result.Wrote? then bytes[..Min(result.n, |bytes|)] else []
  }

  /** The disk once the buffers have left, from the tail, one write() each. */
  function FlushTail(bufs: Queue, keep: bool, disk: seq<byte>, kernel: seq<WriteResult>): seq<byte>
    decreases |bufs|
  {
    if bufs == [] then disk
    else
      var took := Taken(Left(bufs[|bufs| - 1]), keep, if kernel == [] then WouldBlock else kernel[0]);
      FlushTail(bufs[..|bufs| - 1], keep, disk + took, if kernel == [] then [] else kernel[1..])
  }

  function FlushWriteBuffers(s: FileState, keep: bool, kernel: seq<WriteResult>): FileState
  {
    s.(bufs := [], flush := false, disk := FlushTail(s.bufs, keep, s.disk, kernel))
  }

  /** Every write() takes all it is given. */
  predicate Unhindered(kernel: seq<WriteResult>, n: nat)
  {
    |kernel| >= n && forall i :: 0 <= i < n ==> kernel[i].Wrote? && kernel[i].n >= BUF_SIZE
  }

  function Backwards(bufs: Queue): seq<byte>
    decreases |bufs|
  {
    if bufs == [] then [] else Left(bufs[|bufs| - 1]) + Backwards(bufs[..|bufs| - 1])
  }

  lemma {:induction false} FlushIsBackwards(bufs: Queue, disk: seq<byte>, kernel: seq<WriteResult>)
    requires Unhindered(kernel, |bufs|)
    ensures FlushTail(bufs, true, disk, kernel) == disk + Backwards(bufs)
    decreases |bufs|
  {
    if bufs == [] {
      assert disk + [] == disk;
    } else {
      var l := Left(bufs[|bufs| - 1]);
      assert l[..Min(kernel[0].n, |l|)] == l;
      FlushIsBackwards(bufs[..|bufs| - 1], disk + l, kernel[1..]);
      Assoc(disk, l, Backwards(bufs[..|bufs| - 1]));
    }
  }

  /** A run that ends with no write deferred or failed, then a flush whose writes are complete,
      leaves on disk what was submitted. */
  lemma FlushCompletes(s: FileState, kernel: seq<WriteResult>)
    requires Inv(s) && !s.writing && !s.stuck && Unhindered(kernel, |s.bufs|)
    ensures FlushWriteBuffers(s, true, kernel).disk == s.submitted
  {
    FlushIsBackwards(s.bufs, s.disk, kernel);
    if s.bufs != [] {
      assert s.bufs[1..] == [] == s.bufs[..0];
      assert Pending(s.bufs) == Left(s.bufs[0]) + [] == Backwards(s.bufs);
    }
  }

  /** Leaving from the tail keeps the order, whatever is queued, exactly when at most one buffer is. */
  lemma BackwardsKeepsOrderIff(n: nat)
    ensures (forall bufs: Queue :: |bufs| == n ==> Backwards(bufs) == Pending(bufs)) <==> n <= 1
  {
    if n <= 1 {
      forall bufs: Queue | |bufs| == n ensures Backwards(bufs) == Pending(bufs) {
        if bufs != [] {
          assert bufs[1..] == [] == bufs[..0];
        }
      }
    } else {
      var first, other := Buf(seq(BUF_SIZE, _ => 1), 0), Buf(seq(BUF_SIZE, _ => 0), 0);
      var bufs: Queue := seq(n, i => if i == 0 then first else other);
      assert Pending(bufs)[0] == Left(bufs[0])[0] == 1;
      assert Backwards(bufs)[0] == Left(bufs[n - 1])[0] == 0;
    }
  }

  const EMPTY := FileState([], false, false, false, [], [])

  /** From an empty file: a write of one buffer and one byte which the kernel defers, then a flush. The
      byte is on disk before the buffer. */
  lemma FlushAfterDeferredWrite() returns (s: FileState, page: seq<byte>)
    ensures |page| == BUF_SIZE && page[0] == 1 && s == After(EMPTY, [DoWrite(page + [0], [WouldBlock])])
    ensures Inv(s) && s.submitted == page + [0]
    ensures FlushWriteBuffers(s, true, [Wrote(BUF_SIZE), Wrote(BUF_SIZE)]).disk == [0] + page != s.submitted
  {
    page := seq(BUF_SIZE, _ => 1);
    var bytes, e := page + [0], DoWrite(page + [0], [WouldBlock]);
    s := After(EMPTY, [e]);
    RunKeepsInv(EMPTY, [e]);
    assert [e][1..] == [] && s == After(Apply(EMPTY, e), []) == Write(EMPTY, bytes, [WouldBlock]);
    TwoBuffers(page);
    FlushIsBackwards(s.bufs, [], [Wrote(BUF_SIZE), Wrote(BUF_SIZE)]);
    BackwardsOfTwo(Buf(page, 0), Buf([0], 0));
    assert ([0] + page)[0] == 0 && bytes[0] == 1;
  }

  lemma TwoBuffers(page: seq<byte>)
    requires |page| == BUF_SIZE
    ensures var s := Write(EMPTY, page + [0], [WouldBlock]);
      s.bufs == [Buf(page, 0), Buf([0], 0)] && s.disk == [] && s.submitted == page + [0]
  {
    var bytes := page + [0];
    assert bytes[..BUF_SIZE] == page && bytes[BUF_SIZE..] == [0];
    var one: Queue := [Buf(page, 0)];
    assert Put([], page) == one && Room([]) == BUF_SIZE;
    assert Put(one, [0]) == [Buf(page, 0), Buf([0], 0)];
    assert [0][..1] == [0] && [0][1..] == [];
    assert Enqueue(one, [0]) == (Put(one, [0]), true);
    assert Enqueue([], bytes) == (Put(one, [0]), true);
    assert [] + bytes == bytes;
  }

  lemma BackwardsOfTwo(a: Queued, b: Queued)
    requires Full(a)
    ensures Backwards([a, b]) == Left(b) + Left(a)
  {
    var bufs: Queue := [a, b];
    assert bufs[..1] == [a] && [a][..0] == [];
    assert Backwards([a]) == Left(a) + [] == Left(a);
  }
}
