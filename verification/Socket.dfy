/** Socket: data waiting to be sent, and what connects, sends, errors and timeouts do with it. */
module Sockets {
  import opened Bytes

  /** Result of send() on the bytes offered: some of them, "later", or an error. */
  datatype SendResult = Sent(n: nat) | WouldBlock | SendError(errno: int)

  /** Result of connect(): not known yet, done at once, or an error. */
  datatype ConnectResult = InProgress | Connected | Refused(errno: int)

  /** `waiting`: the dispatcher watches for the descriptor to be writable. `wire`: the bytes the kernel took.
      `submitted`: the bytes AsyncSend was given. */
  datatype Sock = Sock(data: seq<byte>, writeOffset: nat, sending: bool, connecting: bool, waiting: bool,
                       wire: seq<byte>, submitted: seq<byte>)

  const CLOSED := Sock([], 0, false, false, false, [], [])

  predicate Valid(s: Sock)
  {
    && (s.sending ==> s.waiting && s.writeOffset <= |s.data|)
    && (s.connecting ==> s.waiting)
  }

  /** The bytes in the buffer that the kernel has not taken. */
  function Rest(s: Sock): seq<byte>
  {
    if s.writeOffset <= |s.data| then s.data[s.writeOffset..] else []
  }

  // ---- the operations ----

  function Submit(s: Sock, bytes: seq<byte>): Sock
  {
    var t := s.(submitted := s.submitted + bytes);
    if s.sending then t.(data := s.data + bytes)
    else t.(data := bytes, writeOffset := 0, sending := true, waiting := true)
  }

  /** The kernel takes at least one of the bytes it is offered, and no more than all. */
  predicate Possible(s: Sock, r: SendResult)
  {
    r.Sent? && !s.connecting && s.writeOffset < |s.data| ==> 0 < r.n <= |s.data| - s.writeOffset
  }

  function Taken(s: Sock, n: nat): Sock
    requires s.writeOffset + n <= |s.data|
  {
    s.(writeOffset := s.writeOffset + n, wire := s.wire + s.data[s.writeOffset..s.writeOffset + n])
  }

  function OnWritable(s: Sock, r: SendResult): Sock
    requires Possible(s, r)
  {
    var t := s.(sending := false, waiting := false);
    if s.connecting then t.(connecting := false)
    else if s.writeOffset >= |s.data| then t
    else match r
      case Sent(n) =>
        if s.writeOffset + n >= |s.data| then Taken(t, n).(data := [])
        else Taken(t, n).(sending := true, waiting := true)
      case WouldBlock => t.(sending := true, waiting := true)
      case SendError(_) => t.(data := [])
  }

  /** Callback with PROM_SOCK_ERROR: the dispatcher goes on watching. */
  function OnError(s: Sock): Sock
  {
    s.(sending := false, connecting := false)
  }

  function Connect(s: Sock, r: ConnectResult): Sock
  {
    match r
    case InProgress => s.(connecting := true, waiting := true)
    case Connected => s
    case Refused(_) => OnError(s)
  }

  function OnTimeout(s: Sock): Sock
  {
    s.(data := [], sending := false, connecting := false, waiting := false)
  }

  // ---- runs ----

  /** `ReadFailed`: a read ends in an error. */
  datatype Event =
    | Connecting(c: ConnectResult)
    | Sending(bytes: seq<byte>)
    | Writable(r: SendResult)
    | ReadFailed
    | TimedOut

  /** The dispatcher only reports a descriptor that it watches. */
  predicate Allowed(s: Sock, e: Event)
  {
    e.Writable? ==> s.waiting && Possible(s, e.r)
  }

  function Apply(s: Sock, e: Event): Sock
    requires Allowed(s, e)
  {
    match e
    case Connecting(r) => Connect(s, r)
    case Sending(bytes) => Submit(s, bytes)
    case Writable(r) => OnWritable(s, r)
    case ReadFailed => OnError(s)
    case TimedOut => OnTimeout(s)
  }

  lemma ApplyKeepsValid(s: Sock, e: Event)
    requires Valid(s) && Allowed(s, e)
    ensures Valid(Apply(s, e))
  {}

  predicate Runs(s: Sock, es: seq<Event>)
    decreases |es|
  {
    es == [] || (Allowed(s, es[0]) && Runs(Apply(s, es[0]), es[1..]))
  }

  function After(s: Sock, es: seq<Event>): Sock
    requires Runs(s, es)
    decreases |es|
  {
    if es == [] then s else After(Apply(s, es[0]), es[1..])
  }

  // ---- bytes that are lost ----

  /** Nothing lost, nothing twice, all in order. */
  predicate Conserved(s: Sock)
  {
    s.wire + Rest(s) == s.submitted
  }

  /** What an event throws away: a send() that fails and a timeout clear the buffer, and AsyncSend
      replaces what is in it unless the socket is sending. */
  function Discarded(s: Sock, e: Event): seq<byte>
  {
    match e
    case Sending(_) => if s.sending then [] else Rest(s)
    case Writable(r) => if !s.connecting && r.SendError? then Rest(s) else []
    case TimedOut => Rest(s)
    case _ => []
  }

  predicate Loses(s: Sock, es: seq<Event>)
    requires Runs(s, es)
    decreases |es|
  {
    es != [] && (Discarded(s, es[0]) != [] || Loses(Apply(s, es[0]), es[1..]))
  }

  function Missing(s: Sock): int
  {
    |s.submitted| - |s.wire| - |Rest(s)|
  }

  /** In a run, what is missing is what its events discarded, in all. */
  function DiscardedIn(s: Sock, es: seq<Event>): nat
    requires Runs(s, es)
    decreases |es|
  {
    if es == [] then 0 else |Discarded(s, es[0])| + DiscardedIn(Apply(s, es[0]), es[1..])
  }

  lemma SubmitMoves(s: Sock, bytes: seq<byte>)
    requires Valid(s)
    ensures Rest(Submit(s, bytes)) == (if s.sending then Rest(s) else []) + bytes
  {
    if s.sending {
      assert (s.data + bytes)[s.writeOffset..] == s.data[s.writeOffset..] + bytes;
    } else {
      assert [] + bytes == bytes;
    }
  }

  lemma TakenMoves(s: Sock, n: nat)
    requires s.writeOffset + n <= |s.data|
    ensures Taken(s, n).wire + Rest(Taken(s, n)) == s.wire + Rest(s)
  {
    var cut := s.writeOffset + n;
    assert s.data[s.writeOffset..] == s.data[s.writeOffset..cut] + s.data[cut..];
    Assoc(s.wire, s.data[s.writeOffset..cut], s.data[cut..]);
  }

  lemma OnSent(s: Sock, n: nat)
    requires s.writeOffset < |s.data| && 0 < n <= |s.data| - s.writeOffset && !s.connecting
    ensures var t, u := OnWritable(s, Sent(n)), Taken(s, n);
      t.submitted == s.submitted && t.wire == u.wire && Rest(t) == Rest(u)
  {}

  /** What the kernel takes leaves the buffer for the wire. */
  lemma SentMoves(s: Sock, n: nat)
    requires s.writeOffset < |s.data| && 0 < n <= |s.data| - s.writeOffset && !s.connecting
    ensures var t := OnWritable(s, Sent(n)); t.submitted == s.submitted && t.wire + Rest(t) == s.wire + Rest(s)
  {
    OnSent(s, n);
    TakenMoves(s, n);
  }

  /** A writable event moves bytes, and throws away what it discards. */
  lemma OnWritableMoves(s: Sock, r: SendResult)
    requires Possible(s, r)
    ensures var t := OnWritable(s, r);
      t.submitted == s.submitted &&
      if Discarded(s, Writable(r)) == [] then t.wire + Rest(t) == s.wire + Rest(s)
      else t.wire == s.wire && Rest(t) == []
  {
    if !s.connecting && s.writeOffset < |s.data| && r.Sent? {
      SentMoves(s, r.n);
    }
  }

  /** One event: what is missing grows by just what it discards, and without that the order is kept. */
  lemma ApplyMissing(s: Sock, e: Event)
    requires Valid(s) && Allowed(s, e)
    ensures Missing(Apply(s, e)) == Missing(s) + |Discarded(s, e)|
    ensures Conserved(s) && Discarded(s, e) == [] ==> Conserved(Apply(s, e))
  {
    match e {
      case Sending(bytes) =>
        SubmitMoves(s, bytes);
        Assoc(s.wire, Rest(s), bytes);
      case Writable(r) =>
        OnWritableMoves(s, r);
        assert Discarded(s, e) == [] ==> |Apply(s, e).wire + Rest(Apply(s, e))| == |s.wire + Rest(s)|;
      case _ =>
    }
  }

  lemma {:induction false} MissingIsDiscarded(s: Sock, es: seq<Event>)
    requires Valid(s) && Runs(s, es)
    ensures Missing(After(s, es)) == Missing(s) + DiscardedIn(s, es)
    ensures DiscardedIn(s, es) > 0 <==> Loses(s, es)
    decreases |es|
  {
    if es != [] {
      ApplyMissing(s, es[0]);
      ApplyKeepsValid(s, es[0]);
      MissingIsDiscarded(Apply(s, es[0]), es[1..]);
    }
  }

  /** Over any run of connects, sends, writable events, read errors and timeouts: every byte has reached the
      wire or is still in the buffer, in order, if and only if no event of the run discards some. */
  lemma {:induction false} RunConservesIff(s: Sock, es: seq<Event>)
    requires Valid(s) && Conserved(s) && Runs(s, es)
    ensures Conserved(After(s, es)) <==> !Loses(s, es)
    decreases |es|
  {
    if es != [] {
      MissingIsDiscarded(s, es);
      ApplyMissing(s, es[0]);
      ApplyKeepsValid(s, es[0]);
      assert Conserved(After(s, es)) ==> Missing(After(s, es)) == Missing(s) == 0;
      if Discarded(s, es[0]) == [] {
        RunConservesIff(Apply(s, es[0]), es[1..]);
      }
    }
  }

  // ---- bytes that nobody is going to send ----

  /** There are bytes in the buffer, and the dispatcher does not watch for a chance to send them. */
  predicate Stranded(s: Sock)
  {
    !s.waiting && Rest(s) != []
  }

  /** A connection is made, or fails, with bytes waiting. */
  predicate Strands(s: Sock, e: Event)
  {
    e.Writable? && s.connecting && Rest(s) != []
  }

  /** What leaves bytes stranded: neither watches again nor empties the buffer. */
  predicate Leaves(e: Event)
  {
    e.ReadFailed? || (e.Connecting? && !e.c.InProgress?)
  }

  lemma ApplyStrandedIff(s: Sock, e: Event)
    requires Valid(s) && Allowed(s, e)
    ensures Stranded(Apply(s, e)) <==> Strands(s, e) || (Stranded(s) && Leaves(e))
  {}

  /** Some event strands bytes, and all that follow leave them there. */
  predicate EndsStranded(s: Sock, es: seq<Event>)
    requires Runs(s, es)
    decreases |es|
  {
    es != [] &&
    ((Strands(s, es[0]) && forall e <- es[1..] :: Leaves(e)) || EndsStranded(Apply(s, es[0]), es[1..]))
  }

  /** After any run: bytes are stranded if and only if a connection was completed with bytes waiting, and
      since then nothing was sent, connected anew, or timed out. */
  lemma {:induction false} StrandedIff(s: Sock, es: seq<Event>)
    requires Valid(s) && Runs(s, es)
    ensures Stranded(After(s, es)) <==> EndsStranded(s, es) || (Stranded(s) && forall e <- es :: Leaves(e))
    decreases |es|
  {
    if es != [] {
      ApplyStrandedIff(s, es[0]);
      ApplyKeepsValid(s, es[0]);
      StrandedIff(Apply(s, es[0]), es[1..]);
      assert forall e :: e in es <==> e == es[0] || e in es[1..];
    }
  }

  /** Bytes queued while connecting are thrown away by the next AsyncSend, however the connection ends. */
  lemma QueuedBeforeConnectedIsLost(s: Sock, r: SendResult, more: seq<byte>)
    requires Valid(s) && s.connecting && Rest(s) != [] && Possible(s, r)
    ensures var es := [Writable(r), Sending(more)];
      Runs(s, es) && Stranded(Apply(s, es[0])) && Rest(After(s, es)) == more
      && Missing(After(s, es)) == Missing(s) + |Rest(s)|
  {
    var t := OnWritable(s, r);
    SubmitMoves(t, more);
    assert [] + more == more;
    TwoEvents(s, Writable(r), Sending(more));
    ApplyMissing(s, Writable(r));
    ApplyMissing(t, Sending(more));
  }

  /** After an error in a read the bytes still being sent are sent, unless AsyncSend comes first. */
  lemma ReadErrorLosesIff(s: Sock, e: Event)
    requires Valid(s) && s.sending && Rest(s) != [] && Allowed(OnError(s), e) && (e.Sending? || e.Writable?)
    ensures Runs(s, [ReadFailed, e])
    ensures Missing(After(s, [ReadFailed, e])) > Missing(s) <==> e.Sending? || e.r.SendError?
  {
    TwoEvents(s, ReadFailed, e);
    ApplyMissing(s, ReadFailed);
    ApplyMissing(OnError(s), e);
  }

  lemma TwoEvents(s: Sock, a: Event, b: Event)
    requires Allowed(s, a) && Allowed(Apply(s, a), b)
    ensures Runs(s, [a, b]) && After(s, [a, b]) == Apply(Apply(s, a), b)
  {
    var t := Apply(s, a);
    assert [a, b][1..] == [b] && [b][1..] == [];
    assert Runs(Apply(t, b), []) && Runs(t, [b]);
    assert After(t, [b]) == After(Apply(t, b), []);
  }

  // ---- the socket ----

  class Socket {
    var Data: seq<byte>
    var WriteOffset: nat
    var IsSending: bool
    var IsConnecting: bool
    var Watched: bool             // the dispatcher has it under PROM_IOF_WRITE
    var Wire: seq<byte>
    ghost var Submitted: seq<byte>

    ghost function State(): Sock
      reads this
    {
      Sock(Data, WriteOffset, IsSending, IsConnecting, Watched, Wire, Submitted)
    }

    constructor ()
      ensures State() == CLOSED
    {
      Data, WriteOffset, IsSending, IsConnecting, Watched, Wire, Submitted := [], 0, false, false, false, [], [];
    }

    /** `r`: what connect() and SO_ERROR say. */
    method AsyncConnect(r: ConnectResult)
      modifies this
      ensures State() == Connect(old(State()), r)
    {
      match r {
        case InProgress =>
          IsConnecting := true;
          Watched := true;
        case Connected =>
        case Refused(_) => CallbackError();
      }
    }

    method AsyncSend(bytes: seq<byte>)
      modifies this
      ensures State() == Submit(old(State()), bytes)
    {
      Submitted := Submitted + bytes;
      if IsSending {
        Data := Data + bytes;
      } else {
        WriteOffset := 0;
        Data := bytes;
        IsSending := true;
        Watched := true;
      }
    }

    /** The flags that Callback clears with PROM_SOCK_ERROR. */
    method CallbackError()
      modifies `IsSending, `IsConnecting
      ensures State() == OnError(old(State()))
    {
      IsSending, IsConnecting := false, false;
    }

    method HandleTimeout()
      modifies this
      ensures State() == OnTimeout(old(State()))
    {
      Data := [];
      IsSending, IsConnecting := false, false;
      Watched := false;
    }

    /** `r`: what send() returns, if it is called. */
    method HandleWrite(r: SendResult)
      requires Possible(State(), r)
      modifies this
      ensures State() == OnWritable(old(State()), r)
    {
      var keepWaiting := false;
      Watched := false;
      IsSending := false;
      if IsConnecting {
        IsConnecting := false;
      } else if WriteOffset < |Data| {
        match r {
          case Sent(n) =>
            Wire := Wire + Data[WriteOffset..WriteOffset + n];
            WriteOffset := WriteOffset + n;
            if WriteOffset >= |Data| {
              Data := [];
            } else {
              keepWaiting := true;
            }
          case SendError(_) =>
            Data := [];
            CallbackError();
          case WouldBlock => keepWaiting := true;
        }
      }
      if keepWaiting {
        IsSending := true;
        Watched := true;
      }
    }
  }
}
