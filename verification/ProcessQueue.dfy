/** Requests waiting for worker processes: who gets which, when answers, failures and the callbacks
    they make can all arrive in the middle of handing out the next request. */
module ProcessQueue {
  import opened Bytes

  datatype Request = Request(body: seq<byte>, callback: int, userdata: int)

  /** A worker as its parent sees it. `data`: what has arrived of the answer; `room`: the size of the
      buffer for it; `waiting`: a read is outstanding. */
  datatype Child = Child(running: bool, busy: bool, waiting: bool, data: seq<byte>, room: nat, request: Request)
  {
    predicate Idle()
    {
      running && !busy
    }
  }

  type Fragment = s: seq<byte> | |s| > 0 witness [0]

  /** What a read finds: nothing yet, a signal instead, some bytes, the end of the stream, or an error. `resubmit` are
      the requests which the callback made then submits in turn. */
  datatype Reply = Silent | Interrupted | Data(bytes: Fragment, resubmit: seq<Request>) | Closed
                 | Failure(errno: int, resubmit: seq<Request>)

  datatype Called = Answered(request: Request, answer: seq<byte>) | Failed(request: Request, errno: int)

  /** A reply read from a worker; `first`: by AsyncRecv, not when the dispatcher said there was something. */
  datatype Read = Read(worker: nat, reply: Reply, first: bool)

  datatype Group = Group(children: seq<Child>, queue: seq<Request>, submitted: seq<Request>,
                         dispatched: seq<Request>, log: seq<Called>, replies: seq<Read>, crashed: seq<Request>)

  const EMPTY := Group([], [], [], [], [], [], [])

  // ---- one answer ----

  const CHUNK_SIZE := 1024

  predicate Complete(data: seq<byte>)
  {
    |data| >= 4 && Word(data, 0) == |data| - 4
  }

  /** A worker with room for at most that many bytes receives some. */
  function Take(c: Child, bytes: seq<byte>): Child
  {
    var left := if c.room > |c.data| then c.room - |c.data| else 0;
    c.(waiting := false, data := c.data + if |bytes| <= left then bytes else bytes[..left])
  }

  /** Room for more, when there is none. */
  function Grow(c: Child): Child
  {
    if c.room <= |c.data| then c.(room := c.room + CHUNK_SIZE) else c
  }

  // ---- handing out ----

  /** The first idle worker, or |cs|. */
  function FindIdle(cs: seq<Child>): (i: nat)
    ensures i <= |cs| && (i < |cs| ==> cs[i].Idle()) && forall j :: 0 <= j < i ==> !cs[j].Idle()
  {
    if cs == [] || cs[0].Idle() then 0 else 1 + FindIdle(cs[1..])
  }

  function Set(g: Group, i: nat, c: Child): Group
    requires i < |g.children|
  {
    g.(children := g.children[i := c])
  }

  function Note(g: Group, i: nat, reply: Reply, first: bool): Group
  {
    g.(replies := g.replies + [Read(i, reply, first)])
  }

  /** Everything after a step: the workers are the same ones, and the replies are used up in turn. */
  predicate Follows(g: Group, env: seq<Reply>, r: (Group, seq<Reply>))
  {
    |r.0.children| == |g.children| && |r.1| <= |env|
  }

  function Submit(g: Group, req: Request, env: seq<Reply>): (r: (Group, seq<Reply>))
    ensures Follows(g, env, r)
    decreases |env|, 4, 0
  {
    var h := g.(submitted := g.submitted + [req]);
    var i := FindIdle(g.children);
    if i < |g.children| then Dispatch(h, i, req, env) else (h.(queue := h.queue + [req]), env)
  }

  function SubmitAll(g: Group, reqs: seq<Request>, env: seq<Reply>): (r: (Group, seq<Reply>))
    ensures Follows(g, env, r)
    decreases |env|, 5, |reqs|
  {
    if reqs == [] then (g, env)
    else
      var s := Submit(g, reqs[0], env);
      SubmitAll(s.0, reqs[1..], s.1)
  }

  /** The worker as SendRequest leaves it. */
  function Started(c: Child, req: Request): Child
  {
    c.(busy := true, waiting := false, data := [], room := CHUNK_SIZE, request := req)
  }

  function Dispatch(g: Group, i: nat, req: Request, env: seq<Reply>): (r: (Group, seq<Reply>))
    requires i < |g.children|
    ensures Follows(g, env, r) && (if env == [] then r.0.queue == g.queue else |r.1| < |env|)
    decreases |env|, 2, 0
  {
    Receive(Set(g, i, Started(g.children[i], req)).(dispatched := g.dispatched + [req]), i, env)
  }

  /** AsyncRecv: what is there already is handled at once. A read that is interrupted is not repeated. */
  function Receive(g: Group, i: nat, env: seq<Reply>): (r: (Group, seq<Reply>))
    requires i < |g.children|
    ensures Follows(g, env, r) && (if env == [] then r.0.queue == g.queue else |r.1| < |env|)
    decreases |env|, 1, 0
  {
    if env == [] then (Set(Note(g, i, Silent, true), i, g.children[i].(waiting := true)), [])
    else if env[0].Silent? then (Set(Note(g, i, Silent, true), i, g.children[i].(waiting := true)), env[1..])
    else if env[0].Interrupted? then (Note(g, i, Interrupted, true), env[1..])
    else SocketEvent(g, i, env[0], true, env[1..])
  }

  function SocketEvent(g: Group, i: nat, reply: Reply, first: bool, env: seq<Reply>): (r: (Group, seq<Reply>))
    requires i < |g.children|
    ensures Follows(g, env, r)
    decreases |env|, 6, 0
  {
    match reply
    case Silent => (Note(g, i, reply, first), env)
    case Interrupted => (Note(g, i, reply, first), env)
    case Data(bytes, resubmit) => Arrive(g, i, bytes, resubmit, first, env)
    case Closed => Crash(g, i, first, env)
    case Failure(errno, resubmit) => Fail(g, i, errno, resubmit, first, env)
  }

  /** ReadAnswer, and the callback when the answer is complete. */
  function Arrive(g: Group, i: nat, bytes: Fragment, resubmit: seq<Request>, first: bool, env: seq<Reply>)
    : (r: (Group, seq<Reply>))
    requires i < |g.children|
    ensures Follows(g, env, r)
    decreases |env|, 5, |resubmit| + 1
  {
    var d, h := Take(g.children[i], bytes), Note(g, i, Data(bytes, resubmit), first);
    if Complete(d.data) then
      var s := SubmitAll(Set(h, i, d).(log := g.log + [Answered(d.request, d.data[4..])]), resubmit, env);
      Finish(s.0, i, s.1)
    else Receive(Set(h, i, Grow(d)), i, env)
  }

  function Crash(g: Group, i: nat, first: bool, env: seq<Reply>): (r: (Group, seq<Reply>))
    requires i < |g.children|
    ensures Follows(g, env, r)
    decreases |env|, 5, 1
  {
    var c := g.children[i];
    var h := Set(Note(g, i, Closed, first), i, c.(running := false, waiting := false));
    Finish(h.(crashed := g.crashed + [c.request]), i, env)
  }

  /** The callback is told the error; nothing else is done. */
  function Fail(g: Group, i: nat, errno: int, resubmit: seq<Request>, first: bool, env: seq<Reply>)
    : (r: (Group, seq<Reply>))
    requires i < |g.children|
    ensures Follows(g, env, r)
    decreases |env|, 5, |resubmit| + 1
  {
    var c := g.children[i];
    var h := Set(Note(g, i, Failure(errno, resubmit), first), i, c.(waiting := false));
    SubmitAll(h.(log := g.log + [Failed(c.request, errno)]), resubmit, env)
  }

  /** The worker is free for the next request. */
  function Finish(g: Group, i: nat, env: seq<Reply>): (r: (Group, seq<Reply>))
    requires i < |g.children|
    ensures Follows(g, env, r)
    decreases |env|, 5, 0
  {
    RunQueue(Set(g, i, g.children[i].(busy := false, data := [], room := 0)), env)
  }

  function RunQueue(g: Group, env: seq<Reply>): (r: (Group, seq<Reply>))
    ensures Follows(g, env, r)
    decreases |env|, 3, |g.queue|
  {
    var i := FindIdle(g.children);
    if g.queue == [] || i == |g.children| then (g, env)
    else
      var s := Dispatch(g.(queue := g.queue[1..]), i, g.queue[0], env);
      RunQueue(s.0, s.1)
  }

  function AddChild(g: Group, c: Child, env: seq<Reply>): (r: (Group, seq<Reply>))
  {
    RunQueue(g.(children := g.children + [c]), env)
  }

  // ---- what every step keeps ----

  /** No worker is idle, unless it is `i`. */
  predicate NoneIdleBut(g: Group, i: int)
  {
    forall j :: 0 <= j < |g.children| && j != i ==> !g.children[j].Idle()
  }

  /** A reply after which nothing more is read: an error, or a signal in the place of a first read. */
  predicate Deadly(r: Read)
  {
    r.reply.Failure? || (r.reply.Interrupted? && r.first)
  }

  /** The last reply read from worker i was one. */
  predicate LastDeadly(replies: seq<Read>, i: nat)
  {
    replies != []
    && if replies[|replies| - 1].worker == i then Deadly(replies[|replies| - 1])
       else LastDeadly(replies[..|replies| - 1], i)
  }

  /** Busy, and no read is outstanding. */
  predicate Cut(c: Child)
  {
    c.busy && !c.waiting
  }

  /** Requests leave in the order they came, and none waits while a worker is idle. */
  predicate Inv(g: Group)
  {
    && g.submitted == g.dispatched + g.queue
    && (g.queue != [] ==> NoneIdleBut(g, -1))
    && Reading(g)
  }

  /** A read is only outstanding for a busy worker, and there is always room for what it brings; the
      last reply of a worker that is idle or read from is not deadly. */
  predicate Reading(g: Group)
  {
    && (forall c <- g.children :: c.waiting ==> c.busy && |c.data| < c.room)
    && (forall j :: 0 <= j < |g.children| && !Cut(g.children[j]) ==> !LastDeadly(g.replies, j))
    && (forall r <- g.replies :: r.worker < |g.children|)
  }

  predicate Settled(g: Group, j: nat)
    requires j < |g.children|
  {
    Cut(g.children[j]) ==> LastDeadly(g.replies, j)
  }

  /** The workers that were busy, but for `i`, have not been touched; the others are settled. */
  predicate Untouched(g: Group, h: Group, i: int)
    requires |h.children| == |g.children|
  {
    forall j :: 0 <= j < |g.children| ==>
      if j != i && g.children[j].busy
      then h.children[j] == g.children[j] && LastDeadly(h.replies, j) == LastDeadly(g.replies, j)
      else Settled(h, j)
  }

  predicate Kept(g: Group, i: int, r: Group)
  {
    Inv(r) && |r.children| == |g.children| && Untouched(g, r, i) && g.log <= r.log
  }

  lemma Noted(replies: seq<Read>, r: Read, j: nat)
    ensures LastDeadly(replies + [r], j) == if r.worker == j then Deadly(r) else LastDeadly(replies, j)
  {
    assert (replies + [r])[..|replies|] == replies;
  }

  lemma NoteKeeps(g: Group, i: nat, reply: Reply, first: bool)
    requires i < |g.children| && (forall r <- g.replies :: r.worker < |g.children|)
    ensures var h := Note(g, i, reply, first);
      && (forall j: nat :: j != i ==> LastDeadly(h.replies, j) == LastDeadly(g.replies, j))
      && LastDeadly(h.replies, i) == Deadly(Read(i, reply, first))
      && (forall r <- h.replies :: r.worker < |g.children|)
  {
    forall j: nat {
      Noted(g.replies, Read(i, reply, first), j);
    }
  }

  lemma {:induction false} SubmitKeeps(g: Group, req: Request, env: seq<Reply>)
    requires Inv(g)
    ensures Kept(g, -1, Submit(g, req, env).0)
    decreases |env|, 4, 0
  {
    var h := g.(submitted := g.submitted + [req]);
    var i := FindIdle(g.children);
    if i < |g.children| {
      assert h.queue == [];
      assert g.dispatched + [] == g.dispatched;
      DispatchKeeps(h, i, req, env);
    } else {
      Assoc(g.dispatched, g.queue, [req]);
    }
  }

  lemma {:induction false} SubmitAllKeeps(g: Group, reqs: seq<Request>, env: seq<Reply>)
    requires Inv(g)
    ensures Kept(g, -1, SubmitAll(g, reqs, env).0)
    decreases |env|, 5, |reqs|
  {
    if reqs != [] {
      var s := Submit(g, reqs[0], env);
      SubmitKeeps(g, reqs[0], env);
      SubmitAllKeeps(s.0, reqs[1..], s.1);
    }
  }

  lemma {:induction false} DispatchKeeps(g: Group, i: nat, req: Request, env: seq<Reply>)
    requires i < |g.children| && g.children[i].Idle()
    requires g.submitted == g.dispatched + [req] + g.queue && (g.queue != [] ==> NoneIdleBut(g, i))
    requires Reading(g)
    ensures Kept(g, -1, Dispatch(g, i, req, env).0)
    decreases |env|, 2, 0
  {
    ReceiveKeeps(Set(g, i, Started(g.children[i], req)).(dispatched := g.dispatched + [req]), i, env);
  }

  lemma {:induction false} ReceiveKeeps(g: Group, i: nat, env: seq<Reply>)
    requires i < |g.children| && Cut(g.children[i]) && |g.children[i].data| < g.children[i].room && Inv(g)
    ensures Kept(g, i, Receive(g, i, env).0)
    decreases |env|, 1, 0
  {
    if env == [] || env[0].Silent? {
      NoteKeeps(g, i, Silent, true);
    } else if env[0].Interrupted? {
      InterruptedKeeps(g, i);
    } else {
      SocketEventKeeps(g, i, env[0], true, env[1..]);
    }
  }

  lemma InterruptedKeeps(g: Group, i: nat)
    requires i < |g.children| && Cut(g.children[i]) && Inv(g)
    ensures Kept(g, i, Note(g, i, Interrupted, true))
  {
    NoteKeeps(g, i, Interrupted, true);
  }

  lemma {:induction false} SocketEventKeeps(g: Group, i: nat, reply: Reply, first: bool, env: seq<Reply>)
    requires i < |g.children| && g.children[i].busy && |g.children[i].data| < g.children[i].room && Inv(g)
    requires reply.Silent? || reply.Interrupted? ==> !first && g.children[i].waiting
    ensures Kept(g, i, SocketEvent(g, i, reply, first, env).0)
    decreases |env|, 6, 0
  {
    match reply {
      case Silent | Interrupted => NoteKeeps(g, i, reply, first);
      case Data(bytes, resubmit) => ArriveKeeps(g, i, bytes, resubmit, first, env);
      case Closed => CrashKeeps(g, i, first, env);
      case Failure(errno, resubmit) => FailKeeps(g, i, errno, resubmit, first, env);
    }
  }

  lemma {:induction false} ArriveKeeps(g: Group, i: nat, bytes: Fragment, resubmit: seq<Request>, first: bool,
                                       env: seq<Reply>)
    requires i < |g.children| && g.children[i].busy && |g.children[i].data| < g.children[i].room && Inv(g)
    ensures Kept(g, i, Arrive(g, i, bytes, resubmit, first, env).0)
    decreases |env|, 5, |resubmit| + 2
  {
    var d := Take(g.children[i], bytes);
    if Complete(d.data) {
      AnswerKeeps(g, i, bytes, resubmit, first, env);
    } else {
      NoteKeeps(g, i, Data(bytes, resubmit), first);
      ReceiveKeeps(Set(Note(g, i, Data(bytes, resubmit), first), i, Grow(d)), i, env);
    }
  }

  lemma {:induction false} AnswerKeeps(g: Group, i: nat, bytes: Fragment, resubmit: seq<Request>, first: bool,
                                       env: seq<Reply>)
    requires i < |g.children| && g.children[i].busy && Inv(g) && Complete(Take(g.children[i], bytes).data)
    ensures Kept(g, i, Arrive(g, i, bytes, resubmit, first, env).0)
    ensures g.log + [Answered(g.children[i].request, Take(g.children[i], bytes).data[4..])]
         <= Arrive(g, i, bytes, resubmit, first, env).0.log
    decreases |env|, 5, |resubmit| + 1
  {
    var d := Take(g.children[i], bytes);
    var h := Set(Note(g, i, Data(bytes, resubmit), first), i, d).(log := g.log + [Answered(d.request, d.data[4..])]);
    NoteKeeps(g, i, Data(bytes, resubmit), first);
    var s := SubmitAll(h, resubmit, env);
    SubmitAllKeeps(h, resubmit, env);
    FinishKeeps(s.0, i, s.1);
  }

  lemma {:induction false} CrashKeeps(g: Group, i: nat, first: bool, env: seq<Reply>)
    requires i < |g.children| && g.children[i].busy && Inv(g)
    ensures Kept(g, i, Crash(g, i, first, env).0)
    decreases |env|, 5, 1
  {
    var c := g.children[i];
    var h := Set(Note(g, i, Closed, first), i, c.(running := false, waiting := false));
    NoteKeeps(g, i, Closed, first);
    FinishKeeps(h.(crashed := g.crashed + [c.request]), i, env);
  }

  lemma {:induction false} FailKeeps(g: Group, i: nat, errno: int, resubmit: seq<Request>, first: bool,
                                     env: seq<Reply>)
    requires i < |g.children| && g.children[i].busy && Inv(g)
    ensures Kept(g, i, Fail(g, i, errno, resubmit, first, env).0)
    decreases |env|, 5, |resubmit| + 1
  {
    var c := g.children[i];
    var h := Set(Note(g, i, Failure(errno, resubmit), first), i, c.(waiting := false));
    NoteKeeps(g, i, Failure(errno, resubmit), first);
    SubmitAllKeeps(h.(log := g.log + [Failed(c.request, errno)]), resubmit, env);
  }

  lemma {:induction false} FinishKeeps(g: Group, i: nat, env: seq<Reply>)
    requires i < |g.children| && !g.children[i].waiting && Inv(g) && !LastDeadly(g.replies, i)
    ensures Kept(g, i, Finish(g, i, env).0)
    decreases |env|, 5, 0
  {
    RunQueueKeeps(Set(g, i, g.children[i].(busy := false, data := [], room := 0)), i, env);
  }

  lemma {:induction false} RunQueueKeeps(g: Group, i: int, env: seq<Reply>)
    requires g.submitted == g.dispatched + g.queue && (g.queue != [] ==> NoneIdleBut(g, i))
    requires Reading(g)
    ensures Kept(g, -1, RunQueue(g, env).0)
    decreases |env|, 3, |g.queue|
  {
    var j := FindIdle(g.children);
    if g.queue != [] && j < |g.children| {
      var h := g.(queue := g.queue[1..]);
      var s := Dispatch(h, j, g.queue[0], env);
      assert g.dispatched + g.queue == g.dispatched + [g.queue[0]] + g.queue[1..];
      DispatchKeeps(h, j, g.queue[0], env);
      RunQueueKeeps(s.0, -1, s.1);
    }
  }

  // ---- runs ----

  datatype Event = SendRequest(req: Request, env: seq<Reply>)
                 | Arrival(i: nat, reply: Reply, env: seq<Reply>)
                 | NewChild(c: Child, env: seq<Reply>)

  /** Something can arrive only where a read is outstanding; a new worker has nothing to do yet. */
  predicate Allowed(g: Group, e: Event)
  {
    match e
    case SendRequest(_, _) => true
    case Arrival(i, _, _) => i < |g.children| && g.children[i].waiting
    case NewChild(c, _) => !c.busy && !c.waiting
  }

  function Apply(g: Group, e: Event): Group
    requires Allowed(g, e)
  {
    match e
    case SendRequest(req, env) => Submit(g, req, env).0
    case Arrival(i, reply, env) => SocketEvent(g, i, reply, false, env).0
    case NewChild(c, env) => AddChild(g, c, env).0
  }

  predicate Runs(g: Group, es: seq<Event>)
    decreases |es|
  {
    es == [] || (Allowed(g, es[0]) && Runs(Apply(g, es[0]), es[1..]))
  }

  function After(g: Group, es: seq<Event>): Group
    requires Runs(g, es)
    decreases |es|
  {
    if es == [] then g else After(Apply(g, es[0]), es[1..])
  }

  ghost predicate Calm(g: Group)
  {
    Inv(g) && forall j :: 0 <= j < |g.children| ==> Settled(g, j)
  }

  lemma {:induction false} NeverRead(replies: seq<Read>, i: nat)
    requires forall r <- replies :: r.worker < i
    ensures !LastDeadly(replies, i)
  {
    if replies != [] {
      NeverRead(replies[..|replies| - 1], i);
    }
  }

  lemma KeptIsCalm(g: Group, i: int, r: Group)
    requires Calm(g) && Kept(g, i, r)
    ensures Calm(r)
  {
    forall j | 0 <= j < |r.children| ensures Settled(r, j) {
      assert Settled(g, j);
    }
  }

  /** Whatever arrives and whatever the callbacks do meanwhile: order and readiness are kept, and a
      worker that is busy is left alone by everything but what arrives for it. */
  lemma ApplyKeeps(g: Group, e: Event)
    requires Calm(g) && Allowed(g, e)
    ensures Calm(Apply(g, e)) && |Apply(g, e).children| >= |g.children| && g.log <= Apply(g, e).log
    ensures forall j :: 0 <= j < |g.children| && g.children[j].busy && !(e.Arrival? && e.i == j) ==>
                          Apply(g, e).children[j] == g.children[j]
  {
    match e {
      case SendRequest(req, env) =>
        SubmitKeeps(g, req, env);
        KeptIsCalm(g, -1, Apply(g, e));
      case Arrival(i, reply, env) =>
        SocketEventKeeps(g, i, reply, false, env);
        KeptIsCalm(g, i, Apply(g, e));
      case NewChild(c, env) => NewChildKeeps(g, c, env);
    }
  }

  lemma NewChildKeeps(g: Group, c: Child, env: seq<Reply>)
    requires Calm(g) && !c.busy && !c.waiting
    ensures Calm(AddChild(g, c, env).0) && Kept(g.(children := g.children + [c]), -1, AddChild(g, c, env).0)
  {
    var h := g.(children := g.children + [c]);
    NeverRead(g.replies, |g.children|);
    RunQueueKeeps(h, |g.children|, env);
    var r := AddChild(g, c, env).0;
    forall j | 0 <= j < |r.children| ensures Settled(r, j) {
      assert j < |g.children| ==> Settled(g, j);
    }
  }

  lemma {:induction false} RunKeepsCalm(g: Group, es: seq<Event>)
    requires Calm(g) && Runs(g, es)
    ensures Calm(After(g, es))
    decreases |es|
  {
    if es != [] {
      ApplyKeeps(g, es[0]);
      RunKeepsCalm(Apply(g, es[0]), es[1..]);
    }
  }

  /** From the start, the requests handed out are always the first ones that were submitted. */
  lemma FirstComeFirstServed(es: seq<Event>)
    requires Runs(EMPTY, es)
    ensures var g := After(EMPTY, es);
      && g.dispatched <= g.submitted
      && (g.dispatched == g.submitted || forall c <- g.children :: !c.Idle())
  {
    RunKeepsCalm(EMPTY, es);
    var g := After(EMPTY, es);
    if g.queue == [] {
      assert g.dispatched + [] == g.dispatched;
    }
  }

  // ---- workers that are never read from again ----

  /** In every run: a worker is busy without a read if and only if the last reply read from it was an
      error, or a signal that interrupted a read made at once and not on an event. */
  lemma CutIff(es: seq<Event>, i: nat)
    requires Runs(EMPTY, es) && i < |After(EMPTY, es).children|
    ensures Cut(After(EMPTY, es).children[i]) <==> LastDeadly(After(EMPTY, es).replies, i)
  {
    RunKeepsCalm(EMPTY, es);
    assert Settled(After(EMPTY, es), i);
  }

  /** The same for one hand-out or one arrival, whatever is read on the way. */
  lemma CutByReplyIff(g: Group, i: nat, reply: Reply, env: seq<Reply>)
    requires Calm(g) && i < |g.children| && g.children[i].waiting
    ensures var r := SocketEvent(g, i, reply, false, env).0; Cut(r.children[i]) <==> LastDeadly(r.replies, i)
  {
    SocketEventKeeps(g, i, reply, false, env);
  }

  lemma CutByHandOutIff(g: Group, req: Request, env: seq<Reply>)
    requires Calm(g) && FindIdle(g.children) < |g.children|
    ensures var r, i := Submit(g, req, env).0, FindIdle(g.children); Cut(r.children[i]) <==> LastDeadly(r.replies, i)
  {
    SubmitKeeps(g, req, env);
  }

  lemma {:induction false} Stuck(g: Group, i: nat, es: seq<Event>)
    requires Calm(g) && Runs(g, es) && i < |g.children| && Cut(g.children[i])
    ensures i < |After(g, es).children| && After(g, es).children[i] == g.children[i]
    decreases |es|
  {
    if es != [] {
      ApplyKeeps(g, es[0]);
      Stuck(Apply(g, es[0]), i, es[1..]);
    }
  }

  lemma {:induction false} RunQueueSkips(g: Group, i: nat)
    requires i < |g.children| && !g.children[i].Idle()
    ensures RunQueue(g, []).0.children[i] == g.children[i]
    decreases |g.queue|
  {
    var j := FindIdle(g.children);
    if g.queue != [] && j < |g.children| {
      RunQueueSkips(Dispatch(g.(queue := g.queue[1..]), j, g.queue[0], []).0, i);
    }
  }

  lemma CrashFrees(g: Group, i: nat)
    requires i < |g.children| && g.children[i].waiting
    ensures var e := Arrival(i, Closed, []);
      Allowed(g, e) && i < |Apply(g, e).children| && !Apply(g, e).children[i].busy
  {
    var c := g.children[i].(running := false, waiting := false);
    var h := Set(Note(g, i, Closed, false), i, c).(crashed := g.crashed + [c.request]);
    RunQueueSkips(Set(h, i, c.(busy := false, data := [], room := 0)), i);
    assert Crash(g, i, false, []) == Finish(h, i, []);
  }

  /** Some run in which worker i comes free. */
  ghost predicate CanComeFree(g: Group, i: nat)
  {
    exists es :: Runs(g, es) && i < |After(g, es).children| && !After(g, es).children[i].busy
  }

  lemma WaitingCanComeFree(g: Group, i: nat)
    requires i < |g.children| && g.children[i].waiting
    ensures CanComeFree(g, i)
  {
    CrashFrees(g, i);
    OneMore(g, Arrival(i, Closed, []));
    var es := [Arrival(i, Closed, [])];
    assert Runs(g, es) && !After(g, es).children[i].busy;
  }

  /** A busy worker can still come free if and only if a read from it is outstanding. */
  lemma ComesFreeIff(g: Group, i: nat)
    requires Calm(g) && i < |g.children| && g.children[i].busy
    ensures CanComeFree(g, i) <==> g.children[i].waiting
  {
    if g.children[i].waiting {
      WaitingCanComeFree(g, i);
    } else {
      forall es | Runs(g, es) ensures i < |After(g, es).children| && After(g, es).children[i].busy {
        Stuck(g, i, es);
      }
    }
  }

  lemma FailLeaves(g: Group, i: nat, errno: int, resubmit: seq<Request>, env: seq<Reply>)
    requires Inv(g) && i < |g.children| && g.children[i].waiting
    ensures Fail(g, i, errno, resubmit, false, env).0.children[i] == g.children[i].(waiting := false)
    ensures g.children[i].busy
  {
    var c := g.children[i];
    var h := Set(Note(g, i, Failure(errno, resubmit), false), i, c.(waiting := false));
    NoteKeeps(g, i, Failure(errno, resubmit), false);
    SubmitAllKeeps(h.(log := g.log + [Failed(c.request, errno)]), resubmit, env);
  }

  /** An error on its socket takes a worker out of use: it stays busy, and is never given a request. */
  lemma FailureIsForGood(g: Group, i: nat, errno: int, resubmit: seq<Request>, env: seq<Reply>, es: seq<Event>)
    requires Calm(g) && i < |g.children| && g.children[i].waiting
    requires Runs(SocketEvent(g, i, Failure(errno, resubmit), false, env).0, es)
    ensures var h := After(SocketEvent(g, i, Failure(errno, resubmit), false, env).0, es);
      i < |h.children| && h.children[i] == g.children[i].(waiting := false) && h.children[i].busy
  {
    FailLeaves(g, i, errno, resubmit, env);
    ApplyKeeps(g, Arrival(i, Failure(errno, resubmit), env));
    Stuck(SocketEvent(g, i, Failure(errno, resubmit), false, env).0, i, es);
  }

  /** So does a signal that interrupts the read made by a hand-out. */
  lemma InterruptedIsForGood(g: Group, req: Request, env: seq<Reply>, es: seq<Event>)
    requires Calm(g) && FindIdle(g.children) < |g.children|
    requires Runs(Submit(g, req, [Interrupted] + env).0, es)
    ensures var i, h := FindIdle(g.children), After(Submit(g, req, [Interrupted] + env).0, es);
      i < |h.children| && Cut(h.children[i]) && h.children[i].request == req
  {
    var i, all := FindIdle(g.children), [Interrupted] + env;
    var given := g.(submitted := g.submitted + [req], dispatched := g.dispatched + [req]);
    var h := Set(given, i, Started(g.children[i], req));
    assert all[0] == Interrupted;
    assert Submit(g, req, all).0 == Receive(h, i, all).0 == Note(h, i, Interrupted, true);
    ApplyKeeps(g, SendRequest(req, all));
    Stuck(Note(h, i, Interrupted, true), i, es);
  }

  /** One worker, one request, one error: and the next request waits for ever. */
  lemma OneFailureBlocks(c: Child, a: Request, b: Request) returns (es: seq<Event>)
    requires c.running && !c.busy && !c.waiting
    ensures es == [NewChild(c, []), SendRequest(a, []), Arrival(0, Failure(104, []), []), SendRequest(b, [])]
    ensures Runs(EMPTY, es)
    ensures var g := After(EMPTY, es);
      && |g.children| == 1 && Cut(g.children[0])
      && g.dispatched == [a] && g.queue == [b] && g.log == [Failed(a, 104)]
  {
    es := [NewChild(c, []), SendRequest(a, []), Arrival(0, Failure(104, []), []), SendRequest(b, [])];
    var g1 := Apply(EMPTY, es[0]);
    assert g1 == EMPTY.(children := [c]) && FindIdle([c]) == 0;
    var g2 := Apply(g1, es[1]);
    assert g2.children == [Started(c, a).(waiting := true)] && g2.dispatched == [a] && g2.queue == [];
    var g3 := Apply(g2, es[2]);
    assert g3.children == [Started(c, a)] && g3.log == [Failed(a, 104)] && FindIdle(g3.children) == 1;
    var g4 := Apply(g3, es[3]);
    assert g4.queue == [b];
    FourEvents(EMPTY, es[0], es[1], es[2], es[3]);
  }

  lemma FourEvents(g: Group, a: Event, b: Event, c: Event, d: Event)
    requires Allowed(g, a) && Allowed(Apply(g, a), b) && Allowed(Apply(Apply(g, a), b), c)
    requires Allowed(Apply(Apply(Apply(g, a), b), c), d)
    ensures Runs(g, [a, b, c, d]) && After(g, [a, b, c, d]) == Apply(Apply(Apply(Apply(g, a), b), c), d)
  {
    OneMore(Apply(Apply(Apply(g, a), b), c), d);
    EventThen(Apply(Apply(g, a), b), c, [d]);
    EventThen(Apply(g, a), b, [c] + [d]);
    EventThen(g, a, [b] + ([c] + [d]));
    assert [a, b, c, d] == [a] + ([b] + ([c] + [d]));
  }

  lemma EventThen(g: Group, e: Event, es: seq<Event>)
    requires Allowed(g, e) && Runs(Apply(g, e), es)
    ensures Runs(g, [e] + es) && After(g, [e] + es) == After(Apply(g, e), es)
  {
    assert ([e] + es)[1..] == es;
  }

  lemma OneMore(g: Group, e: Event)
    requires Allowed(g, e)
    ensures After(g, [e]) == Apply(g, e) && Runs(g, [e])
  {
    assert [e][1..] == [];
    assert Runs(Apply(g, e), []) && After(Apply(g, e), []) == Apply(g, e);
  }

  // ---- answers in pieces ----

  function Message(payload: seq<byte>): seq<byte>
    requires |payload| < 0x1_0000_0000
  {
    Bytes32(|payload|) + payload
  }

  /** An answer is complete when all of it has come, and not before. */
  lemma CompleteIffWhole(payload: seq<byte>, k: nat)
    requires |payload| < 0x1_0000_0000 && k <= |Message(payload)|
    ensures Complete(Message(payload)[..k]) <==> k == |Message(payload)|
    ensures Message(payload)[4..] == payload
  {
    var m := Message(payload);
    if k >= 4 {
      WordOfBytes(m[..k], 0, |payload|);
    }
  }

  /** A piece that does not complete the answer, and one that does. */
  lemma PieceArrives(c: Child, payload: seq<byte>, piece: Fragment, more: seq<byte>)
    requires |payload| < 0x1_0000_0000 && |c.data| + |piece| <= c.room
    requires c.data + (piece + more) == Message(payload)
    ensures var d := Take(c, piece);
      && d.data + more == Message(payload) && (Complete(d.data) <==> more == [])
      && (more == [] ==> d.data[4..] == payload)
  {
    var d := Take(c, piece);
    Assoc(c.data, piece, more);
    assert d.data == Message(payload)[..|d.data|];
    CompleteIffWhole(payload, |d.data|);
    if more == [] {
      assert d.data + [] == d.data;
    }
  }

  /** The pieces that are there already when a read is made. */
  function Leading(env: seq<Reply>): (fs: seq<Fragment>)
    ensures |fs| <= |env| && forall k :: 0 <= k < |fs| ==> env[k].Data? && env[k].bytes == fs[k]
  {
    if env != [] && env[0].Data? then [env[0].bytes] + Leading(env[1..]) else []
  }

  /** What an event brings from worker i. */
  function Pieces(e: Event, i: nat): seq<Fragment>
  {
    if e.Arrival? && e.i == i && e.reply.Data? then [e.reply.bytes] + Leading(e.env) else []
  }

  function AllPieces(es: seq<Event>, i: nat): seq<Fragment>
    decreases |es|
  {
    if es == [] then [] else Pieces(es[0], i) + AllPieces(es[1..], i)
  }

  /** After the pieces there is nothing yet, or a signal that finds the read waiting. */
  predicate OnlyPieces(e: Event, i: nat)
  {
    e.Arrival? && e.i == i ==>
      || e.reply.Silent? || e.reply.Interrupted?
      || (e.reply.Data? && (|Leading(e.env)| == |e.env| || e.env[|Leading(e.env)|].Silent?))
  }

  /** The worker after the pieces, none of which is more than one read had room for. */
  function Absorb(c: Child, fs: seq<Fragment>): Child
    decreases |fs|
  {
    if fs == [] then c else Absorb(Grow(Take(c, fs[0])).(waiting := true), fs[1..])
  }

  predicate Fits(c: Child, fs: seq<Fragment>)
    decreases |fs|
  {
    fs == [] || (|c.data| + |fs[0]| <= c.room && Fits(Grow(Take(c, fs[0])).(waiting := true), fs[1..]))
  }

  lemma {:induction false} FitsJoin(c: Child, a: seq<Fragment>, b: seq<Fragment>)
    requires Fits(c, a + b)
    ensures Fits(c, a) && Fits(Absorb(c, a), b) && Absorb(c, a + b) == Absorb(Absorb(c, a), b)
    decreases |a|
  {
    if a == [] {
      assert a + b == b;
    } else {
      TailConcat(a, b);
      FitsJoin(Grow(Take(c, a[0])).(waiting := true), a[1..], b);
    }
  }

  /** Pieces that leave the answer incomplete go into the worker's own buffer, and nothing else happens. */
  lemma {:induction false} PiecesArrive(g: Group, i: nat, payload: seq<byte>, reply: Reply, first: bool,
                                        env: seq<Reply>, more: seq<byte>)
    requires i < |g.children| && reply.Data? && |payload| < 0x1_0000_0000 && more != []
    requires |Leading(env)| == |env| || env[|Leading(env)|].Silent?
    requires Fits(g.children[i], [reply.bytes] + Leading(env))
    requires g.children[i].data + (Flatten([reply.bytes] + Leading(env)) + more) == Message(payload)
    ensures var fs, r := [reply.bytes] + Leading(env), SocketEvent(g, i, reply, first, env).0;
      && r == Set(g, i, Absorb(g.children[i], fs)).(replies := r.replies) && r.children[i].waiting
      && r.children[i].data + more == Message(payload)
    decreases |env|
  {
    var fs := Leading(env);
    var d := FirstPiece(g.children[i], payload, reply.bytes, fs, more);
    if fs == [] {
      LastOfThose(g, i, reply, first, env);
    } else {
      ReadOn(g, i, reply, first, env);
      WaitingForgotten(d, fs);
      PiecesArrive(Set(Note(g, i, reply, first), i, d), i, payload, env[0], true, env[1..], more);
      SetAgain(g, i, d, Absorb(d, fs));
    }
  }

  /** The worker after one piece of several. */
  lemma FirstPiece(c: Child, payload: seq<byte>, piece: Fragment, fs: seq<Fragment>, more: seq<byte>) returns (d: Child)
    requires |payload| < 0x1_0000_0000 && more != [] && Fits(c, [piece] + fs)
    requires c.data + (Flatten([piece] + fs) + more) == Message(payload)
    ensures d == Grow(Take(c, piece)) && !Complete(Take(c, piece).data) && Fits(d.(waiting := true), fs)
    ensures Absorb(c, [piece] + fs) == Absorb(d.(waiting := true), fs)
    ensures d.data + (Flatten(fs) + more) == Message(payload)
  {
    TailConcat([piece], fs);
    assert ([piece] + fs)[1..] == fs;
    Assoc(piece, Flatten(fs), more);
    PieceArrives(c, payload, piece, Flatten(fs) + more);
    d := Grow(Take(c, piece));
  }

  /** Nothing more is there when the next read is made. */
  lemma LastOfThose(g: Group, i: nat, reply: Reply, first: bool, env: seq<Reply>)
    requires i < |g.children| && reply.Data? && (env == [] || env[0].Silent?)
    requires !Complete(Take(g.children[i], reply.bytes).data)
    ensures var r := SocketEvent(g, i, reply, first, env).0;
      var d := Grow(Take(g.children[i], reply.bytes)).(waiting := true);
      r == Set(g, i, d).(replies := r.replies) && d == Absorb(g.children[i], [reply.bytes] + [])
  {
    var d := Grow(Take(g.children[i], reply.bytes));
    ReadOn(g, i, reply, first, env);
    SetAgain(g, i, d, d.(waiting := true));
    assert ([reply.bytes] + [])[1..] == [];
  }

  /** After a piece that does not complete the answer the next read is made. */
  lemma ReadOn(g: Group, i: nat, reply: Reply, first: bool, env: seq<Reply>)
    requires i < |g.children| && reply.Data? && !Complete(Take(g.children[i], reply.bytes).data)
    ensures var h := Set(Note(g, i, reply, first), i, Grow(Take(g.children[i], reply.bytes)));
      SocketEvent(g, i, reply, first, env).0 ==
        if env == [] || env[0].Silent? then Set(Note(h, i, Silent, true), i, h.children[i].(waiting := true))
        else if env[0].Interrupted? then Note(h, i, Interrupted, true)
        else SocketEvent(h, i, env[0], true, env[1..]).0
  {
    var h := Set(Note(g, i, reply, first), i, Grow(Take(g.children[i], reply.bytes)));
    assert SocketEvent(g, i, reply, first, env) == Arrive(g, i, reply.bytes, reply.resubmit, first, env);
    assert Arrive(g, i, reply.bytes, reply.resubmit, first, env) == Receive(h, i, env);
  }

  /** Whether a read was outstanding is forgotten with the next piece. */
  lemma WaitingForgotten(c: Child, fs: seq<Fragment>)
    requires fs != []
    ensures Absorb(c.(waiting := true), fs) == Absorb(c, fs) && (Fits(c.(waiting := true), fs) <==> Fits(c, fs))
  {
    assert Take(c.(waiting := true), fs[0]) == Take(c, fs[0]);
  }

  lemma SetAgain(g: Group, i: nat, c: Child, d: Child)
    requires i < |g.children|
    ensures g.children[i := c][i := d] == g.children[i := d]
  {}

  /** Other events may come between the pieces: requests, other workers' answers, crashes, new workers. */
  lemma {:induction false} PiecesGather(g: Group, i: nat, payload: seq<byte>, es: seq<Event>, more: seq<byte>)
    requires Calm(g) && Runs(g, es) && i < |g.children| && g.children[i].waiting
    requires |payload| < 0x1_0000_0000 && more != [] && forall e <- es :: OnlyPieces(e, i)
    requires Fits(g.children[i], AllPieces(es, i))
    requires g.children[i].data + (Flatten(AllPieces(es, i)) + more) == Message(payload)
    ensures var h := After(g, es);
      && Calm(h) && i < |h.children| && h.children[i].waiting && g.log <= h.log
      && h.children[i] == Absorb(g.children[i], AllPieces(es, i)) && h.children[i].data + more == Message(payload)
    decreases |es|
  {
    if es == [] {
      assert [] + more == more;
    } else {
      var fs, rest := Pieces(es[0], i), AllPieces(es[1..], i);
      ApplyKeeps(g, es[0]);
      FitsJoin(g.children[i], fs, rest);
      FlattenAppend(fs, rest);
      Assoc(Flatten(fs), Flatten(rest), more);
      assert OnlyPieces(es[0], i);
      OneEventGathers(g, i, payload, es[0], Flatten(rest) + more);
      assert forall e <- es[1..] :: e in es;
      PiecesGather(Apply(g, es[0]), i, payload, es[1..], more);
    }
  }

  lemma OneEventGathers(g: Group, i: nat, payload: seq<byte>, e: Event, more: seq<byte>)
    requires Calm(g) && Allowed(g, e) && i < |g.children| && g.children[i].waiting
    requires |payload| < 0x1_0000_0000 && more != [] && OnlyPieces(e, i)
    requires Fits(g.children[i], Pieces(e, i))
    requires g.children[i].data + (Flatten(Pieces(e, i)) + more) == Message(payload)
    ensures var h := Apply(g, e);
      && i < |h.children| && h.children[i].waiting && h.children[i] == Absorb(g.children[i], Pieces(e, i))
      && h.children[i].data + more == Message(payload)
  {
    if e.Arrival? && e.i == i && e.reply.Data? {
      PiecesArrive(g, i, payload, e.reply, false, e.env, more);
    } else {
      assert [] + more == more;
      ApplyKeeps(g, e);
    }
  }

  lemma NextLeading(env: seq<Reply>, n: nat)
    requires 0 < n <= |Leading(env)|
    ensures env != [] && env[0].Data? && n - 1 <= |Leading(env[1..])|
    ensures Leading(env)[..n] == [env[0].bytes] + Leading(env[1..])[..n - 1]
  {}

  /** Reading on, a worker stays in order. */
  lemma ReadsOnBusy(g: Group, i: nat, reply: Reply, first: bool)
    requires i < |g.children| && g.children[i].busy && Inv(g) && reply.Data?
    ensures Inv(Set(Note(g, i, reply, first), i, Grow(Take(g.children[i], reply.bytes))))
  {
    NoteKeeps(g, i, reply, first);
  }

  /** The reply that completes an answer: the first one, or one of those that are there already. */
  lemma {:induction false} LastPiece(g: Group, i: nat, payload: seq<byte>, reply: Reply, first: bool,
                                     env: seq<Reply>, n: nat)
    requires i < |g.children| && g.children[i].busy && Inv(g) && reply.Data? && |payload| < 0x1_0000_0000
    requires n <= |Leading(env)| && Fits(g.children[i], [reply.bytes] + Leading(env)[..n])
    requires g.children[i].data + Flatten([reply.bytes] + Leading(env)[..n]) == Message(payload)
    ensures g.log + [Answered(g.children[i].request, payload)] <= SocketEvent(g, i, reply, first, env).0.log
    decreases |env|
  {
    var c, fs := g.children[i], Leading(env)[..n];
    assert ([reply.bytes] + fs)[1..] == fs;
    PieceArrives(c, payload, reply.bytes, Flatten(fs));
    if n == 0 {
      assert fs == [];
      AnswerKeeps(g, i, reply.bytes, reply.resubmit, first, env);
    } else {
      var d := Grow(Take(c, reply.bytes));
      ReadsOnBusy(g, i, reply, first);
      NextLeading(env, n);
      WaitingForgotten(d, fs);
      ReadOn(g, i, reply, first, env);
      LastPiece(Set(Note(g, i, reply, first), i, d), i, payload, env[0], true, env[1..], n - 1);
    }
  }

  /** However an answer is cut and whatever comes between the pieces: until the last of them the worker is
      busy with the request and read from, and with the last the callback is given the whole payload. */
  lemma AnswerInPieces(g: Group, i: nat, payload: seq<byte>, es: seq<Event>, last: Event, n: nat)
    requires Calm(g) && Runs(g, es) && i < |g.children| && g.children[i].waiting && g.children[i].data == []
    requires |payload| < 0x1_0000_0000 && (forall e <- es :: OnlyPieces(e, i))
    requires last.Arrival? && last.i == i && last.reply.Data? && n <= |Leading(last.env)|
    requires var fs := [last.reply.bytes] + Leading(last.env)[..n];
      Flatten(AllPieces(es, i)) + Flatten(fs) == Message(payload) && Fits(g.children[i], AllPieces(es, i) + fs)
    ensures var h := After(g, es);
      && Calm(h) && Allowed(h, last) && h.children[i].busy && h.children[i].request == g.children[i].request
      && h.log + [Answered(g.children[i].request, payload)] <= Apply(h, last).log
  {
    var fs, all := [last.reply.bytes] + Leading(last.env)[..n], AllPieces(es, i);
    assert Flatten(fs) == fs[0] + Flatten(fs[1..]);
    assert [] + (Flatten(all) + Flatten(fs)) == Message(payload);
    FitsJoin(g.children[i], all, fs);
    PiecesGather(g, i, payload, es, Flatten(fs));
    AbsorbKeepsRequest(g.children[i], all);
    LastPiece(After(g, es), i, payload, last.reply, false, last.env, n);
  }

  lemma {:induction false} AbsorbKeepsRequest(c: Child, fs: seq<Fragment>)
    ensures Absorb(c, fs).request == c.request && Absorb(c, fs).busy == c.busy
    decreases |fs|
  {
    if fs != [] {
      AbsorbKeepsRequest(Grow(Take(c, fs[0])).(waiting := true), fs[1..]);
    }
  }
}
