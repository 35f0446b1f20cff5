/** What becomes of each request that is handed to a worker. */
module ProcessLedger {
  import opened Bytes
  import opened ProcessQueue

  // ---- the ledger ----

  /** The last reply read from worker j was an error. */
  predicate LastFailed(replies: seq<Read>, j: nat)
  {
    replies != []
    && if replies[|replies| - 1].worker == j then replies[|replies| - 1].reply.Failure?
       else LastFailed(replies[..|replies| - 1], j)
  }

  /** The last reply read from worker j was a signal in the place of a first read. */
  predicate Signalled(replies: seq<Read>, j: nat)
  {
    LastDeadly(replies, j) && !LastFailed(replies, j)
  }

  /** The worker's request has not been called back. */
  predicate Holds(c: Child, replies: seq<Read>, j: nat)
  {
    c.busy && !LastFailed(replies, j)
  }

  function One(c: Child, replies: seq<Read>, j: nat): multiset<Request>
  {
    if Holds(c, replies, j) then multiset{c.request} else multiset{}
  }

  /** The requests that the first n workers hold. */
  function Held(cs: seq<Child>, replies: seq<Read>, n: nat): multiset<Request>
    requires n <= |cs|
  {
    if n == 0 then multiset{} else Held(cs, replies, n - 1) + One(cs[n - 1], replies, n - 1)
  }

  function CalledBack(log: seq<Called>): multiset<Request>
  {
    if log == [] then multiset{} else CalledBack(log[..|log| - 1]) + multiset{log[|log| - 1].request}
  }

  function HeldIn(g: Group): multiset<Request>
  {
    Held(g.children, g.replies, |g.children|)
  }

  /** Handed out and `x` on top: called back, crashed, or held. */
  predicate Balanced(g: Group, x: multiset<Request>)
  {
    Adds(multiset(g.dispatched), x, CalledBack(g.log), multiset(g.crashed), HeldIn(g))
  }

  predicate Adds(dispatched: multiset<Request>, x: multiset<Request>, called: multiset<Request>,
                 crashed: multiset<Request>, held: multiset<Request>)
  {
    dispatched + x == called + crashed + held
  }

  // A request moves from one place to another.

  lemma HandsOut(d: multiset<Request>, x: multiset<Request>, c: multiset<Request>, k: multiset<Request>,
                 h: multiset<Request>, q: multiset<Request>)
    requires Adds(d, x, c, k, h)
    ensures Adds(d + q, x, c, k, h + q)
  {
    assert (d + q) + x == (d + x) + q;
    assert c + k + (h + q) == (c + k + h) + q;
  }

  lemma CallsBack(d: multiset<Request>, x: multiset<Request>, c: multiset<Request>, k: multiset<Request>,
                  h: multiset<Request>, q: multiset<Request>)
    requires Adds(d, x, c, k, h)
    ensures Adds(d, x + q, c + q, k, h)
  {
    assert d + (x + q) == (d + x) + q;
    assert (c + q) + k + h == (c + k + h) + q;
  }

  lemma Crashes(d: multiset<Request>, x: multiset<Request>, c: multiset<Request>, k: multiset<Request>,
                h: multiset<Request>, q: multiset<Request>)
    requires Adds(d, x, c, k, h)
    ensures Adds(d, x + q, c, k + q, h)
  {
    assert d + (x + q) == (d + x) + q;
    assert c + (k + q) + h == (c + k + h) + q;
  }

  lemma ComesFree(d: multiset<Request>, x: multiset<Request>, c: multiset<Request>, k: multiset<Request>,
                  h: multiset<Request>, q: multiset<Request>)
    requires Adds(d, x + q, c, k, h + q)
    ensures Adds(d, x, c, k, h)
  {
    assert d + (x + q) == (d + x) + q;
    assert c + k + (h + q) == (c + k + h) + q;
    Cancel(d + x, c + k + h, q);
  }

  lemma Cancel(a: multiset<Request>, b: multiset<Request>, o: multiset<Request>)
    requires a + o == b + o
    ensures a == b
  {
    assert (a + o) - o == a;
    assert (b + o) - o == b;
  }

  // ---- small changes ----

  lemma {:induction false} FailedIsDeadly(replies: seq<Read>, j: nat)
    ensures LastFailed(replies, j) ==> LastDeadly(replies, j)
    decreases |replies|
  {
    if replies != [] {
      FailedIsDeadly(replies[..|replies| - 1], j);
    }
  }

  lemma NotedFailed(replies: seq<Read>, r: Read, j: nat)
    ensures LastFailed(replies + [r], j) == if r.worker == j then r.reply.Failure? else LastFailed(replies, j)
  {
    assert (replies + [r])[..|replies|] == replies;
  }

  lemma LogGrows(log: seq<Called>, e: Called)
    ensures CalledBack(log + [e]) == CalledBack(log) + multiset{e.request}
  {
    assert (log + [e])[..|log|] == log;
  }

  lemma Exchanged(a: multiset<Request>, o: multiset<Request>, p: multiset<Request>)
    ensures (a + p) + o == (a + o) + p
  {}

  lemma Rearranged(a: multiset<Request>, o: multiset<Request>, b: multiset<Request>, p: multiset<Request>,
                   e: multiset<Request>)
    requires a + o == b + p
    ensures (a + e) + o == (b + e) + p
  {
    assert (a + e) + o == (a + o) + e;
    assert (b + e) + p == (b + p) + e;
  }

  ghost predicate OthersAs(replies: seq<Read>, replies': seq<Read>, i: nat)
  {
    forall j: nat :: j != i ==> LastFailed(replies', j) == LastFailed(replies, j)
  }

  lemma {:induction false} OthersHold(cs: seq<Child>, replies: seq<Read>, i: nat, c: Child, replies': seq<Read>, n: nat)
    requires n <= i < |cs| && OthersAs(replies, replies', i)
    ensures Held(cs[i := c], replies', n) == Held(cs, replies, n)
    decreases n
  {
    if n > 0 {
      OthersHold(cs, replies, i, c, replies', n - 1);
      assert OneAs(cs[i := c][n - 1], replies, replies', n - 1);
    }
  }

  predicate OneAs(c: Child, replies: seq<Read>, replies': seq<Read>, j: nat)
  {
    One(c, replies', j) == One(c, replies, j)
  }

  /** One worker and one reply more: the others hold what they held. */
  lemma {:induction false} HeldChange(cs: seq<Child>, replies: seq<Read>, i: nat, c: Child, replies': seq<Read>, n: nat)
    requires i < n <= |cs| && OthersAs(replies, replies', i)
    ensures Held(cs[i := c], replies', n) + One(cs[i], replies, i) == Held(cs, replies, n) + One(c, replies', i)
    decreases n
  {
    if n - 1 == i {
      OthersHold(cs, replies, i, c, replies', i);
      Exchanged(Held(cs, replies, i), One(cs[i], replies, i), One(c, replies', i));
    } else {
      HeldChange(cs, replies, i, c, replies', n - 1);
      assert OneAs(cs[n - 1], replies, replies', n - 1);
      Rearranged(Held(cs[i := c], replies', n - 1), One(cs[i], replies, i),
                 Held(cs, replies, n - 1), One(c, replies', i), One(cs[n - 1], replies, n - 1));
    }
  }

  lemma {:induction false} HeldPrefix(cs: seq<Child>, c: Child, replies: seq<Read>, n: nat)
    requires n <= |cs|
    ensures Held(cs + [c], replies, n) == Held(cs, replies, n)
    decreases n
  {
    if n > 0 {
      HeldPrefix(cs, c, replies, n - 1);
    }
  }

  lemma NoteOthers(g: Group, i: nat, reply: Reply, first: bool)
    ensures OthersAs(g.replies, Note(g, i, reply, first).replies, i)
    ensures LastFailed(Note(g, i, reply, first).replies, i) == reply.Failure?
  {
    forall j: nat {
      NotedFailed(g.replies, Read(i, reply, first), j);
    }
  }

  /** Worker i becomes `c`, and perhaps a reply has been read from it. */
  lemma WorkerChanges(g: Group, i: nat, c: Child, h: Group)
    requires i < |g.children| && h.children == g.children[i := c] && OthersAs(g.replies, h.replies, i)
    ensures HeldIn(h) + One(g.children[i], g.replies, i) == HeldIn(g) + One(c, h.replies, i)
  {
    HeldChange(g.children, g.replies, i, c, h.replies, |g.children|);
  }

  /** A reply that is no error leaves the worker holding the same request. */
  lemma StillHolds(g: Group, i: nat, c: Child, reply: Reply, first: bool, h: Group)
    requires i < |g.children| && Holds(g.children[i], g.replies, i) && !reply.Failure?
    requires c.busy && c.request == g.children[i].request
    requires h.children == g.children[i := c] && h.replies == Note(g, i, reply, first).replies
    ensures HeldIn(h) == HeldIn(g) && Holds(h.children[i], h.replies, i)
  {
    NoteOthers(g, i, reply, first);
    WorkerChanges(g, i, c, h);
    Cancel(HeldIn(h), HeldIn(g), One(c, h.replies, i));
  }

  /** Worker i takes a request on. */
  lemma StartsHolding(g: Group, i: nat, c: Child, h: Group)
    requires i < |g.children| && h.children == g.children[i := c] && OthersAs(g.replies, h.replies, i)
    requires !Holds(g.children[i], g.replies, i) && Holds(c, h.replies, i)
    ensures HeldIn(h) == HeldIn(g) + multiset{c.request}
  {
    WorkerChanges(g, i, c, h);
    assert HeldIn(h) + multiset{} == HeldIn(h);
  }

  /** Worker i holds its request no longer. */
  lemma StopsHolding(g: Group, i: nat, c: Child, h: Group)
    requires i < |g.children| && h.children == g.children[i := c] && OthersAs(g.replies, h.replies, i)
    requires Holds(g.children[i], g.replies, i) && !Holds(c, h.replies, i)
    ensures HeldIn(g) == HeldIn(h) + multiset{g.children[i].request}
  {
    WorkerChanges(g, i, c, h);
    assert HeldIn(g) + multiset{} == HeldIn(g);
  }

  // ---- every step keeps the balance ----

  lemma {:induction false} SubmitBalances(g: Group, req: Request, env: seq<Reply>, x: multiset<Request>)
    requires Inv(g) && Balanced(g, x)
    ensures Balanced(Submit(g, req, env).0, x)
    decreases |env|, 4, 0
  {
    var h := g.(submitted := g.submitted + [req]);
    var i := FindIdle(g.children);
    if i < |g.children| {
      assert h.queue == [];
      assert g.dispatched + [] == g.dispatched;
      DispatchBalances(h, i, req, env, x);
    }
  }

  lemma {:induction false} SubmitAllBalances(g: Group, reqs: seq<Request>, env: seq<Reply>, x: multiset<Request>)
    requires Inv(g) && Balanced(g, x)
    ensures Balanced(SubmitAll(g, reqs, env).0, x)
    decreases |env|, 5, |reqs|
  {
    if reqs != [] {
      var s := Submit(g, reqs[0], env);
      SubmitKeeps(g, reqs[0], env);
      SubmitBalances(g, reqs[0], env, x);
      SubmitAllBalances(s.0, reqs[1..], s.1, x);
    }
  }

  lemma OneMoreOf(reqs: seq<Request>, req: Request)
    ensures multiset(reqs + [req]) == multiset(reqs) + multiset{req}
  {
    assert multiset([req]) == multiset{req};
  }

  /** The worker as it is when its answer is first looked for. */
  lemma HandedOut(g: Group, i: nat, req: Request, x: multiset<Request>) returns (h: Group)
    requires i < |g.children| && g.children[i].Idle() && Reading(g) && Balanced(g, x)
    ensures h == Set(g, i, Started(g.children[i], req)).(dispatched := g.dispatched + [req])
    ensures Balanced(h, x) && Holds(h.children[i], h.replies, i)
  {
    h := Set(g, i, Started(g.children[i], req)).(dispatched := g.dispatched + [req]);
    FailedIsDeadly(g.replies, i);
    StartsHolding(g, i, Started(g.children[i], req), h);
    OneMoreOf(g.dispatched, req);
    HandsOut(multiset(g.dispatched), x, CalledBack(g.log), multiset(g.crashed), HeldIn(g), multiset{req});
  }

  lemma {:induction false} DispatchBalances(g: Group, i: nat, req: Request, env: seq<Reply>, x: multiset<Request>)
    requires i < |g.children| && g.children[i].Idle()
    requires g.submitted == g.dispatched + [req] + g.queue && (g.queue != [] ==> NoneIdleBut(g, i))
    requires Reading(g) && Balanced(g, x)
    ensures Balanced(Dispatch(g, i, req, env).0, x)
    decreases |env|, 2, 0
  {
    var h := HandedOut(g, i, req, x);
    ReceiveBalances(h, i, env, x);
  }

  lemma {:induction false} ReceiveBalances(g: Group, i: nat, env: seq<Reply>, x: multiset<Request>)
    requires i < |g.children| && Cut(g.children[i]) && |g.children[i].data| < g.children[i].room && Inv(g)
    requires Balanced(g, x) && Holds(g.children[i], g.replies, i)
    ensures Balanced(Receive(g, i, env).0, x)
    decreases |env|, 1, 0
  {
    if env == [] || env[0].Silent? {
      var c := g.children[i].(waiting := true);
      StillHolds(g, i, c, Silent, true, Set(Note(g, i, Silent, true), i, c));
    } else if env[0].Interrupted? {
      InterruptedBalances(g, i, true, x);
    } else {
      SocketEventBalances(g, i, env[0], true, env[1..], x);
    }
  }

  lemma InterruptedBalances(g: Group, i: nat, first: bool, x: multiset<Request>)
    requires i < |g.children| && Balanced(g, x) && Holds(g.children[i], g.replies, i)
    ensures Balanced(Note(g, i, Interrupted, first), x) && Balanced(Note(g, i, Silent, first), x)
  {
    assert g.children[i := g.children[i]] == g.children;
    StillHolds(g, i, g.children[i], Interrupted, first, Note(g, i, Interrupted, first));
    StillHolds(g, i, g.children[i], Silent, first, Note(g, i, Silent, first));
  }

  lemma {:induction false} SocketEventBalances(g: Group, i: nat, reply: Reply, first: bool, env: seq<Reply>,
                                               x: multiset<Request>)
    requires i < |g.children| && |g.children[i].data| < g.children[i].room && Inv(g)
    requires reply.Silent? || reply.Interrupted? ==> !first && g.children[i].waiting
    requires Balanced(g, x) && Holds(g.children[i], g.replies, i)
    ensures Balanced(SocketEvent(g, i, reply, first, env).0, x)
    decreases |env|, 6, 0
  {
    match reply {
      case Silent | Interrupted => InterruptedBalances(g, i, first, x);
      case Data(bytes, resubmit) => ArriveBalances(g, i, bytes, resubmit, first, env, x);
      case Closed => CrashBalances(g, i, first, env, x);
      case Failure(errno, resubmit) => FailBalances(g, i, errno, resubmit, first, env, x);
    }
  }

  lemma {:induction false} ArriveBalances(g: Group, i: nat, bytes: Fragment, resubmit: seq<Request>, first: bool,
                                          env: seq<Reply>, x: multiset<Request>)
    requires i < |g.children| && |g.children[i].data| < g.children[i].room && Inv(g)
    requires Balanced(g, x) && Holds(g.children[i], g.replies, i)
    ensures Balanced(Arrive(g, i, bytes, resubmit, first, env).0, x)
    decreases |env|, 5, |resubmit| + 2
  {
    var d := Take(g.children[i], bytes);
    if Complete(d.data) {
      AnswerBalances(g, i, bytes, resubmit, first, env, x);
    } else {
      ReadsOnBusy(g, i, Data(bytes, resubmit), first);
      var h := Set(Note(g, i, Data(bytes, resubmit), first), i, Grow(d));
      StillHolds(g, i, Grow(d), Data(bytes, resubmit), first, h);
      ReceiveBalances(h, i, env, x);
    }
  }

  /** The callback has been made, and the worker is not free yet. */
  lemma CallbackMade(g: Group, i: nat, bytes: Fragment, resubmit: seq<Request>, first: bool, x: multiset<Request>)
    returns (h: Group)
    requires i < |g.children| && Inv(g) && Balanced(g, x) && Holds(g.children[i], g.replies, i)
    requires Complete(Take(g.children[i], bytes).data)
    ensures var d := Take(g.children[i], bytes);
      && h == Set(Note(g, i, Data(bytes, resubmit), first), i, d).(log := g.log + [Answered(d.request, d.data[4..])])
      && Balanced(h, x + multiset{d.request})
    ensures Inv(h) && Holds(h.children[i], h.replies, i) && !LastDeadly(h.replies, i)
  {
    var d, r := Take(g.children[i], bytes), Data(bytes, resubmit);
    h := Set(Note(g, i, r, first), i, d).(log := g.log + [Answered(d.request, d.data[4..])]);
    StaysInOrder(g, i, r, first, d, h);
    StillHolds(g, i, d, r, first, h);
    LogGrows(g.log, Answered(d.request, d.data[4..]));
    CallsBack(multiset(g.dispatched), x, CalledBack(g.log), multiset(g.crashed), HeldIn(g), multiset{d.request});
  }

  lemma {:induction false} AnswerBalances(g: Group, i: nat, bytes: Fragment, resubmit: seq<Request>, first: bool,
                                          env: seq<Reply>, x: multiset<Request>)
    requires i < |g.children| && Inv(g) && Complete(Take(g.children[i], bytes).data)
    requires Balanced(g, x) && Holds(g.children[i], g.replies, i)
    ensures Balanced(Arrive(g, i, bytes, resubmit, first, env).0, x)
    decreases |env|, 5, |resubmit| + 1
  {
    var d := Take(g.children[i], bytes);
    var h := CallbackMade(g, i, bytes, resubmit, first, x);
    var s := SubmitAll(h, resubmit, env);
    SubmitAllKeeps(h, resubmit, env);
    SubmitAllBalances(h, resubmit, env, x + multiset{d.request});
    FailedIsDeadly(s.0.replies, i);
    FinishBalances(s.0, i, s.1, x);
  }

  lemma {:induction false} CrashBalances(g: Group, i: nat, first: bool, env: seq<Reply>, x: multiset<Request>)
    requires i < |g.children| && Inv(g) && Balanced(g, x) && Holds(g.children[i], g.replies, i)
    ensures Balanced(Crash(g, i, first, env).0, x)
    decreases |env|, 5, 1
  {
    var c := g.children[i];
    var d := c.(running := false, waiting := false);
    var h := Set(Note(g, i, Closed, first), i, d).(crashed := g.crashed + [c.request]);
    StaysInOrder(g, i, Closed, first, d, h);
    StillHolds(g, i, d, Closed, first, h);
    OneMoreOf(g.crashed, c.request);
    Crashes(multiset(g.dispatched), x, CalledBack(g.log), multiset(g.crashed), HeldIn(g), multiset{c.request});
    FinishBalances(h, i, env, x);
  }

  lemma {:induction false} FailBalances(g: Group, i: nat, errno: int, resubmit: seq<Request>, first: bool,
                                        env: seq<Reply>, x: multiset<Request>)
    requires i < |g.children| && Inv(g) && Balanced(g, x) && Holds(g.children[i], g.replies, i)
    ensures Balanced(Fail(g, i, errno, resubmit, first, env).0, x)
    decreases |env|, 5, |resubmit| + 1
  {
    var h := ErrorTold(g, i, errno, resubmit, first, x);
    SubmitAllBalances(h, resubmit, env, x);
  }

  /** Worker i has read a reply and stays busy, and nothing is read from it for now. */
  lemma StaysInOrder(g: Group, i: nat, reply: Reply, first: bool, c: Child, h: Group)
    requires i < |g.children| && Inv(g) && g.children[i].busy && c.busy && !c.waiting
    requires h == Set(Note(g, i, reply, first), i, c).(log := h.log, crashed := h.crashed)
    ensures Inv(h) && LastDeadly(h.replies, i) == Deadly(Read(i, reply, first))
  {
    NoteKeeps(g, i, reply, first);
    assert forall d <- h.children :: d == c || d in g.children;
    assert forall j :: 0 <= j < |h.children| && j != i ==> h.children[j] == g.children[j];
  }

  /** The error has been told, and the worker holds nothing any more. */
  lemma ErrorTold(g: Group, i: nat, errno: int, resubmit: seq<Request>, first: bool, x: multiset<Request>)
    returns (h: Group)
    requires i < |g.children| && Inv(g) && Balanced(g, x) && Holds(g.children[i], g.replies, i)
    ensures var c := g.children[i];
      h == Set(Note(g, i, Failure(errno, resubmit), first), i, c.(waiting := false))
             .(log := g.log + [Failed(c.request, errno)])
    ensures Inv(h) && Balanced(h, x)
  {
    var c, r := g.children[i], Failure(errno, resubmit);
    h := Set(Note(g, i, r, first), i, c.(waiting := false)).(log := g.log + [Failed(c.request, errno)]);
    StaysInOrder(g, i, r, first, c.(waiting := false), h);
    ErrorCounts(g, i, r, first, c.(waiting := false), h, errno, x);
  }

  lemma ErrorCounts(g: Group, i: nat, r: Reply, first: bool, d: Child, h: Group, errno: int, x: multiset<Request>)
    requires i < |g.children| && Balanced(g, x) && Holds(g.children[i], g.replies, i) && r.Failure?
    requires h.children == g.children[i := d] && h.replies == Note(g, i, r, first).replies
    requires h.log == g.log + [Failed(g.children[i].request, errno)]
    requires h.dispatched == g.dispatched && h.crashed == g.crashed
    ensures Balanced(h, x)
  {
    var q := multiset{g.children[i].request};
    NoteOthers(g, i, r, first);
    StopsHolding(g, i, d, h);
    LogGrows(g.log, Failed(g.children[i].request, errno));
    CallsBack(multiset(g.dispatched), x, CalledBack(g.log), multiset(g.crashed), HeldIn(g), q);
    ComesFree(multiset(g.dispatched), x, CalledBack(h.log), multiset(g.crashed), HeldIn(h), q);
  }

  lemma {:induction false} FinishBalances(g: Group, i: nat, env: seq<Reply>, x: multiset<Request>)
    requires i < |g.children| && !g.children[i].waiting && Inv(g) && !LastDeadly(g.replies, i)
    requires Holds(g.children[i], g.replies, i) && Balanced(g, x + multiset{g.children[i].request})
    ensures Balanced(Finish(g, i, env).0, x)
    decreases |env|, 5, 0
  {
    var c := g.children[i].(busy := false, data := [], room := 0);
    var h := Set(g, i, c);
    StopsHolding(g, i, c, h);
    ComesFree(multiset(g.dispatched), x, CalledBack(g.log), multiset(g.crashed), HeldIn(h),
              multiset{g.children[i].request});
    RunQueueBalances(h, i, env, x);
  }

  lemma {:induction false} RunQueueBalances(g: Group, i: int, env: seq<Reply>, x: multiset<Request>)
    requires g.submitted == g.dispatched + g.queue && (g.queue != [] ==> NoneIdleBut(g, i))
    requires Reading(g) && Balanced(g, x)
    ensures Balanced(RunQueue(g, env).0, x)
    decreases |env|, 3, |g.queue|
  {
    var j := FindIdle(g.children);
    if g.queue != [] && j < |g.children| {
      var h := g.(queue := g.queue[1..]);
      var s := Dispatch(h, j, g.queue[0], env);
      assert g.dispatched + g.queue == g.dispatched + [g.queue[0]] + g.queue[1..];
      DispatchKeeps(h, j, g.queue[0], env);
      DispatchBalances(h, j, g.queue[0], env, x);
      RunQueueBalances(s.0, -1, s.1, x);
    }
  }

  // ---- runs ----

  lemma NewChildBalances(g: Group, c: Child, env: seq<Reply>)
    requires Calm(g) && !c.busy && !c.waiting && Balanced(g, multiset{})
    ensures Balanced(AddChild(g, c, env).0, multiset{})
  {
    var h := g.(children := g.children + [c]);
    NewChildReads(g, c);
    HeldPrefix(g.children, c, g.replies, |g.children|);
    assert HeldIn(h) == HeldIn(g) + multiset{} == HeldIn(g);
    RunQueueBalances(h, |g.children|, env, multiset{});
  }

  lemma NewChildReads(g: Group, c: Child)
    requires Calm(g) && !c.busy && !c.waiting
    ensures var h := g.(children := g.children + [c]);
      Reading(h) && (h.queue != [] ==> NoneIdleBut(h, |g.children|))
  {
    NeverRead(g.replies, |g.children|);
  }

  /** A worker that is read from has its request to answer. */
  lemma WaitingHolds(g: Group, i: nat)
    requires Inv(g) && i < |g.children| && g.children[i].waiting
    ensures Holds(g.children[i], g.replies, i)
  {
    FailedIsDeadly(g.replies, i);
  }

  lemma ApplyBalances(g: Group, e: Event)
    requires Calm(g) && Allowed(g, e) && Balanced(g, multiset{})
    ensures Balanced(Apply(g, e), multiset{})
  {
    match e {
      case SendRequest(req, env) => SubmitBalances(g, req, env, multiset{});
      case Arrival(i, reply, env) =>
        WaitingHolds(g, i);
        SocketEventBalances(g, i, reply, false, env, multiset{});
      case NewChild(c, env) => NewChildBalances(g, c, env);
    }
  }

  lemma {:induction false} RunBalances(g: Group, es: seq<Event>)
    requires Calm(g) && Runs(g, es) && Balanced(g, multiset{})
    ensures Balanced(After(g, es), multiset{}) && Calm(After(g, es))
    decreases |es|
  {
    if es != [] {
      ApplyKeeps(g, es[0]);
      ApplyBalances(g, es[0]);
      RunBalances(Apply(g, es[0]), es[1..]);
    }
  }

  /** In every run each request handed out has been called back once, or was lost in a crash, or a worker
      still holds it: one that is read from, or one that a signal cut short. */
  lemma EveryRequestAccounted(es: seq<Event>)
    requires Runs(EMPTY, es)
    ensures var g := After(EMPTY, es);
      multiset(g.dispatched) == CalledBack(g.log) + multiset(g.crashed) + HeldIn(g)
    ensures var g := After(EMPTY, es);
      forall i :: 0 <= i < |g.children| ==>
        (Holds(g.children[i], g.replies, i) <==>
          g.children[i].waiting || (g.children[i].busy && Signalled(g.replies, i)))
  {
    assert Balanced(EMPTY, multiset{});
    RunBalances(EMPTY, es);
    var g := After(EMPTY, es);
    forall i | 0 <= i < |g.children|
      ensures Holds(g.children[i], g.replies, i) <==>
        g.children[i].waiting || (g.children[i].busy && Signalled(g.replies, i))
    {
      assert Settled(g, i);
      FailedIsDeadly(g.replies, i);
    }
  }

  /** Nobody is called back twice for the same request. */
  lemma AtMostOnce(es: seq<Event>, req: Request)
    requires Runs(EMPTY, es)
    ensures CalledBack(After(EMPTY, es).log)[req] <= multiset(After(EMPTY, es).dispatched)[req]
  {
    EveryRequestAccounted(es);
  }
}
