/** ProcessGroup and its Process objects. `env` tells what the reads made on the way find, in turn. */
module ProcessGroups {
  import opened Bytes
  import opened ProcessQueue

  class Process {
    var Running: bool
    var Busy: bool
    var Waiting: bool
    var Data: seq<byte>
    var Room: nat
    var Current: Request

    function Value(): Child
      reads this
    {
      Child(Running, Busy, Waiting, Data, Room, Current)
    }

    constructor (running: bool)
      ensures !Busy && !Waiting && Running == running
    {
      Running, Busy, Waiting, Data, Room, Current := running, false, false, [], 0, Request([], 0, 0);
    }

    /** The worker's part of SendRequest. */
    method Start(req: Request)
      modifies this
      ensures Value() == Started(old(Value()), req)
    {
      Busy, Waiting, Data, Room, Current := true, false, [], CHUNK_SIZE, req;
    }

    /** The buffer's part of ReadAnswer. */
    method ReadAnswer(bytes: Fragment) returns (done: bool)
      modifies this
      ensures done <==> Complete(Take(old(Value()), bytes).data)
      ensures Value() == if done then Take(old(Value()), bytes) else Grow(Take(old(Value()), bytes))
    {
      var left := if Room > |Data| then Room - |Data| else 0;
      Waiting := false;
      Data := Data + if |bytes| <= left then bytes else bytes[..left];
      done := |Data| >= 4 && Word(Data, 0) == |Data| - 4;
      if !done && Room <= |Data| {
        Room := Room + CHUNK_SIZE;
      }
    }
  }

  class ProcessGroup {
    var Children: seq<Process>
    var Requests: seq<Request>
    var Log: seq<Called>
    ghost var Submitted: seq<Request>
    ghost var Dispatched: seq<Request>
    ghost var Replies: seq<Read>
    ghost var Crashed: seq<Request>
    ghost var Kids: seq<Child>            // what Children hold

    ghost predicate Valid()
      reads this, Children
    {
      && |Children| == |Kids|
      && (forall i :: 0 <= i < |Kids| ==> Children[i].Value() == Kids[i])
      && (forall i, j :: 0 <= i < j < |Children| ==> Children[i] != Children[j])
    }

    ghost function State(): Group
      reads this
    {
      Group(Kids, Requests, Submitted, Dispatched, Log, Replies, Crashed)
    }

    constructor ()
      ensures Valid() && State() == EMPTY
    {
      Children, Requests, Log, Submitted, Dispatched, Replies, Crashed, Kids := [], [], [], [], [], [], [], [];
    }

    method FindIdleProcess() returns (i: nat)
      requires Valid()
      ensures i == FindIdle(Kids)
    {
      i := 0;
      while i < |Children| && !(Children[i].Running && !Children[i].Busy)
        invariant i <= |Children| && i + FindIdle(Kids[i..]) == FindIdle(Kids)
      {
        assert Kids[i..][1..] == Kids[i + 1..];
        i := i + 1;
      }
    }

    method SendRequest(req: Request, env: seq<Reply>) returns (rest: seq<Reply>)
      requires Valid()
      modifies this, Children
      ensures Valid() && Children == old(Children) && (State(), rest) == Submit(old(State()), req, env)
      decreases |env|, 4, 0
    {
      Submitted := Submitted + [req];
      var i := FindIdleProcess();
      if i < |Children| {
        rest := Dispatch(i, req, env);
      } else {
        Requests := Requests + [req];
        rest := env;
      }
    }

    /** What a callback does. */
    method SendAll(reqs: seq<Request>, env: seq<Reply>) returns (rest: seq<Reply>)
      requires Valid()
      modifies this, Children
      ensures Valid() && Children == old(Children) && (State(), rest) == SubmitAll(old(State()), reqs, env)
      decreases |env|, 5, |reqs|
    {
      rest := env;
      if reqs != [] {
        rest := SendRequest(reqs[0], env);
        rest := SendAll(reqs[1..], rest);
      }
    }

    /** Process::SendRequest. */
    method Dispatch(i: nat, req: Request, env: seq<Reply>) returns (rest: seq<Reply>)
      requires Valid() && i < |Children|
      modifies this, Children
      ensures Valid() && Children == old(Children)
      ensures (State(), rest) == ProcessQueue.Dispatch(old(State()), i, req, env)
      decreases |env|, 2, 0
    {
      Children[i].Start(req);
      Kids := Kids[i := Started(Kids[i], req)];
      Dispatched := Dispatched + [req];
      rest := AsyncRecv(i, env);
    }

    method AsyncRecv(i: nat, env: seq<Reply>) returns (rest: seq<Reply>)
      requires Valid() && i < |Children|
      modifies this, Children
      ensures Valid() && Children == old(Children) && (State(), rest) == Receive(old(State()), i, env)
      decreases |env|, 1, 0
    {
      if env == [] || env[0].Silent? {
        Replies := Replies + [Read(i, Silent, true)];
        Children[i].Waiting := true;
        Kids := Kids[i := Kids[i].(waiting := true)];
        rest := if env == [] then [] else env[1..];
      } else if env[0].Interrupted? {
        Replies := Replies + [Read(i, Interrupted, true)];
        rest := env[1..];
      } else {
        rest := SocketEvent(i, env[0], true, env[1..]);
      }
    }

    /** `first`: called from AsyncRecv. */
    method SocketEvent(i: nat, reply: Reply, ghost first: bool, env: seq<Reply>) returns (rest: seq<Reply>)
      requires Valid() && i < |Children|
      modifies this, Children
      ensures Valid() && Children == old(Children)
      ensures (State(), rest) == ProcessQueue.SocketEvent(old(State()), i, reply, first, env)
      decreases |env|, 6, 0
    {
      match reply {
        case Silent | Interrupted =>
          Replies := Replies + [Read(i, reply, first)];
          rest := env;
        case Data(bytes, resubmit) => rest := Arrived(i, bytes, resubmit, first, env);
        case Closed => rest := Crashes(i, first, env);
        case Failure(errno, resubmit) => rest := Fails(i, errno, resubmit, first, env);
      }
    }

    method Crashes(i: nat, ghost first: bool, env: seq<Reply>) returns (rest: seq<Reply>)
      requires Valid() && i < |Children|
      modifies this, Children
      ensures Valid() && Children == old(Children) && (State(), rest) == Crash(old(State()), i, first, env)
      decreases |env|, 5, 1
    {
      Replies := Replies + [Read(i, Closed, first)];
      Crashed := Crashed + [Children[i].Current];
      Children[i].Running, Children[i].Waiting := false, false;
      Kids := Kids[i := Kids[i].(running := false, waiting := false)];
      rest := Finish(i, env);
    }

    method Fails(i: nat, errno: int, resubmit: seq<Request>, ghost first: bool, env: seq<Reply>)
      returns (rest: seq<Reply>)
      requires Valid() && i < |Children|
      modifies this, Children
      ensures Valid() && Children == old(Children)
      ensures (State(), rest) == Fail(old(State()), i, errno, resubmit, first, env)
      decreases |env|, 5, |resubmit| + 1
    {
      Replies := Replies + [Read(i, Failure(errno, resubmit), first)];
      Children[i].Waiting := false;
      Kids := Kids[i := Kids[i].(waiting := false)];
      Log := Log + [Failed(Children[i].Current, errno)];
      rest := SendAll(resubmit, env);
    }

    /** Process::ReadAnswer, and what follows when the answer is complete. */
    method Arrived(i: nat, bytes: Fragment, resubmit: seq<Request>, ghost first: bool, env: seq<Reply>)
      returns (rest: seq<Reply>)
      requires Valid() && i < |Children|
      modifies this, Children
      ensures Valid() && Children == old(Children)
      ensures (State(), rest) == Arrive(old(State()), i, bytes, resubmit, first, env)
      decreases |env|, 5, |resubmit| + 1
    {
      Replies := Replies + [Read(i, Data(bytes, resubmit), first)];
      var done := Children[i].ReadAnswer(bytes);
      Kids := Kids[i := Children[i].Value()];
      if done {
        Log := Log + [Answered(Children[i].Current, Children[i].Data[4..])];
        rest := SendAll(resubmit, env);
        rest := Finish(i, rest);
      } else {
        rest := AsyncRecv(i, env);
      }
    }

    /** The end of Process::SocketEvent. */
    method Finish(i: nat, env: seq<Reply>) returns (rest: seq<Reply>)
      requires Valid() && i < |Children|
      modifies this, Children
      ensures Valid() && Children == old(Children) && (State(), rest) == ProcessQueue.Finish(old(State()), i, env)
      decreases |env|, 5, 0
    {
      Children[i].Busy, Children[i].Data, Children[i].Room := false, [], 0;
      Kids := Kids[i := Kids[i].(busy := false, data := [], room := 0)];
      rest := RunQueue(env);
    }

    method RunQueue(env: seq<Reply>) returns (rest: seq<Reply>)
      requires Valid()
      modifies this, Children
      ensures Valid() && Children == old(Children) && (State(), rest) == ProcessQueue.RunQueue(old(State()), env)
      decreases |env|, 3, |Requests|
    {
      rest := env;
      while Requests != []
        invariant Valid() && Children == old(Children) && |rest| <= |env|
        invariant ProcessQueue.RunQueue(State(), rest) == ProcessQueue.RunQueue(old(State()), env)
        decreases |rest|, |Requests|
      {
        var i := FindIdleProcess();
        if i == |Children| {
          break;
        }
        var req := Requests[0];
        Requests := Requests[1..];
        rest := Dispatch(i, req, rest);
      }
    }

    method AddChild(proc: Process, env: seq<Reply>) returns (rest: seq<Reply>)
      requires Valid() && proc !in Children
      modifies this, Children, proc
      ensures Valid() && Children == old(Children) + [proc]
      ensures (State(), rest) == ProcessQueue.AddChild(old(State()), old(proc.Value()), env)
    {
      Children := Children + [proc];
      Kids := Kids + [proc.Value()];
      rest := RunQueue(env);
    }
  }
}
