/** File: the write-behind buffers on the heap. Every method is tied to the queue functions of WriteBehind. */
module Files {
  import opened Bytes
  import opened WriteBehind

  class FileBuf {
    const Data: array<byte>
    var Size: nat
    var Done: nat

    ghost predicate Valid()
      reads this
    {
      Data.Length == BUF_SIZE && Done <= Size <= BUF_SIZE
    }

    ghost function Value(): Buf
      requires Valid()
      reads this, Data
    {
      Buf(Data[..Size], Done)
    }

    constructor ()
      ensures Valid() && fresh(Data) && Value() == Buf([], 0)
    {
      Data := new byte[BUF_SIZE];
      Size, Done := 0, 0;
    }

    function GetSize(): nat
      requires Valid()
      reads this
    {
      Size - Done
    }

    function GetData(): seq<byte>
      requires Valid()
      reads this, Data
    {
      Data[Done..Size]
    }

    function IsFull(): bool
      reads this
    {
      Size >= BUF_SIZE
    }

    /** Takes what fits. */
    method Append(buf: seq<byte>) returns (len: nat)
      requires Valid()
      modifies this`Size, Data
      ensures Valid()
      ensures len == Min(BUF_SIZE - old(Size), |buf|)
      ensures Value() == Buf(old(Value()).data + buf[..len], Done)
    {
      len := |buf|;
      var left := BUF_SIZE - Size;
      if left < len {
        len := left;
      }
      ghost var was := Data[..Size];
      forall i | 0 <= i < len {
        Data[Size + i] := buf[i];
      }
      assert Data[..Size + len] == was + buf[..len];
      Size := Size + len;
    }

    method Processed(len: nat) returns (gone: bool)
      requires Valid() && Done + len <= Size
      modifies this`Done
      ensures Valid()
      ensures Value() == old(Value()).(done := old(Done) + len)
      ensures gone <==> Done >= Size
    {
      Done := Done + len;
      gone := Done >= Size;
    }
  }

  /** `bs` are buffers of `repr`, once each and with an array of their own, and they hold `bufs`. */
  ghost predicate Hold(bs: seq<FileBuf>, repr: set<object>, bufs: seq<Buf>)
    reads repr
  {
    && |bs| == |bufs|
    && (forall i :: 0 <= i < |bs| ==> bs[i] in repr && bs[i].Data in repr && bs[i].Valid() && bs[i].Value() == bufs[i])
    && (forall i, j :: 0 <= i < j < |bs| ==> bs[i] != bs[j] && bs[i].Data != bs[j].Data)
  }

  lemma HoldTail(bs: seq<FileBuf>, repr: set<object>, b: Buf, bufs: seq<Buf>)
    requires Hold(bs, repr, [b] + bufs)
    ensures Hold(bs[1..], repr, bufs)
  {
    assert forall i :: 0 <= i < |bufs| ==> ([b] + bufs)[i + 1] == bufs[i];
  }

  class File {
    var WriteBuffers: seq<FileBuf>
    var Writing: bool
    var Flushing: bool
    ghost var Stuck: bool
    ghost var Disk: seq<byte>
    ghost var Submitted: seq<byte>
    ghost var Bufs: Queue             // what WriteBuffers hold
    ghost var Repr: set<object>

    ghost predicate Valid()
      reads this, Repr
    {
      this !in Repr && Hold(WriteBuffers, Repr, Bufs)
    }

    ghost function State(): FileState
      requires Valid()
      reads this, Repr
    {
      FileState(Bufs, Writing, Flushing, Stuck, Disk, Submitted)
    }

    constructor ()
      ensures Valid() && State() == FileState([], false, false, false, [], [])
    {
      WriteBuffers, Writing, Flushing, Stuck, Disk, Submitted, Bufs, Repr := [], false, false, false, [], [], [], {};
    }

    /** What the last buffer takes of the bytes. */
    method AppendToTail(buf: seq<byte>) returns (len: nat)
      requires Valid() && Bufs != [] && buf != []
      modifies Repr, this`Bufs
      ensures Valid()
      ensures if HasRoom(old(Bufs)) then len == Min(Room(old(Bufs)), |buf|) && Bufs == Put(old(Bufs), buf[..len])
        else len == 0 && Bufs == old(Bufs)
    {
      var n := |WriteBuffers| - 1;
      var fb := WriteBuffers[n];
      len := fb.Append(buf);
      if len > 0 {
        Bufs := Put(Bufs, buf[..len]);
      }
    }

    /** A new last buffer, and what it takes of the bytes. */
    method AppendToNew(buf: seq<byte>) returns (len: nat)
      requires Valid() && !HasRoom(Bufs) && buf != []
      modifies this`WriteBuffers, this`Repr, this`Bufs
      ensures Valid() && fresh(Repr - old(Repr)) && old(Repr) <= Repr
      ensures len == Min(Room(old(Bufs)), |buf|) && Bufs == Put(old(Bufs), buf[..len])
    {
      var fb := new FileBuf();
      len := fb.Append(buf);
      assert [] + buf[..len] == buf[..len];
      Repr := Repr + {fb, fb.Data};
      WriteBuffers := WriteBuffers + [fb];
      Bufs := Put(Bufs, buf[..len]);
    }

    /** A full last buffer takes nothing: a new one is made for the next turn. */
    method EnqueueSome(rest: seq<byte>) returns (done: nat, full: bool)
      requires Valid() && rest != []
      modifies this`WriteBuffers, this`Repr, this`Bufs, Repr
      ensures Valid() && fresh(Repr - old(Repr)) && old(Repr) <= Repr
      ensures done == Min(Room(old(Bufs)), |rest|) && Bufs == Put(old(Bufs), rest[..done])
      ensures full <==> old(Bufs) != [] && !HasRoom(old(Bufs))
    {
      done, full := 0, false;
      if WriteBuffers != [] {
        done := AppendToTail(rest);
      }
      if done == 0 {
        full := WriteBuffers != [];
        done := AppendToNew(rest);
      }
    }

    method EnqueueData(buf: seq<byte>) returns (full: bool)
      requires Valid()
      modifies this`WriteBuffers, this`Repr, this`Bufs, Repr
      ensures Valid() && fresh(Repr - old(Repr)) && old(Repr) <= Repr
      ensures Bufs == Enqueue(old(Bufs), buf).0 && full == Enqueue(old(Bufs), buf).1
    {
      full := false;
      var rest := buf;
      while |rest| > 0
        invariant Valid() && fresh(Repr - old(Repr)) && old(Repr) <= Repr
        invariant Enqueue(Bufs, rest).0 == Enqueue(old(Bufs), buf).0
        invariant Enqueue(old(Bufs), buf).1 == (full || Enqueue(Bufs, rest).1)
      {
        var done, found := EnqueueSome(rest);
        if found {
          full := true;
        }
        rest := rest[done..];
      }
    }

    /** write() takes the next `m` bytes of the head buffer, which goes when it has none left. */
    method WriteHead(m: nat)
      requires Valid() && WriteBuffers != [] && m <= |Left(Bufs[0])|
      modifies this`WriteBuffers, this`Bufs, this`Disk, Repr
      ensures Valid() && Bufs == WriteBehind.Processed(old(Bufs), m)
      ensures Disk == old(Disk) + Left(old(Bufs)[0])[..m]
    {
      ghost var b: Buf := Bufs[0].(done := Bufs[0].done + m);
      Disk := Disk + WriteBuffers[0].GetData()[..m];
      var gone := AdvanceHead(m, b);
      if gone {
        HoldTail(WriteBuffers, Repr, b, Bufs[1..]);
        WriteBuffers, Bufs := WriteBuffers[1..], Bufs[1..];
      } else {
        Bufs := [b] + Bufs[1..];
      }
    }

    /** The head buffer becomes `b`. */
    method AdvanceHead(m: nat, ghost b: Buf) returns (gone: bool)
      requires Valid() && WriteBuffers != [] && m <= |Left(Bufs[0])|
      requires b == Bufs[0].(done := Bufs[0].done + m)
      modifies Repr
      ensures Hold(WriteBuffers, Repr, [b] + Bufs[1..])
      ensures gone <==> b.done >= |b.data|
    {
      gone := WriteBuffers[0].Processed(m);
      assert forall i :: 0 < i < |WriteBuffers| ==> WriteBuffers[i].Value() == Bufs[i];
    }

    /** The loop of HandleWrite; `kernel` is what each write() answers. */
    method DrainBuffers(kernel: seq<WriteResult>) returns (outcome: Outcome)
      requires Valid()
      modifies this`WriteBuffers, this`Bufs, this`Disk, Repr
      ensures Valid() && Progress(Bufs, Disk, outcome) == Drain(old(Bufs), Flushing, old(Disk), kernel)
      ensures outcome.Drained? ==> !Wants(Bufs, Flushing)
    {
      outcome := Drained;
      var results := kernel;
      while WriteBuffers != [] && (Flushing || WriteBuffers[0].IsFull())
        invariant Valid() && Drain(Bufs, Flushing, Disk, results) == Drain(old(Bufs), Flushing, old(Disk), kernel)
        decreases |results|
      {
        if results == [] || results[0].WouldBlock? {
          return Blocked;
        } else if results[0].Fails? {
          return Failed;
        }
        var written := Min(results[0].n, WriteBuffers[0].GetSize());
        WriteHead(written);
        results := results[1..];
      }
    }

    method HandleWrite(kernel: seq<WriteResult>)
      requires Valid()
      modifies this, Repr
      ensures Valid() && Repr == old(Repr) && State() == WriteBehind.HandleWrite(old(State()), kernel)
    {
      Writing := false;
      var outcome := DrainBuffers(kernel);
      WaitAfter(outcome);
    }

    /** Whether to wait for a chance to write. */
    method WaitAfter(outcome: Outcome)
      requires Valid() && !Writing && (outcome.Drained? ==> !Wants(Bufs, Flushing))
      modifies this`Writing, this`Stuck
      ensures Writing == outcome.Blocked? && Stuck == outcome.Failed?
    {
      Stuck := outcome.Failed?;
      if !outcome.Drained? {
        if outcome.Blocked? {
          Writing := true;
        }
      } else if WriteBuffers != [] {
        Writing := WriteBuffers[0].IsFull() || Flushing;
      }
    }

    method Write(buf: seq<byte>, kernel: seq<WriteResult>)
      requires Valid()
      modifies this, Repr
      ensures Valid() && fresh(Repr - old(Repr)) && State() == WriteBehind.Write(old(State()), buf, kernel)
    {
      Submitted := Submitted + buf;
      var full := EnqueueData(buf);
      assert State() == old(State()).(bufs := Enqueue(old(Bufs), buf).0, submitted := Submitted);
      if full && !Writing {
        HandleWrite(kernel);
      }
    }

    method ResumeWrite(kernel: seq<WriteResult>)
      requires Valid()
      modifies this, Repr
      ensures Valid() && Repr == old(Repr) && State() == WriteBehind.ResumeWrite(old(State()), kernel)
    {
      if WriteBuffers != [] {
        HandleWrite(kernel);
      }
    }

    method Close(kernel: seq<WriteResult>) returns (ok: bool)
      requires Valid()
      modifies this, Repr
      ensures Valid() && Repr == old(Repr) && State() == WriteBehind.Close(old(State()), kernel)
      ensures ok <==> old(Bufs) == []
    {
      ok := WriteBuffers == [];
      if ok {
        Writing, Flushing := false, false;
      } else {
        Flushing := true;
        if !Writing {
          HandleWrite(kernel);
        }
      }
    }

    /** The last buffer leaves, written if `keep`. */
    method RemTail(keep: bool, result: WriteResult)
      requires Valid() && WriteBuffers != []
      modifies this`WriteBuffers, this`Bufs, this`Disk
      ensures Valid() && Bufs == old(Bufs)[..|old(Bufs)| - 1]
      ensures Disk == old(Disk) + Taken(Left(old(Bufs)[|old(Bufs)| - 1]), keep, result)
    {
      var n := |WriteBuffers| - 1;
      var buf := WriteBuffers[n];
      Disk := Disk + Taken(buf.GetData(), keep, result);
      WriteBuffers, Bufs := WriteBuffers[..n], Bufs[..n];
    }

    /** `kernel`: what each write() answers; none is made unless `keep`. */
    method FlushWriteBuffers(keep: bool, kernel: seq<WriteResult>)
      requires Valid()
      modifies this
      ensures Valid() && Repr == old(Repr)
      ensures State() == WriteBehind.FlushWriteBuffers(old(State()), keep, kernel)
    {
      Flushing := true;
      var results := kernel;
      while WriteBuffers != []
        invariant Valid()
        invariant FlushTail(Bufs, keep, Disk, results) == FlushTail(old(Bufs), keep, old(Disk), kernel)
        modifies this`WriteBuffers, this`Bufs, this`Disk
        decreases |WriteBuffers|
      {
        RemTail(keep, if results == [] then WouldBlock else results[0]);
        results := if results == [] then [] else results[1..];
      }
      Flushing := false;
    }
  }
}
