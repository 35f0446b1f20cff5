/** Who refers to an object of the cache, counted over the events of a run. */
module CacheReferences {
  import opened Bytes
  import opened CStrings
  import opened IndexFile
  import opened CacheTables

  /** References taken to an object and not given back, and whether its store object is still open. */
  datatype Tally = Tally(refs: nat, open: bool)

  const NONE := Tally(0, false)

  /** An object is created with one reference and an open store object; Find and Acquire take a reference,
      Release gives one back if there is any, and with the last one the store object goes. Nothing else
      matters, but for what is done during a write. */
  function Count(c: Cache, op: Op, h: nat, t: Tally): Tally
    decreases op
  {
    match op
    case DoCreate(_) => if h == |c.objs| then Tally(1, true) else t
    case DoFind(id) => if KeyOf(id) in c.hash && c.hash[KeyOf(id)] == h then t.(refs := t.refs + 1) else t
    case DoAcquire(i) => if i == h then t.(refs := t.refs + 1) else t
    case DoRelease(i) => if i != h then t else if t.refs <= 1 then NONE else t.(refs := t.refs - 1)
    case DoWrite(i, len, during) =>
      if i < |c.objs| && c.objs[i].isNew then CountAll(Buffer(c, i, len), during, h, t) else t
    case _ => t
  }

  function CountAll(c: Cache, ops: seq<Op>, h: nat, t: Tally): Tally
    decreases ops
  {
    if ops == [] then t else CountAll(Apply(c, ops[0]), ops[1..], h, Count(c, ops[0], h, t))
  }

  /** What the cache says of an object. */
  function Says(objs: seq<Obj>, h: nat): Tally
  {
    if h < |objs| then Tally(objs[h].refs, objs[h].attached) else NONE
  }

  predicate SameTally(o: Obj, p: Obj)
  {
    p.refs == o.refs && p.attached == o.attached
  }

  lemma DroppedKeepsTally(o: Obj)
    requires Marked(o)
    ensures SameTally(o, Dropped(o))
  {}

  /** The operation changes what is said of h as the count goes. */
  predicate Counted(c: Cache, op: Op, h: nat)
  {
    Says(Apply(c, op).objs, h) == Count(c, op, h, Says(c.objs, h))
  }

  lemma PruneIsCounted(c: Cache, h: nat)
    requires Inv(c)
    ensures Counted(c, DoPrune, h)
  {
    PruneChanges(c);
    if h < |c.objs| {
      assert Marked(c.objs[h]);
      DroppedKeepsTally(c.objs[h]);
    }
  }

  lemma DeleteIsCounted(c: Cache, i: nat, h: nat)
    requires Inv(c) && i < |c.objs|
    ensures Counted(c, DoDelete(i), h)
  {
    assert Marked(c.objs[i]);
    DroppedKeepsTally(c.objs[i]);
  }

  lemma DeleteIdIsCounted(c: Cache, id: seq<byte>, h: nat)
    requires Inv(c)
    ensures Counted(c, DoDeleteId(id), h)
  {
    if KeyOf(id) in c.hash {
      var i := c.hash[KeyOf(id)];
      DeleteIsCounted(c, i, h);
      assert Apply(c, DoDeleteId(id)) == Apply(c, DoDelete(i));
    }
  }

  lemma CreateIsCounted(c: Cache, rec: Record, h: nat)
    ensures Counted(c, DoCreate(rec), h)
  {}

  lemma FindIsCounted(c: Cache, id: seq<byte>, h: nat)
    requires Inv(c)
    ensures Counted(c, DoFind(id), h)
  {}

  lemma AcquireIsCounted(c: Cache, i: nat, h: nat)
    requires i < |c.objs|
    ensures Counted(c, DoAcquire(i), h)
  {}

  lemma ReleaseIsCounted(c: Cache, i: nat, h: nat)
    requires Inv(c) && i < |c.objs|
    ensures Counted(c, DoRelease(i), h)
  {
    assert Marked(c.objs[i]);
  }

  lemma {:induction false} OperationIsCounted(c: Cache, op: Op, h: nat)
    requires Good(c) && Allowed(c, op) && Returns(c, op)
    ensures Counted(c, op, h)
    decreases op, 1
  {
    match op {
      case DoCreate(rec) => CreateIsCounted(c, rec, h);
      case DoFind(id) => FindIsCounted(c, id, h);
      case DoDeleteId(id) => DeleteIdIsCounted(c, id, h);
      case DoDelete(i) => DeleteIsCounted(c, i, h);
      case DoAcquire(i) => AcquireIsCounted(c, i, h);
      case DoRelease(i) => ReleaseIsCounted(c, i, h);
      case DoWrite(_, _, _) => DuringIsCounted(c, op, h);
      case DoPrune => PruneIsCounted(c, h);
      case DoWriteIndex(_) =>
    }
  }

  lemma {:induction false} DuringIsCounted(c: Cache, op: Op, h: nat)
    requires Good(c) && Allowed(c, op) && Returns(c, op) && op.DoWrite?
    ensures Counted(c, op, h)
    decreases op, 0
  {
    if c.objs[op.h].isNew {
      var b := Buffer(c, op.h, op.len);
      BufferKeepsGood(c, op.h, op.len);
      RunIsCounted(b, op.during, h);
      assert Says(b.objs, h) == Says(c.objs, h);
      WrittenKeepsTally(ApplyAll(b, op.during), op.h, op.len, h);
    }
  }

  lemma WrittenKeepsTally(c: Cache, i: nat, len: nat, h: nat)
    requires i < |c.objs|
    ensures Says(Written(c, i, len).objs, h) == Says(c.objs, h)
  {}

  /** Over any run, what an object says of its references is what the events come to. */
  lemma {:induction false} RunIsCounted(c: Cache, ops: seq<Op>, h: nat)
    requires Good(c) && AllowedAll(c, ops) && ReturnsAll(c, ops)
    ensures Says(ApplyAll(c, ops).objs, h) == CountAll(c, ops, h, Says(c.objs, h))
    decreases ops, 0
  {
    if ops != [] {
      OperationIsCounted(c, ops[0], h);
      ApplyKeepsGood(c, ops[0]);
      RunIsCounted(Apply(c, ops[0]), ops[1..], h);
    }
  }

  /** In every run from an empty cache: an object has the references taken and not given back, may be evicted
      if and only if none is left and it is not deleted, and once deleted is gone just when none is left. */
  lemma ReferencesAreExact(c: Cache, ops: seq<Op>, h: nat)
    requires Good(c) && c.objs == [] && AllowedAll(c, ops) && ReturnsAll(c, ops)
    requires h < |ApplyAll(c, ops).objs|
    ensures var o, t := ApplyAll(c, ops).objs[h], CountAll(c, ops, h, NONE);
      && o.refs == t.refs && o.attached == t.open
      && (Evictable(o) <==> t.refs == 0 && !o.deleted)
      && (o.freed <==> t.refs == 0 && o.deleted)
  {
    RunIsCounted(c, ops, h);
    ApplyAllKeepsGood(c, ops);
    assert Marked(ApplyAll(c, ops).objs[h]);
  }

  // ---- taken and given back ----

  /** References to h that the operations take. */
  function Taken(c: Cache, op: Op, h: nat): nat
    decreases op
  {
    match op
    case DoCreate(_) => if h == |c.objs| then 1 else 0
    case DoFind(id) => if KeyOf(id) in c.hash && c.hash[KeyOf(id)] == h then 1 else 0
    case DoAcquire(i) => if i == h then 1 else 0
    case DoWrite(i, len, during) =>
      if i < |c.objs| && c.objs[i].isNew then TakenIn(Buffer(c, i, len), during, h) else 0
    case _ => 0
  }

  function TakenIn(c: Cache, ops: seq<Op>, h: nat): nat
    decreases ops
  {
    if ops == [] then 0 else Taken(c, ops[0], h) + TakenIn(Apply(c, ops[0]), ops[1..], h)
  }

  /** Releases of h. */
  function Releases(c: Cache, op: Op, h: nat): nat
    decreases op
  {
    match op
    case DoRelease(i) => if i == h then 1 else 0
    case DoWrite(i, len, during) =>
      if i < |c.objs| && c.objs[i].isNew then ReleasesIn(Buffer(c, i, len), during, h) else 0
    case _ => 0
  }

  function ReleasesIn(c: Cache, ops: seq<Op>, h: nat): nat
    decreases ops
  {
    if ops == [] then 0 else Releases(c, ops[0], h) + ReleasesIn(Apply(c, ops[0]), ops[1..], h)
  }

  /** No release of h comes when none of k references is left. */
  predicate Owned(c: Cache, op: Op, h: nat, t: Tally)
    decreases op
  {
    match op
    case DoCreate(_) => h == |c.objs| ==> t == NONE
    case DoRelease(i) => i == h ==> t.refs > 0
    case DoWrite(i, len, during) =>
      i < |c.objs| && c.objs[i].isNew ==> OwnedAll(Buffer(c, i, len), during, h, t)
    case _ => true
  }

  predicate OwnedAll(c: Cache, ops: seq<Op>, h: nat, t: Tally)
    decreases ops
  {
    ops == [] || (Owned(c, ops[0], h, t) && OwnedAll(Apply(c, ops[0]), ops[1..], h, Count(c, ops[0], h, t)))
  }

  lemma {:induction false} CountIsDifference(c: Cache, op: Op, h: nat, t: Tally)
    requires Owned(c, op, h, t)
    ensures Count(c, op, h, t).refs == t.refs + Taken(c, op, h) - Releases(c, op, h)
    decreases op
  {
    if op.DoWrite? && op.h < |c.objs| && c.objs[op.h].isNew {
      CountAllIsDifference(Buffer(c, op.h, op.len), op.during, h, t);
    }
  }

  /** While every release gives back a reference that was taken, an object has those taken less those released. */
  lemma {:induction false} CountAllIsDifference(c: Cache, ops: seq<Op>, h: nat, t: Tally)
    requires OwnedAll(c, ops, h, t)
    ensures CountAll(c, ops, h, t).refs == t.refs + TakenIn(c, ops, h) - ReleasesIn(c, ops, h)
    decreases ops
  {
    if ops != [] {
      CountIsDifference(c, ops[0], h, t);
      CountAllIsDifference(Apply(c, ops[0]), ops[1..], h, Count(c, ops[0], h, t));
    }
  }

  // ---- what an object is ----

  /** Apart from their sizes, the records are what they were, and no object is forgotten. */
  predicate SameRecords(c: seq<Obj>, d: seq<Obj>)
  {
    |c| <= |d| && forall h :: 0 <= h < |c| ==> SameRecord(c[h], d[h])
  }

  predicate SameRecord(o: Obj, p: Obj)
  {
    p.key == o.key && p.rec == o.rec.(size := p.rec.size) && (o.deleted ==> p.deleted)
  }

  lemma SameRecordsThen(c: seq<Obj>, d: seq<Obj>, e: seq<Obj>)
    requires SameRecords(c, d) && SameRecords(d, e)
    ensures SameRecords(c, e)
  {
    forall h | 0 <= h < |c| ensures SameRecord(c[h], e[h]) {
      assert SameRecord(c[h], d[h]) && SameRecord(d[h], e[h]);
    }
  }

  lemma PruneKeepsRecords(c: Cache)
    requires Inv(c)
    ensures KeepsRecords(c, DoPrune)
  {
    PruneChanges(c);
  }

  predicate KeepsRecords(c: Cache, op: Op)
  {
    SameRecords(c.objs, Apply(c, op).objs)
  }

  lemma CreateKeepsRecords(c: Cache, rec: Record)
    ensures KeepsRecords(c, DoCreate(rec)) && Apply(c, DoCreate(rec)).objs[|c.objs|].rec == rec.(size := 0)
  {}

  lemma DeleteKeepsRecords(c: Cache, h: nat)
    ensures KeepsRecords(c, DoDelete(h))
  {}

  lemma ReferenceKeepsRecords(c: Cache, h: nat)
    ensures KeepsRecords(c, DoAcquire(h)) && KeepsRecords(c, DoRelease(h))
  {}

  lemma FoundKeepsRecords(c: Cache, id: seq<byte>)
    ensures KeepsRecords(c, DoFind(id)) && KeepsRecords(c, DoDeleteId(id))
  {}

  lemma {:induction false} OperationKeepsRecords(c: Cache, op: Op)
    requires Good(c) && Allowed(c, op) && Returns(c, op)
    ensures KeepsRecords(c, op)
    ensures op.DoCreate? ==> Apply(c, op).objs[|c.objs|].rec == op.rec.(size := 0)
    decreases op, 1
  {
    match op {
      case DoCreate(rec) => CreateKeepsRecords(c, rec);
      case DoFind(id) => FoundKeepsRecords(c, id);
      case DoDeleteId(id) => FoundKeepsRecords(c, id);
      case DoDelete(h) => DeleteKeepsRecords(c, h);
      case DoAcquire(h) => ReferenceKeepsRecords(c, h);
      case DoRelease(h) => ReferenceKeepsRecords(c, h);
      case DoWrite(_, _, _) => DuringKeepsRecords(c, op);
      case DoPrune => PruneKeepsRecords(c);
      case DoWriteIndex(_) =>
    }
  }

  lemma WrittenKeepsRecords(c: Cache, d: Cache, h: nat, len: nat)
    requires h < |c.objs| && h < |d.objs| && SameRecords(Buffer(c, h, len).objs, d.objs)
    ensures SameRecords(c.objs, Written(d, h, len).objs)
  {
    var b := Buffer(c, h, len);
    forall i | 0 <= i < |c.objs| ensures SameRecord(c.objs[i], Written(d, h, len).objs[i]) {
      assert SameRecord(b.objs[i], d.objs[i]);
    }
  }

  lemma {:induction false} DuringKeepsRecords(c: Cache, op: Op)
    requires Good(c) && Allowed(c, op) && Returns(c, op) && op.DoWrite?
    ensures KeepsRecords(c, op)
    decreases op, 0
  {
    if c.objs[op.h].isNew {
      var b := Buffer(c, op.h, op.len);
      BufferKeepsGood(c, op.h, op.len);
      RunKeepsRecords(b, op.during);
      WrittenKeepsRecords(c, ApplyAll(b, op.during), op.h, op.len);
    }
  }

  /** In every run an object keeps what Create was given, but for its size, and once deleted stays so. */
  lemma {:induction false} RunKeepsRecords(c: Cache, ops: seq<Op>)
    requires Good(c) && AllowedAll(c, ops) && ReturnsAll(c, ops)
    ensures SameRecords(c.objs, ApplyAll(c, ops).objs)
    decreases ops, 0
  {
    if ops != [] {
      OperationKeepsRecords(c, ops[0]);
      ApplyKeepsGood(c, ops[0]);
      RunKeepsRecords(Apply(c, ops[0]), ops[1..]);
      SameRecordsThen(c.objs, Apply(c, ops[0]).objs, ApplyAll(c, ops).objs);
    }
  }

  // ---- whether the index is out of date ----

  /** What one operation does to the mark that the index has to be written: creating and deleting set it, and
      writing the index clears it just when every object in the list went into it. */
  lemma ModifiedAfter(c: Cache, op: Op)
    requires Inv(c)
    ensures Apply(c, op).modified ==
      match op
      case DoCreate(_) => true
      case DoDelete(h) => c.modified || (h < |c.objs| && !c.objs[h].deleted)
      case DoDeleteId(id) => c.modified || KeyOf(id) in c.hash
      case DoPrune => c.modified || Victims(c) != []
      case DoWriteIndex(complete) => c.modified && exists h <- c.list :: h !in complete || c.objs[h].deleted
      case DoWrite(h, len, during) =>
        if h < |c.objs| && c.objs[h].isNew then ApplyAll(Buffer(c, h, len), during).modified else c.modified
      case _ => c.modified
  {
    match op {
      case DoPrune => PruneMarks(c);
      case DoWriteIndex(complete) => KeptAllIff(c.objs, c.list, complete);
      case _ =>
    }
  }

  lemma PruneMarks(c: Cache)
    requires Inv(c)
    ensures Prune(c).modified <==> c.modified || Victims(c) != []
  {
    PruneDeletes(c);
    if Victims(c) != [] {
      assert Evictable(c.objs[Victims(c)[0]]);
      StaysModified(Delete(c, Victims(c)[0]), Victims(c)[1..]);
    }
  }

  lemma {:induction false} StaysModified(c: Cache, hs: seq<nat>)
    requires InRange(c.objs, hs)
    ensures c.modified ==> DeleteAll(c, hs).modified
    decreases |hs|
  {
    if hs != [] {
      StaysModified(Delete(c, hs[0]), hs[1..]);
    }
  }

  lemma {:induction false} KeptAllIff(objs: seq<Obj>, list: seq<nat>, complete: set<nat>)
    requires InRange(objs, list)
    ensures |Kept(objs, list, complete)| < |list| <==> exists h <- list :: h !in complete || objs[h].deleted
    decreases |list|
  {
    if list != [] {
      KeptAllIff(objs, list[1..], complete);
      assert forall h :: h in list <==> h == list[0] || h in list[1..];
    }
  }
}
