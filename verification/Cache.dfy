/** Cache and its CacheObj objects. An object's handle is its place among all that were ever made. */
module Caches {
  import opened Bytes
  import opened CStrings
  import opened IndexFile
  import opened CacheTables

  class CacheObj {
    const Handle: nat
    const Key: CString          // GetID() as the hash compares it
    var Rec: Record
    var RefCount: nat
    var Deleted: bool           // PROM_CACHEOBJF_DELETE
    var IsNew: bool             // PROM_CACHEOBJF_NEW
    var Attached: bool          // ObjFile is set
    var Buffered: nat           // size of the store object's Data
    var DontWrite: bool         // PROM_STOREF_DONT_WRITE of the store object
    var Freed: bool
    var Tick: nat               // LastAccess

    ghost function Value(): Obj
      reads this
    {
      Obj(Rec, Key, RefCount, Deleted, IsNew, Attached, Buffered, DontWrite, Freed, Tick)
    }

    constructor (handle: nat, o: Obj)
      ensures Handle == handle && Value() == o
    {
      Handle, Key, Rec, RefCount, Deleted := handle, o.key, o.rec, o.refs, o.deleted;
      IsNew, Attached, Buffered, DontWrite := o.isNew, o.attached, o.buffered, o.dontWrite;
      Freed, Tick := o.freed, o.tick;
    }

    method Acquire()
      modifies this
      ensures Value() == Acquired(old(Value()))
    {
      RefCount := RefCount + 1;
    }

    /** True when the object, being deleted, is gone. */
    method Release() returns (gone: bool)
      modifies this
      ensures Value() == Released(old(Value()))
      ensures gone <==> old(RefCount) <= 1 && Deleted
    {
      if RefCount > 0 {
        RefCount := RefCount - 1;
      }
      gone := false;
      if RefCount == 0 {
        Attached := false;
        if Deleted {
          Freed := true;
          gone := true;
        }
      }
    }

    method Delete() returns (gone: bool)
      modifies this
      ensures Value() == Dropped(old(Value()))
      ensures gone <==> old(RefCount) == 0
    {
      Acquire();
      Deleted := true;
      if Attached {
        DontWrite := true;
      }
      gone := Release();
    }
  }

  /** The index entries of the objects from the i-th place of the list on. */
  function SaveRest(objs: seq<Obj>, list: seq<nat>, i: nat, complete: set<nat>): seq<byte>
    requires i <= |list|
  {
    SaveObjects(Records(objs, Kept(objs, list[i..], complete)))
  }

  // ---- the operations, field by field ----

  lemma FoundIs(c: CacheTables.Cache, h: nat)
    requires h < |c.objs|
    ensures Found(c, h) == CacheTables.Cache(c.objs[h := Acquired(c.objs[h]).(tick := c.clock)],
      Without(c.list, h) + [h], c.hash, c.store, c.maxSize, c.modified, c.clock + 1)
  {}

  function NewObj(rec: Record, key: CString, tick: nat): Obj
  {
    Obj(rec.(size := 0), key, 1, false, true, true, 0, false, false, tick)
  }

  function LoadedObj(rec: Record, key: CString, tick: nat): Obj
  {
    Obj(rec, key, 0, false, false, false, 0, false, false, tick)
  }

  lemma CreatedIs(c: CacheTables.Cache, rec: Record, key: CString)
    ensures CacheTables.Create(c, rec, key) ==
      CacheTables.Cache(c.objs + [NewObj(rec, key, c.clock)], c.list + [|c.objs|],
                        CacheTables.Hash(c.hash, key, |c.objs|), c.store, c.maxSize, true, c.clock + 1)
  {}

  lemma LoadedIs(c: CacheTables.Cache, rec: Record, key: CString)
    ensures Load1(c, rec, key) ==
      CacheTables.Cache(c.objs + [LoadedObj(rec, key, c.clock)], c.list + [|c.objs|],
                        CacheTables.Hash(c.hash, key, |c.objs|), c.store + rec.size, c.maxSize, c.modified, c.clock + 1)
  {}

  lemma DeletedIs(c: CacheTables.Cache, h: nat)
    requires h < |c.objs| && !c.objs[h].deleted
    ensures CacheTables.Delete(c, h) == CacheTables.Cache(c.objs[h := Dropped(c.objs[h])],
      if c.objs[h].refs == 0 then Without(c.list, h) else c.list, c.hash - {c.objs[h].key},
      c.store - c.objs[h].rec.size, c.maxSize, true, c.clock)
  {}

  class Cache {
    var All: seq<CacheObj>
    var Objects: seq<CacheObj>
    var Hash: map<CString, CacheObj>
    var StoreSize: int
    var MaxSize: nat
    var Modified: bool
    var Clock: nat                           // time(), which every access moves on
    ghost var Objs: seq<Obj>                 // what All hold
    ghost var List: seq<nat>                 // handles of Objects
    ghost var Index: map<CString, nat>       // handles in Hash

    ghost predicate Valid()
      reads this`All, this`Objects, this`Hash, this`Objs, this`List, this`Index, All
    {
      && |Objs| == |All| && |List| == |Objects| && Index.Keys == Hash.Keys
      && (forall h :: 0 <= h < |All| ==> All[h].Handle == h && All[h].Value() == Objs[h])
      && (forall i :: 0 <= i < |List| ==> List[i] < |All| && Objects[i] == All[List[i]])
      && (forall k <- Hash :: Index[k] < |All| && Hash[k] == All[Index[k]])
    }

    ghost function State(): CacheTables.Cache
      reads this
    {
      CacheTables.Cache(Objs, List, Index, StoreSize, MaxSize, Modified, Clock)
    }

    constructor (maxSize: nat)
      ensures Valid() && State() == Empty(maxSize)
    {
      All, Objects, Hash, StoreSize, MaxSize, Modified := [], [], map[], 0, maxSize, false;
      Clock, Objs, List, Index := 0, [], [], map[];
    }

    ghost predicate Has(obj: CacheObj)
      reads this`All
    {
      obj.Handle < |All| && All[obj.Handle] == obj
    }

    method DecreaseSize(len: nat)
      requires Valid()
      modifies this`StoreSize
      ensures Valid() && StoreSize == old(StoreSize) - len
    {
      StoreSize := StoreSize - len;
    }

    method UpdateSize(len: nat)
      requires Valid()
      modifies this`StoreSize
      ensures Valid() && StoreSize == old(StoreSize) + len
    {
      StoreSize := StoreSize + len;
    }

    method SetModified(modified: bool)
      requires Valid()
      modifies this`Modified
      ensures Valid() && Modified == modified
    {
      Modified := modified;
    }

    /** A new object, last in the list. */
    method AddTail(o: Obj) returns (obj: CacheObj)
      requires Valid()
      modifies this`All, this`Objects, this`Objs, this`List, this`Clock
      ensures Valid() && fresh(obj) && Has(obj) && obj.Handle == |old(Objs)| && All == old(All) + [obj]
      ensures Objs == old(Objs) + [o] && List == old(List) + [|old(Objs)|] && Clock == old(Clock) + 1
    {
      obj := new CacheObj(|All|, o);
      Objects, List := Objects + [obj], List + [|All|];
      All, Objs := All + [obj], Objs + [o];
      Clock := Clock + 1;
    }

    /** An id that is there already stays as it is. */
    method HashAdd(key: CString, obj: CacheObj)
      requires Valid() && Has(obj)
      modifies this`Hash, this`Index
      ensures Valid()
      ensures Index == CacheTables.Hash(old(Index), key, obj.Handle)
    {
      if key !in Hash {
        Hash, Index := Hash[key := obj], Index[key := obj.Handle];
      }
    }

    method Create(rec: Record) returns (obj: CacheObj)
      requires Valid()
      modifies this
      ensures Valid() && fresh(obj) && All == old(All) + [obj]
      ensures State() == CacheTables.Create(old(State()), rec, KeyOf(rec.id))
    {
      obj := CreateAs(rec, KeyOf(rec.id));
    }

    method CreateAs(rec: Record, key: CString) returns (obj: CacheObj)
      requires Valid()
      modifies this
      ensures Valid() && fresh(obj) && All == old(All) + [obj]
      ensures State() == CacheTables.Create(old(State()), rec, key)
    {
      CreatedIs(State(), rec, key);
      obj := Insert(NewObj(rec, key, Clock), key);
      SetModified(true);
    }

    /** A new object in the list and in the hash. */
    method Insert(o: Obj, key: CString) returns (obj: CacheObj)
      requires Valid()
      modifies this`All, this`Objects, this`Objs, this`List, this`Clock, this`Hash, this`Index
      ensures Valid() && fresh(obj) && All == old(All) + [obj]
      ensures Objs == old(Objs) + [o] && List == old(List) + [|old(Objs)|] && Clock == old(Clock) + 1
      ensures Index == CacheTables.Hash(old(Index), key, |old(Objs)|)
    {
      obj := AddTail(o);
      HashAdd(key, obj);
    }

    method FindData(key: CString) returns (obj: CacheObj?)
      requires Valid()
      ensures obj != null ==> Has(obj)
      ensures CacheTables.FindData(State(), key) == if obj == null then None else Some(obj.Handle)
    {
      obj := if key in Hash then Hash[key] else null;
    }

    method Unlink(obj: CacheObj)
      requires Valid() && Has(obj)
      modifies this`Objects, this`List
      ensures Valid() && List == Without(old(List), obj.Handle)
    {
      var i, kept := |Objects|, [];
      ghost var list := [];
      while i > 0
        invariant 0 <= i <= |Objects| && |kept| == |list| && list == Without(List[i..], obj.Handle)
        invariant forall j :: 0 <= j < |list| ==> list[j] < |All| && kept[j] == All[list[j]]
      {
        i := i - 1;
        assert List[i..][1..] == List[i + 1..];
        if Objects[i] != obj {
          kept, list := [Objects[i]] + kept, [List[i]] + list;
        }
      }
      assert List[0..] == List;
      Objects, List := kept, list;
    }

    method Relink(obj: CacheObj)
      requires Valid() && Has(obj)
      modifies this`Objects, this`List
      ensures Valid() && List == old(List) + [obj.Handle]
    {
      Objects, List := Objects + [obj], List + [obj.Handle];
    }

    /** One more reference, and a new time of last access. */
    method Reacquire(obj: CacheObj)
      requires Valid() && Has(obj)
      modifies this`Clock, this`Objs, obj
      ensures Valid() && Clock == old(Clock) + 1
      ensures Objs == old(Objs)[obj.Handle := Acquired(old(Objs)[obj.Handle]).(tick := old(Clock))]
    {
      obj.Acquire();
      obj.Tick := Clock;
      Clock := Clock + 1;
      Objs := Objs[obj.Handle := obj.Value()];
    }

    /** The least recently used objects stay in the first part of the list. */
    method MoveToTail(obj: CacheObj)
      requires Valid() && Has(obj)
      modifies this`Objects, this`List
      ensures Valid() && List == Without(old(List), obj.Handle) + [obj.Handle]
    {
      Unlink(obj);
      Relink(obj);
    }

    method Touch(obj: CacheObj)
      requires Valid() && Has(obj)
      modifies this`Objs, this`Objects, this`List, this`Clock, obj
      ensures Valid() && State() == Found(old(State()), obj.Handle)
    {
      FoundIs(State(), obj.Handle);
      Reacquire(obj);
      MoveToTail(obj);
    }

    method Find(id: seq<byte>) returns (obj: CacheObj?)
      requires Valid()
      modifies this, All
      ensures Valid() && All == old(All) && State() == CacheTables.Find(old(State()), KeyOf(id))
      ensures CacheTables.FindData(old(State()), KeyOf(id)) == if obj == null then None else Some(obj.Handle)
    {
      obj := FindData(KeyOf(id));
      if obj != null {
        Touch(obj);
      }
    }

    method Acquire(obj: CacheObj)
      requires Valid() && Has(obj)
      modifies this`Objs, obj
      ensures Valid() && State() == CacheTables.Acquire(old(State()), obj.Handle)
    {
      obj.Acquire();
      Objs := Objs[obj.Handle := obj.Value()];
    }

    method Release(obj: CacheObj)
      requires Valid() && Has(obj)
      modifies this, obj
      ensures Valid() && All == old(All) && State() == CacheTables.Release(old(State()), obj.Handle)
    {
      var gone := obj.Release();
      Objs := Objs[obj.Handle := obj.Value()];
      if gone {
        Unlink(obj);
      }
    }

    method HashRemove(key: CString)
      requires Valid()
      modifies this`Hash, this`Index
      ensures Valid() && Index == old(Index) - {key}
    {
      Hash, Index := Hash - {key}, Index - {key};
    }

    method Drop(obj: CacheObj)
      requires Valid() && Has(obj)
      modifies this`Objs, this`Objects, this`List, obj
      ensures Valid() && Objs == old(Objs)[obj.Handle := Dropped(old(Objs)[obj.Handle])]
      ensures List == if old(obj.RefCount) == 0 then Without(old(List), obj.Handle) else old(List)
    {
      var gone := obj.Delete();
      Objs := Objs[obj.Handle := obj.Value()];
      if gone {
        Unlink(obj);
      }
    }

    method Delete(obj: CacheObj)
      requires Valid() && Has(obj)
      modifies this, obj
      ensures Valid() && All == old(All) && State() == CacheTables.Delete(old(State()), obj.Handle)
    {
      if !obj.Deleted {
        DeletedIs(State(), obj.Handle);
        DecreaseSize(obj.Rec.size);
        HashRemove(obj.Key);
        Drop(obj);
        SetModified(true);
      }
    }

    method DeleteId(id: seq<byte>)
      requires Valid()
      modifies this, All
      ensures Valid() && All == old(All) && State() == CacheTables.DeleteId(old(State()), KeyOf(id))
    {
      var obj := FindData(KeyOf(id));
      if obj != null {
        Delete(obj);
      }
    }

    /** The first object from the k-th place on that can go. */
    method SkipBusy(from: nat) returns (k: nat)
      requires Valid()
      ensures from <= k && (k < |Objects| ==> Evictable(Objs[List[k]]))
      ensures PruneFrom(State(), k) == PruneFrom(State(), from)
    {
      k := from;
      while k < |Objects| && (Objects[k].RefCount > 0 || Objects[k].Deleted)
        invariant from <= k && PruneFrom(State(), k) == PruneFrom(State(), from)
      {
        assert List[k] < |Objs|;
        k := k + 1;
      }
    }

    method EvictAt(k: nat)
      requires Valid() && k < |Objects| && Evictable(Objs[List[k]])
      modifies this, All
      ensures Valid() && All == old(All) && State() == CacheTables.Delete(old(State()), old(List[k]))
      ensures |Objects| < old(|Objects|)
    {
      WithoutHolds(List, List[k]);
      Delete(Objects[k]);
    }

    /** Evicts from the head of the list on. */
    method Prune()
      requires Valid()
      modifies this, All
      ensures Valid() && All == old(All) && State() == CacheTables.Prune(old(State()))
    {
      var k, loop := 0, true;
      while loop && StoreSize > MaxSize
        invariant Valid() && All == old(All)
        invariant CacheTables.Prune(old(State())) ==
          if loop && StoreSize > MaxSize then PruneFrom(State(), k) else State()
        decreases |Objects|, loop
      {
        k := SkipBusy(k);
        loop := k < |Objects|;
        if loop {
          EvictAt(k);
        }
      }
    }

    /** What the listeners do, or anybody else; whether it returns. */
    method Perform(op: Op) returns (ok: bool)
      requires Valid()
      modifies this, All
      ensures old(All) <= All && forall h :: old(|All|) <= h < |All| ==> fresh(All[h])
      ensures Valid() && (ok <==> Returns(old(State()), op)) && (ok ==> State() == Apply(old(State()), op))
      decreases op, 1
    {
      ok := true;
      match op {
        case DoCreate(rec) => var obj := Create(rec);
        case DoFind(id) => var obj := Find(id);
        case DoDeleteId(id) => DeleteId(id);
        case DoDelete(h) => PerformOn(op, h);
        case DoAcquire(h) => PerformOn(op, h);
        case DoRelease(h) => PerformOn(op, h);
        case DoWrite(h, len, during) => if h < |All| { ok := Write(All[h], op); }
        case DoPrune => Prune();
        case DoWriteIndex(complete) => var index := WriteIndex(complete);
      }
    }

    method PerformOn(op: Op, h: nat)
      requires Valid() && op in {DoDelete(h), DoAcquire(h), DoRelease(h)}
      modifies this, All
      ensures All == old(All) && Valid() && State() == Apply(old(State()), op)
    {
      if h < |All| {
        match op {
          case DoDelete(_) => Delete(All[h]);
          case DoAcquire(_) => Acquire(All[h]);
          case DoRelease(_) => Release(All[h]);
        }
      }
    }

    method PerformAll(ops: seq<Op>) returns (ok: bool)
      requires Valid()
      modifies this, All
      ensures old(All) <= All && forall h :: old(|All|) <= h < |All| ==> fresh(All[h])
      ensures Valid() && (ok <==> ReturnsAll(old(State()), ops)) && (ok ==> State() == ApplyAll(old(State()), ops))
      decreases ops, 0
    {
      ok := true;
      if ops != [] {
        ok := Perform(ops[0]);
        if ok {
          ok := PerformAll(ops[1..]);
        }
      }
    }

    /** The store object takes the data; at 2^31 bytes its buffer throws, and so does whoever called. */
    method Append(obj: CacheObj, len: nat) returns (ok: bool)
      requires Valid() && Has(obj)
      modifies this`Objs, obj
      ensures Valid() && (ok <==> old(obj.Buffered) + len < 0x8000_0000)
      ensures State() == if ok then Buffer(old(State()), obj.Handle, len) else old(State())
    {
      ok := obj.Buffered + len < 0x8000_0000;
      if ok {
        obj.Buffered := obj.Buffered + len;
        Objs := Objs[obj.Handle := obj.Value()];
      }
    }

    /** The data is buffered, then the listeners are told, and only then is it written and counted. */
    method Write(obj: CacheObj, op: Op) returns (ok: bool)
      requires Valid() && Has(obj) && op.DoWrite? && op.h == obj.Handle
      modifies this, All
      ensures old(All) <= All && forall h :: old(|All|) <= h < |All| ==> fresh(All[h])
      ensures Valid() && (ok <==> Returns(old(State()), op)) && (ok ==> State() == Apply(old(State()), op))
      decreases op, 0
    {
      ok := true;
      if obj.IsNew {
        ok := Append(obj, op.len);
        if ok {
          ok := PerformAll(op.during);
          if ok {
            Count(obj, op.len);
          }
        }
      }
    }

    method Count(obj: CacheObj, len: nat)
      requires Valid() && Has(obj)
      modifies this`StoreSize, this`Objs, obj
      ensures Valid() && State() == Written(old(State()), obj.Handle, len)
    {
      if !obj.DontWrite {
        StoreSize := StoreSize + len;
      }
      if !obj.Deleted {
        obj.Rec := obj.Rec.(size := U32(obj.Rec.size + len));
        Objs := Objs[obj.Handle := obj.Value()];
      }
    }

    /** How many objects are to be saved, and whether that is all. */
    method CountComplete(complete: set<nat>) returns (num: nat, allsaved: bool)
      requires Valid()
      ensures num == |Kept(Objs, List, complete)| && (allsaved <==> num == |List|)
    {
      num, allsaved := 0, true;
      var i := 0;
      while i < |Objects|
        invariant 0 <= i <= |Objects| && num + |Kept(Objs, List[i..], complete)| == |Kept(Objs, List, complete)|
        invariant num <= i && (allsaved <==> num == i)
      {
        assert List[i..][1..] == List[i + 1..];
        if Objects[i].Handle in complete && !Objects[i].Deleted {
          num := num + 1;
        } else {
          allsaved := false;
        }
        i := i + 1;
      }
    }

    /** The entry of the i-th object in the list, if it gets one. */
    method SaveObject(data: seq<byte>, i: nat, complete: set<nat>) returns (data': seq<byte>)
      requires Valid() && i < |Objects|
      modifies this`StoreSize
      ensures data' + SaveRest(Objs, List, i + 1, complete) == data + SaveRest(Objs, List, i, complete)
      ensures Valid() && StoreSize == old(StoreSize) + |data'| - |data|
    {
      SaveNext(Objs, List, i, complete);
      data' := data;
      if Objects[i].Handle in complete && !Objects[i].Deleted {
        var entry := SaveToIdx(Objects[i].Rec);
        UpdateSize(|entry|);
        data' := data + entry;
        Assoc(data, entry, SaveRest(Objs, List, i + 1, complete));
      }
    }

    /** What is written is counted on the store as it goes. */
    method SaveAll(complete: set<nat>) returns (data: seq<byte>)
      requires Valid()
      modifies this`StoreSize
      ensures data == SaveRest(Objs, List, 0, complete)
      ensures Valid() && StoreSize == old(StoreSize) + |data|
    {
      data := [];
      var i := 0;
      while i < |Objects|
        invariant Valid() && 0 <= i <= |Objects| && StoreSize == old(StoreSize) + |data|
        invariant data + SaveRest(Objs, List, i, complete) == SaveRest(Objs, List, 0, complete)
      {
        data := SaveObject(data, i, complete);
        i := i + 1;
      }
      NothingToSave(Objs, List, complete);
    }

    method WriteEntries(num: nat, complete: set<nat>) returns (index: seq<byte>)
      requires Valid()
      modifies this`StoreSize
      ensures index == PutNumber(INDEX_VERSION, 4) + (PutNumber(num, 4) + SaveRest(Objs, List, 0, complete))
      ensures Valid() && StoreSize == old(StoreSize) + |index|
    {
      UpdateSize(4);
      UpdateSize(4);
      var data := SaveAll(complete);
      index := PutNumber(INDEX_VERSION, 4) + (PutNumber(num, 4) + data);
    }

    /** What the index adds to the store comes off again. */
    method SaveIndex(complete: set<nat>) returns (index: seq<byte>, allsaved: bool)
      requires Valid()
      modifies this`StoreSize
      ensures Valid() && StoreSize == old(StoreSize)
      ensures index == Save(IndexRecords(State(), complete)) && (allsaved <==> |Kept(Objs, List, complete)| == |List|)
    {
      var num: nat;
      num, allsaved := CountComplete(complete);
      assert List[0..] == List;
      index := WriteEntries(num, complete);
      DecreaseSize(|index|);
    }

    /** `complete`: the handles of the objects which IsComplete() finds complete. */
    method WriteIndex(complete: set<nat>) returns (index: seq<byte>)
      requires Valid()
      modifies this`StoreSize, this`Modified
      ensures Valid() && State() == CacheTables.WriteIndex(old(State()), complete)
      ensures index == if old(Modified) then Save(IndexRecords(old(State()), complete)) else []
    {
      index := [];
      if Modified {
        var allsaved;
        index, allsaved := SaveIndex(complete);
        if allsaved {
          SetModified(false);
        }
      }
    }

    /** The file holds as much as it says. */
    method LoadIndex(file: seq<byte>)
      requires Valid() && Load(file).Some?
      modifies this
      ensures Valid() && State() == LoadAll(old(State()), Load(file).value)
    {
      var rs, i := Load(file).value, 0;
      assert rs[0..] == rs;
      while i < |rs|
        invariant Valid() && 0 <= i <= |rs| && LoadAll(State(), rs[i..]) == LoadAll(old(State()), rs)
      {
        assert rs[i..][1..] == rs[i + 1..];
        LoadObject(rs[i]);
        i := i + 1;
      }
    }

    method LoadObject(rec: Record)
      requires Valid()
      modifies this
      ensures Valid() && State() == Load1(old(State()), rec, KeyOf(rec.id))
    {
      LoadAs(rec, KeyOf(rec.id));
    }

    method LoadAs(rec: Record, key: CString)
      requires Valid()
      modifies this
      ensures Valid() && State() == Load1(old(State()), rec, key)
    {
      LoadedIs(State(), rec, key);
      var obj := Insert(LoadedObj(rec, key, Clock), key);
      UpdateSize(rec.size);
    }
  }

  lemma NothingToSave(objs: seq<Obj>, list: seq<nat>, complete: set<nat>)
    ensures SaveRest(objs, list, |list|, complete) == []
  {}

  lemma SaveNext(objs: seq<Obj>, list: seq<nat>, i: nat, complete: set<nat>)
    requires InRange(objs, list) && i < |list|
    ensures var rest := SaveRest(objs, list, i + 1, complete);
      SaveRest(objs, list, i, complete) ==
        if list[i] in complete && !objs[list[i]].deleted then SaveToIdx(objs[list[i]].rec) + rest else rest
  {
    assert list[i..][1..] == list[i + 1..];
    SaveFirst(objs, list[i], Kept(objs, list[i + 1..], complete));
  }

  lemma SaveFirst(objs: seq<Obj>, h: nat, rest: seq<nat>)
    requires h < |objs| && InRange(objs, rest)
    ensures InRange(objs, [h] + rest)
    ensures SaveObjects(Records(objs, [h] + rest)) == SaveToIdx(objs[h].rec) + SaveObjects(Records(objs, rest))
  {
    assert ([h] + rest)[1..] == rest;
  }
}
