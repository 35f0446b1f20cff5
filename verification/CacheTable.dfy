/** The object cache as values: the objects, the list kept in access order, the hash by id, and the
    running total of the store. */
module CacheTables {
  import opened Bytes
  import opened CStrings
  import opened IndexFile

  /** `key`: the id as the hash compares it. `attached`: there is an open store object; `buffered`: how much
      data that has been given; `dontWrite`: it has been told to stop writing. `freed`: the object is no
      more. `tick`: when it was last created or found. */
  datatype Obj = Obj(rec: Record, key: CString, refs: nat, deleted: bool, isNew: bool, attached: bool,
                     buffered: nat, dontWrite: bool, freed: bool, tick: nat)

  /** Objects are known by their position in `objs`, which keeps those that are gone. */
  datatype Cache = Cache(objs: seq<Obj>, list: seq<nat>, hash: map<CString, nat>, store: int, maxSize: nat,
                         modified: bool, clock: nat)

  // ---- the invariant ----

  function Weight(o: Obj): nat
  {
    if o.deleted then 0 else o.rec.size
  }

  /** The sizes of the objects that are not deleted. */
  function Total(objs: seq<Obj>): nat
  {
    if objs == [] then 0 else Total(objs[..|objs| - 1]) + Weight(objs[|objs| - 1])
  }

  predicate InRange(objs: seq<Obj>, list: seq<nat>)
  {
    forall i :: 0 <= i < |list| ==> list[i] < |objs|
  }

  /** The list is in order of last access, and so holds nothing twice. */
  ghost predicate Sorted(objs: seq<Obj>, list: seq<nat>)
  {
    InRange(objs, list) && forall i, j :: 0 <= i < j < |list| ==> objs[list[i]].tick < objs[list[j]].tick
  }

  /** The list holds just the objects that are still there. */
  ghost predicate Listed(objs: seq<Obj>, list: seq<nat>)
  {
    forall h: nat :: h in list <==> h < |objs| && !objs[h].freed
  }

  /** The hash finds only objects that are not deleted. */
  ghost predicate Hashed(objs: seq<Obj>, hash: map<CString, nat>)
  {
    forall k <- hash :: hash[k] < |objs| && !objs[hash[k]].deleted && objs[hash[k]].key == k
  }

  /** The hash finds every object that is not deleted. */
  ghost predicate AllHashed(objs: seq<Obj>, hash: map<CString, nat>)
  {
    forall h :: 0 <= h < |objs| && !objs[h].deleted ==> objs[h].key in hash && hash[objs[h].key] == h
  }

  /** An object goes when it is deleted and nobody refers to it; its store object stops writing just
      when it is deleted. */
  ghost predicate Marked(o: Obj)
  {
    && (o.freed <==> o.deleted && o.refs == 0)
    && (o.attached ==> o.refs > 0 && (o.dontWrite <==> o.deleted))
  }

  ghost predicate Past(objs: seq<Obj>, clock: nat)
  {
    forall i :: 0 <= i < |objs| ==> objs[i].tick < clock && Marked(objs[i])
  }

  ghost predicate InOrder(objs: seq<Obj>, list: seq<nat>, clock: nat)
  {
    Sorted(objs, list) && Listed(objs, list) && Past(objs, clock)
  }

  ghost predicate Inv(c: Cache)
  {
    InOrder(c.objs, c.list, c.clock) && Hashed(c.objs, c.hash) && c.store == Total(c.objs)
  }

  // ---- operations ----

  function SetObj(c: Cache, h: nat, o: Obj): Cache
    requires h < |c.objs|
  {
    c.(objs := c.objs[h := o])
  }

  /** StrHash::Add: an id that is there already stays as it is. */
  function Hash(hash: map<CString, nat>, key: CString, h: nat): map<CString, nat>
  {
    if key in hash then hash else hash[key := h]
  }

  function Create(c: Cache, rec: Record, key: CString): Cache
  {
    var o := Obj(rec.(size := 0), key, 1, false, true, true, 0, false, false, c.clock);
    c.(objs := c.objs + [o], list := c.list + [|c.objs|], modified := true, clock := c.clock + 1,
       hash := Hash(c.hash, key, |c.objs|))
  }

  function FindData(c: Cache, key: CString): Option<nat>
  {
    if key in c.hash then Some(c.hash[key]) else None
  }

  /** One more reference, and the last place in the list. */
  function Found(c: Cache, h: nat): Cache
    requires h < |c.objs|
  {
    var o := c.objs[h];
    SetObj(c, h, o.(refs := o.refs + 1, tick := c.clock)).(list := Without(c.list, h) + [h], clock := c.clock + 1)
  }

  function Find(c: Cache, key: CString): Cache
  {
    match FindData(c, key) case None => c case Some(h) => if h < |c.objs| then Found(c, h) else c
  }

  /** An object with one reference less: without any it lets go of its store object, and is freed if
      it is deleted. */
  function Released(o: Obj): Obj
  {
    if o.refs > 1 then o.(refs := o.refs - 1)
    else o.(refs := 0, attached := false, freed := o.freed || o.deleted)
  }

  /** An object that goes leaves the list. */
  function Placed(c: Cache, h: nat, o: Obj, goes: bool): Cache
    requires h < |c.objs|
  {
    c.(objs := c.objs[h := o], list := if goes then Without(c.list, h) else c.list)
  }

  function Acquired(o: Obj): Obj
  {
    o.(refs := o.refs + 1)
  }

  function Acquire(c: Cache, h: nat): Cache
    requires h < |c.objs|
  {
    SetObj(c, h, Acquired(c.objs[h]))
  }

  function Release(c: Cache, h: nat): Cache
    requires h < |c.objs|
  {
    Placed(c, h, Released(c.objs[h]), c.objs[h].refs <= 1 && c.objs[h].deleted)
  }

  /** CacheObj::Delete: the mark is set under a reference of its own. */
  function Dropped(o: Obj): Obj
  {
    Released(o.(refs := o.refs + 1, deleted := true, dontWrite := o.dontWrite || o.attached))
  }

  function Delete(c: Cache, h: nat): Cache
    requires h < |c.objs|
  {
    var o := c.objs[h];
    if o.deleted then c
    else
      var d := c.(store := c.store - o.rec.size, hash := c.hash - {o.key}, modified := true);
      Placed(d, h, Dropped(o), o.refs == 0)
  }

  function Buffered(o: Obj, len: nat): Obj
  {
    o.(buffered := o.buffered + len)
  }

  /** StoreObj::Write appends to its buffer first. */
  function Buffer(c: Cache, h: nat, len: nat): Cache
    requires h < |c.objs|
  {
    SetObj(c, h, Buffered(c.objs[h], len))
  }

  /** The end of CacheObj::Write, after the listeners have had the data: what is on the store and what
      the object says of itself. */
  function Written(c: Cache, h: nat, len: nat): Cache
    requires h < |c.objs|
  {
    var o := c.objs[h];
    var d := if o.dontWrite then c else c.(store := c.store + len);
    if o.deleted then d else SetObj(d, h, Longer(o, len))
  }

  function Longer(o: Obj, len: nat): Obj
  {
    o.(rec := o.rec.(size := U32(o.rec.size + len)))
  }

  function DeleteId(c: Cache, key: CString): Cache
  {
    match FindData(c, key) case None => c case Some(h) => if h < |c.objs| then Delete(c, h) else c
  }

  // ---- each keeps the invariant ----

  lemma {:induction false} TotalSet(objs: seq<Obj>, h: nat, o: Obj)
    requires h < |objs|
    ensures Total(objs[h := o]) == Total(objs) - Weight(objs[h]) + Weight(o)
    decreases |objs|
  {
    var n := |objs| - 1;
    if h < n {
      assert objs[h := o][..n] == objs[..n][h := o];
      TotalSet(objs[..n], h, o);
    } else {
      assert objs[h := o][..n] == objs[..n];
    }
  }

  lemma TotalSnoc(objs: seq<Obj>, o: Obj)
    ensures Total(objs + [o]) == Total(objs) + Weight(o)
  {
    assert (objs + [o])[..|objs|] == objs;
  }

  ghost predicate AllAfter(objs: seq<Obj>, list: seq<nat>, tick: nat)
    requires InRange(objs, list)
  {
    forall i :: 0 <= i < |list| ==> tick < objs[list[i]].tick
  }

  lemma WithoutAfter(objs: seq<Obj>, list: seq<nat>, h: nat, tick: nat)
    requires InRange(objs, list) && AllAfter(objs, list, tick)
    ensures InRange(objs, Without(list, h)) && AllAfter(objs, Without(list, h), tick)
  {
    WithoutHolds(list, h);
    var l := Without(list, h);
    assert forall y :: y in list ==> 0 <= y < |objs| && tick < objs[y].tick;
    assert forall i :: 0 <= i < |l| ==> l[i] in l;
  }

  lemma ConsSorted(objs: seq<Obj>, h: nat, list: seq<nat>)
    requires h < |objs| && Sorted(objs, list) && AllAfter(objs, list, objs[h].tick)
    ensures Sorted(objs, [h] + list)
  {}

  /** The order of the others is the same without one of them. */
  lemma {:induction false} WithoutSorted(objs: seq<Obj>, list: seq<nat>, h: nat)
    requires Sorted(objs, list)
    ensures Sorted(objs, Without(list, h))
  {
    if list != [] {
      WithoutSorted(objs, list[1..], h);
      if list[0] != h {
        WithoutAfter(objs, list[1..], h, objs[list[0]].tick);
        ConsSorted(objs, list[0], Without(list[1..], h));
      }
    }
  }

  lemma SetSorted(objs: seq<Obj>, list: seq<nat>, h: nat, o: Obj)
    requires Sorted(objs, list) && h < |objs| && o.tick == objs[h].tick
    ensures Sorted(objs[h := o], list)
  {}

  lemma SetPast(objs: seq<Obj>, clock: nat, h: nat, o: Obj)
    requires Past(objs, clock) && h < |objs| && o.tick < clock && Marked(o)
    ensures Past(objs[h := o], clock)
  {}

  lemma StaysListed(objs: seq<Obj>, list: seq<nat>, h: nat, o: Obj)
    requires Listed(objs, list) && h < |objs| && o.freed == objs[h].freed
    ensures Listed(objs[h := o], list)
  {}

  lemma GoesListed(objs: seq<Obj>, list: seq<nat>, h: nat, o: Obj)
    requires Listed(objs, list) && h < |objs| && o.freed
    ensures Listed(objs[h := o], Without(list, h))
  {
    WithoutHolds(list, h);
  }

  /** One object changes, but not its tick; if it goes, it leaves the list. */
  lemma SetInOrder(objs: seq<Obj>, list: seq<nat>, clock: nat, h: nat, o: Obj)
    requires InOrder(objs, list, clock) && h < |objs| && Marked(o) && !objs[h].freed && o.tick == objs[h].tick
    ensures o.freed ==> InOrder(objs[h := o], Without(list, h), clock)
    ensures !o.freed ==> InOrder(objs[h := o], list, clock)
  {
    SetPast(objs, clock, h, o);
    if o.freed {
      WithoutSorted(objs, list, h);
      SetSorted(objs, Without(list, h), h, o);
      GoesListed(objs, list, h, o);
    } else {
      SetSorted(objs, list, h, o);
      StaysListed(objs, list, h, o);
    }
  }

  lemma SetHashed(objs: seq<Obj>, hash: map<CString, nat>, h: nat, o: Obj)
    requires Hashed(objs, hash) && h < |objs| && o.key == objs[h].key && o.deleted == objs[h].deleted
    ensures Hashed(objs[h := o], hash)
  {}

  lemma UnhashKeeps(objs: seq<Obj>, hash: map<CString, nat>, h: nat, o: Obj)
    requires Hashed(objs, hash) && h < |objs| && !objs[h].deleted
    ensures Hashed(objs[h := o], hash - {objs[h].key})
  {}

  lemma HashNew(objs: seq<Obj>, hash: map<CString, nat>, o: Obj)
    requires Hashed(objs, hash) && !o.deleted
    ensures Hashed(objs + [o], Hash(hash, o.key, |objs|))
  {}

  lemma NewInOrder(objs: seq<Obj>, list: seq<nat>, clock: nat, o: Obj)
    requires InOrder(objs, list, clock) && o.tick == clock && !o.freed && Marked(o)
    ensures InOrder(objs + [o], list + [|objs|], clock + 1)
  {}

  lemma LastSorted(objs: seq<Obj>, list: seq<nat>, clock: nat, h: nat, o: Obj)
    requires Sorted(objs, list) && h !in list && h < |objs| && o.tick == clock
    requires forall i :: 0 <= i < |objs| ==> objs[i].tick < clock
    ensures Sorted(objs[h := o], list + [h])
  {
    assert forall i :: 0 <= i < |list| ==> list[i] in list;
  }

  lemma LastListed(objs: seq<Obj>, list: seq<nat>, h: nat, o: Obj)
    requires Listed(objs, list) && h < |objs| && !objs[h].freed && !o.freed
    ensures Listed(objs[h := o], Without(list, h) + [h])
  {
    WithoutHolds(list, h);
  }

  /** One object changes, and becomes the last in the list. */
  lemma LastInOrder(objs: seq<Obj>, list: seq<nat>, clock: nat, h: nat, o: Obj)
    requires InOrder(objs, list, clock) && h < |objs| && !objs[h].freed
    requires o.tick == clock && !o.freed && Marked(o)
    ensures InOrder(objs[h := o], Without(list, h) + [h], clock + 1)
  {
    WithoutSorted(objs, list, h);
    WithoutHolds(list, h);
    LastSorted(objs, Without(list, h), clock, h, o);
    LastListed(objs, list, h, o);
  }

  lemma CreateKeepsInv(c: Cache, rec: Record, key: CString)
    requires Inv(c)
    ensures Inv(Create(c, rec, key))
  {
    var o := Obj(rec.(size := 0), key, 1, false, true, true, 0, false, false, c.clock);
    TotalSnoc(c.objs, o);
    NewInOrder(c.objs, c.list, c.clock, o);
    HashNew(c.objs, c.hash, o);
  }

  lemma FoundKeepsInv(c: Cache, h: nat)
    requires Inv(c) && h < |c.objs| && !c.objs[h].freed
    ensures Inv(Found(c, h))
  {
    var o := Found(c, h).objs[h];
    TotalSet(c.objs, h, o);
    LastInOrder(c.objs, c.list, c.clock, h, o);
    SetHashed(c.objs, c.hash, h, o);
  }

  lemma PlacedKeepsInv(c: Cache, h: nat, o: Obj)
    requires Inv(c) && h < |c.objs| && Marked(o) && !c.objs[h].freed && o.tick == c.objs[h].tick
    requires o.key == c.objs[h].key && o.deleted == c.objs[h].deleted
    ensures Inv(Placed(c, h, o, o.freed).(store := c.store - Weight(c.objs[h]) + Weight(o)))
  {
    TotalSet(c.objs, h, o);
    SetInOrder(c.objs, c.list, c.clock, h, o);
    SetHashed(c.objs, c.hash, h, o);
  }

  lemma ReleaseKeepsInv(c: Cache, h: nat)
    requires Inv(c) && h < |c.objs| && !c.objs[h].freed
    ensures Inv(Release(c, h))
  {
    PlacedKeepsInv(c, h, Released(c.objs[h]));
  }

  /** An object changes in nothing that the cache depends on. */
  lemma ChangeKeepsInv(c: Cache, h: nat, o: Obj)
    requires Inv(c) && h < |c.objs| && Marked(o) && !o.freed && !c.objs[h].freed && o.tick == c.objs[h].tick
    requires o.key == c.objs[h].key && o.deleted == c.objs[h].deleted && Weight(o) == Weight(c.objs[h])
    ensures Inv(SetObj(c, h, o))
  {
    PlacedKeepsInv(c, h, o);
  }

  lemma AcquireKeepsInv(c: Cache, h: nat)
    requires Inv(c) && h < |c.objs| && !c.objs[h].freed
    ensures Inv(Acquire(c, h))
  {
    assert Marked(c.objs[h]);
    ChangeKeepsInv(c, h, Acquired(c.objs[h]));
  }

  lemma BufferKeepsInv(c: Cache, h: nat, len: nat)
    requires Inv(c) && h < |c.objs| && !c.objs[h].freed
    ensures Inv(Buffer(c, h, len))
  {
    assert Marked(c.objs[h]);
    ChangeKeepsInv(c, h, Buffered(c.objs[h], len));
  }

  lemma WrittenKeepsInv(c: Cache, h: nat, len: nat)
    requires Inv(c) && h < |c.objs| && c.objs[h].attached
    requires !c.objs[h].deleted ==> c.objs[h].rec.size + len < 0x1_0000_0000
    ensures Inv(Written(c, h, len))
  {
    var o := c.objs[h];
    assert Marked(o);
    if !o.deleted {
      PlacedKeepsInv(c, h, Longer(o, len));
    }
  }

  lemma DroppedIsMarked(o: Obj)
    requires Marked(o) && !o.deleted
    ensures Marked(Dropped(o)) && Dropped(o).deleted && Dropped(o).tick == o.tick
  {}

  lemma DeleteInOrder(c: Cache, h: nat)
    requires InOrder(c.objs, c.list, c.clock) && h < |c.objs| && !c.objs[h].deleted && !c.objs[h].freed
    ensures InOrder(Delete(c, h).objs, Delete(c, h).list, Delete(c, h).clock)
  {
    assert Marked(c.objs[h]);
    DroppedIsMarked(c.objs[h]);
    SetInOrder(c.objs, c.list, c.clock, h, Dropped(c.objs[h]));
  }

  /** Deleting takes off the store just what the object has on it, which is not less than that. */
  lemma DeleteCounts(c: Cache, h: nat)
    requires c.store == Total(c.objs) && h < |c.objs|
    ensures Delete(c, h).store == Total(Delete(c, h).objs) >= 0
  {
    TotalSet(c.objs, h, Dropped(c.objs[h]));
  }

  lemma DeleteKeepsInv(c: Cache, h: nat)
    requires Inv(c) && h < |c.objs| && !c.objs[h].freed
    ensures Inv(Delete(c, h))
  {
    if !c.objs[h].deleted {
      DeleteInOrder(c, h);
      DeleteCounts(c, h);
      UnhashKeeps(c.objs, c.hash, h, Dropped(c.objs[h]));
    }
  }

  // ---- pruning ----

  predicate Evictable(o: Obj)
  {
    o.refs == 0 && !o.deleted
  }

  /** The loop of Prune from the k-th place in the list on. */
  function PruneFrom(c: Cache, k: nat): Cache
    decreases |c.list| - k
  {
    if k >= |c.list| || c.list[k] >= |c.objs| then c
    else if !Evictable(c.objs[c.list[k]]) then PruneFrom(c, k + 1)
    else
      var d := Delete(c, c.list[k]);
      WithoutHolds(c.list, c.list[k]);
      if d.store > d.maxSize then PruneFrom(d, k) else d
  }

  function Prune(c: Cache): Cache
  {
    if c.store > c.maxSize then PruneFrom(c, 0) else c
  }

  /** What may be evicted, in the order of the list. */
  function Candidates(objs: seq<Obj>, list: seq<nat>): (r: seq<nat>)
    requires InRange(objs, list)
    ensures InRange(objs, r) && forall i :: 0 <= i < |r| ==> Evictable(objs[r[i]])
  {
    if list == [] then []
    else if Evictable(objs[list[0]]) then [list[0]] + Candidates(objs, list[1..])
    else Candidates(objs, list[1..])
  }

  function Sizes(objs: seq<Obj>, hs: seq<nat>): nat
    requires InRange(objs, hs)
  {
    if hs == [] then 0 else objs[hs[0]].rec.size + Sizes(objs, hs[1..])
  }

  /** How many of `hs` have to go for the store to fit. */
  function Needed(objs: seq<Obj>, hs: seq<nat>, store: int, max: nat): (n: nat)
    requires InRange(objs, hs)
    ensures n <= |hs|
  {
    if hs == [] || store <= max then 0 else 1 + Needed(objs, hs[1..], store - objs[hs[0]].rec.size, max)
  }

  /** It is the least number that suffices, or all when none does. */
  lemma {:induction false} NeededIsLeast(objs: seq<Obj>, hs: seq<nat>, store: int, max: nat)
    requires InRange(objs, hs)
    ensures var n := Needed(objs, hs, store, max);
      && (n == |hs| || store - Sizes(objs, hs[..n]) <= max)
      && forall j :: 0 <= j < n ==> store - Sizes(objs, hs[..j]) > max
  {
    if hs != [] && store > max {
      var size := objs[hs[0]].rec.size;
      var n := Needed(objs, hs, store, max);
      NeededIsLeast(objs, hs[1..], store - size, max);
      forall j | 1 <= j <= n ensures Sizes(objs, hs[..j]) == size + Sizes(objs, hs[1..][..j - 1]) {
        assert hs[..j][1..] == hs[1..][..j - 1];
      }
    }
  }

  function DeleteAll(c: Cache, hs: seq<nat>): Cache
    requires InRange(c.objs, hs)
    decreases |hs|
  {
    if hs == [] then c else DeleteAll(Delete(c, hs[0]), hs[1..])
  }

  lemma {:induction false} CandidatesSame(a: seq<Obj>, b: seq<Obj>, list: seq<nat>, store: int, max: nat)
    requires InRange(a, list) && |a| == |b| && forall i :: 0 <= i < |list| ==> a[list[i]] == b[list[i]]
    ensures Candidates(a, list) == Candidates(b, list)
    ensures Needed(a, Candidates(a, list), store, max) == Needed(b, Candidates(b, list), store, max)
  {
    if list != [] {
      CandidatesSame(a, b, list[1..], store, max);
      CandidatesSame(a, b, list[1..], store - a[list[0]].rec.size, max);
    }
  }

  /** Evicting the k-th object leaves those after it where they were, and as they were. */
  lemma EvictOne(c: Cache, k: nat)
    requires Inv(c) && k < |c.list| && Evictable(c.objs[c.list[k]])
    ensures var d, rest := Delete(c, c.list[k]), c.list[k + 1..];
      && |d.objs| == |c.objs| && d.maxSize == c.maxSize && d.store == c.store - c.objs[c.list[k]].rec.size
      && k <= |d.list| && d.list[k..] == rest
      && forall i :: 0 <= i < |rest| ==> d.objs[rest[i]] == c.objs[rest[i]]
  {
    WithoutAt(c.list, k);
  }

  lemma NeededTakesFirst(objs: seq<Obj>, h: nat, e: seq<nat>, store: int, max: nat)
    requires h < |objs| && InRange(objs, e) && store > max
    ensures ([h] + e)[..Needed(objs, [h] + e, store, max)] == [h] + e[..Needed(objs, e, store - objs[h].rec.size, max)]
  {
    assert ([h] + e)[1..] == e;
  }

  lemma DeleteFirst(c: Cache, h: nat, hs: seq<nat>)
    requires h < |c.objs| && InRange(c.objs, hs)
    ensures InRange(c.objs, [h] + hs) && DeleteAll(c, [h] + hs) == DeleteAll(Delete(c, h), hs)
  {
    assert ([h] + hs)[1..] == hs;
  }

  lemma CandidatesFrom(objs: seq<Obj>, list: seq<nat>, k: nat)
    requires InRange(objs, list) && k < |list|
    ensures var e := Candidates(objs, list[k + 1..]);
      Candidates(objs, list[k..]) == if Evictable(objs[list[k]]) then [list[k]] + e else e
  {
    assert list[k..] == [list[k]] + list[k + 1..];
  }

  /** The victims of the loop from the k-th place on. */
  function VictimsFrom(c: Cache, k: nat): (r: seq<nat>)
    requires InRange(c.objs, c.list) && k <= |c.list|
    ensures InRange(c.objs, r)
  {
    var e := Candidates(c.objs, c.list[k..]);
    e[..Needed(c.objs, e, c.store, c.maxSize)]
  }

  /** Two caches that agree on a part of their lists. */
  lemma VictimsOfRest(c: Cache, rest: seq<nat>, store: int, d: Cache, k: nat)
    requires InRange(c.objs, rest) && InRange(d.objs, d.list) && |d.objs| == |c.objs|
    requires d.maxSize == c.maxSize && d.store == store && k <= |d.list| && d.list[k..] == rest
    requires forall i :: 0 <= i < |rest| ==> d.objs[rest[i]] == c.objs[rest[i]]
    ensures var e := Candidates(c.objs, rest); VictimsFrom(d, k) == e[..Needed(c.objs, e, store, c.maxSize)]
  {
    CandidatesSame(c.objs, d.objs, rest, store, c.maxSize);
  }

  lemma VictimsFromNext(c: Cache, k: nat, d: Cache, rest: seq<nat>)
    requires InRange(c.objs, c.list) && c.store > c.maxSize && k < |c.list| && Evictable(c.objs[c.list[k]])
    requires InRange(d.objs, d.list) && |d.objs| == |c.objs| && d.maxSize == c.maxSize
    requires d.store == c.store - c.objs[c.list[k]].rec.size
    requires k <= |d.list| && d.list[k..] == rest == c.list[k + 1..]
    requires forall i :: 0 <= i < |rest| ==> d.objs[rest[i]] == c.objs[rest[i]]
    ensures VictimsFrom(c, k) == [c.list[k]] + VictimsFrom(d, k)
  {
    VictimsOfRest(c, rest, d.store, d, k);
    VictimsHere(c, k, rest);
  }

  lemma VictimsHere(c: Cache, k: nat, rest: seq<nat>)
    requires InRange(c.objs, c.list) && c.store > c.maxSize && k < |c.list| && Evictable(c.objs[c.list[k]])
    requires rest == c.list[k + 1..]
    ensures var e, h := Candidates(c.objs, rest), c.list[k];
      VictimsFrom(c, k) == [h] + e[..Needed(c.objs, e, c.store - c.objs[h].rec.size, c.maxSize)]
  {
    CandidatesFrom(c.objs, c.list, k);
    NeededTakesFirst(c.objs, c.list[k], Candidates(c.objs, rest), c.store, c.maxSize);
  }

  lemma {:induction false} PruneFromDeletes(c: Cache, k: nat)
    requires Inv(c) && c.store > c.maxSize && k <= |c.list|
    ensures PruneFrom(c, k) == DeleteAll(c, VictimsFrom(c, k))
    decreases |c.list| - k
  {
    if k < |c.list| {
      if !Evictable(c.objs[c.list[k]]) {
        CandidatesFrom(c.objs, c.list, k);
        PruneFromDeletes(c, k + 1);
      } else {
        EvictAndGoOn(c, k);
      }
    }
  }

  lemma {:induction false} EvictAndGoOn(c: Cache, k: nat)
    requires Inv(c) && c.store > c.maxSize && k < |c.list| && Evictable(c.objs[c.list[k]])
    ensures PruneFrom(c, k) == DeleteAll(c, VictimsFrom(c, k))
    decreases |c.list| - k, 0
  {
    var d := Delete(c, c.list[k]);
    EvictOne(c, k);
    DeleteKeepsInv(c, c.list[k]);
    VictimsFromNext(c, k, d, c.list[k + 1..]);
    DeleteFirst(c, c.list[k], VictimsFrom(d, k));
    if d.store > d.maxSize {
      PruneFromDeletes(d, k);
    } else {
      assert VictimsFrom(d, k) == [];
    }
  }

  /** The victims, and nothing else, are deleted and gone; the others stay in order. */
  ghost predicate Evicted(c: Cache, d: Cache, victims: seq<nat>)
    requires InRange(c.objs, victims)
  {
    && |d.objs| == |c.objs| && d.maxSize == c.maxSize && d.store == c.store - Sizes(c.objs, victims)
    && (forall h :: 0 <= h < |c.objs| ==> d.objs[h] == if h in victims then Dropped(c.objs[h]) else c.objs[h])
    && (forall h <- victims :: d.objs[h].freed)
  }

  ghost predicate AllEvictable(objs: seq<Obj>, hs: seq<nat>)
  {
    && InRange(objs, hs)
    && (forall i :: 0 <= i < |hs| ==> Evictable(objs[hs[i]]))
    && (forall i, j :: 0 <= i < j < |hs| ==> hs[i] != hs[j])
  }

  lemma OneLess(c: Cache, hs: seq<nat>)
    requires AllEvictable(c.objs, hs) && hs != []
    ensures AllEvictable(Delete(c, hs[0]).objs, hs[1..]) && hs[0] !in hs[1..]
    ensures forall h <- hs[1..] :: Delete(c, hs[0]).objs[h] == c.objs[h]
  {}

  lemma {:induction false} DeleteAllEvicts(c: Cache, hs: seq<nat>)
    requires AllEvictable(c.objs, hs)
    ensures Evicted(c, DeleteAll(c, hs), hs)
    decreases |hs|
  {
    if hs != [] {
      var d := Delete(c, hs[0]);
      OneLess(c, hs);
      DeleteAllEvicts(d, hs[1..]);
      SizesSame(c.objs, d.objs, hs[1..]);
    }
  }

  lemma {:induction false} DeleteAllKeepsInv(c: Cache, hs: seq<nat>)
    requires Inv(c) && AllEvictable(c.objs, hs)
    ensures Inv(DeleteAll(c, hs))
    decreases |hs|
  {
    if hs != [] {
      OneLess(c, hs);
      DeleteKeepsInv(c, hs[0]);
      DeleteAllKeepsInv(Delete(c, hs[0]), hs[1..]);
    }
  }

  lemma {:induction false} SizesSame(a: seq<Obj>, b: seq<Obj>, hs: seq<nat>)
    requires InRange(a, hs) && |a| == |b| && forall h <- hs :: a[h] == b[h]
    ensures Sizes(a, hs) == Sizes(b, hs)
  {
    if hs != [] {
      SizesSame(a, b, hs[1..]);
    }
  }

  lemma {:induction false} CandidatesAfter(objs: seq<Obj>, list: seq<nat>, tick: nat)
    requires InRange(objs, list) && AllAfter(objs, list, tick)
    ensures AllAfter(objs, Candidates(objs, list), tick)
  {
    if list != [] {
      CandidatesAfter(objs, list[1..], tick);
    }
  }

  lemma {:induction false} CandidatesSorted(objs: seq<Obj>, list: seq<nat>)
    requires Sorted(objs, list)
    ensures Sorted(objs, Candidates(objs, list))
  {
    if list != [] {
      CandidatesSorted(objs, list[1..]);
      CandidatesAfter(objs, list[1..], objs[list[0]].tick);
    }
  }

  function Victims(c: Cache): seq<nat>
    requires InRange(c.objs, c.list)
  {
    VictimsFrom(c, 0)
  }

  lemma PruneDeletes(c: Cache)
    requires Inv(c)
    ensures Prune(c) == DeleteAll(c, Victims(c)) && AllEvictable(c.objs, Victims(c))
  {
    assert c.list[0..] == c.list;
    CandidatesSorted(c.objs, c.list);
    if c.store > c.maxSize {
      PruneFromDeletes(c, 0);
    }
  }

  lemma PruneKeepsInv(c: Cache)
    requires Inv(c)
    ensures Inv(Prune(c))
  {
    PruneDeletes(c);
    DeleteAllKeepsInv(c, Victims(c));
  }

  /** Pruning evicts the least recently used of the objects that are not in use, as few of them as
      bring the store to its maximum, or all of them when that is not enough. */
  lemma PruneEvictsLeast(c: Cache)
    requires Inv(c)
    ensures var e, n := Candidates(c.objs, c.list), |Victims(c)|;
      && Victims(c) == e[..n] && Evicted(c, Prune(c), Victims(c))
      && (n == |e| || Prune(c).store <= c.maxSize)
      && forall j :: 0 <= j < n ==> c.store - Sizes(c.objs, e[..j]) > c.maxSize
  {
    assert c.list[0..] == c.list;
    NeededIsLeast(c.objs, Candidates(c.objs, c.list), c.store, c.maxSize);
    PruneDeletes(c);
    DeleteAllEvicts(c, Victims(c));
  }

  // ---- the index ----

  /** The objects that go to the index: those that are complete and not deleted. */
  function Kept(objs: seq<Obj>, list: seq<nat>, complete: set<nat>): (r: seq<nat>)
    ensures InRange(objs, r) && |r| <= |list|
  {
    if list == [] then []
    else if list[0] in complete && list[0] < |objs| && !objs[list[0]].deleted then
      [list[0]] + Kept(objs, list[1..], complete)
    else Kept(objs, list[1..], complete)
  }

  lemma {:induction false} KeptAfter(objs: seq<Obj>, list: seq<nat>, complete: set<nat>, tick: nat)
    requires InRange(objs, list) && AllAfter(objs, list, tick)
    ensures AllAfter(objs, Kept(objs, list, complete), tick)
  {
    if list != [] {
      KeptAfter(objs, list[1..], complete, tick);
    }
  }

  lemma {:induction false} KeptSorted(objs: seq<Obj>, list: seq<nat>, complete: set<nat>)
    requires Sorted(objs, list)
    ensures Sorted(objs, Kept(objs, list, complete))
  {
    if list != [] {
      KeptSorted(objs, list[1..], complete);
      KeptAfter(objs, list[1..], complete, objs[list[0]].tick);
    }
  }

  lemma {:induction false} KeptIff(objs: seq<Obj>, list: seq<nat>, complete: set<nat>, h: nat)
    ensures h in Kept(objs, list, complete) <==> h in list && h in complete && h < |objs| && !objs[h].deleted
  {
    if list != [] {
      KeptIff(objs, list[1..], complete, h);
    }
  }

  function Records(objs: seq<Obj>, hs: seq<nat>): (r: seq<Record>)
    requires InRange(objs, hs)
    ensures |r| == |hs| && forall i :: 0 <= i < |hs| ==> r[i] == objs[hs[i]].rec
  {
    if hs == [] then [] else [objs[hs[0]].rec] + Records(objs, hs[1..])
  }

  function IndexRecords(c: Cache, complete: set<nat>): seq<Record>
  {
    Records(c.objs, Kept(c.objs, c.list, complete))
  }

  /** The index need not be written again once everything is in it. */
  function WriteIndex(c: Cache, complete: set<nat>): Cache
  {
    c.(modified := c.modified && |Kept(c.objs, c.list, complete)| < |c.list|)
  }

  /** One object read from the index. */
  function Load1(c: Cache, rec: Record, key: CString): Cache
  {
    var o := Obj(rec, key, 0, false, false, false, 0, false, false, c.clock);
    c.(objs := c.objs + [o], list := c.list + [|c.objs|], store := c.store + rec.size, clock := c.clock + 1,
       hash := Hash(c.hash, key, |c.objs|))
  }

  // ---- runs ----

  /** The id as the hash compares it: a C string, without regard to case. */
  function KeyOf(id: seq<byte>): CString
  {
    Lower(Chars(CStr(id)))
  }

  function Char(b: byte): cchar
    requires b != 0
  {
    if b < 128 then b as int else b as int - 256
  }

  function Chars(s: seq<byte>): CString
    requires 0 !in s
  {
    seq(|s|, i requires 0 <= i < |s| => Char(s[i]))
  }

  type Length = n: nat | n < 0x8000_0000

  /** `during`: what the listeners do when they are given the data, before it is counted. */
  datatype Op = DoCreate(rec: Record) | DoFind(id: seq<byte>) | DoDeleteId(id: seq<byte>) | DoDelete(h: nat)
              | DoAcquire(h: nat) | DoRelease(h: nat) | DoWrite(h: nat, len: Length, during: seq<Op>) | DoPrune
              | DoWriteIndex(complete: set<nat>)

  function Apply(c: Cache, op: Op): Cache
    decreases op
  {
    match op
    case DoCreate(rec) => Create(c, rec, KeyOf(rec.id))
    case DoFind(id) => Find(c, KeyOf(id))
    case DoDeleteId(id) => DeleteId(c, KeyOf(id))
    case DoDelete(h) => if h < |c.objs| then Delete(c, h) else c
    case DoAcquire(h) => if h < |c.objs| then Acquire(c, h) else c
    case DoRelease(h) => if h < |c.objs| then Release(c, h) else c
    case DoWrite(h, len, during) =>
      if h < |c.objs| && c.objs[h].isNew then
        var d := ApplyAll(Buffer(c, h, len), during);
        if h < |d.objs| then Written(d, h, len) else d
      else c
    case DoPrune => Prune(c)
    case DoWriteIndex(complete) => WriteIndex(c, complete)
  }

  function ApplyAll(c: Cache, ops: seq<Op>): Cache
    decreases ops
  {
    if ops == [] then c else ApplyAll(Apply(c, ops[0]), ops[1..])
  }

  ghost predicate There(c: Cache, h: nat)
  {
    h < |c.objs| && !c.objs[h].freed
  }

  /** Only objects that are there are used; who writes keeps the reference it got from Create. */
  ghost predicate Allowed(c: Cache, op: Op)
    decreases op
  {
    match op
    case DoCreate(rec) => Storable(rec) && NulFree(rec)
    case DoFind(_) => true
    case DoDeleteId(_) => true
    case DoDelete(h) => There(c, h)
    case DoAcquire(h) => There(c, h)
    case DoRelease(h) => There(c, h)
    case DoWrite(h, len, during) =>
      There(c, h) &&
      (c.objs[h].isNew ==> AllowedAll(Buffer(c, h, len), during) && Open(ApplyAll(Buffer(c, h, len), during), h))
    case DoPrune => true
    case DoWriteIndex(_) => true
  }

  ghost predicate Open(c: Cache, h: nat)
  {
    h < |c.objs| && c.objs[h].attached
  }

  ghost predicate AllowedAll(c: Cache, ops: seq<Op>)
    decreases ops
  {
    ops == [] || (Allowed(c, ops[0]) && AllowedAll(Apply(c, ops[0]), ops[1..]))
  }

  /** A buffer cannot grow to 2^31 bytes: a write that would bring it there does not return. */
  predicate Returns(c: Cache, op: Op)
    decreases op
  {
    op.DoWrite? && op.h < |c.objs| && c.objs[op.h].isNew ==>
      c.objs[op.h].buffered + op.len < 0x8000_0000 && ReturnsAll(Buffer(c, op.h, op.len), op.during)
  }

  predicate ReturnsAll(c: Cache, ops: seq<Op>)
    decreases ops
  {
    ops == [] || (Returns(c, ops[0]) && ReturnsAll(Apply(c, ops[0]), ops[1..]))
  }

  /** The object can be written to the index, is hashed under its own id, and, if it is new, has had
      all the bytes of its size. */
  ghost predicate ProperObj(o: Obj)
  {
    && Storable(o.rec) && NulFree(o.rec) && o.key == KeyOf(o.rec.id)
    && (o.isNew ==> o.rec.size <= o.buffered < 0x8000_0000)
  }

  ghost predicate Proper(objs: seq<Obj>)
  {
    forall i :: 0 <= i < |objs| ==> ProperObj(objs[i])
  }

  /** The same but for its size, which is possible. */
  predicate SameText(o: Obj, p: Obj)
  {
    && p.key == o.key && p.rec == o.rec.(size := p.rec.size) && p.isNew == o.isNew
    && (if p.isNew then p.rec.size <= p.buffered < 0x8000_0000 else p.rec.size == o.rec.size)
  }

  lemma SameTextIsProper(o: Obj, p: Obj)
    requires ProperObj(o) && SameText(o, p)
    ensures ProperObj(p)
  {
    assert Power(4) == 0x1_0000_0000;
  }

  lemma SetKeepsProper(objs: seq<Obj>, h: nat, p: Obj)
    requires Proper(objs) && h < |objs| && SameText(objs[h], p)
    ensures Proper(objs[h := p])
  {
    SameTextIsProper(objs[h], p);
  }

  // ---- what the objects say of their sizes ----

  /** Bytes an object has been given and does not count. */
  function Slack(o: Obj): int
  {
    o.buffered - o.rec.size
  }

  /** From one state to a later one: an object that is not deleted counts all it has been given since. */
  ghost predicate Steady(c: seq<Obj>, d: seq<Obj>)
  {
    && |c| <= |d|
    && (forall h :: 0 <= h < |c| ==> d[h].isNew == c[h].isNew && (c[h].deleted ==> d[h].deleted))
    && (forall h :: 0 <= h < |c| && !d[h].deleted ==> Slack(d[h]) == Slack(c[h]))
    && (forall h :: |c| <= h < |d| ==> d[h].isNew && (!d[h].deleted ==> Slack(d[h]) == 0))
  }

  lemma SteadyThen(c: seq<Obj>, d: seq<Obj>, e: seq<Obj>)
    requires Steady(c, d) && Steady(d, e)
    ensures Steady(c, e)
  {}

  lemma SetIsSteady(objs: seq<Obj>, h: nat, p: Obj)
    requires h < |objs| && p.isNew == objs[h].isNew && (objs[h].deleted ==> p.deleted)
    requires !p.deleted ==> Slack(p) == Slack(objs[h])
    ensures Steady(objs, objs[h := p])
  {}

  /** What pruning leaves of each object. */
  lemma PruneChanges(c: Cache)
    requires Inv(c)
    ensures |Prune(c).objs| == |c.objs|
    ensures forall h :: 0 <= h < |c.objs| ==> Prune(c).objs[h] in {c.objs[h], Dropped(c.objs[h])}
  {
    PruneEvictsLeast(c);
  }

  lemma PruneIsSteady(c: Cache)
    requires Inv(c)
    ensures Steady(c.objs, Prune(c).objs)
  {
    PruneChanges(c);
  }

  lemma PruneKeepsProper(c: Cache)
    requires Inv(c) && Proper(c.objs)
    ensures Proper(Prune(c).objs)
  {
    PruneChanges(c);
    forall i | 0 <= i < |c.objs| ensures ProperObj(Prune(c).objs[i]) {
      assert ProperObj(c.objs[i]);
      SameTextIsProper(c.objs[i], Prune(c).objs[i]);
    }
  }

  // ---- every run ----

  ghost predicate Good(c: Cache)
  {
    Inv(c) && Proper(c.objs)
  }

  /** What an operation does to a good cache. */
  ghost predicate Fine(c: Cache, d: Cache)
  {
    Good(d) && Steady(c.objs, d.objs)
  }

  lemma NewKeepsProper(objs: seq<Obj>, rec: Record, tick: nat)
    requires Proper(objs) && Storable(rec) && NulFree(rec)
    ensures var o := Obj(rec.(size := 0), KeyOf(rec.id), 1, false, true, true, 0, false, false, tick);
      Proper(objs + [o]) && Steady(objs, objs + [o])
  {
    var o := Obj(rec.(size := 0), KeyOf(rec.id), 1, false, true, true, 0, false, false, tick);
    assert ProperObj(o);
    assert forall i :: 0 <= i < |objs| ==> (objs + [o])[i] == objs[i];
  }

  lemma CreateKeepsGood(c: Cache, rec: Record)
    requires Good(c) && Storable(rec) && NulFree(rec)
    ensures Fine(c, Create(c, rec, KeyOf(rec.id)))
  {
    CreateKeepsInv(c, rec, KeyOf(rec.id));
    NewKeepsProper(c.objs, rec, c.clock);
  }

  lemma SetKeepsGood(c: Cache, h: nat, p: Obj, d: Cache)
    requires Good(c) && h < |c.objs| && Inv(d) && d.objs == c.objs[h := p] && p.rec == c.objs[h].rec
    requires p.key == c.objs[h].key && p.isNew == c.objs[h].isNew && (c.objs[h].deleted ==> p.deleted)
    requires p.buffered == c.objs[h].buffered
    ensures Fine(c, d)
  {
    assert ProperObj(c.objs[h]);
    SetKeepsProper(c.objs, h, p);
    SetIsSteady(c.objs, h, p);
  }

  lemma FoundKeepsGood(c: Cache, h: nat)
    requires Good(c) && There(c, h)
    ensures Fine(c, Found(c, h))
  {
    FoundKeepsInv(c, h);
    SetKeepsGood(c, h, Found(c, h).objs[h], Found(c, h));
  }

  lemma FindKeepsGood(c: Cache, key: CString)
    requires Good(c)
    ensures Fine(c, Find(c, key))
  {
    if key in c.hash {
      assert Marked(c.objs[c.hash[key]]);
      FoundKeepsGood(c, c.hash[key]);
    }
  }

  lemma DeleteKeepsGood(c: Cache, h: nat)
    requires Good(c) && There(c, h)
    ensures Fine(c, Delete(c, h))
  {
    DeleteKeepsInv(c, h);
    if !c.objs[h].deleted {
      SetKeepsGood(c, h, Dropped(c.objs[h]), Delete(c, h));
    }
  }

  lemma DeleteIdKeepsGood(c: Cache, key: CString)
    requires Good(c)
    ensures Fine(c, DeleteId(c, key))
  {
    if key in c.hash {
      assert Marked(c.objs[c.hash[key]]);
      DeleteKeepsGood(c, c.hash[key]);
    }
  }

  lemma AcquireKeepsGood(c: Cache, h: nat)
    requires Good(c) && There(c, h)
    ensures Fine(c, Acquire(c, h))
  {
    AcquireKeepsInv(c, h);
    SetKeepsGood(c, h, Acquired(c.objs[h]), Acquire(c, h));
  }

  lemma ReleaseKeepsGood(c: Cache, h: nat)
    requires Good(c) && There(c, h)
    ensures Fine(c, Release(c, h))
  {
    ReleaseKeepsInv(c, h);
    SetKeepsGood(c, h, Released(c.objs[h]), Release(c, h));
  }

  lemma PruneKeepsGood(c: Cache)
    requires Good(c)
    ensures Fine(c, Prune(c))
  {
    PruneKeepsInv(c);
    PruneKeepsProper(c);
    PruneIsSteady(c);
  }

  lemma BufferKeepsGood(c: Cache, h: nat, len: nat)
    requires Good(c) && There(c, h) && (c.objs[h].isNew ==> c.objs[h].buffered + len < 0x8000_0000)
    ensures Good(Buffer(c, h, len))
  {
    BufferKeepsInv(c, h, len);
    assert ProperObj(c.objs[h]);
    SetKeepsProper(c.objs, h, Buffered(c.objs[h], len));
  }

  /** After the listeners, an object that is not deleted has room for the new bytes in its count. */
  lemma RoomToCount(o: Obj, b: Obj, p: Obj, len: nat)
    requires ProperObj(o) && o.isNew && b == Buffered(o, len)
    requires ProperObj(p) && p.isNew && !p.deleted && Slack(p) == Slack(b)
    ensures Longer(p, len).rec.size == p.rec.size + len <= p.buffered && SameText(p, Longer(p, len))
    ensures Slack(Longer(p, len)) == Slack(o)
  {}

  lemma WrittenKeepsGood(c: Cache, d: Cache, h: nat, len: nat)
    requires There(c, h) && ProperObj(c.objs[h]) && c.objs[h].isNew
    requires Good(d) && Steady(Buffer(c, h, len).objs, d.objs) && d.objs[h].attached
    ensures Fine(c, Written(d, h, len))
    ensures !d.objs[h].deleted ==> Written(d, h, len).objs[h].rec.size == d.objs[h].rec.size + len
  {
    var b := Buffer(c, h, len);
    assert ProperObj(d.objs[h]) && d.objs[h].isNew == b.objs[h].isNew;
    if d.objs[h].deleted {
      WrittenKeepsInv(d, h, len);
      UnbufferedIsSteady(c.objs, h, b.objs, d.objs);
    } else {
      RoomToCount(c.objs[h], b.objs[h], d.objs[h], len);
      WrittenKeepsInv(d, h, len);
      SetKeepsProper(d.objs, h, Longer(d.objs[h], len));
      CountedIsSteady(c.objs, h, b.objs, d.objs, Longer(d.objs[h], len));
    }
  }

  lemma UnbufferedIsSteady(c: seq<Obj>, h: nat, b: seq<Obj>, d: seq<Obj>)
    requires h < |c| == |b| && b == c[h := b[h]] && b[h].isNew == c[h].isNew && b[h].deleted == c[h].deleted
    requires Steady(b, d) && d[h].deleted
    ensures Steady(c, d)
  {}

  lemma CountedIsSteady(c: seq<Obj>, h: nat, b: seq<Obj>, d: seq<Obj>, p: Obj)
    requires h < |c| == |b| && b == c[h := b[h]] && b[h].isNew == c[h].isNew && b[h].deleted == c[h].deleted
    requires Steady(b, d) && p.isNew == d[h].isNew && p.deleted == d[h].deleted && Slack(p) == Slack(c[h])
    ensures Steady(c, d[h := p])
  {}

  /** The store is always the sum of what is not deleted, the list always in access order, and no size is
      ever cut off, whatever the listeners do in the middle of a write: delete the very object, prune,
      create, write in turn. */
  lemma {:induction false} ApplyKeepsGood(c: Cache, op: Op)
    requires Good(c) && Allowed(c, op) && Returns(c, op)
    ensures Good(Apply(c, op)) && Steady(c.objs, Apply(c, op).objs)
    decreases op, 1
  {
    match op {
      case DoCreate(rec) => CreateKeepsGood(c, rec);
      case DoFind(id) => FindKeepsGood(c, KeyOf(id));
      case DoDeleteId(id) => DeleteIdKeepsGood(c, KeyOf(id));
      case DoDelete(h) => DeleteKeepsGood(c, h);
      case DoAcquire(h) => AcquireKeepsGood(c, h);
      case DoRelease(h) => ReleaseKeepsGood(c, h);
      case DoWrite(h, len, during) => WriteIsCounted(c, op);
      case DoPrune => PruneKeepsGood(c);
      case DoWriteIndex(_) =>
    }
  }

  /** A write that returns is counted once and in full: on the store and by the object, unless a listener
      has deleted that, and then not at all. */
  lemma {:induction false} WriteIsCounted(c: Cache, op: Op)
    requires Good(c) && Allowed(c, op) && Returns(c, op) && op.DoWrite?
    ensures Good(Apply(c, op)) && Steady(c.objs, Apply(c, op).objs)
    ensures c.objs[op.h].isNew ==>
      var d, e := ApplyAll(Buffer(c, op.h, op.len), op.during), Apply(c, op);
      if d.objs[op.h].deleted then e == d
      else e.store == d.store + op.len && e.objs[op.h].rec.size == d.objs[op.h].rec.size + op.len
    decreases op, 0
  {
    if c.objs[op.h].isNew {
      var b := Buffer(c, op.h, op.len);
      BufferKeepsGood(c, op.h, op.len);
      ApplyAllKeepsGood(b, op.during);
      var d := ApplyAll(b, op.during);
      assert ProperObj(c.objs[op.h]) && Marked(d.objs[op.h]);
      WrittenKeepsGood(c, d, op.h, op.len);
    }
  }

  lemma {:induction false} ApplyAllKeepsGood(c: Cache, ops: seq<Op>)
    requires Good(c) && AllowedAll(c, ops) && ReturnsAll(c, ops)
    ensures Good(ApplyAll(c, ops)) && Steady(c.objs, ApplyAll(c, ops).objs)
    decreases ops, 0
  {
    if ops != [] {
      var d := Apply(c, ops[0]);
      ApplyKeepsGood(c, ops[0]);
      ApplyAllKeepsGood(d, ops[1..]);
      SteadyThen(c.objs, d.objs, ApplyAll(d, ops[1..]).objs);
    }
  }

  lemma ExactFromNothing(objs: seq<Obj>)
    requires Proper(objs) && Steady([], objs)
    ensures forall h :: 0 <= h < |objs| && !objs[h].deleted ==> objs[h].rec.size == objs[h].buffered < 0x8000_0000
  {
    forall h | 0 <= h < |objs| && !objs[h].deleted
      ensures objs[h].rec.size == objs[h].buffered < 0x8000_0000
    {
      assert ProperObj(objs[h]) && Slack(objs[h]) == 0;
    }
  }

  /** In every run from an empty cache each object that is not deleted counts exactly the bytes it has
      been given. */
  lemma SizesAreExact(c: Cache, ops: seq<Op>)
    requires Good(c) && c.objs == [] && AllowedAll(c, ops) && ReturnsAll(c, ops)
    ensures var d := ApplyAll(c, ops);
      && d.store == Total(d.objs)
      && forall h :: 0 <= h < |d.objs| && !d.objs[h].deleted ==> d.objs[h].rec.size == d.objs[h].buffered < 0x8000_0000
  {
    ApplyAllKeepsGood(c, ops);
    ExactFromNothing(ApplyAll(c, ops).objs);
  }

  lemma DeletedIsNotCounted(c: Cache, h: nat, len: nat)
    requires h < |c.objs| && c.objs[h].attached && !c.objs[h].deleted
    ensures h < |Delete(c, h).objs| && Written(Delete(c, h), h, len) == Delete(c, h)
  {}

  lemma WriteIs(c: Cache, h: nat, len: Length, during: seq<Op>)
    requires h < |c.objs| && c.objs[h].isNew
    ensures var d := ApplyAll(Buffer(c, h, len), during);
      h < |d.objs| ==> Apply(c, DoWrite(h, len, during)) == Written(d, h, len)
  {}

  /** What a listener that deletes the object in the middle of a write does to the store: what had been
      counted before comes off, and the new data is not counted at all. */
  lemma DeletedDuringItsWrite(c: Cache, h: nat, len: Length)
    requires h < |c.objs| && c.objs[h].isNew && c.objs[h].attached && !c.objs[h].deleted
    ensures Apply(c, DoWrite(h, len, [DoDelete(h)])) == Delete(Buffer(c, h, len), h)
    ensures Delete(Buffer(c, h, len), h).store == c.store - c.objs[h].rec.size
  {
    var b := Buffer(c, h, len);
    WriteIs(c, h, len, [DoDelete(h)]);
    ApplyOne(b, DoDelete(h));
    DeletedIsNotCounted(b, h, len);
  }

  lemma ApplyOne(c: Cache, op: Op)
    ensures ApplyAll(c, [op]) == Apply(c, op)
  {
    assert [op][1..] == [];
    assert ApplyAll(c, [op]) == ApplyAll(Apply(c, op), []);
  }

  // ---- runs that create no id twice ----

  ghost predicate Unique(c: Cache)
  {
    AllHashed(c.objs, c.hash)
  }

  /** The new object is found, and all the others still are, if and only if its id is not there yet; the
      store and the order of the list are kept either way. */
  lemma CreateKeepsUniqueIff(c: Cache, rec: Record, key: CString)
    requires Inv(c) && Unique(c)
    ensures Inv(Create(c, rec, key)) && (Unique(Create(c, rec, key)) <==> key !in c.hash)
  {
    CreateKeepsInv(c, rec, key);
    var d := Create(c, rec, key);
    if key in c.hash {
      assert d.objs[|c.objs|].key == key && d.hash[key] != |c.objs|;
    }
  }

  lemma SetUnique(objs: seq<Obj>, hash: map<CString, nat>, h: nat, o: Obj)
    requires AllHashed(objs, hash) && h < |objs| && o.key == objs[h].key && o.deleted == objs[h].deleted
    ensures AllHashed(objs[h := o], hash)
  {}

  lemma DeleteKeepsUnique(c: Cache, h: nat)
    requires Unique(c) && h < |c.objs|
    ensures Unique(Delete(c, h))
  {}

  lemma {:induction false} DeleteAllKeepsUnique(c: Cache, hs: seq<nat>)
    requires Unique(c) && InRange(c.objs, hs)
    ensures Unique(DeleteAll(c, hs))
    decreases |hs|
  {
    if hs != [] {
      DeleteKeepsUnique(c, hs[0]);
      DeleteAllKeepsUnique(Delete(c, hs[0]), hs[1..]);
    }
  }

  lemma PruneKeepsUnique(c: Cache)
    requires Inv(c) && Unique(c)
    ensures Unique(Prune(c))
  {
    PruneDeletes(c);
    DeleteAllKeepsUnique(c, Victims(c));
  }

  lemma FindKeepsUnique(c: Cache, key: CString)
    requires Unique(c)
    ensures Unique(Find(c, key)) && Unique(DeleteId(c, key))
  {
    if key in c.hash && c.hash[key] < |c.objs| {
      var h := c.hash[key];
      SetUnique(c.objs, c.hash, h, Found(c, h).objs[h]);
      DeleteKeepsUnique(c, h);
    }
  }

  lemma RefKeepsUnique(c: Cache, h: nat)
    requires Unique(c) && h < |c.objs|
    ensures Unique(Acquire(c, h)) && Unique(Release(c, h))
  {
    SetUnique(c.objs, c.hash, h, Acquired(c.objs[h]));
    SetUnique(c.objs, c.hash, h, Released(c.objs[h]));
  }

  /** No id is created while it is in the cache. */
  predicate NewIds(c: Cache, op: Op)
    decreases op
  {
    match op
    case DoCreate(rec) => KeyOf(rec.id) !in c.hash
    case DoWrite(h, len, during) => h < |c.objs| && c.objs[h].isNew ==> NewIdsAll(Buffer(c, h, len), during)
    case _ => true
  }

  predicate NewIdsAll(c: Cache, ops: seq<Op>)
    decreases ops
  {
    ops == [] || (NewIds(c, ops[0]) && NewIdsAll(Apply(c, ops[0]), ops[1..]))
  }

  /** Then the hash finds every object that is not deleted. */
  lemma {:induction false} ApplyKeepsUnique(c: Cache, op: Op)
    requires Good(c) && Unique(c) && Allowed(c, op) && Returns(c, op) && NewIds(c, op)
    ensures Unique(Apply(c, op))
    decreases op, 1
  {
    match op {
      case DoCreate(rec) => CreateKeepsUniqueIff(c, rec, KeyOf(rec.id));
      case DoFind(id) => FindKeepsUnique(c, KeyOf(id));
      case DoDeleteId(id) => FindKeepsUnique(c, KeyOf(id));
      case DoDelete(h) => DeleteKeepsUnique(c, h);
      case DoAcquire(h) => RefKeepsUnique(c, h);
      case DoRelease(h) => RefKeepsUnique(c, h);
      case DoWrite(h, len, during) => WriteKeepsUnique(c, op);
      case DoPrune => PruneKeepsUnique(c);
      case DoWriteIndex(_) =>
    }
  }

  lemma {:induction false} WriteKeepsUnique(c: Cache, op: Op)
    requires Good(c) && Unique(c) && Allowed(c, op) && Returns(c, op) && NewIds(c, op) && op.DoWrite?
    ensures Unique(Apply(c, op))
    decreases op, 0
  {
    if c.objs[op.h].isNew {
      var b := Buffer(c, op.h, op.len);
      BufferKeepsGood(c, op.h, op.len);
      SetUnique(c.objs, c.hash, op.h, b.objs[op.h]);
      ApplyAllKeepsUnique(b, op.during);
      var d := ApplyAll(b, op.during);
      SetUnique(d.objs, d.hash, op.h, Longer(d.objs[op.h], op.len));
    }
  }

  lemma {:induction false} ApplyAllKeepsUnique(c: Cache, ops: seq<Op>)
    requires Good(c) && Unique(c) && AllowedAll(c, ops) && ReturnsAll(c, ops) && NewIdsAll(c, ops)
    ensures Unique(ApplyAll(c, ops))
    decreases ops, 0
  {
    if ops != [] {
      ApplyKeepsGood(c, ops[0]);
      ApplyKeepsUnique(c, ops[0]);
      ApplyAllKeepsUnique(Apply(c, ops[0]), ops[1..]);
    }
  }

  // ---- who is deleted ----

  /** Deleting marks one object, and takes it off the store and out of the hash; all others stay as they are. */
  lemma DeleteMarks(c: Cache, h: nat)
    requires Inv(c) && h < |c.objs| && !c.objs[h].deleted
    ensures var d := Delete(c, h);
      && |d.objs| == |c.objs| && d.objs[h].deleted && d.store == c.store - c.objs[h].rec.size
      && (forall i :: 0 <= i < |c.objs| && i != h ==> d.objs[i] == c.objs[i])
      && (forall k <- d.hash :: d.hash[k] != h)
      && (forall k <- c.hash :: k != c.objs[h].key ==> k in d.hash && d.hash[k] == c.hash[k])
      && d.list == if c.objs[h].refs == 0 then Without(c.list, h) else c.list
  {}

  // ---- restart ----

  function LoadAll(c: Cache, rs: seq<Record>): Cache
    decreases |rs|
  {
    if rs == [] then c else LoadAll(Load1(c, rs[0], KeyOf(rs[0].id)), rs[1..])
  }

  function Empty(maxSize: nat): Cache
  {
    Cache([], [], map[], 0, maxSize, false, 0)
  }

  function SumSizes(rs: seq<Record>): nat
  {
    if rs == [] then 0 else rs[0].size + SumSizes(rs[1..])
  }

  /** Records which can be in the cache together, with what it has. */
  ghost predicate Compatible(c: Cache, rs: seq<Record>)
  {
    && (forall i :: 0 <= i < |rs| ==> Storable(rs[i]) && NulFree(rs[i]) && KeyOf(rs[i].id) !in c.hash)
    && (forall i, j :: 0 <= i < j < |rs| ==> KeyOf(rs[i].id) != KeyOf(rs[j].id))
  }

  lemma Load1IsProper(objs: seq<Obj>, rec: Record, tick: nat)
    requires Proper(objs) && Storable(rec) && NulFree(rec)
    ensures Proper(objs + [Obj(rec, KeyOf(rec.id), 0, false, false, false, 0, false, false, tick)])
  {
    assert ProperObj(Obj(rec, KeyOf(rec.id), 0, false, false, false, 0, false, false, tick));
  }

  lemma Load1KeepsInv(c: Cache, rec: Record, key: CString)
    requires Inv(c)
    ensures Inv(Load1(c, rec, key))
  {
    var o := Obj(rec, key, 0, false, false, false, 0, false, false, c.clock);
    TotalSnoc(c.objs, o);
    NewInOrder(c.objs, c.list, c.clock, o);
    HashNew(c.objs, c.hash, o);
  }

  lemma Load1KeepsUnique(c: Cache, rec: Record, key: CString)
    requires Unique(c) && key !in c.hash
    ensures Unique(Load1(c, rec, key))
  {}

  lemma Load1KeepsGood(c: Cache, rec: Record)
    requires Good(c) && Unique(c) && Storable(rec) && NulFree(rec) && KeyOf(rec.id) !in c.hash
    ensures Good(Load1(c, rec, KeyOf(rec.id))) && Unique(Load1(c, rec, KeyOf(rec.id)))
  {
    Load1KeepsInv(c, rec, KeyOf(rec.id));
    Load1IsProper(c.objs, rec, c.clock);
    Load1KeepsUnique(c, rec, KeyOf(rec.id));
  }

  /** The objects made from the records: nobody refers to them, none is deleted. */
  function Fresh(rs: seq<Record>, clock: nat): (r: seq<Obj>)
    ensures |r| == |rs| && forall i :: 0 <= i < |rs| ==> r[i].rec == rs[i] && !r[i].deleted && r[i].refs == 0
  {
    if rs == [] then []
    else [Obj(rs[0], KeyOf(rs[0].id), 0, false, false, false, 0, false, false, clock)] + Fresh(rs[1..], clock + 1)
  }

  function Numbers(from: nat, n: nat): (r: seq<nat>)
    ensures |r| == n && forall i :: 0 <= i < n ==> r[i] == from + i
    decreases n
  {
    if n == 0 then [] else [from] + Numbers(from + 1, n - 1)
  }

  /** The records' objects have been added, at the end and in order. */
  ghost predicate Restored(c: Cache, d: Cache, rs: seq<Record>)
  {
    && d.objs == c.objs + Fresh(rs, c.clock) && d.list == c.list + Numbers(|c.objs|, |rs|)
    && d.store == c.store + SumSizes(rs)
  }

  lemma CompatibleNext(c: Cache, rs: seq<Record>)
    requires Compatible(c, rs) && rs != []
    ensures Compatible(Load1(c, rs[0], KeyOf(rs[0].id)), rs[1..])
  {}

  lemma {:induction false} LoadAllRestores(c: Cache, rs: seq<Record>)
    requires Good(c) && Unique(c) && Compatible(c, rs)
    ensures Good(LoadAll(c, rs)) && Unique(LoadAll(c, rs)) && Restored(c, LoadAll(c, rs), rs)
    decreases |rs|
  {
    if rs != [] {
      var m := Load1(c, rs[0], KeyOf(rs[0].id));
      Load1KeepsGood(c, rs[0]);
      CompatibleNext(c, rs);
      LoadAllRestores(m, rs[1..]);
      RestoredSnoc(c, m, LoadAll(c, rs), rs);
    }
  }

  lemma RestoredSnoc(c: Cache, m: Cache, d: Cache, rs: seq<Record>)
    requires rs != [] && m == Load1(c, rs[0], KeyOf(rs[0].id)) && Restored(m, d, rs[1..])
    ensures Restored(c, d, rs)
  {
    Assoc(c.objs, [m.objs[|c.objs|]], Fresh(rs[1..], m.clock));
    Assoc(c.list, [|c.objs|], Numbers(|m.objs|, |rs| - 1));
  }

  lemma IndexIsCompatible(c: Cache, complete: set<nat>, maxSize: nat)
    requires Good(c) && Unique(c)
    ensures Compatible(Empty(maxSize), IndexRecords(c, complete))
  {
    var hs := Kept(c.objs, c.list, complete);
    KeptSorted(c.objs, c.list, complete);
    forall i | 0 <= i < |hs|
      ensures ProperObj(c.objs[hs[i]])
      ensures KeyOf(c.objs[hs[i]].rec.id) in c.hash && c.hash[KeyOf(c.objs[hs[i]].rec.id)] == hs[i] {
      assert hs[i] in hs;
      KeptIff(c.objs, c.list, complete, hs[i]);
    }
  }

  lemma CompatibleIsReadBack(c: Cache, rs: seq<Record>, tail: seq<byte>)
    requires Compatible(c, rs) && |rs| < 0x8000_0000
    ensures Load(Save(rs) + tail) == Some(rs)
  {
    RoundTripIff(rs, tail);
  }

  /** The index of any cache, read back, is just what was written. */
  lemma IndexReadsBack(c: Cache, complete: set<nat>, tail: seq<byte>)
    requires Good(c) && Unique(c) && |IndexRecords(c, complete)| < 0x8000_0000
    ensures Load(Save(IndexRecords(c, complete)) + tail) == Some(IndexRecords(c, complete))
  {
    IndexIsCompatible(c, complete, 0);
    CompatibleIsReadBack(Empty(0), IndexRecords(c, complete), tail);
  }

  lemma EmptyIsGood(maxSize: nat)
    ensures Good(Empty(maxSize)) && Unique(Empty(maxSize))
  {
    assert Total([]) == 0;
  }

  lemma LoadRestores(maxSize: nat, rs: seq<Record>)
    requires Compatible(Empty(maxSize), rs)
    ensures Good(LoadAll(Empty(maxSize), rs)) && Unique(LoadAll(Empty(maxSize), rs))
    ensures Restored(Empty(maxSize), LoadAll(Empty(maxSize), rs), rs)
  {
    EmptyIsGood(maxSize);
    LoadAllRestores(Empty(maxSize), rs);
  }

  /** What a restart finds in it: every complete object that was not deleted, in the old order; the new
      cache is in order, and counts exactly their sizes. */
  lemma RestartRestores(c: Cache, complete: set<nat>, maxSize: nat)
    requires Good(c) && Unique(c)
    ensures Good(LoadAll(Empty(maxSize), IndexRecords(c, complete)))
    ensures Unique(LoadAll(Empty(maxSize), IndexRecords(c, complete)))
    ensures Restored(Empty(maxSize), LoadAll(Empty(maxSize), IndexRecords(c, complete)), IndexRecords(c, complete))
  {
    IndexIsCompatible(c, complete, maxSize);
    LoadRestores(maxSize, IndexRecords(c, complete));
  }
}
