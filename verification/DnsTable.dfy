/** The DNS cache as values: a ring of slots, the hash that finds them, and the waiters. */
module DnsTables {
  import opened CStrings

  /** An IPv4 address as a number. */
  type Addr = int

  const INADDR_NONE: Addr := 0xFFFF_FFFF

  datatype Slot = Free | Used(host: CString, addr: Addr, expire: int)

  /** A PendingReq: who waits, where the address is wanted, and what to call. */
  datatype Waiter = Waiter(host: CString, addr: int, callback: int, userdata: int)

  /** What the cache does to the world, in order. */
  datatype Effect =
    | Register(w: Waiter)               // a waiter joins the chain of its host
    | Cancelled(w: Waiter)
    | Fire(w: Waiter, len: int)         // its callback
    | Immediate(w: Waiter)              // a callback that never waited
    | Fill(at: int, value: Addr)        // an address copied to where `at` points
    | Ask(question: CString)            // a request to a resolver process
    | Store(key: CString, value: Addr)  // an answer entered in the table

  /** `firing`: the waiters whose callbacks the running IPCAnswer has still to make. */
  datatype Dns = Dns(items: seq<Slot>, free: nat, ttl: int, hash: map<CString, nat>,
                     pending: map<CString, seq<Waiter>>, firing: seq<Waiter>, log: seq<Effect>)

  function LastStored(log: seq<Effect>, key: CString): Option<Addr>
  {
    if log == [] then None
    else
      var e := log[|log| - 1];
      if e.Store? && e.key == key then Some(e.value) else LastStored(log[..|log| - 1], key)
  }

  ghost predicate SlotsAgree(items: seq<Slot>, hash: map<CString, nat>)
  {
    && (forall i :: 0 <= i < |items| && items[i].Used? ==>
          Lower(items[i].host) in hash && hash[Lower(items[i].host)] == i)
    && (forall k :: k in hash ==> hash[k] < |items| && items[hash[k]].Used? && Lower(items[hash[k]].host) == k)
  }

  ghost predicate ChainsAgree(pending: map<CString, seq<Waiter>>, hash: map<CString, nat>)
  {
    forall k :: k in pending ==>
      pending[k] != [] && k !in hash && forall i :: 0 <= i < |pending[k]| ==> Lower(pending[k][i].host) == k
  }

  ghost predicate Fresh(items: seq<Slot>, log: seq<Effect>)
  {
    forall i :: 0 <= i < |items| && items[i].Used? ==>
      LastStored(log, Lower(items[i].host)) == Some(items[i].addr)
  }

  ghost predicate Inv(s: Dns)
  {
    && s.free < |s.items|
    && SlotsAgree(s.items, s.hash)
    && ChainsAgree(s.pending, s.hash)
    && Fresh(s.items, s.log)
  }

  // ---- the operations ----

  /** Remove( &Items[ i ] ) */
  function RemoveSlot(s: Dns, i: nat): Dns
    requires i < |s.items|
  {
    match s.items[i]
    case Free => s
    case Used(host, _, _) => s.(hash := s.hash - {Lower(host)}, items := s.items[i := Free])
  }

  function Cache(s: Dns, host: CString, addr: Addr, now: int): Dns
    requires s.free < |s.items|
  {
    var r := RemoveSlot(s, s.free);
    var next := if s.free + 1 >= |s.items| then 0 else s.free + 1;
    r.(items := r.items[s.free := Used(host, addr, now + s.ttl)],
       hash := if Lower(host) in r.hash then r.hash else r.hash[Lower(host) := s.free],
       free := next, log := r.log + [Store(Lower(host), addr)])
  }

  function FindCached(s: Dns, host: CString): Option<Addr>
  {
    if Lower(host) in s.hash && s.hash[Lower(host)] < |s.items| && s.items[s.hash[Lower(host)]].Used?
    then Some(s.items[s.hash[Lower(host)]].addr) else None
  }

  function AsyncResolve(s: Dns, w: Waiter): Dns
  {
    if w.host == [] then s.(log := s.log + [Fill(w.addr, 0), Immediate(w)])
    else match FindCached(s, w.host)
      case Some(a) => s.(log := s.log + [Fill(w.addr, a), Immediate(w)])
      case None =>
        var k := Lower(w.host);
        if k in s.pending then
          s.(pending := s.pending[k := [w] + s.pending[k]], log := s.log + [Register(w)])
        else
          s.(pending := s.pending[k := [w]], log := s.log + [Register(w), Ask(w.host)])
  }

  /** The first waiter with this callback and user data, or the length of the chain. */
  function Match(chain: seq<Waiter>, callback: int, userdata: int): (i: nat)
    ensures i <= |chain|
    ensures forall j :: 0 <= j < i ==> chain[j].callback != callback || chain[j].userdata != userdata
    ensures i < |chain| ==> chain[i].callback == callback && chain[i].userdata == userdata
  {
    if chain == [] || (chain[0].callback == callback && chain[0].userdata == userdata) then 0
    else 1 + Match(chain[1..], callback, userdata)
  }

  function Cancel(s: Dns, host: CString, callback: int, userdata: int): Dns
  {
    var k := Lower(host);
    if k !in s.pending then s
    else
      var chain := s.pending[k];
      var i := Match(chain, callback, userdata);
      if i == |chain| then s
      else
        var rest := chain[..i] + chain[i + 1..];
        s.(pending := if rest == [] then s.pending - {k} else s.pending[k := rest],
           log := s.log + [Cancelled(chain[i])])
  }

  /** IPCAnswer up to the callbacks. The address that is none is not cached. */
  function Answer(s: Dns, host: CString, addrlen: int, addr: Addr, now: int): Dns
    requires s.free < |s.items|
  {
    var k := Lower(host);
    if k !in s.pending || s.pending[k] == [] then s
    else
      var chain := s.pending[k];
      var s1 := s.(pending := s.pending - {k}, firing := chain + s.firing);
      if addrlen == 0 then s1
      else
        var s2 := s1.(log := s1.log + [Fill(chain[0].addr, addr)]);
        if addr == INADDR_NONE then s2 else Cache(s2, host, addr, now)
  }

  function FireNext(s: Dns, addrlen: int): Dns
  {
    if s.firing == [] then s
    else s.(firing := s.firing[1..], log := s.log + [Fire(s.firing[0], addrlen)])
  }

  predicate Expired(slot: Slot, now: int) { slot.Used? && now > slot.expire }

  function Flush(s: Dns, now: int): Dns
  {
    s.(items := seq(|s.items|, i requires 0 <= i < |s.items| => if Expired(s.items[i], now) then Free else s.items[i]),
       hash := map k | k in s.hash && !(s.hash[k] < |s.items| && Expired(s.items[s.hash[k]], now)) :: s.hash[k])
  }

  /** Flush after i slots. */
  function FlushUpTo(s: Dns, now: int, i: nat): Dns
  {
    s.(items := seq(|s.items|, j requires 0 <= j < |s.items| =>
         if j < i && Expired(s.items[j], now) then Free else s.items[j]),
       hash := map k | k in s.hash && !(s.hash[k] < i && s.hash[k] < |s.items| && Expired(s.items[s.hash[k]], now))
         :: s.hash[k])
  }

  lemma FlushStep(s: Dns, now: int, i: nat)
    requires SlotsAgree(s.items, s.hash) && i < |s.items|
    ensures FlushUpTo(s, now, i + 1) ==
      if Expired(s.items[i], now) then RemoveSlot(FlushUpTo(s, now, i), i) else FlushUpTo(s, now, i)
  {
    FlushItem(s, now, i);
    FlushKey(s, now, i);
  }

  lemma FlushItem(s: Dns, now: int, i: nat)
    requires i < |s.items|
    ensures var a, b := FlushUpTo(s, now, i).items, FlushUpTo(s, now, i + 1).items;
      b == if Expired(s.items[i], now) then a[i := Free] else a
  {}

  lemma FlushKey(s: Dns, now: int, i: nat)
    requires SlotsAgree(s.items, s.hash) && i < |s.items|
    ensures var a, b := FlushUpTo(s, now, i).hash, FlushUpTo(s, now, i + 1).hash;
      b == if Expired(s.items[i], now) then a - {Lower(s.items[i].host)} else a
  {
    assert forall k :: k in s.hash && s.hash[k] == i ==> s.items[i].Used? && k == Lower(s.items[i].host);
  }

  lemma FlushEnds(s: Dns, now: int)
    ensures FlushUpTo(s, now, 0) == s && FlushUpTo(s, now, |s.items|) == Flush(s, now)
  {
    assert FlushUpTo(s, now, 0).items == s.items && FlushUpTo(s, now, 0).hash == s.hash;
    assert FlushUpTo(s, now, |s.items|).items == Flush(s, now).items;
    assert FlushUpTo(s, now, |s.items|).hash == Flush(s, now).hash;
  }

  /** The slots in use, in order. */
  function Compact(items: seq<Slot>): (r: seq<Slot>)
    ensures |r| <= |items|
  {
    if items == [] then []
    else
      var r := Compact(items[..|items| - 1]);
      if items[|items| - 1].Used? then r + [items[|items| - 1]] else r
  }

  /** The slot resize of ReloadCfg: the entries of the slots that still fit move to the front. */
  function Resize(s: Dns, slots: nat): Dns
    requires slots > 0
  {
    if slots == |s.items| then s
    else
      var num := if slots > |s.items| then |s.items| else slots;
      var kept := Compact(s.items[..num]);
      s.(items := kept + seq(slots - |kept|, _ => Free),
         hash := map k | k in s.hash && s.hash[k] < num :: |Compact(s.items[..s.hash[k]])|,
         free := if |kept| >= slots then 0 else |kept|)
  }

  /** The hash during a resize: the first i slots have moved, those in [from, to) are gone. */
  function Moved(s: Dns, i: nat, from: nat, to: nat): map<CString, nat>
    requires i <= |s.items|
  {
    map k | k in s.hash && !(from <= s.hash[k] < to) ::
      if s.hash[k] < i then |Compact(s.items[..s.hash[k]])| else s.hash[k]
  }

  /** Only the key of the host in slot i is mapped to i. */
  lemma KeyOfSlot(s: Dns, i: nat, k: CString)
    requires SlotsAgree(s.items, s.hash) && i < |s.items| && k in s.hash && s.hash[k] == i
    ensures s.items[i].Used? && k == Lower(s.items[i].host)
  {}

  lemma MovedKey(s: Dns, i: nat, k: CString)
    requires SlotsAgree(s.items, s.hash) && i < |s.items| && k in s.hash
    ensures Moved(s, i + 1, 0, 0)[k] == if s.hash[k] == i then |Compact(s.items[..i])| else Moved(s, i, 0, 0)[k]
    ensures s.hash[k] == i <==> s.items[i].Used? && k == Lower(s.items[i].host)
  {
    if s.hash[k] == i {
      KeyOfSlot(s, i, k);
    }
  }

  lemma MoveStep(s: Dns, i: nat)
    requires SlotsAgree(s.items, s.hash) && i < |s.items|
    ensures Moved(s, i + 1, 0, 0) ==
      if s.items[i].Used? then Moved(s, i, 0, 0)[Lower(s.items[i].host) := |Compact(s.items[..i])|]
      else Moved(s, i, 0, 0)
  {
    forall k | k in s.hash
      ensures Moved(s, i + 1, 0, 0)[k] == if s.hash[k] == i then |Compact(s.items[..i])| else Moved(s, i, 0, 0)[k]
      ensures s.hash[k] == i <==> s.items[i].Used? && k == Lower(s.items[i].host)
    {
      MovedKey(s, i, k);
    }
  }

  lemma DropStep(s: Dns, i: nat, to: nat)
    requires SlotsAgree(s.items, s.hash) && i <= to < |s.items|
    ensures Moved(s, i, i, to + 1) ==
      if s.items[to].Used? then Moved(s, i, i, to) - {Lower(s.items[to].host)} else Moved(s, i, i, to)
  {
    var a, b := Moved(s, i, i, to), Moved(s, i, i, to + 1);
    forall k | k in s.hash
      ensures k in b <==> k in a && s.hash[k] != to
      ensures s.hash[k] == to <==> s.items[to].Used? && k == Lower(s.items[to].host)
    {
      if s.hash[k] == to {
        KeyOfSlot(s, to, k);
      }
    }
    assert b.Keys == if s.items[to].Used? then a.Keys - {Lower(s.items[to].host)} else a.Keys;
  }

  lemma MoveStarts(s: Dns, i: nat)
    requires i <= |s.items|
    ensures Moved(s, 0, 0, 0) == s.hash && Moved(s, i, 0, 0) == Moved(s, i, i, i)
  {}

  lemma CompactSnoc(items: seq<Slot>, i: nat)
    requires i < |items|
    ensures var r := Compact(items[..i]); Compact(items[..i + 1]) == if items[i].Used? then r + [items[i]] else r
  {
    assert items[..i + 1][..i] == items[..i];
  }

  lemma ResizeKeepsRest(s: Dns, slots: nat)
    requires 0 < slots
    ensures var r := Resize(s, slots); r == Dns(r.items, r.free, s.ttl, r.hash, s.pending, s.firing, s.log)
  {}

  lemma ResizedItems(s: Dns, slots: nat, kept: seq<Slot>, items: seq<Slot>)
    requires 0 < slots != |s.items| && |items| == slots
    requires kept == Compact(s.items[..if slots > |s.items| then |s.items| else slots])
    requires items[..|kept|] == kept && forall i :: |kept| <= i < slots ==> items[i] == Free
    ensures items == Resize(s, slots).items
  {
    assert items == items[..|kept|] + items[|kept|..];
    assert items[|kept|..] == seq(slots - |kept|, _ => Free);
  }

  lemma MoveEnds(s: Dns, slots: nat, num: nat)
    requires SlotsAgree(s.items, s.hash) && 0 < slots != |s.items|
    requires num == if slots > |s.items| then |s.items| else slots
    ensures Moved(s, num, num, |s.items|) == Resize(s, slots).hash
  {
    assert forall k :: k in s.hash ==> s.hash[k] < |s.items|;
    assert Moved(s, num, num, |s.items|).Keys == Resize(s, slots).hash.Keys;
  }

  // ---- agreement of the table, kept by every operation ----

  lemma LastStoredAppend(log: seq<Effect>, e: Effect, key: CString)
    ensures LastStored(log + [e], key) == if e.Store? && e.key == key then Some(e.value) else LastStored(log, key)
  {
    assert (log + [e])[..|log|] == log;
  }

  /** Effects that store nothing leave every last stored answer. */
  lemma FreshAppend(items: seq<Slot>, log: seq<Effect>, e: Effect)
    requires Fresh(items, log) && !e.Store?
    ensures Fresh(items, log + [e])
  {
    forall i | 0 <= i < |items| && items[i].Used?
      ensures LastStored(log + [e], Lower(items[i].host)) == Some(items[i].addr)
    {
      LastStoredAppend(log, e, Lower(items[i].host));
    }
  }

  lemma RemoveSlotKeepsInv(s: Dns, i: nat)
    requires Inv(s) && i < |s.items|
    ensures Inv(RemoveSlot(s, i))
  {}

  lemma CacheKeepsInv(s: Dns, host: CString, addr: Addr, now: int)
    requires Inv(s) && Lower(host) !in s.hash && Lower(host) !in s.pending
    ensures Inv(Cache(s, host, addr, now))
  {
    var r := RemoveSlot(s, s.free);
    var t := Cache(s, host, addr, now);
    RemoveSlotKeepsInv(s, s.free);
    assert Lower(host) !in r.hash;
    forall i | 0 <= i < |t.items| && t.items[i].Used?
      ensures LastStored(t.log, Lower(t.items[i].host)) == Some(t.items[i].addr)
    {
      LastStoredAppend(r.log, Store(Lower(host), addr), Lower(t.items[i].host));
      if i != s.free {
        assert t.items[i] == r.items[i];
      }
    }
  }

  lemma AsyncResolveKeepsInv(s: Dns, w: Waiter)
    requires Inv(s)
    ensures Inv(AsyncResolve(s, w))
  {
    var t := AsyncResolve(s, w);
    var k := Lower(w.host);
    if w.host == [] || FindCached(s, w.host).Some? {
      var v := if w.host == [] then 0 else FindCached(s, w.host).value;
      FreshAppend(s.items, s.log, Fill(w.addr, v));
      FreshAppend(s.items, s.log + [Fill(w.addr, v)], Immediate(w));
      assert t.log == s.log + [Fill(w.addr, v)] + [Immediate(w)];
    } else {
      FreshAppend(s.items, s.log, Register(w));
      FreshAppend(s.items, s.log + [Register(w)], Ask(w.host));
      assert s.log + [Register(w), Ask(w.host)] == s.log + [Register(w)] + [Ask(w.host)];
    }
  }

  lemma ShorterChain(pending: map<CString, seq<Waiter>>, hash: map<CString, nat>, k: CString, i: nat)
    requires ChainsAgree(pending, hash) && k in pending && i < |pending[k]|
    ensures var rest := pending[k][..i] + pending[k][i + 1..];
      ChainsAgree(if rest == [] then pending - {k} else pending[k := rest], hash)
  {
    var chain := pending[k];
    var rest := chain[..i] + chain[i + 1..];
    assert forall j :: 0 <= j < |rest| ==> rest[j] == if j < i then chain[j] else chain[j + 1];
  }

  lemma CancelKeepsInv(s: Dns, host: CString, callback: int, userdata: int)
    requires Inv(s)
    ensures Inv(Cancel(s, host, callback, userdata))
  {
    var k := Lower(host);
    if k in s.pending {
      var i := Match(s.pending[k], callback, userdata);
      if i < |s.pending[k]| {
        FreshAppend(s.items, s.log, Cancelled(s.pending[k][i]));
        ShorterChain(s.pending, s.hash, k, i);
      }
    }
  }

  lemma DetachKeepsInv(s: Dns, k: CString)
    requires Inv(s) && k in s.pending
    ensures Inv(s.(pending := s.pending - {k}, firing := s.pending[k] + s.firing))
  {}

  lemma FillKeepsInv(s: Dns, e: Effect)
    requires Inv(s) && !e.Store?
    ensures Inv(s.(log := s.log + [e]))
  {
    FreshAppend(s.items, s.log, e);
  }

  lemma AnswerKeepsInv(s: Dns, host: CString, addrlen: int, addr: Addr, now: int)
    requires Inv(s)
    ensures Inv(Answer(s, host, addrlen, addr, now))
  {
    var k := Lower(host);
    if k in s.pending {
      var s1 := s.(pending := s.pending - {k}, firing := s.pending[k] + s.firing);
      DetachKeepsInv(s, k);
      if addrlen != 0 {
        FillKeepsInv(s1, Fill(s.pending[k][0].addr, addr));
        if addr != INADDR_NONE {
          CacheKeepsInv(s1.(log := s1.log + [Fill(s.pending[k][0].addr, addr)]), host, addr, now);
        }
      }
    }
  }

  lemma FireNextKeepsInv(s: Dns, addrlen: int)
    requires Inv(s)
    ensures Inv(FireNext(s, addrlen))
  {
    if s.firing != [] {
      FreshAppend(s.items, s.log, Fire(s.firing[0], addrlen));
    }
  }

  lemma FlushKeepsInv(s: Dns, now: int)
    requires Inv(s)
    ensures Inv(Flush(s, now))
  {}

  /** Compact keeps each slot in use, at its rank. */
  lemma {:induction false} CompactRank(items: seq<Slot>, j: nat)
    requires j < |items| && items[j].Used?
    ensures var rank := |Compact(items[..j])|; rank < |Compact(items)| && Compact(items)[rank] == items[j]
    decreases |items|
  {
    var n := |items| - 1;
    if j == n {
      assert items[..j] == items[..n];
    } else {
      CompactRank(items[..n], j);
      assert items[..n][..j] == items[..j];
    }
  }

  lemma {:induction false} CompactIndex(items: seq<Slot>, r: nat) returns (j: nat)
    requires r < |Compact(items)|
    ensures j < |items| && items[j].Used? && Compact(items)[r] == items[j] && |Compact(items[..j])| == r
    decreases |items|
  {
    var n := |items| - 1;
    if r == |Compact(items[..n])| {
      j := n;
    } else {
      j := CompactIndex(items[..n], r);
      assert items[..n][..j] == items[..j];
    }
  }

  /** Where entry number i of the new slots comes from. */
  lemma ResizedFrom(s: Dns, slots: nat, num: nat, i: nat) returns (j: nat)
    requires slots > 0 && slots != |s.items| && num == if slots > |s.items| then |s.items| else slots
    requires i < slots && Resize(s, slots).items[i].Used?
    ensures j < num && s.items[j].Used? && Resize(s, slots).items[i] == s.items[j] && |Compact(s.items[..j])| == i
  {
    var kept := Compact(s.items[..num]);
    assert Resize(s, slots).items == kept + seq(slots - |kept|, _ => Free);
    assert i < |kept|;
    j := CompactIndex(s.items[..num], i);
    assert s.items[..num][..j] == s.items[..j];
  }

  lemma ResizedSlot(s: Dns, slots: nat, i: nat)
    requires Inv(s) && slots > 0 && slots != |s.items|
    requires var t := Resize(s, slots); i < |t.items| && t.items[i].Used?
    ensures var t := Resize(s, slots);
      Lower(t.items[i].host) in t.hash && t.hash[Lower(t.items[i].host)] == i && t.items[i] in s.items
  {
    var num := if slots > |s.items| then |s.items| else slots;
    var j := ResizedFrom(s, slots, num, i);
    assert s.hash[Lower(s.items[j].host)] == j;
  }

  lemma ResizedKey(s: Dns, slots: nat, k: CString)
    requires Inv(s) && slots > 0 && slots != |s.items| && k in Resize(s, slots).hash
    ensures var t := Resize(s, slots); t.hash[k] < |t.items| && t.items[t.hash[k]] == s.items[s.hash[k]]
  {
    var num := if slots > |s.items| then |s.items| else slots;
    var j := s.hash[k];
    assert s.items[..num][..j] == s.items[..j];
    CompactRank(s.items[..num], j);
  }

  lemma ResizeKeepsInv(s: Dns, slots: nat)
    requires Inv(s) && slots > 0
    ensures Inv(Resize(s, slots))
  {
    if slots != |s.items| {
      var t := Resize(s, slots);
      forall i | 0 <= i < |t.items| && t.items[i].Used?
        ensures Lower(t.items[i].host) in t.hash && t.hash[Lower(t.items[i].host)] == i && t.items[i] in s.items
      {
        ResizedSlot(s, slots, i);
      }
      forall k | k in t.hash
        ensures t.hash[k] < |t.items| && t.items[t.hash[k]] == s.items[s.hash[k]]
      {
        ResizedKey(s, slots, k);
      }
    }
  }

  // ---- runs ----

  datatype Event =
    | ResolveEvent(w: Waiter)
    | CancelEvent(host: CString, callback: int, userdata: int)
    | AnswerEvent(name: CString, addrlen: int, addr: Addr, now: int)
    | FireEvent(len: int)
    | FlushEvent(time: int)
    | ResizeEvent(slots: nat)
    | TTLEvent(ttl: int)

  function Apply(s: Dns, e: Event): Dns
    requires s.free < |s.items|
  {
    match e
    case ResolveEvent(w) => AsyncResolve(s, w)
    case CancelEvent(host, callback, userdata) => Cancel(s, host, callback, userdata)
    case AnswerEvent(host, addrlen, addr, now) => Answer(s, host, addrlen, addr, now)
    case FireEvent(len) => FireNext(s, len)
    case FlushEvent(now) => Flush(s, now)
    case ResizeEvent(slots) => if slots == 0 then s else Resize(s, slots)
    case TTLEvent(ttl) => s.(ttl := ttl)
  }

  lemma ApplyKeepsInv(s: Dns, e: Event)
    requires Inv(s)
    ensures Inv(Apply(s, e))
  {
    match e
    case ResolveEvent(w) => AsyncResolveKeepsInv(s, w);
    case CancelEvent(host, callback, userdata) => CancelKeepsInv(s, host, callback, userdata);
    case AnswerEvent(host, addrlen, addr, now) => AnswerKeepsInv(s, host, addrlen, addr, now);
    case FireEvent(len) => FireNextKeepsInv(s, len);
    case FlushEvent(now) => FlushKeepsInv(s, now);
    case ResizeEvent(slots) => if slots > 0 { ResizeKeepsInv(s, slots); }
    case TTLEvent(ttl) =>
  }

  function Init(slots: nat, ttl: int): Dns
  {
    Dns(seq(slots, _ => Free), 0, ttl, map[], map[], [], [])
  }

  // ---- no waiter is lost or called twice ----

  /** How often a waiter was registered, called back, and cancelled. */
  function Registered(log: seq<Effect>, w: Waiter): nat
  {
    if log == [] then 0
    else Registered(log[..|log| - 1], w) + if log[|log| - 1] == Register(w) then 1 else 0
  }

  function Fired(log: seq<Effect>, w: Waiter): nat
  {
    if log == [] then 0
    else Fired(log[..|log| - 1], w) + if log[|log| - 1].Fire? && log[|log| - 1].w == w then 1 else 0
  }

  function CancelledTimes(log: seq<Effect>, w: Waiter): nat
  {
    if log == [] then 0
    else CancelledTimes(log[..|log| - 1], w) + if log[|log| - 1] == Cancelled(w) then 1 else 0
  }

  /** How often it is still waiting: in the chain of its host, or for a callback under way. */
  function Waiting(s: Dns, w: Waiter): nat
  {
    (if Lower(w.host) in s.pending then multiset(s.pending[Lower(w.host)])[w] else 0) + multiset(s.firing)[w]
  }

  lemma CountsAppend(log: seq<Effect>, e: Effect, w: Waiter)
    ensures Registered(log + [e], w) == Registered(log, w) + if e == Register(w) then 1 else 0
    ensures Fired(log + [e], w) == Fired(log, w) + if e.Fire? && e.w == w then 1 else 0
    ensures CancelledTimes(log + [e], w) == CancelledTimes(log, w) + if e == Cancelled(w) then 1 else 0
  {
    assert (log + [e])[..|log|] == log;
  }

  ghost predicate ConservedFor(s: Dns, w: Waiter)
  {
    Registered(s.log, w) == Fired(s.log, w) + CancelledTimes(s.log, w) + Waiting(s, w)
  }

  lemma ResolveConserves(s: Dns, v: Waiter, w: Waiter)
    requires Inv(s) && ConservedFor(s, w)
    ensures ConservedFor(AsyncResolve(s, v), w)
  {
    if v.host == [] || FindCached(s, v.host).Some? {
      var value := if v.host == [] then 0 else FindCached(s, v.host).value;
      CountsAppend(s.log, Fill(v.addr, value), w);
      CountsAppend(s.log + [Fill(v.addr, value)], Immediate(v), w);
      assert s.log + [Fill(v.addr, value), Immediate(v)] == s.log + [Fill(v.addr, value)] + [Immediate(v)];
    } else {
      RegisterConserves(s, v, w);
    }
  }

  lemma RegisterConserves(s: Dns, v: Waiter, w: Waiter)
    requires Inv(s) && ConservedFor(s, w) && v.host != [] && FindCached(s, v.host).None?
    ensures ConservedFor(AsyncResolve(s, v), w)
  {
    CountsAppend(s.log, Register(v), w);
    CountsAppend(s.log + [Register(v)], Ask(v.host), w);
    assert s.log + [Register(v), Ask(v.host)] == s.log + [Register(v)] + [Ask(v.host)];
    WaitingAfterRegister(s, v, w);
  }

  lemma WaitingAfterRegister(s: Dns, v: Waiter, w: Waiter)
    requires v.host != [] && FindCached(s, v.host).None?
    ensures Waiting(AsyncResolve(s, v), w) == Waiting(s, w) + if v == w then 1 else 0
  {
    var k := Lower(v.host);
    if k in s.pending {
      assert multiset([v] + s.pending[k]) == multiset{v} + multiset(s.pending[k]);
    }
  }

  lemma MultisetCut(chain: seq<Waiter>, i: nat)
    requires i < |chain|
    ensures multiset(chain) == multiset(chain[..i] + chain[i + 1..]) + multiset{chain[i]}
  {
    assert chain == chain[..i] + ([chain[i]] + chain[i + 1..]);
  }

  lemma CancelConserves(s: Dns, host: CString, callback: int, userdata: int, w: Waiter)
    requires Inv(s) && ConservedFor(s, w)
    ensures ConservedFor(Cancel(s, host, callback, userdata), w)
  {
    var k := Lower(host);
    if k in s.pending && Match(s.pending[k], callback, userdata) < |s.pending[k]| {
      var i := Match(s.pending[k], callback, userdata);
      WaitingAfterCancel(s, host, callback, userdata, w);
      CountsAppend(s.log, Cancelled(s.pending[k][i]), w);
    }
  }

  /** A cancel takes one waiter that matches out of the chain, wherever it sits. */
  lemma WaitingAfterCancel(s: Dns, host: CString, callback: int, userdata: int, w: Waiter)
    requires Inv(s) && Lower(host) in s.pending
    requires Match(s.pending[Lower(host)], callback, userdata) < |s.pending[Lower(host)]|
    ensures var chain := s.pending[Lower(host)];
      Waiting(s, w) == Waiting(Cancel(s, host, callback, userdata), w)
        + if w == chain[Match(chain, callback, userdata)] then 1 else 0
  {
    var chain := s.pending[Lower(host)];
    var i := Match(chain, callback, userdata);
    assert Lower(chain[i].host) == Lower(host);
    if Lower(w.host) == Lower(host) {
      ChainAfterCut(chain, i, w);
    }
  }

  /** The count of w in the chain of a host, before and after its i-th waiter goes. */
  lemma ChainAfterCut(chain: seq<Waiter>, i: nat, w: Waiter)
    requires i < |chain|
    ensures var rest := chain[..i] + chain[i + 1..];
      multiset(chain)[w] == (if rest == [] then 0 else multiset(rest)[w]) + if w == chain[i] then 1 else 0
  {
    MultisetCut(chain, i);
  }

  lemma CacheConserves(s: Dns, host: CString, addr: Addr, now: int, w: Waiter)
    requires s.free < |s.items| && ConservedFor(s, w)
    ensures ConservedFor(Cache(s, host, addr, now), w)
  {
    CountsAppend(s.log, Store(Lower(host), addr), w);
  }

  /** The chain of an answered host moves to the callbacks under way. */
  lemma DetachConserves(s: Dns, k: CString, w: Waiter)
    requires Inv(s) && k in s.pending && ConservedFor(s, w)
    ensures ConservedFor(s.(pending := s.pending - {k}, firing := s.pending[k] + s.firing), w)
  {
    assert multiset(s.pending[k] + s.firing) == multiset(s.pending[k]) + multiset(s.firing);
  }

  lemma AnswerConserves(s: Dns, host: CString, addrlen: int, addr: Addr, now: int, w: Waiter)
    requires Inv(s) && ConservedFor(s, w)
    ensures ConservedFor(Answer(s, host, addrlen, addr, now), w)
  {
    var k := Lower(host);
    if k in s.pending {
      var chain := s.pending[k];
      var s1 := s.(pending := s.pending - {k}, firing := chain + s.firing);
      DetachConserves(s, k, w);
      CountsAppend(s.log, Fill(chain[0].addr, addr), w);
      var s2 := s1.(log := s1.log + [Fill(chain[0].addr, addr)]);
      CacheConserves(s2, host, addr, now, w);
    }
  }

  lemma FireConserves(s: Dns, addrlen: int, w: Waiter)
    requires ConservedFor(s, w)
    ensures ConservedFor(FireNext(s, addrlen), w)
  {
    if s.firing != [] {
      assert s.firing == [s.firing[0]] + s.firing[1..];
      CountsAppend(s.log, Fire(s.firing[0], addrlen), w);
    }
  }

  lemma ApplyConserves(s: Dns, e: Event, w: Waiter)
    requires Inv(s) && ConservedFor(s, w)
    ensures ConservedFor(Apply(s, e), w)
  {
    match e
    case ResolveEvent(v) => ResolveConserves(s, v, w);
    case CancelEvent(host, callback, userdata) => CancelConserves(s, host, callback, userdata, w);
    case AnswerEvent(host, addrlen, addr, now) => AnswerConserves(s, host, addrlen, addr, now, w);
    case FireEvent(len) => FireConserves(s, len, w);
    case FlushEvent(now) =>
    case ResizeEvent(slots) =>
    case TTLEvent(ttl) =>
  }

  /** Every state a run of events can reach, callbacks interleaved with anything. */
  ghost predicate Reached(s: Dns, slots: nat, ttl: int, es: seq<Event>)
    requires slots > 0
    decreases |es|
  {
    if es == [] then s == Init(slots, ttl)
    else exists r :: Reached(r, slots, ttl, es[..|es| - 1]) && r.free < |r.items| && s == Apply(r, es[|es| - 1])
  }

  /** In every reachable state the table agrees with the hash, no host is both cached and
      pending, and each waiter was registered as often as it fired, was cancelled, or waits. */
  lemma {:induction false} ReachedIsSound(s: Dns, slots: nat, ttl: int, es: seq<Event>)
    requires slots > 0 && Reached(s, slots, ttl, es)
    ensures Inv(s)
    ensures forall w: Waiter :: ConservedFor(s, w)
    decreases |es|
  {
    if es != [] {
      var r :| Reached(r, slots, ttl, es[..|es| - 1]) && r.free < |r.items| && s == Apply(r, es[|es| - 1]);
      ReachedIsSound(r, slots, ttl, es[..|es| - 1]);
      ApplyKeepsInv(r, es[|es| - 1]);
      forall w: Waiter
        ensures ConservedFor(s, w)
      {
        ApplyConserves(r, es[|es| - 1], w);
      }
    }
  }

  // ---- what a lookup finds ----

  /** In every reachable state a hit is the last answer stored for that host. */
  lemma HitIsLastAnswer(s: Dns, slots: nat, ttl: int, es: seq<Event>, host: CString)
    requires slots > 0 && Reached(s, slots, ttl, es) && FindCached(s, host).Some?
    ensures LastStored(s.log, Lower(host)) == FindCached(s, host)
  {
    ReachedIsSound(s, slots, ttl, es);
  }

  /** In every reachable state two slots hold different hosts. */
  lemma HostsDistinct(s: Dns, slots: nat, ttl: int, es: seq<Event>, i: nat, j: nat)
    requires slots > 0 && Reached(s, slots, ttl, es)
    requires i < j < |s.items| && s.items[i].Used? && s.items[j].Used?
    ensures !SameCase(s.items[i].host, s.items[j].host)
  {
    ReachedIsSound(s, slots, ttl, es);
  }

  /** After an answer the host is found, and only the host in the evicted slot is lost. */
  lemma FoundAfterCache(s: Dns, host: CString, addr: Addr, now: int, h: CString)
    requires Inv(s) && Lower(host) !in s.hash && Lower(host) !in s.pending
    ensures FindCached(Cache(s, host, addr, now), h) ==
      if SameCase(h, host) then Some(addr)
      else if s.items[s.free].Used? && SameCase(h, s.items[s.free].host) then None
      else FindCached(s, h)
  {}

  lemma FoundAfterFlush(s: Dns, now: int, h: CString)
    requires Inv(s)
    ensures FindCached(Flush(s, now), h) ==
      if Lower(h) in s.hash && now > s.items[s.hash[Lower(h)]].expire then None else FindCached(s, h)
  {}

  /** A resize keeps exactly the entries whose slots still fit. */
  lemma FoundAfterResize(s: Dns, slots: nat, h: CString)
    requires Inv(s) && slots > 0
    ensures FindCached(Resize(s, slots), h) ==
      if Lower(h) in s.hash && s.hash[Lower(h)] >= slots then None else FindCached(s, h)
  {
    if slots != |s.items| && Lower(h) in s.hash && s.hash[Lower(h)] < slots {
      var num := if slots > |s.items| then |s.items| else slots;
      var j := s.hash[Lower(h)];
      assert s.items[..num][..j] == s.items[..j];
      CompactRank(s.items[..num], j);
    }
  }

  // ---- an answer calls every waiter of its host, once ----

  function FireAll(s: Dns, n: nat, addrlen: int): Dns
    decreases n
  {
    if n == 0 then s else FireAll(FireNext(s, addrlen), n - 1, addrlen)
  }

  function Fires(chain: seq<Waiter>, addrlen: int): (r: seq<Effect>)
    ensures |r| == |chain| && forall i :: 0 <= i < |chain| ==> r[i] == Fire(chain[i], addrlen)
  {
    seq(|chain|, i requires 0 <= i < |chain| => Fire(chain[i], addrlen))
  }

  lemma {:induction false} FireAllFires(s: Dns, chain: seq<Waiter>, rest: seq<Waiter>, addrlen: int)
    requires s.firing == chain + rest
    ensures FireAll(s, |chain|, addrlen) == s.(firing := rest, log := s.log + Fires(chain, addrlen))
    decreases |chain|
  {
    if chain == [] {
      assert s.log + [] == s.log && chain + rest == rest;
    } else {
      var t := FireNext(s, addrlen);
      assert (chain + rest)[1..] == chain[1..] + rest;
      FireAllFires(t, chain[1..], rest, addrlen);
      assert s.log + [Fire(chain[0], addrlen)] + Fires(chain[1..], addrlen) == s.log + Fires(chain, addrlen);
    }
  }

  /** IPCAnswer as a whole: enter the answer, then call the chain, head first. */
  function IPCAnswer(s: Dns, host: CString, addrlen: int, addr: Addr, now: int): Dns
    requires s.free < |s.items|
  {
    if Lower(host) !in s.pending then s
    else FireAll(Answer(s, host, addrlen, addr, now), |s.pending[Lower(host)]|, addrlen)
  }

  lemma AnswerFiresChain(s: Dns, host: CString, addrlen: int, addr: Addr, now: int)
    requires Inv(s) && Lower(host) in s.pending
    ensures var t := IPCAnswer(s, host, addrlen, addr, now); var u := Answer(s, host, addrlen, addr, now);
      && t.firing == s.firing && Lower(host) !in t.pending
      && t.log == u.log + Fires(s.pending[Lower(host)], addrlen)
      && t == u.(firing := t.firing, log := t.log)
  {
    FireAllFires(Answer(s, host, addrlen, addr, now), s.pending[Lower(host)], s.firing, addrlen);
  }

  /** The effects of one answer, from its arrival to its last callback. */
  function AnswerEffects(s: Dns, host: CString, addrlen: int, addr: Addr): seq<Effect>
    requires Inv(s) && Lower(host) in s.pending
  {
    var chain := s.pending[Lower(host)];
    (if addrlen == 0 then []
     else [Fill(chain[0].addr, addr)] + (if addr == INADDR_NONE then [] else [Store(Lower(host), addr)]))
    + Fires(chain, addrlen)
  }

  lemma AnswerDoes(s: Dns, host: CString, addrlen: int, addr: Addr, now: int)
    requires Inv(s) && Lower(host) in s.pending
    ensures IPCAnswer(s, host, addrlen, addr, now).log == s.log + AnswerEffects(s, host, addrlen, addr)
  {
    AnswerFiresChain(s, host, addrlen, addr, now);
    var a, b := Fill(s.pending[Lower(host)][0].addr, addr), Store(Lower(host), addr);
    assert s.log + [a] + [b] == s.log + ([a] + [b]);
  }

  /** What an answer does to the world. */
  function Effects(s: Dns, host: CString, addrlen: int, addr: Addr, now: int): (es: seq<Effect>)
    requires Inv(s) && Lower(host) in s.pending
    ensures IPCAnswer(s, host, addrlen, addr, now).log == s.log + es
  {
    AnswerDoes(s, host, addrlen, addr, now);
    IPCAnswer(s, host, addrlen, addr, now).log[|s.log|..]
  }

  lemma OneFill(s: Dns, host: CString, addrlen: int, addr: Addr, now: int)
    requires Inv(s) && Lower(host) in s.pending && addrlen != 0
    ensures var es := Effects(s, host, addrlen, addr, now);
      es == AnswerEffects(s, host, addrlen, addr) && es[0] == Fill(s.pending[Lower(host)][0].addr, addr)
      && forall i :: 1 <= i < |es| ==> !es[i].Fill?
  {
    AnswerDoes(s, host, addrlen, addr, now);
    assert (s.log + AnswerEffects(s, host, addrlen, addr))[|s.log|..] == AnswerEffects(s, host, addrlen, addr);
  }

  /** Each waiter is told the length of an address, but only the head of the chain had its
      address filled in: all have it exactly when they all want it in the same place. */
  lemma AddressesFilledIff(s: Dns, host: CString, addrlen: int, addr: Addr, now: int)
    requires Inv(s) && Lower(host) in s.pending && addrlen != 0
    ensures var chain := s.pending[Lower(host)];
      (forall i :: 0 <= i < |chain| ==> Fill(chain[i].addr, addr) in Effects(s, host, addrlen, addr, now))
      <==> (forall i :: 0 <= i < |chain| ==> chain[i].addr == chain[0].addr)
  {
    OneFill(s, host, addrlen, addr, now);
  }

  lemma TwoWaiters(host: CString, u: Waiter, w: Waiter) returns (s: Dns)
    requires host != [] && u.host == w.host == host
    ensures Inv(s) && s == AsyncResolve(AsyncResolve(Init(1, 300), u), w)
    ensures Lower(host) in s.pending && s.pending[Lower(host)] == [w, u]
  {
    AsyncResolveKeepsInv(Init(1, 300), u);
    AsyncResolveKeepsInv(AsyncResolve(Init(1, 300), u), w);
    s := AsyncResolve(AsyncResolve(Init(1, 300), u), w);
  }

  lemma BothFired(s: Dns, host: CString, u: Waiter, w: Waiter, addr: Addr, now: int)
    requires Inv(s) && Lower(host) in s.pending && s.pending[Lower(host)] == [w, u] && u.addr != w.addr
    ensures var es := Effects(s, host, 16, addr, now);
      Fire(u, 16) in es && Fire(w, 16) in es && Fill(w.addr, addr) in es && Fill(u.addr, addr) !in es
  {
    OneFill(s, host, 16, addr, now);
    var es := Effects(s, host, 16, addr, now);
    assert es[|es| - 2] == Fire(w, 16) && es[|es| - 1] == Fire(u, 16);
  }

  /** Two waiters for one host that want the address in different places: the one that
      registered first is called back with nothing in its place. */
  lemma SecondWaiterNotFilled(host: CString, u: Waiter, w: Waiter, addr: Addr, now: int) returns (s: Dns)
    requires host != [] && u.host == w.host == host && u.addr != w.addr
    ensures Inv(s) && s == AsyncResolve(AsyncResolve(Init(1, 300), u), w)
    ensures Lower(host) in s.pending
    ensures var es := Effects(s, host, 16, addr, now);
      Fire(u, 16) in es && Fire(w, 16) in es && Fill(w.addr, addr) in es && Fill(u.addr, addr) !in es
  {
    s := TwoWaiters(host, u, w);
    BothFired(s, host, u, w, addr, now);
  }
}
