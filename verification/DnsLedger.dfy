/** What a caller gets from the DNS cache, how often a resolver is asked, and how long an answer stays. */
module DnsLedger {
  import opened Bytes
  import opened CStrings
  import opened DnsTables

  // ---- runs ----

  /** The state after some events. */
  function Run(slots: nat, ttl: int, es: seq<Event>): (s: Dns)
    requires slots > 0
    ensures Inv(s)
    decreases |es|
  {
    if es == [] then
      InitInv(slots, ttl);
      Init(slots, ttl)
    else
      var r := Run(slots, ttl, es[..|es| - 1]);
      ApplyKeepsInv(r, es[|es| - 1]);
      Apply(r, es[|es| - 1])
  }

  lemma InitInv(slots: nat, ttl: int)
    requires slots > 0
    ensures Inv(Init(slots, ttl))
  {}

  // ---- what a resolve does ----

  /** Some slot holds the host. */
  predicate Cached(items: seq<Slot>, host: CString)
  {
    exists i :: 0 <= i < |items| && items[i].Used? && SameCase(items[i].host, host)
  }

  lemma CachedIsFound(s: Dns, host: CString)
    requires Inv(s)
    ensures Cached(s.items, host) <==> FindCached(s, host).Some?
  {
    if FindCached(s, host).Some? {
      assert s.items[s.hash[Lower(host)]].Used? && SameCase(s.items[s.hash[Lower(host)]].host, host);
    }
  }

  /** In every reachable state: a host in some slot is answered at once, with the last answer stored for it;
      the empty name is answered with zeros; anything else waits, and a resolver is asked for it unless
      somebody waits for the same host already. */
  lemma ResolveDoes(slots: nat, ttl: int, es: seq<Event>, w: Waiter)
    requires slots > 0
    ensures var s, t := Run(slots, ttl, es), Run(slots, ttl, es + [ResolveEvent(w)]);
      var a := LastStored(s.log, Lower(w.host));
      if w.host == [] then t == s.(log := s.log + [Fill(w.addr, 0), Immediate(w)])
      else if Cached(s.items, w.host) then a.Some? && t == s.(log := s.log + [Fill(w.addr, a.value), Immediate(w)])
      else if Lower(w.host) in s.pending then
        t == s.(log := s.log + [Register(w)], pending := s.pending[Lower(w.host) := [w] + s.pending[Lower(w.host)]])
      else t == s.(log := s.log + [Register(w), Ask(w.host)], pending := s.pending[Lower(w.host) := [w]])
  {
    var all := es + [ResolveEvent(w)];
    assert all[..|all| - 1] == es;
    CachedIsFound(Run(slots, ttl, es), w.host);
  }

  // ---- requests ----

  /** How often a resolver was asked for a host. */
  function Asked(log: seq<Effect>, k: CString): nat
  {
    if log == [] then 0
    else Asked(log[..|log| - 1], k) + if log[|log| - 1].Ask? && Lower(log[|log| - 1].question) == k then 1 else 0
  }

  /** The event is the first to wait for the host. */
  predicate Begins(s: Dns, e: Event, k: CString)
  {
    e.ResolveEvent? && e.w.host != [] && Lower(e.w.host) == k && !Cached(s.items, e.w.host) && k !in s.pending
  }

  /** The event is the answer for a host that somebody waits for, or cancels the only one who does. */
  predicate Ends(s: Dns, e: Event, k: CString)
  {
    k in s.pending &&
    match e
    case AnswerEvent(host, _, _, _) => Lower(host) == k
    case CancelEvent(host, callback, userdata) =>
      Lower(host) == k && |s.pending[k]| == 1
      && s.pending[k][0].callback == callback && s.pending[k][0].userdata == userdata
    case _ => false
  }

  function Begun(slots: nat, ttl: int, es: seq<Event>, k: CString): nat
    requires slots > 0
    decreases |es|
  {
    if es == [] then 0
    else
      var one := if Begins(Run(slots, ttl, es[..|es| - 1]), es[|es| - 1], k) then 1 else 0;
      Begun(slots, ttl, es[..|es| - 1], k) + one
  }

  function Ended(slots: nat, ttl: int, es: seq<Event>, k: CString): nat
    requires slots > 0
    decreases |es|
  {
    if es == [] then 0
    else
      var one := if Ends(Run(slots, ttl, es[..|es| - 1]), es[|es| - 1], k) then 1 else 0;
      Ended(slots, ttl, es[..|es| - 1], k) + one
  }

  lemma AskedAppend(log: seq<Effect>, e: Effect, k: CString)
    ensures Asked(log + [e], k) == Asked(log, k) + if e.Ask? && Lower(e.question) == k then 1 else 0
  {
    assert (log + [e])[..|log|] == log;
  }

  lemma AskedAppendTwo(log: seq<Effect>, a: Effect, b: Effect, k: CString)
    requires !a.Ask?
    ensures Asked(log + [a, b], k) == Asked(log, k) + if b.Ask? && Lower(b.question) == k then 1 else 0
  {
    assert log + [a, b] == log + [a] + [b];
    AskedAppend(log, a, k);
    AskedAppend(log + [a], b, k);
  }

  lemma ResolveAsks(s: Dns, w: Waiter, k: CString)
    requires Inv(s)
    ensures Asked(AsyncResolve(s, w).log, k) == Asked(s.log, k) + if Begins(s, ResolveEvent(w), k) then 1 else 0
    ensures (k in AsyncResolve(s, w).pending) <==> k in s.pending || Begins(s, ResolveEvent(w), k)
  {
    CachedIsFound(s, w.host);
    if w.host == [] {
      AskedAppendTwo(s.log, Fill(w.addr, 0), Immediate(w), k);
    } else if Cached(s.items, w.host) {
      AskedAppendTwo(s.log, Fill(w.addr, FindCached(s, w.host).value), Immediate(w), k);
    } else if Lower(w.host) in s.pending {
      AskedAppend(s.log, Register(w), k);
    } else {
      AskedAppendTwo(s.log, Register(w), Ask(w.host), k);
    }
  }

  lemma AnswerAsks(s: Dns, host: CString, addrlen: int, addr: Addr, now: int, k: CString)
    requires Inv(s)
    ensures var t := Answer(s, host, addrlen, addr, now);
      Asked(t.log, k) == Asked(s.log, k) && (k in t.pending <==> k in s.pending && Lower(host) != k)
  {
    if Lower(host) in s.pending {
      AnswerLogs(s, host, addrlen, addr, now);
      var a, b := Fill(s.pending[Lower(host)][0].addr, addr), Store(Lower(host), addr);
      AskedAppend(s.log, a, k);
      AskedAppend(s.log + [a], b, k);
    }
  }

  lemma AnswerLogs(s: Dns, host: CString, addrlen: int, addr: Addr, now: int)
    requires Inv(s) && Lower(host) in s.pending
    ensures var t, a := Answer(s, host, addrlen, addr, now), Fill(s.pending[Lower(host)][0].addr, addr);
      && t.pending == s.pending - {Lower(host)}
      && t.log == if addrlen == 0 then s.log else if addr == INADDR_NONE then s.log + [a]
                  else s.log + [a] + [Store(Lower(host), addr)]
  {}

  lemma CancelAsks(s: Dns, host: CString, callback: int, userdata: int, k: CString)
    requires Inv(s)
    ensures var t := Cancel(s, host, callback, userdata);
      && Asked(t.log, k) == Asked(s.log, k)
      && (k in t.pending <==> k in s.pending && !Ends(s, CancelEvent(host, callback, userdata), k))
  {
    var h := Lower(host);
    if h in s.pending {
      var i := Match(s.pending[h], callback, userdata);
      if i < |s.pending[h]| {
        AskedAppend(s.log, Cancelled(s.pending[h][i]), k);
        CancelPending(s, host, callback, userdata, i);
      }
    }
  }

  lemma CancelPending(s: Dns, host: CString, callback: int, userdata: int, i: nat)
    requires Inv(s) && Lower(host) in s.pending && i == Match(s.pending[Lower(host)], callback, userdata)
    requires i < |s.pending[Lower(host)]|
    ensures var t, n := Cancel(s, host, callback, userdata), |s.pending[Lower(host)]|;
      t.pending.Keys == s.pending.Keys - if n == 1 then {Lower(host)} else {}
    ensures |s.pending[Lower(host)]| == 1 ==> i == 0
  {
    var chain := s.pending[Lower(host)];
    assert |chain[..i] + chain[i + 1..]| == |chain| - 1;
  }

  /** What an event does to requests and waiting hosts. */
  predicate Accounts(s: Dns, e: Event, k: CString)
    requires s.free < |s.items|
  {
    && Asked(Apply(s, e).log, k) == Asked(s.log, k) + (if Begins(s, e, k) then 1 else 0)
    && (k in Apply(s, e).pending <==> (k in s.pending && !Ends(s, e, k)) || Begins(s, e, k))
  }

  lemma EventAccounts(s: Dns, e: Event, k: CString)
    requires Inv(s)
    ensures Accounts(s, e, k)
  {
    match e
    case ResolveEvent(w) => ResolveAsks(s, w, k);
    case CancelEvent(host, callback, userdata) => CancelAsks(s, host, callback, userdata, k);
    case AnswerEvent(host, addrlen, addr, now) => AnswerAsks(s, host, addrlen, addr, now, k);
    case FireEvent(len) =>
      if s.firing != [] {
        AskedAppend(s.log, Fire(s.firing[0], len), k);
      }
    case FlushEvent(_) =>
    case ResizeEvent(_) =>
    case TTLEvent(_) =>
  }

  /** In every run a resolver is asked for a host once each time somebody is the first to wait for it, and
      there is just one such request more than were answered or dropped while somebody waits. */
  lemma {:induction false} RequestsAreExact(slots: nat, ttl: int, es: seq<Event>, k: CString)
    requires slots > 0
    ensures var s := Run(slots, ttl, es);
      && Asked(s.log, k) == Begun(slots, ttl, es, k)
      && Begun(slots, ttl, es, k) == Ended(slots, ttl, es, k) + if k in s.pending then 1 else 0
    decreases |es|
  {
    if es != [] {
      RequestsAreExact(slots, ttl, es[..|es| - 1], k);
      EventAccounts(Run(slots, ttl, es[..|es| - 1]), es[|es| - 1], k);
    }
  }

  // ---- how long an answer stays ----

  /** An answer is flushed when its time to live is over and not before. */
  lemma ExpiresIff(s: Dns, host: CString, addr: Addr, now: int, time: int)
    requires Inv(s) && Lower(host) !in s.hash && Lower(host) !in s.pending
    ensures FindCached(Flush(Cache(s, host, addr, now), time), host) ==
      if time > now + s.ttl then None else Some(addr)
  {}

  /** What the time to live was last set to. */
  function LastTTL(ttl: int, es: seq<Event>): int
  {
    if es == [] then ttl
    else if es[|es| - 1].TTLEvent? then es[|es| - 1].ttl else LastTTL(ttl, es[..|es| - 1])
  }

  lemma {:induction false} TTLIsLast(slots: nat, ttl: int, es: seq<Event>)
    requires slots > 0
    ensures Run(slots, ttl, es).ttl == LastTTL(ttl, es)
    decreases |es|
  {
    if es != [] {
      TTLIsLast(slots, ttl, es[..|es| - 1]);
      EventTTL(Run(slots, ttl, es[..|es| - 1]), es[|es| - 1]);
    }
  }

  lemma EventTTL(s: Dns, e: Event)
    requires s.free < |s.items|
    ensures Apply(s, e).ttl == if e.TTLEvent? then e.ttl else s.ttl
  {}

  /** After a resize the next answer evicts nobody while there is a free slot. */
  lemma ResizedTurn(s: Dns, slots: nat)
    requires Inv(s) && 0 < slots != |s.items|
    ensures var t := Resize(s, slots);
      t.free < |t.items| && ((exists i :: 0 <= i < |t.items| && t.items[i] == Free) ==> t.items[t.free] == Free)
  {
    var num := if slots > |s.items| then |s.items| else slots;
    CompactUsed(s.items[..num]);
  }

  lemma {:induction false} CompactUsed(items: seq<Slot>)
    ensures forall i :: 0 <= i < |Compact(items)| ==> Compact(items)[i].Used?
  {
    if items != [] {
      CompactUsed(items[..|items| - 1]);
    }
  }

  datatype Entry = Entry(host: CString, addr: Addr, now: int)

  /** Answers stored one after the other. */
  function StoreAll(s: Dns, es: seq<Entry>): (t: Dns)
    requires s.free < |s.items|
    ensures |t.items| == |s.items| && t.free < |t.items|
    decreases |es|
  {
    if es == [] then s
    else
      var r := StoreAll(s, es[..|es| - 1]);
      var e := es[|es| - 1];
      Cache(r, e.host, e.addr, e.now)
  }

  /** Different hosts, none of which is cached or waited for. */
  predicate AllNew(s: Dns, es: seq<Entry>)
  {
    && (forall i :: 0 <= i < |es| ==> Lower(es[i].host) !in s.hash && Lower(es[i].host) !in s.pending)
    && (forall i, j :: 0 <= i < j < |es| ==> !SameCase(es[i].host, es[j].host))
  }

  /** Where the ring stands after n answers. */
  function Turned(s: Dns, n: nat): nat
    requires s.free < |s.items|
  {
    (s.free + n) % |s.items|
  }

  lemma TurnedOnce(s: Dns, n: nat)
    requires s.free < |s.items|
    ensures Turned(s, n + 1) == if Turned(s, n) + 1 >= |s.items| then 0 else Turned(s, n) + 1
  {
    var k, q := |s.items|, (s.free + n) / |s.items|;
    Remainder(s.free + n + 1, k, q);
    assert s.free + n == q * k + Turned(s, n);
  }

  lemma Remainder(v: nat, k: nat, q: nat)
    requires k > 0 && q * k <= v <= q * k + k
    ensures v % k == if v == q * k + k then 0 else v - q * k
  {
    if v == q * k + k {
      assert v == (q + 1) * k;
      QuotientIs(v, k, q + 1, 0);
    } else {
      QuotientIs(v, k, q, v - q * k);
    }
  }

  lemma TurnedApart(s: Dns, i: nat, n: nat)
    requires s.free < |s.items| && i < n < |s.items|
    ensures Turned(s, i) != Turned(s, n)
  {
    var k := |s.items|;
    Remainder(s.free + i, k, if s.free + i < k then 0 else 1);
    Remainder(s.free + n, k, if s.free + n < k then 0 else 1);
  }

  ghost predicate Holds(t: Dns, s: Dns, e: Entry, i: nat)
    requires s.free < |s.items| && |t.items| == |s.items|
  {
    t.items[Turned(s, i)] == Used(e.host, e.addr, e.now + s.ttl)
  }

  ghost predicate KeysKnown(t: Dns, s: Dns, es: seq<Entry>)
  {
    forall k <- t.hash :: k in s.hash || InEntries(es, k)
  }

  predicate InEntries(es: seq<Entry>, k: CString)
  {
    exists i :: 0 <= i < |es| && Lower(es[i].host) == k
  }

  ghost predicate Stored(t: Dns, s: Dns, es: seq<Entry>)
    requires s.free < |s.items| && |t.items| == |s.items|
  {
    && Inv(t) && t.free == Turned(s, |es|) && t.ttl == s.ttl && t.pending == s.pending
    && (forall i :: 0 <= i < |es| ==> Holds(t, s, es[i], i))
    && KeysKnown(t, s, es)
  }

  lemma LastEntry(s: Dns, es: seq<Entry>)
    requires AllNew(s, es) && es != []
    ensures var e := es[|es| - 1];
      && AllNew(s, es[..|es| - 1]) && !InEntries(es[..|es| - 1], Lower(e.host))
      && Lower(e.host) !in s.hash && Lower(e.host) !in s.pending
  {
    var n := |es| - 1;
    assert forall i :: 0 <= i < n ==> !SameCase(es[i].host, es[n].host);
  }

  /** The ring holds as many answers as it has slots: none of them is lost to another before all the others
      have been used. */
  lemma {:induction false} RingKeeps(s: Dns, es: seq<Entry>)
    requires Inv(s) && AllNew(s, es) && |es| <= |s.items|
    ensures Stored(StoreAll(s, es), s, es)
    decreases |es|
  {
    if es == [] {
      NothingStored(s);
    } else {
      var before, e := es[..|es| - 1], es[|es| - 1];
      LastEntry(s, es);
      RingKeeps(s, before);
      NextStored(StoreAll(s, before), s, before, e);
      assert es == before + [e];
    }
  }

  lemma NothingStored(s: Dns)
    requires Inv(s)
    ensures Stored(s, s, [])
  {}

  lemma NextStored(r: Dns, s: Dns, es: seq<Entry>, e: Entry)
    requires Inv(s) && |es| < |s.items| == |r.items| && Stored(r, s, es)
    requires Lower(e.host) !in s.hash && Lower(e.host) !in s.pending && !InEntries(es, Lower(e.host))
    ensures Stored(Cache(r, e.host, e.addr, e.now), s, es + [e])
  {
    CacheKeepsInv(r, e.host, e.addr, e.now);
    TurnedOnce(s, |es|);
    NextHolds(r, s, es, e);
    NextKeys(r, s, es, e);
  }

  lemma NextHolds(r: Dns, s: Dns, es: seq<Entry>, e: Entry)
    requires Inv(s) && |es| < |s.items| == |r.items| && Stored(r, s, es)
    ensures var t, all := Cache(r, e.host, e.addr, e.now), es + [e];
      forall i :: 0 <= i < |all| ==> Holds(t, s, all[i], i)
  {
    var t, all := Cache(r, e.host, e.addr, e.now), es + [e];
    forall i | 0 <= i < |all| ensures Holds(t, s, all[i], i) {
      if i < |es| {
        TurnedApart(s, i, |es|);
        assert Holds(r, s, es[i], i);
      }
    }
  }

  lemma NextKeys(r: Dns, s: Dns, es: seq<Entry>, e: Entry)
    requires r.free < |r.items| && KeysKnown(r, s, es)
    ensures KeysKnown(Cache(r, e.host, e.addr, e.now), s, es + [e])
  {
    var t, all := Cache(r, e.host, e.addr, e.now), es + [e];
    forall k | k in t.hash ensures k in s.hash || InEntries(all, k) {
      if k == Lower(e.host) {
        assert Lower(all[|es|].host) == k;
      } else if k !in s.hash {
        var i :| 0 <= i < |es| && Lower(es[i].host) == k;
        assert Lower(all[i].host) == k;
      }
    }
  }

  /** Each of them is found. */
  lemma AllFound(s: Dns, es: seq<Entry>, i: nat)
    requires Inv(s) && AllNew(s, es) && i < |es| <= |s.items|
    ensures FindCached(StoreAll(s, es), es[i].host) == Some(es[i].addr)
  {
    RingKeeps(s, es);
    assert Holds(StoreAll(s, es), s, es[i], i);
  }
}
