/** DNSCache: the slots in an array, the two hashes, and the callbacks it makes. */
module DnsCaching {
  import opened CStrings
  import opened DnsTables

  class DNSCache {
    var TTL: int
    var FreeSlot: nat
    var Items: array<Slot>
    var Hash: map<CString, nat>              // host to slot; a StrHash
    var Pending: map<CString, seq<Waiter>>   // host to the chain of its waiters; a StrHash
    var Firing: seq<Waiter>
    var Log: seq<Effect>

    function State(): Dns
      reads this, Items
    {
      Dns(Items[..], FreeSlot, TTL, Hash, Pending, Firing, Log)
    }

    ghost predicate Valid()
      reads this, Items
    {
      Inv(State())
    }

    /** `slots` is the configured number of slots. */
    constructor (slots: nat, ttl: int)
      requires slots > 0
      ensures Valid() && State() == Init(slots, ttl) && fresh(Items)
    {
      TTL, FreeSlot, Hash, Pending, Firing, Log := ttl, 0, map[], map[], [], [];
      Items := new Slot[slots](_ => Free);
      new;
      assert Items[..] == Init(slots, ttl).items;
    }

    method Remove(i: nat)
      requires i < Items.Length
      modifies `Hash, Items
      ensures State() == RemoveSlot(old(State()), i)
    {
      match Items[i] {
        case Free =>
        case Used(host, _, _) =>
          Hash := Hash - {Lower(host)};
          Items[i] := Free;
      }
    }

    method Cache(host: CString, addr: Addr, now: int)
      requires FreeSlot < Items.Length
      modifies `Hash, `FreeSlot, `Log, Items
      ensures State() == DnsTables.Cache(old(State()), host, addr, now)
    {
      Remove(FreeSlot);
      Items[FreeSlot] := Used(host, addr, now + TTL);
      if Lower(host) !in Hash {
        Hash := Hash[Lower(host) := FreeSlot];
      }
      Log := Log + [Store(Lower(host), addr)];
      FreeSlot := FreeSlot + 1;
      if FreeSlot >= Items.Length {
        FreeSlot := 0;
      }
    }

    method FindCached(host: CString) returns (addr: Option<Addr>)
      requires Valid()
      ensures addr == DnsTables.FindCached(State(), host)
    {
      addr := None;
      if Lower(host) in Hash {
        addr := Some(Items[Hash[Lower(host)]].addr);
      }
    }

    method AsyncResolve(host: CString, addr: int, callback: int, userdata: int)
      requires Valid()
      modifies this
      ensures Valid() && Items == old(Items)
      ensures State() == DnsTables.AsyncResolve(old(State()), Waiter(host, addr, callback, userdata))
    {
      var w := Waiter(host, addr, callback, userdata);
      AsyncResolveKeepsInv(State(), w);
      if host != [] {
        var found := FindCached(host);
        if found.Some? {
          Log := Log + [Fill(addr, found.value), Immediate(w)];
        } else {
          var send := AddPendingRequest(w);
          if send {
            Log := Log + [Ask(host)];
            assert Log == old(Log) + [Register(w), Ask(host)];
          }
        }
      } else {
        Log := Log + [Fill(addr, 0), Immediate(w)];
      }
    }

    method AddPendingRequest(w: Waiter) returns (send: bool)
      modifies `Pending, `Log
      ensures send == (Lower(w.host) !in old(Pending))
      ensures Pending == old(Pending)[Lower(w.host) := if send then [w] else [w] + old(Pending)[Lower(w.host)]]
      ensures Log == old(Log) + [Register(w)]
    {
      Log := Log + [Register(w)];
      if Lower(w.host) in Pending {
        Pending := Pending[Lower(w.host) := [w] + Pending[Lower(w.host)]];
        send := false;
      } else {
        Pending := Pending[Lower(w.host) := [w]];
        send := true;
      }
    }

    method CancelRequest(host: CString, callback: int, userdata: int)
      requires Valid()
      modifies `Pending, `Log
      ensures Valid() && State() == Cancel(old(State()), host, callback, userdata)
    {
      CancelKeepsInv(State(), host, callback, userdata);
      var k := Lower(host);
      if k in Pending {
        var chain := Pending[k];
        var i := FindRequest(chain, callback, userdata);
        if i < |chain| {
          var rest := chain[..i] + chain[i + 1..];
          if rest != [] {
            Pending := Pending[k := rest];
          } else {
            Pending := Pending - {k};
          }
          Log := Log + [Cancelled(chain[i])];
        }
      }
    }

    method IPCAnswer(host: CString, addrlen: int, addr: Addr, now: int)
      requires Valid()
      modifies this, Items
      ensures Valid() && Items == old(Items)
      ensures State() == DnsTables.IPCAnswer(old(State()), host, addrlen, addr, now)
    {
      AnswerKeepsInv(State(), host, addrlen, addr, now);
      var k := Lower(host);
      if k in Pending {
        var chain := Pending[k];
        Pending := Pending - {k};
        Firing := chain + Firing;
        if addrlen != 0 {
          Log := Log + [Fill(chain[0].addr, addr)];
          if addr != INADDR_NONE {
            Cache(host, addr, now);
          }
        }
        assert State() == Answer(old(State()), host, addrlen, addr, now);
        FireChain(|chain|, addrlen);
      }
    }

    /** The do-while loop of IPCAnswer over the chain it took out. */
    method FireChain(count: nat, addrlen: int)
      requires Valid()
      modifies `Firing, `Log
      ensures Valid() && State() == FireAll(old(State()), count, addrlen)
    {
      var left := count;
      while left > 0
        invariant 0 <= left <= count && Valid()
        invariant FireAll(State(), left, addrlen) == FireAll(old(State()), count, addrlen)
      {
        FireOne(addrlen);
        left := left - 1;
      }
    }

    method FireOne(addrlen: int)
      requires Valid()
      modifies `Firing, `Log
      ensures Valid() && State() == FireNext(old(State()), addrlen)
    {
      FireNextKeepsInv(State(), addrlen);
      if Firing != [] {
        Log := Log + [Fire(Firing[0], addrlen)];
        Firing := Firing[1..];
      }
    }

    method Flush(now: int)
      requires Valid()
      modifies `Hash, Items
      ensures Valid() && State() == DnsTables.Flush(old(State()), now)
    {
      FlushKeepsInv(State(), now);
      FlushEnds(State(), now);
      ghost var s := State();
      var i := 0;
      while i < Items.Length
        invariant 0 <= i <= Items.Length && |s.items| == Items.Length
        invariant State() == FlushUpTo(s, now, i)
      {
        FlushSlot(i, now, s);
        i := i + 1;
      }
    }

    method FlushSlot(i: nat, now: int, ghost s: Dns)
      requires SlotsAgree(s.items, s.hash) && i < Items.Length && State() == FlushUpTo(s, now, i)
      modifies `Hash, Items
      ensures State() == FlushUpTo(s, now, i + 1)
    {
      FlushStep(s, now, i);
      assert Items[i] == State().items[i] == s.items[i];
      if Items[i].Used? && now > Items[i].expire {
        Remove(i);
      }
    }

    /** ReloadCfg, as far as the number of slots is concerned. */
    method Resize(slots: nat)
      requires Valid() && slots > 0
      modifies this, Items
      ensures Valid() && State() == DnsTables.Resize(old(State()), slots)
      ensures Items == old(Items) || fresh(Items)
    {
      ResizeKeepsInv(State(), slots);
      if slots != Items.Length {
        ReallocateSlots(slots);
      }
    }

    method ReallocateSlots(slots: nat)
      requires Valid() && 0 < slots != Items.Length
      modifies this, Items
      ensures State() == DnsTables.Resize(old(State()), slots) && fresh(Items)
    {
      ghost var s := State();
      var newItems := new Slot[slots](_ => Free);
      ResizeKeepsRest(s, slots);
      Transfer(newItems);
      Items := newItems;
    }

    /** What fits goes to the new slots, the rest leaves the hash. */
    method Transfer(newItems: array<Slot>)
      requires Valid() && 0 < newItems.Length != Items.Length && newItems != Items
      requires forall i :: 0 <= i < newItems.Length ==> newItems[i] == Free
      modifies `FreeSlot, `Hash, newItems, Items
      ensures newItems[..] == DnsTables.Resize(old(State()), newItems.Length).items
      ensures Hash == DnsTables.Resize(old(State()), newItems.Length).hash
      ensures FreeSlot == DnsTables.Resize(old(State()), newItems.Length).free
    {
      ghost var s := State();
      var num := if newItems.Length > Items.Length then Items.Length else newItems.Length;
      MoveEnds(s, newItems.Length, num);
      MoveStarts(s, num);
      MoveItems(newItems, num);
      ResizedItems(s, newItems.Length, newItems[..FreeSlot], newItems[..]);
      DropItems(num, s);
      if FreeSlot >= newItems.Length {
        FreeSlot := 0;
      }
    }

    /** The first num entries, those in use, move to the front of the new slots. */
    method MoveItems(newItems: array<Slot>, num: nat)
      requires SlotsAgree(Items[..], Hash) && num <= newItems.Length && num <= Items.Length && newItems != Items
      requires forall i :: 0 <= i < newItems.Length ==> newItems[i] == Free
      modifies `FreeSlot, `Hash, newItems
      ensures Hash == Moved(old(State()), num, 0, 0)
      ensures FreeSlot <= newItems.Length && newItems[..FreeSlot] == Compact(Items[..num])
      ensures forall i :: FreeSlot <= i < newItems.Length ==> newItems[i] == Free
    {
      ghost var s := State();
      FreeSlot := 0;
      MoveStarts(s, 0);
      for i := 0 to num
        invariant Items[..] == s.items && Hash == Moved(s, i, 0, 0)
        invariant FreeSlot <= i && newItems[..FreeSlot] == Compact(s.items[..i])
        invariant forall j :: FreeSlot <= j < newItems.Length ==> newItems[j] == Free
      {
        MoveItem(newItems, i, s);
      }
    }

    method MoveItem(newItems: array<Slot>, i: nat, ghost s: Dns)
      requires SlotsAgree(s.items, s.hash) && i < newItems.Length && newItems != Items
      requires Items[..] == s.items && i < Items.Length && Hash == Moved(s, i, 0, 0)
      requires FreeSlot <= i && newItems[..FreeSlot] == Compact(s.items[..i])
      modifies `FreeSlot, `Hash, newItems
      ensures Hash == Moved(s, i + 1, 0, 0)
      ensures FreeSlot <= i + 1 && newItems[..FreeSlot] == Compact(s.items[..i + 1])
      ensures FreeSlot >= old(FreeSlot)
      ensures forall j :: FreeSlot <= j < newItems.Length ==> newItems[j] == old(newItems[j])
    {
      MoveStep(s, i);
      CompactSnoc(s.items, i);
      if Items[i].Used? {
        Hash := Hash[Lower(Items[i].host) := FreeSlot];
        PutItem(newItems, Items[i]);
      }
    }

    method PutItem(newItems: array<Slot>, item: Slot)
      requires FreeSlot < newItems.Length
      modifies `FreeSlot, newItems
      ensures FreeSlot == old(FreeSlot) + 1 && newItems[..FreeSlot] == old(newItems[..FreeSlot]) + [item]
      ensures forall j :: FreeSlot <= j < newItems.Length ==> newItems[j] == old(newItems[j])
    {
      newItems[FreeSlot] := item;
      FreeSlot := FreeSlot + 1;
    }

    /** Remove the remaining items from the hash. */
    method DropItems(num: nat, ghost s: Dns)
      requires SlotsAgree(s.items, s.hash) && Items[..] == s.items
      requires num <= Items.Length && Hash == Moved(s, num, num, num)
      modifies `Hash, Items
      ensures Hash == Moved(s, num, num, |s.items|)
    {
      for i := num to Items.Length
        invariant |s.items| == Items.Length && Hash == Moved(s, num, num, i)
        invariant forall j :: i <= j < Items.Length ==> Items[j] == s.items[j]
      {
        DropStep(s, num, i);
        Remove(i);
      }
    }
  }

  /** The search loop of CancelRequest. */
  method FindRequest(chain: seq<Waiter>, callback: int, userdata: int) returns (i: nat)
    ensures i == Match(chain, callback, userdata)
  {
    i := 0;
    while i < |chain| && (chain[i].callback != callback || chain[i].userdata != userdata)
      invariant i <= Match(chain, callback, userdata)
    {
      i := i + 1;
    }
  }
}
