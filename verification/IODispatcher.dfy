/** The select() dispatcher: its descriptor table and the two forms of Dispatch. */
module IODispatching {

  const MAX_FDS := 1024

  /** PROM_IOF_READ, PROM_IOF_WRITE, PROM_IOF_EXCEPT; a C flag word is a set of them. */
  datatype IoFlag = READ | WRITE | EXCEPT

  /** An Fd object: its identity and the descriptor it wraps (-1 when invalid). */
  datatype Fd = Fd(id: int, num: int)
  {
    predicate IsValid() { num != -1 }
    /** The kernel hands out no descriptor the table has no room for. */
    predicate Fits() { -1 <= num < MAX_FDS }
  }

  datatype Slot = Empty | Used(fd: Fd)

  datatype Entry = Entry(slot: Slot, flags: set<IoFlag>)

  /** FDTable, the three bit sets and MaxFD. */
  datatype Table = Table(fds: seq<Entry>, read: seq<bool>, write: seq<bool>, except: seq<bool>, maxFd: nat)
  {
    predicate Sized() {
      |fds| == |read| == |write| == |except| == MAX_FDS && maxFd <= MAX_FDS
    }

    function Bits(ty: IoFlag): seq<bool>
    {
      match ty case READ => read case WRITE => write case EXCEPT => except
    }

    /** What Dispatch depends on: nothing is registered from MaxFD on. */
    predicate Tidy() {
      Sized() && forall i :: maxFd <= i < MAX_FDS ==> fds[i].flags == {}
    }

    /** The bit sets mirror the table, and MaxFD is one above the highest slot in use. */
    ghost predicate Inv()
    {
      && Sized()
      && (forall i, ty :: 0 <= i < MAX_FDS ==> (Bits(ty)[i] <==> ty in fds[i].flags))
      && (forall i :: 0 <= i < MAX_FDS ==> (fds[i].slot == Empty <==> fds[i].flags == {}))
      && (forall i :: maxFd <= i < MAX_FDS ==> fds[i].slot == Empty)
      && (maxFd > 0 ==> fds[maxFd - 1].slot != Empty)
    }
  }

  const INIT := Table(seq(MAX_FDS, _ => Entry(Empty, {})), seq(MAX_FDS, _ => false),
                      seq(MAX_FDS, _ => false), seq(MAX_FDS, _ => false), 0)

  // ---- AddFD and RemFD ----

  function SetBit(bits: seq<bool>, i: nat, change: bool, to: bool): (r: seq<bool>)
    requires i < |bits|
    ensures |r| == |bits|
  {
    if change then bits[i := to] else bits
  }

  function Add(t: Table, fd: Fd, flags: set<IoFlag>): (r: Table)
    requires t.Sized() && fd.Fits()
    ensures r.Sized()
  {
    if !fd.IsValid() then t
    else
      var i := fd.num;
      Table(t.fds[i := Entry(Used(fd), t.fds[i].flags + flags)],
            SetBit(t.read, i, READ in flags, true), SetBit(t.write, i, WRITE in flags, true),
            SetBit(t.except, i, EXCEPT in flags, true),
            if i + 1 > t.maxFd then i + 1 else t.maxFd)
  }

  /** One above the highest slot in use below n. */
  function Top(fds: seq<Entry>, n: nat): (r: nat)
    requires n <= |fds|
    ensures r <= n
    ensures forall i :: r <= i < n ==> fds[i].slot == Empty
    ensures r > 0 ==> fds[r - 1].slot != Empty
  {
    if n == 0 || fds[n - 1].slot != Empty then n else Top(fds, n - 1)
  }

  function Rem(t: Table, fd: Fd, flags: set<IoFlag>): (r: Table)
    requires t.Sized() && fd.Fits()
    ensures r.Sized()
  {
    if !fd.IsValid() || t.fds[fd.num].slot != Used(fd) then t
    else
      var i := fd.num;
      var left := t.fds[i].flags - flags;
      var fds := t.fds[i := Entry(if left == {} then Empty else Used(fd), left)];
      Table(fds,
            SetBit(t.read, i, READ in flags, false), SetBit(t.write, i, WRITE in flags, false),
            SetBit(t.except, i, EXCEPT in flags, false),
            if left == {} then Top(fds, t.maxFd) else t.maxFd)
  }

  lemma AddBits(t: Table, fd: Fd, flags: set<IoFlag>)
    requires t.Inv() && fd.Fits() && fd.IsValid()
    ensures var r := Add(t, fd, flags);
      forall i, ty :: 0 <= i < MAX_FDS ==> (r.Bits(ty)[i] <==> ty in r.fds[i].flags)
  {
    var r := Add(t, fd, flags);
    forall i, ty | 0 <= i < MAX_FDS
      ensures r.Bits(ty)[i] <==> ty in r.fds[i].flags
    {
      assert t.Bits(ty)[i] <==> ty in t.fds[i].flags;
    }
  }

  /** Registration keeps the invariant, except when a descriptor that is not yet in the table
      is added without any flag. */
  lemma AddKeepsInvIff(t: Table, fd: Fd, flags: set<IoFlag>)
    requires t.Inv() && fd.Fits()
    ensures Add(t, fd, flags).Inv() <==> !fd.IsValid() || flags != {} || t.fds[fd.num].flags != {}
  {
    if fd.IsValid() {
      AddBits(t, fd, flags);
      var r := Add(t, fd, flags);
      assert r.fds[fd.num].flags == {} <==> flags == {} && t.fds[fd.num].flags == {};
    }
  }

  /** Registered without a flag, a descriptor fills a slot that stands for none. */
  lemma AddedWithoutFlags()
    ensures INIT.Inv() && !Add(INIT, Fd(3, 3), {}).Inv()
  {
    RunInv([]);
    AddKeepsInvIff(INIT, Fd(3, 3), {});
  }

  lemma RemKeepsInv(t: Table, fd: Fd, flags: set<IoFlag>)
    requires t.Inv() && fd.Fits()
    ensures Rem(t, fd, flags).Inv() && Rem(t, fd, flags).maxFd <= t.maxFd
  {
    if fd.IsValid() && t.fds[fd.num].slot == Used(fd) {
      var r := Rem(t, fd, flags);
      forall i, ty | 0 <= i < MAX_FDS
        ensures r.Bits(ty)[i] <==> ty in r.fds[i].flags
      {
        assert t.Bits(ty)[i] <==> ty in t.fds[i].flags;
      }
    }
  }

  datatype Event = AddEvent(fd: Fd, flags: set<IoFlag>) | RemEvent(fd: Fd, flags: set<IoFlag>)

  predicate Proper(e: Event) { e.fd.Fits() && (e.AddEvent? ==> e.flags != {}) }

  function Apply(t: Table, e: Event): (r: Table)
    requires t.Sized() && Proper(e)
    ensures r.Sized()
  {
    match e case AddEvent(fd, flags) => Add(t, fd, flags) case RemEvent(fd, flags) => Rem(t, fd, flags)
  }

  function Run(t: Table, es: seq<Event>): (r: Table)
    requires t.Sized() && forall i :: 0 <= i < |es| ==> Proper(es[i])
    ensures r.Sized()
  {
    if es == [] then t else Apply(Run(t, es[..|es| - 1]), es[|es| - 1])
  }

  /** Every reachable table satisfies the invariant. */
  lemma {:induction false} RunInv(es: seq<Event>)
    requires forall i :: 0 <= i < |es| ==> Proper(es[i])
    ensures Run(INIT, es).Inv()
  {
    if es != [] {
      var e, t := es[|es| - 1], Run(INIT, es[..|es| - 1]);
      RunInv(es[..|es| - 1]);
      match e {
        case AddEvent(fd, flags) => AddKeepsInvIff(t, fd, flags);
        case RemEvent(fd, flags) => RemKeepsInv(t, fd, flags);
      }
    }
  }

  /** Run of deregistrations only: it never raises MaxFD. */
  lemma {:induction false} RemovalsOnly(t: Table, es: seq<Event>)
    requires t.Inv() && forall i :: 0 <= i < |es| ==> es[i].RemEvent? && Proper(es[i])
    ensures Run(t, es).Inv() && Run(t, es).maxFd <= t.maxFd
  {
    if es != [] {
      RemovalsOnly(t, es[..|es| - 1]);
      RemKeepsInv(Run(t, es[..|es| - 1]), es[|es| - 1].fd, es[|es| - 1].flags);
    }
  }

  // ---- what is registered ----

  ghost predicate OthersStay(t: Table, r: Table, k: nat)
    requires t.Sized() && r.Sized()
  {
    forall i :: 0 <= i < MAX_FDS && i != k ==> r.fds[i] == t.fds[i] && forall ty :: r.Bits(ty)[i] == t.Bits(ty)[i]
  }

  /** The flags are given to the descriptor of fd and to no other. */
  ghost predicate Given(t: Table, r: Table, fd: Fd, flags: set<IoFlag>)
    requires t.Sized() && r.Sized() && fd.Fits() && fd.IsValid()
  {
    && r.fds[fd.num].slot == Used(fd)
    && (forall ty :: ty in r.fds[fd.num].flags <==> ty in t.fds[fd.num].flags || ty in flags)
    && (forall ty :: r.Bits(ty)[fd.num] <==> t.Bits(ty)[fd.num] || ty in flags)
    && OthersStay(t, r, fd.num)
  }

  /** The flags are taken from the descriptor of fd and from no other; it stays while it has one left. */
  ghost predicate Taken(t: Table, r: Table, fd: Fd, flags: set<IoFlag>)
    requires t.Sized() && r.Sized() && fd.Fits() && fd.IsValid()
  {
    && (forall ty :: ty in r.fds[fd.num].flags <==> ty in t.fds[fd.num].flags && ty !in flags)
    && (forall ty :: r.Bits(ty)[fd.num] <==> t.Bits(ty)[fd.num] && ty !in flags)
    && r.fds[fd.num].slot == (if r.fds[fd.num].flags == {} then Empty else Used(fd))
    && OthersStay(t, r, fd.num)
  }

  lemma AddGives(t: Table, fd: Fd, flags: set<IoFlag>)
    requires t.Sized() && fd.Fits() && fd.IsValid()
    ensures Given(t, Add(t, fd, flags), fd, flags)
  {}

  lemma RemTakes(t: Table, fd: Fd, flags: set<IoFlag>)
    requires t.Sized() && fd.Fits() && fd.IsValid() && t.fds[fd.num].slot == Used(fd)
    ensures Taken(t, Rem(t, fd, flags), fd, flags)
  {}

  /** Who registered descriptor i last. */
  function LastAdder(es: seq<Event>, i: nat): Slot
  {
    if es == [] then Empty
    else
      var e := es[|es| - 1];
      if e.AddEvent? && e.fd.num == i then Used(e.fd) else LastAdder(es[..|es| - 1], i)
  }

  /** The last event that counts for a flag of descriptor i was an AddFD. A RemFD counts when it is made for
      the Fd that was the last to register i, and i has some flag. */
  predicate LastWasAdd(es: seq<Event>, i: nat, ty: IoFlag)
    decreases |es|, 0
  {
    if es == [] then false
    else
      var e, before := es[|es| - 1], es[..|es| - 1];
      if e.fd.num != i || ty !in e.flags then LastWasAdd(before, i, ty)
      else e.AddEvent? || (LastWasAdd(before, i, ty) && !Held(before, i, e.fd))
  }

  predicate Held(es: seq<Event>, i: nat, fd: Fd)
    decreases |es|, 1
  {
    LastAdder(es, i) == Used(fd) && (LastWasAdd(es, i, READ) || LastWasAdd(es, i, WRITE) || LastWasAdd(es, i, EXCEPT))
  }

  ghost predicate Recorded(t: Table, es: seq<Event>, i: nat)
    requires t.Sized() && i < MAX_FDS
  {
    && (forall ty :: ty in t.fds[i].flags <==> LastWasAdd(es, i, ty))
    && t.fds[i].slot == if t.fds[i].flags == {} then Empty else LastAdder(es, i)
  }

  /** In every run: a flag of a descriptor is registered if and only if the last event that counts for it was
      an AddFD, and the slot holds whoever registered the descriptor last. */
  lemma {:induction false} FlagsFollowEvents(es: seq<Event>, i: nat)
    requires i < MAX_FDS && forall k :: 0 <= k < |es| ==> Proper(es[k])
    ensures Recorded(Run(INIT, es), es, i)
    decreases |es|
  {
    if es != [] {
      var e, before := es[|es| - 1], es[..|es| - 1];
      FlagsFollowEvents(before, i);
      EventRecorded(Run(INIT, before), before, e, i);
      assert es == before + [e];
    }
  }

  lemma HeldIsSlot(t: Table, es: seq<Event>, i: nat, fd: Fd)
    requires t.Sized() && i < MAX_FDS && Recorded(t, es, i)
    ensures Held(es, i, fd) <==> t.fds[i].slot == Used(fd)
  {
    if t.fds[i].flags == {} {
      assert READ !in t.fds[i].flags && WRITE !in t.fds[i].flags && EXCEPT !in t.fds[i].flags;
    } else {
      var ty :| ty in t.fds[i].flags;
      assert LastWasAdd(es, i, ty) && (ty == READ || ty == WRITE || ty == EXCEPT);
    }
  }

  lemma EventRecorded(t: Table, es: seq<Event>, e: Event, i: nat)
    requires t.Sized() && i < MAX_FDS && Recorded(t, es, i) && Proper(e)
    ensures Recorded(Apply(t, e), es + [e], i)
  {
    assert (es + [e])[..|es|] == es;
    if e.fd.num == i {
      HeldIsSlot(t, es, i, e.fd);
      if e.AddEvent? {
        AddGives(t, e.fd, e.flags);
      } else if t.fds[i].slot == Used(e.fd) {
        RemTakes(t, e.fd, e.flags);
      }
    } else if e.fd.IsValid() {
      if e.AddEvent? {
        AddGives(t, e.fd, e.flags);
      } else if t.fds[e.fd.num].slot == Used(e.fd) {
        RemTakes(t, e.fd, e.flags);
      }
    }
  }

  // ---- Dispatch ----

  /** The table, and the descriptors whose handlers have been called. */
  datatype World = World(t: TidyTable, log: seq<nat>)

  type TidyTable = t: Table | t.Tidy() ghost witness INIT

  /** What the handler of a descriptor does to the table; it may depend on all that happened. */
  type Handler = (World, nat) -> TidyTable

  /** Handlers that leave the table in step. */
  ghost predicate KeepsInv(h: Handler)
  {
    forall w: World, i: nat :: h(w, i).Inv()
  }

  lemma InvIsTidy(t: Table)
    requires t.Inv()
    ensures t.Tidy()
  {}

  function Visit(w: World, ready: seq<bool>, ty: IoFlag, h: Handler, i: nat): (r: World)
    requires |ready| == MAX_FDS && i < MAX_FDS
  {
    if ready[i] && ty in w.t.fds[i].flags then
      var w' := w.(log := w.log + [i]);
      w'.(t := h(w', i))
    else w
  }

  /** The plain loop from descriptor i on. */
  function Plain(w: World, ready: seq<bool>, ty: IoFlag, h: Handler, i: nat): (r: World)
    requires |ready| == MAX_FDS && i <= MAX_FDS
    decreases MAX_FDS - i
  {
    if i >= w.t.maxFd then w else Plain(Visit(w, ready, ty, h, i), ready, ty, h, i + 1)
  }

  /** The DISPATCH macro from descriptor i up to its precomputed stop. */
  function Block(w: World, ready: seq<bool>, ty: IoFlag, h: Handler, i: nat, stop: nat): (r: World)
    requires |ready| == MAX_FDS && stop <= MAX_FDS
    decreases stop - i
  {
    if i >= stop then w else Block(Visit(w, ready, ty, h, i), ready, ty, h, i + 1, stop)
  }

  /** Some bit of byte number b of the fd_set is on. */
  predicate ByteSet(ready: seq<bool>, b: nat)
    requires 8 * b + 8 <= |ready|
  {
    exists i :: 8 * b <= i < 8 * b + 8 && ready[i]
  }

  predicate WordSet(ready: seq<bool>, w: nat)
    requires 32 * w + 32 <= |ready|
  {
    exists i :: 32 * w <= i < 32 * w + 32 && ready[i]
  }

  /** Where the DISPATCH macro stops, fixed before it calls anything. */
  function Stop(w: World, b: nat): nat
  {
    if w.t.maxFd < 8 * b + 8 then w.t.maxFd else 8 * b + 8
  }

  function ByteStep(w: World, ready: seq<bool>, ty: IoFlag, h: Handler, b: nat): (r: World)
    requires |ready| == MAX_FDS && 8 * b + 8 <= MAX_FDS
  {
    if !ByteSet(ready, b) then w else Block(w, ready, ty, h, 8 * b, Stop(w, b))
  }

  function Bytes(w: World, ready: seq<bool>, ty: IoFlag, h: Handler, b: nat, bytes: nat): (r: World)
    requires |ready| == MAX_FDS && 8 * bytes <= MAX_FDS
    decreases bytes - b
  {
    if b >= bytes then w else Bytes(ByteStep(w, ready, ty, h, b), ready, ty, h, b + 1, bytes)
  }

  /** One word: its bytes in memory order, if any bit of it is on. */
  function WordStep(w: World, ready: seq<bool>, ty: IoFlag, h: Handler, k: nat): (r: World)
    requires |ready| == MAX_FDS && 32 * k + 32 <= MAX_FDS
  {
    if WordSet(ready, k) then Bytes(w, ready, ty, h, 4 * k, 4 * k + 4) else w
  }

  function Words(w: World, ready: seq<bool>, ty: IoFlag, h: Handler, k: nat, words: nat): (r: World)
    requires |ready| == MAX_FDS && 32 * words <= MAX_FDS
    decreases words - k
  {
    if k >= words then w else Words(WordStep(w, ready, ty, h, k), ready, ty, h, k + 1, words)
  }

  /** The form that looks at 32, then at 8 descriptors at once. */
  function Fast(w: World, ready: seq<bool>, ty: IoFlag, h: Handler): (r: World)
    requires |ready| == MAX_FDS
  {
    var bytes := (w.t.maxFd + 7) / 8;
    var words := bytes / 4;
    Bytes(Words(w, ready, ty, h, 0, words), ready, ty, h, 4 * words, bytes)
  }

  // ---- the fast form is a walk over bytes ----

  lemma {:induction false} BytesJoin(w: World, ready: seq<bool>, ty: IoFlag, h: Handler, a: nat, b: nat, c: nat)
    requires |ready| == MAX_FDS && a <= b <= c && 8 * c <= MAX_FDS
    ensures Bytes(Bytes(w, ready, ty, h, a, b), ready, ty, h, b, c) == Bytes(w, ready, ty, h, a, c)
    decreases b - a
  {
    if a < b {
      BytesJoin(ByteStep(w, ready, ty, h, a), ready, ty, h, a + 1, b, c);
    }
  }

  lemma WordIsBytes(w: World, ready: seq<bool>, ty: IoFlag, h: Handler, k: nat)
    requires |ready| == MAX_FDS && 32 * k + 32 <= MAX_FDS
    ensures WordStep(w, ready, ty, h, k) == Bytes(w, ready, ty, h, 4 * k, 4 * k + 4)
  {
    if !WordSet(ready, k) {
      BytesQuiet(w, ready, ty, h, 4 * k, 4 * k + 4);
    }
  }

  lemma {:induction false} WordsAreBytes(w: World, ready: seq<bool>, ty: IoFlag, h: Handler, k: nat, words: nat)
    requires |ready| == MAX_FDS && k <= words && 32 * words <= MAX_FDS
    ensures Words(w, ready, ty, h, k, words) == Bytes(w, ready, ty, h, 4 * k, 4 * words)
    decreases words - k
  {
    if k < words {
      WordIsBytes(w, ready, ty, h, k);
      WordsAreBytes(WordStep(w, ready, ty, h, k), ready, ty, h, k + 1, words);
      BytesJoin(w, ready, ty, h, 4 * k, 4 * k + 4, 4 * words);
    }
  }

  lemma Rounding(maxFd: nat)
    requires maxFd <= MAX_FDS
    ensures var bytes := (maxFd + 7) / 8; maxFd <= 8 * bytes <= MAX_FDS && 4 * (bytes / 4) <= bytes
  {}

  lemma FastIsBytes(w: World, ready: seq<bool>, ty: IoFlag, h: Handler)
    requires |ready| == MAX_FDS
    ensures var bytes := (w.t.maxFd + 7) / 8;
      8 * bytes <= MAX_FDS && Fast(w, ready, ty, h) == Bytes(w, ready, ty, h, 0, bytes)
  {
    var bytes := (w.t.maxFd + 7) / 8;
    Rounding(w.t.maxFd);
    WordsAreBytes(w, ready, ty, h, 0, bytes / 4);
    BytesJoin(w, ready, ty, h, 0, 4 * (bytes / 4), bytes);
  }

  // ---- where nothing is called ----

  predicate Wanted(w: World, ready: seq<bool>, ty: IoFlag, i: nat)
    requires |ready| == MAX_FDS && i < MAX_FDS
  {
    ready[i] && ty in w.t.fds[i].flags
  }

  lemma WantedIsBelow(w: World, ready: seq<bool>, ty: IoFlag, d: nat)
    requires |ready| == MAX_FDS && d < MAX_FDS
    ensures Wanted(w, ready, ty, d) ==> d < w.t.maxFd
  {}

  /** No ready descriptor from i up to j is registered. */
  ghost predicate Quiet(w: World, ready: seq<bool>, ty: IoFlag, i: nat, j: nat)
    requires |ready| == MAX_FDS && j <= MAX_FDS
  {
    forall k :: i <= k < j ==> !Wanted(w, ready, ty, k)
  }

  lemma {:induction false} PlainSkips(w: World, ready: seq<bool>, ty: IoFlag, h: Handler, i: nat, j: nat)
    requires |ready| == MAX_FDS && i <= j <= MAX_FDS && Quiet(w, ready, ty, i, j)
    ensures Plain(w, ready, ty, h, i) == Plain(w, ready, ty, h, j)
    decreases j - i
  {
    if i < j && i < w.t.maxFd {
      assert !Wanted(w, ready, ty, i);
      PlainSkips(w, ready, ty, h, i + 1, j);
    }
  }

  lemma {:induction false} BlockSkips(w: World, ready: seq<bool>, ty: IoFlag, h: Handler, i: nat, j: nat, stop: nat)
    requires |ready| == MAX_FDS && i <= j <= stop <= MAX_FDS && Quiet(w, ready, ty, i, j)
    ensures Block(w, ready, ty, h, i, stop) == Block(w, ready, ty, h, j, stop)
    decreases j - i
  {
    if i < j {
      assert !Wanted(w, ready, ty, i);
      BlockSkips(w, ready, ty, h, i + 1, j, stop);
    }
  }

  lemma {:induction false} BytesQuiet(w: World, ready: seq<bool>, ty: IoFlag, h: Handler, b: nat, bytes: nat)
    requires |ready| == MAX_FDS && b <= bytes && 8 * bytes <= MAX_FDS && Quiet(w, ready, ty, 8 * b, 8 * bytes)
    ensures Bytes(w, ready, ty, h, b, bytes) == w
    decreases bytes - b
  {
    if b < bytes {
      ByteQuiet(w, ready, ty, h, b);
      BytesQuiet(w, ready, ty, h, b + 1, bytes);
    }
  }

  lemma ByteQuiet(w: World, ready: seq<bool>, ty: IoFlag, h: Handler, b: nat)
    requires |ready| == MAX_FDS && 8 * b + 8 <= MAX_FDS && Quiet(w, ready, ty, 8 * b, 8 * b + 8)
    ensures ByteStep(w, ready, ty, h, b) == w
  {
    var stop := Stop(w, b);
    if 8 * b <= stop {
      BlockSkips(w, ready, ty, h, 8 * b, stop, stop);
    }
  }

  // ---- when a byte is walked as the plain loop does ----

  /** The block does what the plain loop does, as far as it goes: whatever the handlers do. */
  lemma {:induction false} BlockIsPlain(w: World, ready: seq<bool>, ty: IoFlag, h: Handler, i: nat, stop: nat)
    requires |ready| == MAX_FDS && i <= stop <= MAX_FDS
    ensures Plain(w, ready, ty, h, i) == Plain(Block(w, ready, ty, h, i, stop), ready, ty, h, stop)
    decreases stop - i
  {
    if i < stop {
      BlockIsPlain(Visit(w, ready, ty, h, i), ready, ty, h, i + 1, stop);
    }
  }

  /** One byte, and then those after it. */
  lemma ThenBytes(w: World, v: World, ready: seq<bool>, ty: IoFlag, h: Handler, b: nat, bytes: nat)
    requires |ready| == MAX_FDS && b < bytes && 8 * bytes <= MAX_FDS && v == ByteStep(w, ready, ty, h, b)
    requires Plain(w, ready, ty, h, 8 * b) == Plain(v, ready, ty, h, 8 * b + 8)
    requires Plain(v, ready, ty, h, 8 * (b + 1)) == Bytes(v, ready, ty, h, b + 1, bytes)
    ensures Plain(w, ready, ty, h, 8 * b) == Bytes(w, ready, ty, h, b, bytes)
  {}

  /** A byte is walked as the plain loop does when in the end there is nothing to call past its stop. */
  lemma ByteIsPlain(w: World, ready: seq<bool>, ty: IoFlag, h: Handler, b: nat)
    requires |ready| == MAX_FDS && 8 * b + 8 <= MAX_FDS
    requires Quiet(ByteStep(w, ready, ty, h, b), ready, ty, Stop(w, b), 8 * b + 8)
    ensures Plain(w, ready, ty, h, 8 * b) == Plain(ByteStep(w, ready, ty, h, b), ready, ty, h, 8 * b + 8)
  {
    if !ByteSet(ready, b) {
      NoBitSet(w, ready, ty, h, b);
    } else if 8 * b <= Stop(w, b) {
      BlockThenQuiet(w, ready, ty, h, 8 * b, Stop(w, b), 8 * b + 8);
    } else {
      PastTop(w, ready, ty, h, b);
    }
  }

  lemma PastTop(w: World, ready: seq<bool>, ty: IoFlag, h: Handler, b: nat)
    requires |ready| == MAX_FDS && 8 * b + 8 <= MAX_FDS && Stop(w, b) < 8 * b
    ensures ByteStep(w, ready, ty, h, b) == Plain(w, ready, ty, h, 8 * b) == Plain(w, ready, ty, h, 8 * b + 8) == w
  {}

  lemma NoBitSet(w: World, ready: seq<bool>, ty: IoFlag, h: Handler, b: nat)
    requires |ready| == MAX_FDS && 8 * b + 8 <= MAX_FDS && !ByteSet(ready, b)
    ensures Plain(w, ready, ty, h, 8 * b) == Plain(w, ready, ty, h, 8 * b + 8)
  {
    PlainSkips(w, ready, ty, h, 8 * b, 8 * b + 8);
  }

  lemma BlockThenQuiet(w: World, ready: seq<bool>, ty: IoFlag, h: Handler, i: nat, stop: nat, next: nat)
    requires |ready| == MAX_FDS && i <= stop <= next <= MAX_FDS
    requires Quiet(Block(w, ready, ty, h, i, stop), ready, ty, stop, next)
    ensures Plain(w, ready, ty, h, i) == Plain(Block(w, ready, ty, h, i, stop), ready, ty, h, next)
  {
    BlockIsPlain(w, ready, ty, h, i, stop);
    PlainSkips(Block(w, ready, ty, h, i, stop), ready, ty, h, stop, next);
  }

  // ---- for one handler ----

  /** Handlers that only deregister, or register below the highest descriptor. */
  ghost predicate NeverRaises(h: Handler)
  {
    forall w: World, i: nat :: h(w, i).maxFd <= w.t.maxFd
  }

  /** Handlers that may register anything, but no descriptor that is among the ready ones: a new
      connection, say. */
  ghost predicate AddsNoneReady(h: Handler, ready: seq<bool>, ty: IoFlag)
    requires |ready| == MAX_FDS
  {
    forall w: World, i: nat, d :: 0 <= d < MAX_FDS && ready[d] && ty in h(w, i).fds[d].flags ==> ty in w.t.fds[d].flags
  }

  ghost predicate Tame(h: Handler, ready: seq<bool>, ty: IoFlag)
    requires |ready| == MAX_FDS
  {
    NeverRaises(h) || AddsNoneReady(h, ready, ty)
  }

  lemma {:induction false} BlockTame(w: World, ready: seq<bool>, ty: IoFlag, h: Handler, i: nat, stop: nat)
    requires |ready| == MAX_FDS && stop <= MAX_FDS && Tame(h, ready, ty)
    ensures var v := Block(w, ready, ty, h, i, stop);
      if NeverRaises(h) then v.t.maxFd <= w.t.maxFd
      else forall d :: 0 <= d < MAX_FDS && Wanted(v, ready, ty, d) ==> Wanted(w, ready, ty, d)
    decreases stop - i
  {
    if i < stop {
      BlockTame(Visit(w, ready, ty, h, i), ready, ty, h, i + 1, stop);
    }
  }

  lemma ByteTame(w: World, ready: seq<bool>, ty: IoFlag, h: Handler, b: nat)
    requires |ready| == MAX_FDS && 8 * b + 8 <= MAX_FDS && Tame(h, ready, ty)
    ensures Quiet(ByteStep(w, ready, ty, h, b), ready, ty, Stop(w, b), 8 * b + 8)
    ensures var v := ByteStep(w, ready, ty, h, b);
      if NeverRaises(h) then v.t.maxFd <= w.t.maxFd
      else forall d :: 0 <= d < MAX_FDS && Wanted(v, ready, ty, d) ==> Wanted(w, ready, ty, d)
  {
    BlockTame(w, ready, ty, h, 8 * b, Stop(w, b));
    var v := ByteStep(w, ready, ty, h, b);
    forall d | Stop(w, b) <= d < 8 * b + 8 ensures !Wanted(v, ready, ty, d) {
      WantedIsBelow(v, ready, ty, d);
      WantedIsBelow(w, ready, ty, d);
    }
  }

  lemma TameByte(w: World, ready: seq<bool>, ty: IoFlag, h: Handler, b: nat, bytes: nat) returns (v: World)
    requires |ready| == MAX_FDS && b < bytes && 8 * bytes <= MAX_FDS && Tame(h, ready, ty)
    requires Quiet(w, ready, ty, 8 * bytes, MAX_FDS) && (NeverRaises(h) ==> w.t.maxFd <= 8 * bytes)
    ensures v == ByteStep(w, ready, ty, h, b)
    ensures Plain(w, ready, ty, h, 8 * b) == Plain(v, ready, ty, h, 8 * b + 8)
    ensures Quiet(v, ready, ty, 8 * bytes, MAX_FDS) && (NeverRaises(h) ==> v.t.maxFd <= 8 * bytes)
  {
    ByteTame(w, ready, ty, h, b);
    ByteIsPlain(w, ready, ty, h, b);
    v := ByteStep(w, ready, ty, h, b);
  }

  lemma {:induction false} BytesTame(w: World, ready: seq<bool>, ty: IoFlag, h: Handler, b: nat, bytes: nat)
    requires |ready| == MAX_FDS && b <= bytes && 8 * bytes <= MAX_FDS && Tame(h, ready, ty)
    requires Quiet(w, ready, ty, 8 * bytes, MAX_FDS) && (NeverRaises(h) ==> w.t.maxFd <= 8 * bytes)
    ensures Plain(w, ready, ty, h, 8 * b) == Bytes(w, ready, ty, h, b, bytes)
    decreases bytes - b
  {
    if b < bytes {
      var v := TameByte(w, ready, ty, h, b, bytes);
      BytesTame(v, ready, ty, h, b + 1, bytes);
      ThenBytes(w, v, ready, ty, h, b, bytes);
    } else {
      RestIsQuiet(w, ready, ty, h, bytes);
    }
  }

  lemma RestIsQuiet(w: World, ready: seq<bool>, ty: IoFlag, h: Handler, bytes: nat)
    requires |ready| == MAX_FDS && 8 * bytes <= MAX_FDS && Quiet(w, ready, ty, 8 * bytes, MAX_FDS)
    ensures Plain(w, ready, ty, h, 8 * bytes) == w
  {
    PlainSkips(w, ready, ty, h, 8 * bytes, MAX_FDS);
  }

  /** Same handlers, same order, same final table, for every ready set: when no handler raises MaxFD,
      and also when none registers a descriptor that is among the ready ones. */
  lemma FastIsPlain(w: World, ready: seq<bool>, ty: IoFlag, h: Handler)
    requires |ready| == MAX_FDS && Tame(h, ready, ty)
    ensures Fast(w, ready, ty, h) == Plain(w, ready, ty, h, 0)
  {
    FastIsBytes(w, ready, ty, h);
    Rounding(w.t.maxFd);
    BytesTame(w, ready, ty, h, 0, (w.t.maxFd + 7) / 8);
  }

  // ---- for every handler ----

  /** A handler that is called can make the fast form miss descriptor d: it lies past the bytes that
      are looked at, or past MaxFD in the byte of the first handler called, or it shares a later byte
      with a ready descriptor before it. */
  ghost predicate CanMiss(w: World, ready: seq<bool>, ty: IoFlag, k: nat, d: nat)
    requires |ready| == MAX_FDS && k < MAX_FDS && d < MAX_FDS
  {
    && Wanted(w, ready, ty, k) && ready[d]
    && (|| d >= 8 * ((w.t.maxFd + 7) / 8)
        || (d >= w.t.maxFd && d / 8 == k / 8)
        || exists i :: 8 * (d / 8) <= i < d && ready[i] && k < 8 * (d / 8))
  }

  ghost predicate NoneCanMiss(w: World, ready: seq<bool>, ty: IoFlag)
    requires |ready| == MAX_FDS
  {
    forall k, d :: 0 <= k < MAX_FDS && 0 <= d < MAX_FDS ==> !CanMiss(w, ready, ty, k, d)
  }

  /** From byte b on each byte has at most one ready descriptor, and past the last byte there is none. */
  ghost predicate Sparse(ready: seq<bool>, b: nat, bytes: nat)
    requires |ready| == MAX_FDS
  {
    && (forall d :: 8 * bytes <= d < MAX_FDS ==> !ready[d])
    && (forall i, d :: 8 * b <= 8 * (d / 8) <= i < d < MAX_FDS && ready[i] ==> !ready[d])
  }

  lemma SparseByte(w: World, ready: seq<bool>, ty: IoFlag, h: Handler, b: nat, bytes: nat)
    requires |ready| == MAX_FDS && b < bytes && 8 * bytes <= MAX_FDS && Sparse(ready, b, bytes)
    ensures Plain(w, ready, ty, h, 8 * b) == Plain(ByteStep(w, ready, ty, h, b), ready, ty, h, 8 * b + 8)
  {
    var stop := Stop(w, b);
    if i :| 8 * b <= i < stop && ready[i] {
      assert forall d :: stop <= d < 8 * b + 8 ==> d / 8 == b;
      ByteIsPlain(w, ready, ty, h, b);
    } else {
      ByteQuiet(w, ready, ty, h, b);
      ByteIsPlain(w, ready, ty, h, b);
    }
  }

  lemma {:induction false} SparseBytes(w: World, ready: seq<bool>, ty: IoFlag, h: Handler, b: nat, bytes: nat)
    requires |ready| == MAX_FDS && b <= bytes && 8 * bytes <= MAX_FDS && Sparse(ready, b, bytes)
    ensures Plain(w, ready, ty, h, 8 * b) == Bytes(w, ready, ty, h, b, bytes)
    decreases bytes - b
  {
    if b < bytes {
      var v := ByteStep(w, ready, ty, h, b);
      SparseByte(w, ready, ty, h, b, bytes);
      SparseNext(ready, b, bytes);
      SparseBytes(v, ready, ty, h, b + 1, bytes);
      ThenBytes(w, v, ready, ty, h, b, bytes);
    } else {
      SparseEnd(w, ready, ty, h, bytes);
    }
  }

  lemma SparseNext(ready: seq<bool>, b: nat, bytes: nat)
    requires |ready| == MAX_FDS && Sparse(ready, b, bytes)
    ensures Sparse(ready, b + 1, bytes)
  {}

  lemma SparseEnd(w: World, ready: seq<bool>, ty: IoFlag, h: Handler, bytes: nat)
    requires |ready| == MAX_FDS && 8 * bytes <= MAX_FDS && Sparse(ready, bytes, bytes)
    ensures Plain(w, ready, ty, h, 8 * bytes) == w
  {
    PlainSkips(w, ready, ty, h, 8 * bytes, MAX_FDS);
  }

  lemma QuietByte(w: World, ready: seq<bool>, ty: IoFlag, h: Handler, b: nat)
    requires |ready| == MAX_FDS && 8 * b + 8 <= MAX_FDS && Quiet(w, ready, ty, 8 * b, 8 * b + 8)
    ensures ByteStep(w, ready, ty, h, b) == w
    ensures Plain(w, ready, ty, h, 8 * b) == Plain(w, ready, ty, h, 8 * b + 8)
  {
    ByteQuiet(w, ready, ty, h, b);
    PlainSkips(w, ready, ty, h, 8 * b, 8 * b + 8);
  }

  /** Until a handler is called nothing changes; from then on the bytes are sparse. */
  lemma {:induction false} NothingMissed(w: World, ready: seq<bool>, ty: IoFlag, h: Handler, b: nat, bytes: nat)
    requires |ready| == MAX_FDS && bytes == (w.t.maxFd + 7) / 8 && b <= bytes && 8 * bytes <= MAX_FDS
    requires NoneCanMiss(w, ready, ty)
    ensures Plain(w, ready, ty, h, 8 * b) == Bytes(w, ready, ty, h, b, bytes)
    decreases bytes - b
  {
    if b < bytes {
      if Quiet(w, ready, ty, 8 * b, 8 * b + 8) {
        QuietByte(w, ready, ty, h, b);
        NothingMissed(w, ready, ty, h, b + 1, bytes);
        ThenBytes(w, w, ready, ty, h, b, bytes);
      } else {
        CalledByte(w, ready, ty, h, b, bytes);
      }
    }
  }

  lemma CalledByte(w: World, ready: seq<bool>, ty: IoFlag, h: Handler, b: nat, bytes: nat)
    requires |ready| == MAX_FDS && bytes == (w.t.maxFd + 7) / 8 && b < bytes && 8 * bytes <= MAX_FDS
    requires NoneCanMiss(w, ready, ty) && !Quiet(w, ready, ty, 8 * b, 8 * b + 8)
    ensures Plain(w, ready, ty, h, 8 * b) == Bytes(w, ready, ty, h, b, bytes)
  {
    var k :| 8 * b <= k < 8 * b + 8 && Wanted(w, ready, ty, k);
    SparseAfter(w, ready, ty, k, b, bytes);
    FirstCall(w, ready, ty, h, b, bytes);
  }

  /** Nothing is ready past the stop, and from the next byte on there is at most one in each. */
  lemma FirstCall(w: World, ready: seq<bool>, ty: IoFlag, h: Handler, b: nat, bytes: nat)
    requires |ready| == MAX_FDS && b < bytes && 8 * bytes <= MAX_FDS
    requires (forall d :: Stop(w, b) <= d < 8 * b + 8 ==> !ready[d]) && Sparse(ready, b + 1, bytes)
    ensures Plain(w, ready, ty, h, 8 * b) == Bytes(w, ready, ty, h, b, bytes)
  {
    var v := ByteStep(w, ready, ty, h, b);
    NotReadyIsQuiet(v, ready, ty, Stop(w, b), 8 * b + 8);
    ByteIsPlain(w, ready, ty, h, b);
    SparseBytes(v, ready, ty, h, b + 1, bytes);
    ThenBytes(w, v, ready, ty, h, b, bytes);
  }

  lemma NotReadyIsQuiet(w: World, ready: seq<bool>, ty: IoFlag, i: nat, j: nat)
    requires |ready| == MAX_FDS && j <= MAX_FDS && forall d :: i <= d < j ==> !ready[d]
    ensures Quiet(w, ready, ty, i, j)
  {}

  lemma SparseAfter(w: World, ready: seq<bool>, ty: IoFlag, k: nat, b: nat, bytes: nat)
    requires |ready| == MAX_FDS && bytes == (w.t.maxFd + 7) / 8 && b < bytes && 8 * bytes <= MAX_FDS
    requires NoneCanMiss(w, ready, ty)
    requires 8 * b <= k < 8 * b + 8 && Wanted(w, ready, ty, k)
    ensures forall d :: Stop(w, b) <= d < 8 * b + 8 ==> !ready[d]
    ensures Sparse(ready, b + 1, bytes)
  {
    forall d | Stop(w, b) <= d < 8 * b + 8 ensures !ready[d] {
      assert d / 8 == b == k / 8 && !CanMiss(w, ready, ty, k, d);
    }
    forall d | 8 * bytes <= d < MAX_FDS ensures !ready[d] {
      assert !CanMiss(w, ready, ty, k, d);
    }
    forall i, d | 8 * (b + 1) <= 8 * (d / 8) <= i < d < MAX_FDS && ready[i] ensures !ready[d] {
      assert !CanMiss(w, ready, ty, k, d);
    }
  }

  /** The table in which just the descriptors of `on` are registered, the highest being `top`. */
  function TableOf(on: set<nat>, top: nat, ty: IoFlag): (t: Table)
    requires top in on && forall d <- on :: d <= top < MAX_FDS
    ensures t.Inv() && t.maxFd == top + 1
    ensures forall d :: 0 <= d < MAX_FDS ==> (ty in t.fds[d].flags <==> d in on)
  {
    var bits, none := seq(MAX_FDS, d => d in on), seq(MAX_FDS, _ => false);
    Table(seq(MAX_FDS, d => if d in on then Entry(Used(Fd(d, d)), {ty}) else Entry(Empty, {})),
          if ty == READ then bits else none, if ty == WRITE then bits else none, if ty == EXCEPT then bits else none,
          top + 1)
  }

  /** The first handler called registers d, and d alone. */
  lemma MissedAtOnce(w: World, ready: seq<bool>, ty: IoFlag, k: nat, d: nat) returns (h: Handler)
    requires |ready| == MAX_FDS && k < d < MAX_FDS && Wanted(w, ready, ty, k) && Quiet(w, ready, ty, 0, k) && ready[d]
    requires d >= 8 * ((w.t.maxFd + 7) / 8) || (d >= w.t.maxFd && d / 8 == k / 8)
    ensures KeepsInv(h)
    ensures Plain(w, ready, ty, h, 0).log == w.log + [k] + [d]
    ensures Fast(w, ready, ty, h).log == w.log + [k]
  {
    var v := OnlyWorld(ready, ty, d, w.log + [k]);
    h := (x: World, i: nat) => v.t;
    AtOnce(w, ready, ty, h, k, d, v, World(v.t, w.log + [k] + [d]));
  }

  /** The only descriptor registered and ready. */
  ghost predicate Only(w: World, ready: seq<bool>, ty: IoFlag, d: nat)
    requires |ready| == MAX_FDS && d < MAX_FDS
  {
    w.t.maxFd == d + 1 && Wanted(w, ready, ty, d) && Quiet(w, ready, ty, 0, d) && Quiet(w, ready, ty, d + 1, MAX_FDS)
  }

  lemma OnlyWorld(ready: seq<bool>, ty: IoFlag, d: nat, log: seq<nat>) returns (w: World)
    requires |ready| == MAX_FDS && d < MAX_FDS && ready[d]
    ensures Only(w, ready, ty, d) && w.log == log && w.t.Inv()
  {
    w := World(TableOf({d}, d, ty), log);
  }

  lemma AtOnce(w: World, ready: seq<bool>, ty: IoFlag, h: Handler, k: nat, d: nat, v: World, u: World)
    requires |ready| == MAX_FDS && k < d < MAX_FDS && Wanted(w, ready, ty, k) && Quiet(w, ready, ty, 0, k)
    requires d >= 8 * ((w.t.maxFd + 7) / 8) || (d >= w.t.maxFd && d / 8 == k / 8)
    requires Only(v, ready, ty, d) && u.t.maxFd == d + 1
    requires v == Visit(w, ready, ty, h, k) && u == Visit(v, ready, ty, h, d)
    ensures Plain(w, ready, ty, h, 0) == u && Fast(w, ready, ty, h) == v
  {
    PlainTwo(w, ready, ty, h, k, d, v, u);
    Rounding(w.t.maxFd);
    OnlyIsQuiet(v, ready, ty, k + 1, Stop(w, k / 8), d);
    OnlyIsQuiet(v, ready, ty, 8 * (k / 8) + 8, 8 * ((w.t.maxFd + 7) / 8), d);
    FastCallsOne(w, ready, ty, h, k, v);
  }

  lemma PlainTwo(w: World, ready: seq<bool>, ty: IoFlag, h: Handler, k: nat, d: nat, v: World, u: World)
    requires |ready| == MAX_FDS && k < d < MAX_FDS && Wanted(w, ready, ty, k) && Quiet(w, ready, ty, 0, k)
    requires Only(v, ready, ty, d) && u.t.maxFd == d + 1
    requires v == Visit(w, ready, ty, h, k) && u == Visit(v, ready, ty, h, d)
    ensures Plain(w, ready, ty, h, 0) == u
  {
    PlainCalls(w, ready, ty, h, 0, k, v);
    PlainCalls(v, ready, ty, h, k + 1, d, u);
  }

  /** The plain loop calls k next. */
  lemma PlainCalls(w: World, ready: seq<bool>, ty: IoFlag, h: Handler, i: nat, k: nat, v: World)
    requires |ready| == MAX_FDS && i <= k < MAX_FDS && Wanted(w, ready, ty, k) && Quiet(w, ready, ty, i, k)
    requires v == Visit(w, ready, ty, h, k)
    ensures Plain(w, ready, ty, h, i) == Plain(v, ready, ty, h, k + 1)
    ensures v.t.maxFd <= k + 1 ==> Plain(w, ready, ty, h, i) == v
  {
    PlainSkips(w, ready, ty, h, i, k);
  }

  lemma FastCallsOne(w: World, ready: seq<bool>, ty: IoFlag, h: Handler, k: nat, v: World)
    requires |ready| == MAX_FDS && k < MAX_FDS && Wanted(w, ready, ty, k) && Quiet(w, ready, ty, 0, k)
    requires v == Visit(w, ready, ty, h, k) && Quiet(v, ready, ty, k + 1, Stop(w, k / 8))
    requires var bytes := (w.t.maxFd + 7) / 8; 8 * bytes <= MAX_FDS && Quiet(v, ready, ty, 8 * (k / 8) + 8, 8 * bytes)
    ensures Fast(w, ready, ty, h) == v
  {
    FastIsBytes(w, ready, ty, h);
    CalledIn(w, ready, ty, h, k, v);
    BytesQuiet(v, ready, ty, h, k / 8 + 1, (w.t.maxFd + 7) / 8);
  }

  /** The walk up to and over the byte of descriptor k, the first to be called. */
  lemma CalledIn(w: World, ready: seq<bool>, ty: IoFlag, h: Handler, k: nat, v: World)
    requires |ready| == MAX_FDS && k < MAX_FDS && Wanted(w, ready, ty, k) && Quiet(w, ready, ty, 0, k)
    requires v == Visit(w, ready, ty, h, k) && Quiet(v, ready, ty, k + 1, Stop(w, k / 8))
    ensures var b, bytes := k / 8, (w.t.maxFd + 7) / 8;
      b < bytes && 8 * bytes <= MAX_FDS && Bytes(w, ready, ty, h, 0, bytes) == Bytes(v, ready, ty, h, b + 1, bytes)
  {
    var b, bytes := k / 8, (w.t.maxFd + 7) / 8;
    Rounding(w.t.maxFd);
    BytesQuiet(w, ready, ty, h, 0, b);
    BytesJoin(w, ready, ty, h, 0, b, bytes);
    CalledInByte(w, ready, ty, h, k, v, b);
  }

  lemma CalledInByte(w: World, ready: seq<bool>, ty: IoFlag, h: Handler, k: nat, v: World, b: nat)
    requires |ready| == MAX_FDS && k < MAX_FDS && b == k / 8 && Wanted(w, ready, ty, k) && Quiet(w, ready, ty, 8 * b, k)
    requires v == Visit(w, ready, ty, h, k) && Quiet(v, ready, ty, k + 1, Stop(w, b))
    ensures 8 * b + 8 <= MAX_FDS && ByteStep(w, ready, ty, h, b) == v
  {
    var stop := Stop(w, b);
    BlockSkips(w, ready, ty, h, 8 * b, k, stop);
    BlockSkips(v, ready, ty, h, k + 1, stop, stop);
  }

  /** The first handler leaves only i; the handler of i registers d, which is past the stop of its byte. */
  lemma MissedLater(w: World, ready: seq<bool>, ty: IoFlag, k: nat, i: nat, d: nat) returns (h: Handler)
    requires |ready| == MAX_FDS && k < 8 * (d / 8) <= i < d < 8 * ((w.t.maxFd + 7) / 8) && d < MAX_FDS
    requires Wanted(w, ready, ty, k) && Quiet(w, ready, ty, 0, k) && ready[i] && ready[d]
    ensures KeepsInv(h)
    ensures Plain(w, ready, ty, h, 0).log == w.log + [k] + [i] + [d]
    ensures Fast(w, ready, ty, h).log == w.log + [k] + [i]
  {
    var v := OnlyWorld(ready, ty, i, w.log + [k]);
    var u := OnlyWorld(ready, ty, d, w.log + [k] + [i]);
    h := (x: World, j: nat) => if j == k then v.t else u.t;
    VisitCalls(w, ready, ty, h, k, v);
    VisitCalls(v, ready, ty, h, i, u);
    BothLater(w, ready, ty, h, k, i, d, v, u, World(u.t, w.log + [k] + [i] + [d]));
  }

  lemma VisitCalls(w: World, ready: seq<bool>, ty: IoFlag, h: Handler, k: nat, v: World)
    requires |ready| == MAX_FDS && k < MAX_FDS && Wanted(w, ready, ty, k)
    requires v.log == w.log + [k] && v.t == h(World(w.t, w.log + [k]), k)
    ensures Visit(w, ready, ty, h, k) == v
  {}

  lemma BothLater(w: World, ready: seq<bool>, ty: IoFlag, h: Handler, k: nat, i: nat, d: nat,
                  v: World, u: World, x: World)
    requires |ready| == MAX_FDS && k < 8 * (d / 8) <= i < d < 8 * ((w.t.maxFd + 7) / 8) && d < MAX_FDS
    requires Wanted(w, ready, ty, k) && Quiet(w, ready, ty, 0, k)
    requires Only(v, ready, ty, i) && Only(u, ready, ty, d) && x.t.maxFd == d + 1
    requires v == Visit(w, ready, ty, h, k) && u == Visit(v, ready, ty, h, i) && x == Visit(u, ready, ty, h, d)
    ensures Plain(w, ready, ty, h, 0) == x && Fast(w, ready, ty, h) == u
  {
    PlainLater(w, ready, ty, h, k, i, d, v, u, x);
    SameByte(k, i, d, (w.t.maxFd + 7) / 8);
    FastLater(w, ready, ty, h, k, i, d, v, u, (w.t.maxFd + 7) / 8);
  }

  lemma PlainLater(w: World, ready: seq<bool>, ty: IoFlag, h: Handler, k: nat, i: nat, d: nat,
                   v: World, u: World, x: World)
    requires |ready| == MAX_FDS && k < i < d < MAX_FDS && Wanted(w, ready, ty, k) && Quiet(w, ready, ty, 0, k)
    requires Only(v, ready, ty, i) && Only(u, ready, ty, d) && x.t.maxFd == d + 1
    requires v == Visit(w, ready, ty, h, k) && u == Visit(v, ready, ty, h, i) && x == Visit(u, ready, ty, h, d)
    ensures Plain(w, ready, ty, h, 0) == x
  {
    PlainCalls(w, ready, ty, h, 0, k, v);
    PlainPair(v, ready, ty, h, k + 1, i, d, u, x);
  }

  lemma PlainPair(v: World, ready: seq<bool>, ty: IoFlag, h: Handler, from: nat, i: nat, d: nat, u: World, x: World)
    requires |ready| == MAX_FDS && from <= i < d < MAX_FDS
    requires Only(v, ready, ty, i) && Only(u, ready, ty, d) && x.t.maxFd == d + 1
    requires u == Visit(v, ready, ty, h, i) && x == Visit(u, ready, ty, h, d)
    ensures Plain(v, ready, ty, h, from) == x
  {
    PlainCalls(v, ready, ty, h, from, i, u);
    PlainCalls(u, ready, ty, h, i + 1, d, x);
  }

  lemma FastLater(w: World, ready: seq<bool>, ty: IoFlag, h: Handler, k: nat, i: nat, d: nat, v: World, u: World,
                  bytes: nat)
    requires |ready| == MAX_FDS && i < d < MAX_FDS && k / 8 + 1 <= i / 8 == d / 8 < bytes == (w.t.maxFd + 7) / 8
    requires Wanted(w, ready, ty, k) && Quiet(w, ready, ty, 0, k)
    requires Only(v, ready, ty, i) && Only(u, ready, ty, d)
    requires v == Visit(w, ready, ty, h, k) && u == Visit(v, ready, ty, h, i)
    ensures Fast(w, ready, ty, h) == u
  {
    FastAfterFirst(w, ready, ty, h, k, v, i);
    FastCallsLast(v, ready, ty, h, k / 8 + 1, d / 8, bytes, i, d, u);
  }

  lemma SameByte(k: nat, i: nat, d: nat, bytes: nat)
    requires k < 8 * (d / 8) <= i < d < 8 * bytes
    ensures k / 8 + 1 <= i / 8 == d / 8 < bytes
  {}

  lemma FastCallsLast(v: World, ready: seq<bool>, ty: IoFlag, h: Handler, b: nat, c: nat, bytes: nat, i: nat, d: nat,
                      u: World)
    requires |ready| == MAX_FDS && b <= c == i / 8 == d / 8 < bytes && 8 * bytes <= MAX_FDS && i < d < MAX_FDS
    requires Only(v, ready, ty, i) && Only(u, ready, ty, d) && Stop(v, c) <= d && u == Visit(v, ready, ty, h, i)
    ensures Bytes(v, ready, ty, h, b, bytes) == u
  {
    OnlyIsQuiet(v, ready, ty, 8 * b, i, i);
    OnlyIsQuiet(u, ready, ty, i + 1, Stop(v, c), d);
    OnlyIsQuiet(u, ready, ty, 8 * c + 8, 8 * bytes, d);
    FastCallsAnother(v, ready, ty, h, b, c, bytes, i, u);
  }

  lemma OnlyIsQuiet(w: World, ready: seq<bool>, ty: IoFlag, i: nat, j: nat, d: nat)
    requires |ready| == MAX_FDS && d < MAX_FDS && j <= MAX_FDS && Only(w, ready, ty, d) && (d < i || j <= d)
    ensures Quiet(w, ready, ty, i, j)
  {}

  lemma FastAfterFirst(w: World, ready: seq<bool>, ty: IoFlag, h: Handler, k: nat, v: World, i: nat)
    requires |ready| == MAX_FDS && k < 8 * (i / 8) && i < MAX_FDS
    requires Wanted(w, ready, ty, k) && Quiet(w, ready, ty, 0, k)
    requires v == Visit(w, ready, ty, h, k) && Only(v, ready, ty, i)
    ensures var bytes := (w.t.maxFd + 7) / 8;
      k / 8 < bytes && 8 * bytes <= MAX_FDS && Fast(w, ready, ty, h) == Bytes(v, ready, ty, h, k / 8 + 1, bytes)
  {
    BelowTop(w, ready, ty, k);
    FastIsBytes(w, ready, ty, h);
    OnlyIsQuiet(v, ready, ty, k + 1, Stop(w, k / 8), i);
    CalledIn(w, ready, ty, h, k, v);
  }

  lemma BelowTop(w: World, ready: seq<bool>, ty: IoFlag, k: nat)
    requires |ready| == MAX_FDS && k < MAX_FDS && Wanted(w, ready, ty, k)
    ensures k < w.t.maxFd && k / 8 < (w.t.maxFd + 7) / 8 && 8 * ((w.t.maxFd + 7) / 8) <= MAX_FDS
  {}

  lemma FastCallsAnother(v: World, ready: seq<bool>, ty: IoFlag, h: Handler, b: nat, c: nat, bytes: nat,
                         i: nat, u: World)
    requires |ready| == MAX_FDS && b <= c == i / 8 < bytes && 8 * bytes <= MAX_FDS && i < MAX_FDS
    requires Wanted(v, ready, ty, i) && Quiet(v, ready, ty, 8 * b, i)
    requires u == Visit(v, ready, ty, h, i)
    requires Quiet(u, ready, ty, i + 1, Stop(v, c)) && Quiet(u, ready, ty, 8 * c + 8, 8 * bytes)
    ensures Bytes(v, ready, ty, h, b, bytes) == u
  {
    BytesQuiet(v, ready, ty, h, b, c);
    BytesJoin(v, ready, ty, h, b, c, bytes);
    CalledInByte(v, ready, ty, h, i, u, c);
    BytesQuiet(u, ready, ty, h, c + 1, bytes);
  }

  lemma {:induction false} FirstWanted(w: World, ready: seq<bool>, ty: IoFlag, k: nat) returns (f: nat)
    requires |ready| == MAX_FDS && k < MAX_FDS && Wanted(w, ready, ty, k)
    ensures f <= k && Wanted(w, ready, ty, f) && Quiet(w, ready, ty, 0, f)
  {
    if j :| 0 <= j < k && Wanted(w, ready, ty, j) {
      f := FirstWanted(w, ready, ty, j);
    } else {
      f := k;
    }
  }

  lemma SomeHandlerDiffers(w: World, ready: seq<bool>, ty: IoFlag, k: nat, d: nat) returns (h: Handler)
    requires |ready| == MAX_FDS && k < MAX_FDS && d < MAX_FDS && CanMiss(w, ready, ty, k, d)
    ensures KeepsInv(h)
    ensures |Plain(w, ready, ty, h, 0).log| == |Fast(w, ready, ty, h).log| + 1
  {
    var f := FirstWanted(w, ready, ty, k);
    if d >= 8 * ((w.t.maxFd + 7) / 8) || (d >= w.t.maxFd && d / 8 == f / 8) {
      h := MissedAtOnce(w, ready, ty, f, d);
    } else if d >= w.t.maxFd && d / 8 == k / 8 {
      h := MissedLater(w, ready, ty, f, k, d);
    } else {
      var i :| 8 * (d / 8) <= i < d && ready[i] && k < 8 * (d / 8);
      h := MissedLater(w, ready, ty, f, i, d);
    }
  }

  /** The two forms are the same for every handler if and only if no descriptor can be missed. */
  lemma FastIsPlainIff(w: World, ready: seq<bool>, ty: IoFlag)
    requires |ready| == MAX_FDS
    ensures (forall h: Handler :: KeepsInv(h) ==> Fast(w, ready, ty, h) == Plain(w, ready, ty, h, 0))
      <==> NoneCanMiss(w, ready, ty)
  {
    if k, d :| 0 <= k < MAX_FDS && 0 <= d < MAX_FDS && CanMiss(w, ready, ty, k, d) {
      var h := SomeHandlerDiffers(w, ready, ty, k, d);
    } else {
      forall h: Handler | KeepsInv(h) ensures Fast(w, ready, ty, h) == Plain(w, ready, ty, h, 0) {
        NoneMissed(w, ready, ty, h);
      }
    }
  }

  lemma NoneMissed(w: World, ready: seq<bool>, ty: IoFlag, h: Handler)
    requires |ready| == MAX_FDS
    requires NoneCanMiss(w, ready, ty)
    ensures Fast(w, ready, ty, h) == Plain(w, ready, ty, h, 0)
  {
    FastIsBytes(w, ready, ty, h);
    NothingMissed(w, ready, ty, h, 0, (w.t.maxFd + 7) / 8);
  }

  /** What select() reported lies below MaxFD unless handlers have lowered it since: then the forms
      agree for every handler if and only if no ready descriptor that is registered precedes a byte
      with two ready ones. */
  lemma FastIsPlainBelowIff(w: World, ready: seq<bool>, ty: IoFlag)
    requires |ready| == MAX_FDS && forall d :: w.t.maxFd <= d < MAX_FDS ==> !ready[d]
    ensures (forall h: Handler :: KeepsInv(h) ==> Fast(w, ready, ty, h) == Plain(w, ready, ty, h, 0))
      <==> !exists k, i, d :: 0 <= k < 8 * (i / 8) && i < d < MAX_FDS && i / 8 == d / 8
                              && Wanted(w, ready, ty, k) && ready[i] && ready[d]
  {
    FastIsPlainIff(w, ready, ty);
    if k, d :| 0 <= k < MAX_FDS && 0 <= d < MAX_FDS && CanMiss(w, ready, ty, k, d) {
      var i :| 8 * (d / 8) <= i < d && ready[i] && k < 8 * (d / 8);
      assert i / 8 == d / 8;
    } else {
      forall k, i, d | 0 <= k < 8 * (i / 8) && i < d < MAX_FDS && i / 8 == d / 8
                       && Wanted(w, ready, ty, k) && ready[i]
        ensures !ready[d]
      {
        assert !CanMiss(w, ready, ty, k, d);
      }
    }
  }

  /** Descriptors 0, 8 and 10 are ready and registered; the handler of 0 leaves 8 alone, that of 8
      registers 10 again. */
  lemma RaisingHandlerIsMissed() returns (w: World, ready: seq<bool>, h: Handler)
    ensures w.t.Inv() && KeepsInv(h)
    ensures |ready| == MAX_FDS && w.t.maxFd == 11 && forall i :: w.t.maxFd <= i < MAX_FDS ==> !ready[i]
    ensures Fast(w, ready, READ, h).log == [0, 8]
    ensures Plain(w, ready, READ, h, 0).log == [0, 8, 10]
  {
    ready := seq(MAX_FDS, i => i in {0, 8, 10});
    w := World(TableOf({0, 8, 10}, 10, READ), []);
    h := MissedLater(w, ready, READ, 0, 8, 10);
  }

  /** Each handler runs at most once, in descriptor order, and only for a ready descriptor. */
  lemma {:induction false} PlainCallsInOrder(w: World, ready: seq<bool>, ty: IoFlag, h: Handler, i: nat)
    requires |ready| == MAX_FDS && i <= MAX_FDS
    ensures var r := Plain(w, ready, ty, h, i);
      && w.log <= r.log
      && (forall a :: |w.log| <= a < |r.log| ==> i <= r.log[a] < MAX_FDS && ready[r.log[a]])
      && (forall a, b :: |w.log| <= a < b < |r.log| ==> r.log[a] < r.log[b])
    decreases MAX_FDS - i
  {
    if i < w.t.maxFd {
      PlainCallsInOrder(Visit(w, ready, ty, h, i), ready, ty, h, i + 1);
    }
  }

  /** Handlers that neither register nor deregister descriptor d. */
  ghost predicate LeavesAlone(h: Handler, d: nat)
    requires d < MAX_FDS
  {
    forall w: World, i: nat :: h(w, i).fds[d].flags == w.t.fds[d].flags
  }

  predicate Called(w: World, r: World, d: nat)
  {
    exists a :: |w.log| <= a < |r.log| && r.log[a] == d
  }

  lemma CalledLater(w: World, v: World, r: World, d: nat)
    requires w.log <= v.log <= r.log && (v.log == w.log || (|v.log| == |w.log| + 1 && v.log[|w.log|] != d))
    ensures Called(w, r, d) <==> Called(v, r, d)
  {}

  lemma NoneCalled(w: World, d: nat)
    ensures !Called(w, w, d)
  {}

  /** A descriptor whose registration the handlers leave alone is called if and only if it is ready and
      registered for the flag. */
  lemma {:induction false} PlainCallsIff(w: World, ready: seq<bool>, ty: IoFlag, h: Handler, i: nat, d: nat)
    requires |ready| == MAX_FDS && i <= d < MAX_FDS && LeavesAlone(h, d)
    ensures Called(w, Plain(w, ready, ty, h, i), d) <==> Wanted(w, ready, ty, d)
    decreases d - i
  {
    var r := Plain(w, ready, ty, h, i);
    if i >= w.t.maxFd {
      NoneCalled(w, d);
    } else {
      var v := Visit(w, ready, ty, h, i);
      PlainCallsInOrder(v, ready, ty, h, i + 1);
      if i < d {
        PlainCallsIff(v, ready, ty, h, i + 1, d);
        CalledLater(w, v, r, d);
      } else if Wanted(w, ready, ty, d) {
        assert r.log[|w.log|] == d;
      }
    }
  }

  // ---- the class ----

  class IODispatcher {
    const FDTable: array<Entry>
    var ReadSet: seq<bool>
    var WriteSet: seq<bool>
    var ExceptSet: seq<bool>
    var MaxFD: int
    var Called: seq<nat>   // the descriptors whose handlers were called

    ghost predicate Valid()
      reads this, FDTable
    {
      MaxFD >= 0 && Contents().Inv()
    }

    function Contents(): Table
      requires MaxFD >= 0
      reads this, FDTable
    {
      Table(FDTable[..], ReadSet, WriteSet, ExceptSet, MaxFD)
    }

    ghost function State(): World
      requires Valid()
      reads this, FDTable
    {
      InvIsTidy(Contents());
      World(Contents(), Called)
    }

    constructor ()
      ensures Valid() && Contents() == INIT && Called == [] && fresh(FDTable)
    {
      FDTable := new Entry[MAX_FDS](_ => Entry(Empty, {}));
      var none := seq(MAX_FDS, _ => false);
      ReadSet, WriteSet, ExceptSet, MaxFD, Called := none, none, none, 0, [];
      new;
      assert FDTable[..] == INIT.fds;
      RunInv([]);
    }

    /** An invalid Fd is ignored. */
    method AddFD(fd: Fd, flags: set<IoFlag>)
      requires Valid() && fd.Fits()
      modifies this, FDTable
      ensures MaxFD >= 0 && Contents() == Add(old(Contents()), fd, flags) && Called == old(Called)
      ensures Valid() <==> !fd.IsValid() || flags != {} || old(FDTable[..])[fd.num].flags != {}
      ensures if fd.IsValid() then Given(old(Contents()), Contents(), fd, flags) else Contents() == old(Contents())
    {
      ghost var t := Contents();
      AddKeepsInvIff(Contents(), fd, flags);
      if fd.IsValid() {
        var fdnum := fd.num;
        FDTable[fdnum] := Entry(Used(fd), FDTable[fdnum].flags + flags);
        ChangeBits(fdnum, flags, true);
        fdnum := fdnum + 1;
        if fdnum > MaxFD {
          MaxFD := fdnum;
        }
        AddGives(t, fd, flags);
      }
    }

    /** FD_SET and FD_CLR in the sets of those flags. */
    method ChangeBits(fdnum: nat, flags: set<IoFlag>, to: bool)
      requires fdnum < |ReadSet| == |WriteSet| == |ExceptSet|
      modifies `ReadSet, `WriteSet, `ExceptSet
      ensures ReadSet == SetBit(old(ReadSet), fdnum, READ in flags, to)
      ensures WriteSet == SetBit(old(WriteSet), fdnum, WRITE in flags, to)
      ensures ExceptSet == SetBit(old(ExceptSet), fdnum, EXCEPT in flags, to)
    {
      if READ in flags {
        ReadSet := ReadSet[fdnum := to];
      }
      if WRITE in flags {
        WriteSet := WriteSet[fdnum := to];
      }
      if EXCEPT in flags {
        ExceptSet := ExceptSet[fdnum := to];
      }
    }

    method RemFD(fd: Fd, flags: set<IoFlag>)
      requires Valid() && fd.Fits()
      modifies this, FDTable
      ensures Valid() && Contents() == Rem(old(Contents()), fd, flags) && Called == old(Called)
      ensures if fd.IsValid() && old(FDTable[..])[fd.num].slot == Used(fd)
              then Taken(old(Contents()), Contents(), fd, flags) else Contents() == old(Contents())
    {
      ghost var t := Contents();
      RemKeepsInv(Contents(), fd, flags);
      ghost var r := Rem(Contents(), fd, flags);
      if fd.IsValid() && FDTable[fd.num].slot == Used(fd) {
        var fdnum := fd.num;
        ChangeBits(fdnum, flags, false);
        FDTable[fdnum] := FDTable[fdnum].(flags := FDTable[fdnum].flags - flags);
        if FDTable[fdnum].flags == {} {
          FDTable[fdnum] := Entry(Empty, {});
          assert FDTable[..] == r.fds;
          FindMaxFD();
        }
        assert FDTable[..] == r.fds;
        assert Contents() == r;
        RemTakes(t, fd, flags);
      }
    }

    /** Find out which the new MaxFD is. */
    method FindMaxFD()
      requires 0 <= MaxFD <= FDTable.Length
      modifies `MaxFD
      ensures MaxFD == Top(FDTable[..], old(MaxFD))
    {
      ghost var top := Top(FDTable[..], MaxFD);
      MaxFD := MaxFD - 1;
      while MaxFD >= 0 && FDTable[MaxFD].slot == Empty
        invariant top <= MaxFD + 1 <= old(MaxFD)
      {
        assert FDTable[..][MaxFD].slot == Empty;
        MaxFD := MaxFD - 1;
      }
      MaxFD := MaxFD + 1;
    }

    /** FDTable[ i ].FD->HandleRead() and the like: the slot is never empty. */
    method CallHandler(fd: Fd, i: nat, h: Handler)
      requires KeepsInv(h)
      requires Valid() && i < MAX_FDS && FDTable[i].slot == Used(fd)
      modifies this, FDTable
      ensures Valid()
      ensures var w := World(old(Contents()), old(Called) + [i]); State() == World(h(w, i), w.log)
    {
      ghost var t := Contents();
      Called := Called + [i];
      var after := h(World(Contents(), Called), i);
      forall k | 0 <= k < MAX_FDS {
        FDTable[k] := after.fds[k];
      }
      ReadSet, WriteSet, ExceptSet, MaxFD := after.read, after.write, after.except, after.maxFd;
      assert FDTable[..] == after.fds;
    }

    method VisitFD(ready: seq<bool>, ty: IoFlag, h: Handler, i: nat)
      requires KeepsInv(h)
      requires Valid() && |ready| == MAX_FDS && i < MAX_FDS
      modifies this, FDTable
      ensures Valid() && State() == Visit(old(State()), ready, ty, h, i)
    {
      assert State().t.fds[i] == FDTable[i];
      if ready[i] && ty in FDTable[i].flags {
        CallHandler(FDTable[i].slot.fd, i, h);
      }
    }

    /** One byte of the set, with the DISPATCH macro if any of its bits is on. */
    method DispatchByte(ready: seq<bool>, ty: IoFlag, h: Handler, fd: nat)
      requires KeepsInv(h)
      requires Valid() && |ready| == MAX_FDS && fd % 8 == 0 && fd + 8 <= MAX_FDS
      modifies this, FDTable
      ensures Valid() && State() == ByteStep(old(State()), ready, ty, h, fd / 8)
    {
      if ByteSet(ready, fd / 8) {
        var stop := fd + 8;
        if MaxFD < stop {
          stop := MaxFD;
        }
        ghost var whole := Block(State(), ready, ty, h, fd, stop);
        var i := fd;
        while i < stop
          invariant Valid() && fd <= i
          invariant Block(State(), ready, ty, h, i, stop) == whole
        {
          VisitFD(ready, ty, h, i);
          i := i + 1;
        }
      }
    }

    method Dispatch(ready: seq<bool>, ty: IoFlag, h: Handler)
      requires KeepsInv(h)
      requires Valid() && |ready| == MAX_FDS
      modifies this, FDTable
      ensures Valid() && State() == Fast(old(State()), ready, ty, h)
      ensures Tame(h, ready, ty) || NoneCanMiss(old(State()), ready, ty) ==>
        State() == Plain(old(State()), ready, ty, h, 0)
    {
      ghost var w := State();
      if Tame(h, ready, ty) {
        FastIsPlain(w, ready, ty, h);
      } else if NoneCanMiss(w, ready, ty) {
        NoneMissed(w, ready, ty, h);
      }
      DispatchFast(ready, ty, h);
    }

    method DispatchFast(ready: seq<bool>, ty: IoFlag, h: Handler)
      requires KeepsInv(h)
      requires Valid() && |ready| == MAX_FDS
      modifies this, FDTable
      ensures Valid() && State() == Fast(old(State()), ready, ty, h)
    {
      Rounding(MaxFD);
      var bytes := (MaxFD + 7) / 8;
      var words := bytes / 4;
      DispatchWords(ready, ty, h, words);
      DispatchBytes(ready, ty, h, 32 * words, bytes - 4 * words);
    }

    /** Check 32 fds at once. */
    method DispatchWords(ready: seq<bool>, ty: IoFlag, h: Handler, count: nat)
      requires KeepsInv(h)
      requires Valid() && |ready| == MAX_FDS && 32 * count <= MAX_FDS
      modifies this, FDTable
      ensures Valid() && State() == Words(old(State()), ready, ty, h, 0, count)
    {
      var words, fdnum := count, 0;
      while words > 0
        invariant Valid() && 0 <= words <= count && fdnum == 32 * (count - words)
        invariant Words(State(), ready, ty, h, count - words, count) == Words(old(State()), ready, ty, h, 0, count)
      {
        words := words - 1;
        NextWord(ready, ty, h, fdnum, count - words - 1, count);
        fdnum := fdnum + 32;
      }
    }

    method NextWord(ready: seq<bool>, ty: IoFlag, h: Handler, fdnum: nat, ghost k: nat, ghost last: nat)
      requires KeepsInv(h)
      requires Valid() && |ready| == MAX_FDS && fdnum == 32 * k && k < last && 32 * last <= MAX_FDS
      modifies this, FDTable
      ensures Valid()
      ensures Words(State(), ready, ty, h, k + 1, last) == Words(old(State()), ready, ty, h, k, last)
    {
      DispatchWord(ready, ty, h, fdnum);
    }

    /** Check the remaining bytes. */
    method DispatchBytes(ready: seq<bool>, ty: IoFlag, h: Handler, from: nat, count: nat)
      requires KeepsInv(h)
      requires Valid() && |ready| == MAX_FDS && from % 8 == 0 && from + 8 * count <= MAX_FDS
      modifies this, FDTable
      ensures Valid() && State() == Bytes(old(State()), ready, ty, h, from / 8, from / 8 + count)
    {
      var bytes, fdnum := count, from;
      ghost var b := from / 8;
      while bytes > 0
        invariant Valid() && 0 <= bytes <= count && fdnum == 8 * b && b + bytes == from / 8 + count
        invariant Bytes(State(), ready, ty, h, b, from / 8 + count)
               == Bytes(old(State()), ready, ty, h, from / 8, from / 8 + count)
      {
        bytes := bytes - 1;
        NextByte(ready, ty, h, fdnum, b, from / 8 + count);
        fdnum := fdnum + 8;
        b := b + 1;
      }
    }

    method DispatchWord(ready: seq<bool>, ty: IoFlag, h: Handler, fdnum: nat)
      requires KeepsInv(h)
      requires Valid() && |ready| == MAX_FDS && fdnum % 32 == 0 && fdnum + 32 <= MAX_FDS
      modifies this, FDTable
      ensures Valid() && State() == WordStep(old(State()), ready, ty, h, fdnum / 32)
    {
      if WordSet(ready, fdnum / 32) {
        ghost var b := fdnum / 8;
        assert 4 * (fdnum / 32) == b;
        NextTwo(ready, ty, h, fdnum, b, b + 4);
        NextTwo(ready, ty, h, fdnum + 16, b + 2, b + 4);
      }
    }

    method NextTwo(ready: seq<bool>, ty: IoFlag, h: Handler, fdnum: nat, ghost b: nat, ghost last: nat)
      requires KeepsInv(h)
      requires Valid() && |ready| == MAX_FDS && fdnum == 8 * b && b + 1 < last && 8 * last <= MAX_FDS
      modifies this, FDTable
      ensures Valid()
      ensures Bytes(State(), ready, ty, h, b + 2, last) == Bytes(old(State()), ready, ty, h, b, last)
    {
      NextByte(ready, ty, h, fdnum, b, last);
      NextByte(ready, ty, h, fdnum + 8, b + 1, last);
    }

    method NextByte(ready: seq<bool>, ty: IoFlag, h: Handler, fdnum: nat, ghost b: nat, ghost last: nat)
      requires KeepsInv(h)
      requires Valid() && |ready| == MAX_FDS && fdnum == 8 * b && b < last && 8 * last <= MAX_FDS
      modifies this, FDTable
      ensures Valid()
      ensures Bytes(State(), ready, ty, h, b + 1, last) == Bytes(old(State()), ready, ty, h, b, last)
    {
      DispatchByte(ready, ty, h, fdnum);
    }

    /** The loop kept beside the fast form. */
    method DispatchPlain(ready: seq<bool>, ty: IoFlag, h: Handler)
      requires KeepsInv(h)
      requires Valid() && |ready| == MAX_FDS
      modifies this, FDTable
      ensures Valid() && State() == Plain(old(State()), ready, ty, h, 0)
    {
      ghost var whole := Plain(State(), ready, ty, h, 0);
      var i := 0;
      while i < MaxFD
        invariant Valid() && 0 <= i <= MAX_FDS
        invariant Plain(State(), ready, ty, h, i) == whole
        decreases MAX_FDS - i
      {
        VisitFD(ready, ty, h, i);
        i := i + 1;
      }
    }
  }
}
