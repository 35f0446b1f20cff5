/** HTTP::DecodeChunkedData on values, and its refinement of the chunked coding. */
module ChunkDecoder {
  import opened Bytes
  import opened ChunkedTransfer

  /** The members of HTTP the decoder works on; `body`, `footer`, `last`, `error` and
      `keepAlive` are the bits CHUNK_BODY, CHUNK_FOOTER, CHUNK_LAST, BODY_ERROR, KEEP_ALIVE. */
  datatype State = State(body: bool, footer: bool, last: bool, error: bool, keepAlive: bool,
                         tmp: seq<byte>, data: seq<byte>, size: nat, offset: nat)
  {
    predicate Valid() {
      && size < 0x1_0000_0000 && offset < 0x1_0000_0000
      && (body ==> !footer && offset < size)
      && (footer ==> offset == 0 && LF !in tmp)
    }
  }

  /** The text sscanf sees: the last byte of the buffer, and a CR before it, become NUL. */
  function LineText(buf: seq<byte>): seq<byte>
    requires buf != []
  {
    var n := |buf| - 1;
    if n > 0 && buf[n - 1] == CR then buf[..n - 1] + [0, 0] else buf[..n] + [0]
  }

  /** One pass of the decoder: the new state, the bytes it recurses on (none if empty), `done`. */
  datatype Pass = Pass(d: State, rest: seq<byte>, done: bool)

  function BodyPass(d: State, s: seq<byte>): (r: Pass)
    requires d.Valid() && d.body && s != []
    ensures r.d.Valid() && |r.rest| < |s|
  {
    var max := if U32(d.offset + |s|) > d.size then d.size - d.offset else |s|;
    var off := U32(d.offset + max);
    var d1 := d.(tmp := [], data := d.data + s[..max]);
    Pass(if off >= d.size then d1.(offset := 0, size := 0, body := false, footer := true)
         else d1.(offset := off),
         s[max..], false)
  }

  function FooterPass(d: State, s: seq<byte>): (r: Pass)
    requires d.Valid() && d.footer && s != []
    ensures r.d.Valid() && |r.rest| < |s|
  {
    var t := d.tmp + s;
    var i := NextLF(t, 0);
    if i == |t| then Pass(d.(tmp := t), [], false)
    else
      // past a line that is not empty the scan finds its line feed a second time
      var left := |t| - (if i == 0 || (i == 1 && t[0] == CR) then i + 1 else 2 * (i + 1));
      var d1 := d.(tmp := t, footer := false);
      if d.last then Pass(d1, [], true)
      else if left > 0 then Pass(d1.(tmp := []), t[i + 1..i + 1 + left], false)
      else Pass(d1, [], false)
  }

  function SizePass(d: State, s: seq<byte>): (r: Pass)
    requires d.Valid() && !d.body && !d.footer && s != []
    ensures r.d.Valid() && |r.rest| < |s|
  {
    var t := d.tmp + s;
    var n := NextLF(s, 0);
    if n == |s| then Pass(d.(tmp := t), [], false)
    else
      var size := ScanHex(LineText(t));
      var d1 := d.(tmp := [], size := size, offset := 0);
      Pass(if size == 0 then d1.(footer := true, last := true) else d1.(body := true),
           s[n + 1..], false)
  }

  function OnePass(d: State, s: seq<byte>): (r: Pass)
    requires d.Valid() && s != []
    ensures r.d.Valid() && |r.rest| < |s|
  {
    if d.body then BodyPass(d, s) else if d.footer then FooterPass(d, s) else SizePass(d, s)
  }

  function Decode(d: State, s: seq<byte>, flush: bool): (r: (State, bool))
    requires d.Valid()
    ensures r.0.Valid()
    decreases |s|
  {
    if s == [] then (d.(error := true, keepAlive := false), true)
    else
      var p := OnePass(if flush then d.(data := []) else d, s);
      if p.rest == [] then (p.d, p.done) else Decode(p.d, p.rest, false)
  }

  // ---- the decoder refines the coding ----

  /** What a line end leaves behind in the buffer when it closes a fragment. */
  predicate IsJunk(j: seq<byte>) { j == [] || j == [LF] || j == [CR, LF] }

  ghost predicate Represents(d: State, p: Phase)
  {
    && d.Valid()
    && match p
       case SizeLine(line) =>
         !d.body && !d.footer && !d.last && LF !in line
         && |line| <= |d.tmp| && IsJunk(d.tmp[..|d.tmp| - |line|]) && d.tmp[|d.tmp| - |line|..] == line
       case Body(left, read) => d.body && !d.last && left == d.size - d.offset && read == d.offset
       case ChunkEnd(cr) => d.footer && !d.last && d.tmp == if cr then [CR] else []
       case Trailer(line, seen) => d.footer && d.last && d.tmp == line && !seen
       case _ => false
  }

  /** Offset + len, of 32 bits, does not wrap around. */
  predicate NoWrap(p: Phase, s: seq<byte>)
  {
    p.Body? ==> p.read + |s| < 0x1_0000_0000
  }

  lemma RepresentedIsOpen(d: State, p: Phase)
    requires Represents(d, p)
    ensures !Closed(p)
  {}

  /** A pass over `s` consumes a prefix of it exactly as the coding does. */
  ghost predicate Faithful(r: Pass, d: State, p: Phase, s: seq<byte>)
  {
    var k := |s| - |r.rest|;
    && 0 < k <= |s| && r.rest == s[k..]
    && r.d.data == d.data + Payload(p, s[..k])
    && r.d.error == d.error && r.d.keepAlive == d.keepAlive
    && r.done == Closed(End(p, s[..k])) && (r.done ==> r.rest == [])
    && (!r.done ==> Represents(r.d, End(p, s[..k])))
    && (r.rest != [] ==> NoWrap(End(p, s[..k]), r.rest))
  }

  /** A size line is read right although the buffer also holds what follows it. */
  lemma {:induction false} SizeLineRead(junk: seq<byte>, line: seq<byte>, rest: seq<byte>)
    requires IsJunk(junk) && IsSizeLine(DropCR(line))
    ensures ScanHex(LineText(junk + line + [LF] + rest)) == HexNumber(DropCR(line)[..HexRun(DropCR(line))])
  {
    var n := HexRun(DropCR(line));
    var digits, after := line[..n], line[n..] + [LF] + rest;
    DigitsEnd(line, n, rest);
    Regroup(junk, line, n, [LF], rest);
    LineTextOf(junk + digits, after);
    ScanHexReads(junk, digits, LineText(after));
  }

  /** The digits of a size line, and the byte that ends them. */
  lemma DigitsEnd(line: seq<byte>, n: nat, rest: seq<byte>)
    requires IsSizeLine(DropCR(line)) && n == HexRun(DropCR(line))
    ensures n <= |line| && line[..n] == DropCR(line)[..n]
    ensures var after := line[n..] + [LF] + rest; after[0] in {9, 32, 59, CR, LF}
  {
    assert n < |line| ==> line[n] in {9, 32, 59, CR};
  }

  /** Only the end of the buffer is changed; what replaces it stops the scan as well. */
  lemma LineTextOf(head: seq<byte>, tail: seq<byte>)
    requires tail != [] && tail[0] in {9, 32, 59, CR, LF}
    ensures var t := LineText(tail); t[0] in {0, 9, 32, 59, CR, LF}
    ensures head != [] && head[|head| - 1] != CR ==> LineText(head + tail) == head + LineText(tail)
  {
    var buf := head + tail;
    assert |tail| >= 2 ==> buf[|buf| - 2] == tail[|tail| - 2];
  }

  lemma {:induction false} BodyPassFaithful(d: State, left: nat, read: nat, s: seq<byte>)
    requires Represents(d, Body(left, read)) && 0 < |s| < 0x8000_0000 && NoWrap(Body(left, read), s)
    ensures Faithful(BodyPass(d, s), d, Body(left, read), s)
  {
    var max := if |s| > left then left else |s|;
    EndBody(left, read, s[..max]);
  }

  /** Where the sum wraps, the end of the chunk is missed and all of the fragment is taken for data. */
  lemma BodyPassWraps(d: State, left: nat, read: nat, s: seq<byte>)
    requires Represents(d, Body(left, read)) && 0 < |s| < 0x8000_0000 && !NoWrap(Body(left, read), s)
    ensures BodyPass(d, s).rest == [] && BodyPass(d, s).d.data == d.data + s
    ensures |Payload(Body(left, read), s)| < |s|
  {
    assert U32(d.offset + |s|) == d.offset + |s| - 0x1_0000_0000;
    assert s[..|s|] == s && s[|s|..] == [];
    assert s == s[..left] + s[left..];
    EndAppend(Body(left, read), s[..left], s[left..]);
    EndBody(left, read, s[..left]);
    PayloadShorter(ChunkEnd(false), s[left..]);
  }

  lemma {:induction false} SizePassFaithful(d: State, line: seq<byte>, s: seq<byte>)
    requires Represents(d, SizeLine(line)) && 0 < |s| < 0x8000_0000
    requires !End(SizeLine(line), s).Bad?
    ensures Faithful(SizePass(d, s), d, SizeLine(line), s)
  {
    var n := NextLF(s, 0);
    if n == |s| {
      SizeLineGrows(d, line, s);
    } else {
      var q := AfterSizeLine(DropCR(line + s[..n]));
      SizeLineEnds(line, s, n);
      BadForever(q, s[n + 1..]);
      SizeLineComplete(d, line, s, n, q);
    }
  }

  lemma SizeLineGrows(d: State, line: seq<byte>, s: seq<byte>)
    requires Represents(d, SizeLine(line)) && 0 < |s| && NextLF(s, 0) == |s|
    ensures Faithful(SizePass(d, s), d, SizeLine(line), s)
  {
    EndSizeLine(line, s);
    TmpGrows(d, line, s);
    var r := SizePassWaits(d, s);
    WholeFragment(r, d, SizeLine(line), s);
  }

  lemma SizePassWaits(d: State, s: seq<byte>) returns (r: Pass)
    requires d.Valid() && !d.body && !d.footer && 0 < |s| && NextLF(s, 0) == |s|
    ensures r == SizePass(d, s) == Pass(d.(tmp := d.tmp + s), [], false) && r.d.data == d.data + []
  {
    assert d.data + [] == d.data;
    r := SizePass(d, s);
  }

  /** A pass that needs more data has consumed all of the fragment. */
  lemma WholeFragment(r: Pass, d: State, p: Phase, s: seq<byte>)
    requires s != [] && r.rest == [] && !r.done && r.d.error == d.error && r.d.keepAlive == d.keepAlive
    requires r.d.data == d.data + Payload(p, s) && Represents(r.d, End(p, s))
    ensures Faithful(r, d, p, s)
  {
    assert s[..|s|] == s;
    RepresentedIsOpen(r.d, End(p, s));
  }

  lemma TmpGrows(d: State, line: seq<byte>, s: seq<byte>)
    requires Represents(d, SizeLine(line)) && LF !in s
    ensures Represents(d.(tmp := d.tmp + s), SizeLine(line + s))
  {
    var k := |d.tmp| - |line|;
    assert (d.tmp + s)[..k] == d.tmp[..k];
    assert (d.tmp + s)[k..] == d.tmp[k..] + s;
  }

  lemma SizeLineEnds(line: seq<byte>, s: seq<byte>, n: nat)
    requires n < |s| && n == NextLF(s, 0)
    ensures Payload(SizeLine(line), s[..n + 1]) == []
    ensures End(SizeLine(line), s[..n + 1]) == AfterSizeLine(DropCR(line + s[..n]))
    ensures End(SizeLine(line), s) == End(AfterSizeLine(DropCR(line + s[..n])), s[n + 1..])
  {
    var t := s[..n];
    CutOut(s, n);
    EndSizeLine(line, t);
    EndAppend(SizeLine(line), t, [LF] + []);
    EndCons(SizeLine(line + t), LF, []);
    EndAppend(SizeLine(line), s[..n + 1], s[n + 1..]);
  }

  lemma CutOut(s: seq<byte>, n: nat)
    requires n < |s| && s[n] == LF
    ensures s[..n + 1] == s[..n] + ([LF] + []) && s == s[..n + 1] + s[n + 1..]
  {}

  lemma InsertLF(junk: seq<byte>, line: seq<byte>, s: seq<byte>, n: nat)
    requires n < |s| && s[n] == LF
    ensures junk + line + s == junk + (line + s[..n]) + [LF] + s[n + 1..]
  {
    assert s == s[..n] + [LF] + s[n + 1..];
  }

  /** The pass in which the line feed of a size line arrives, at s[n]. */
  lemma SizeLineComplete(d: State, line: seq<byte>, s: seq<byte>, n: nat, q: Phase)
    requires Represents(d, SizeLine(line)) && n < |s| < 0x8000_0000 && n == NextLF(s, 0)
    requires q == AfterSizeLine(DropCR(line + s[..n])) && !q.Bad?
    requires Payload(SizeLine(line), s[..n + 1]) == [] && End(SizeLine(line), s[..n + 1]) == q
    ensures Faithful(SizePass(d, s), d, SizeLine(line), s)
  {
    var r := SizePassIs(d, line, s, n, q);
    PartOfFragment(r, d, SizeLine(line), s, n + 1);
  }

  lemma SizePassIs(d: State, line: seq<byte>, s: seq<byte>, n: nat, q: Phase) returns (r: Pass)
    requires Represents(d, SizeLine(line)) && n < |s| < 0x8000_0000 && n == NextLF(s, 0)
    requires q == AfterSizeLine(DropCR(line + s[..n])) && !q.Bad?
    ensures r == SizePass(d, s) && r.rest == s[n + 1..] && !r.done && NoWrap(q, r.rest) && Represents(r.d, q)
    ensures r.d.data == d.data && r.d.error == d.error && r.d.keepAlive == d.keepAlive
  {
    SizeFound(d, line, s, n);
    r := SizePass(d, s);
  }

  lemma SizeFound(d: State, line: seq<byte>, s: seq<byte>, n: nat)
    requires Represents(d, SizeLine(line)) && n < |s| && s[n] == LF && IsSizeLine(DropCR(line + s[..n]))
    ensures var l := DropCR(line + s[..n]); ScanHex(LineText(d.tmp + s)) == HexNumber(l[..HexRun(l)])
  {
    var junk := d.tmp[..|d.tmp| - |line|];
    assert d.tmp == junk + line;
    InsertLF(junk, line, s, n);
    SizeLineRead(junk, line + s[..n], s[n + 1..]);
  }

  /** The first bytes of a well-formed chunk end. */
  lemma ChunkEndStarts(cr: bool, s: seq<byte>)
    requires s != [] && !End(ChunkEnd(cr), s).Bad?
    ensures s[0] == LF || (s[0] == CR && !cr && (|s| > 1 ==> s[1] == LF))
  {
    BadForever(Step(ChunkEnd(cr), s[0]), s[1..]);
    if s[0] != LF && |s| > 1 {
      BadForever(Step(ChunkEnd(true), s[1]), s[1..][1..]);
    }
  }

  lemma {:induction false} ChunkEndFaithful(d: State, cr: bool, s: seq<byte>)
    requires Represents(d, ChunkEnd(cr)) && 0 < |s|
    requires !End(ChunkEnd(cr), s).Bad?
    ensures Faithful(FooterPass(d, s), d, ChunkEnd(cr), s)
  {
    ChunkEndStarts(cr, s);
    if s[0] == LF {
      ChunkEndsIn(d, ChunkEnd(cr), s, 1);
    } else if |s| > 1 {
      ChunkEndsIn(d, ChunkEnd(cr), s, 2);
    } else {
      HalfChunkEnd(d, s);
    }
  }

  /** Whether the first k bytes are what is still to come of the line end. */
  predicate IsLineEnd(p: Phase, s: seq<byte>, k: nat)
  {
    p.ChunkEnd? && 0 < k <= |s| && s[k - 1] == LF && (k == 1 || (k == 2 && s[0] == CR && !p.cr))
  }

  lemma ChunkEndsIn(d: State, p: Phase, s: seq<byte>, k: nat)
    requires Represents(d, p) && IsLineEnd(p, s, k)
    ensures Faithful(FooterPass(d, s), d, p, s)
  {
    LineEndRead(p, s, k);
    var r := LineEndPass(d, p, s, k);
    PartOfFragment(r, d, p, s, k);
  }

  lemma LineEndRead(p: Phase, s: seq<byte>, k: nat)
    requires IsLineEnd(p, s, k)
    ensures End(p, s[..k]) == SizeLine([]) && Payload(p, s[..k]) == []
  {
    if k == 1 {
      OneByte(p, s);
    } else {
      TwoBytes(p, s);
    }
  }

  lemma LineEndPass(d: State, p: Phase, s: seq<byte>, k: nat) returns (r: Pass)
    requires Represents(d, p) && IsLineEnd(p, s, k)
    ensures r == FooterPass(d, s) && r.rest == s[k..] && !r.done && Represents(r.d, SizeLine([]))
    ensures r.d.data == d.data && r.d.error == d.error && r.d.keepAlive == d.keepAlive
  {
    assert (d.tmp + s)[0] == if d.tmp == [] then s[0] else d.tmp[0];
    ChunkEndComplete(d, s, k - 1);
    r := FooterPass(d, s);
  }

  lemma OneByte(p: Phase, s: seq<byte>)
    requires s != [] && !p.Body?
    ensures End(p, s[..1]) == Step(p, s[0]) && Payload(p, s[..1]) == []
  {
    assert s[..1] == [s[0]] && s[..1][1..] == [];
  }

  lemma TwoBytes(p: Phase, s: seq<byte>)
    requires |s| > 1 && !p.Body? && !Step(p, s[0]).Body?
    ensures End(p, s[..2]) == Step(Step(p, s[0]), s[1]) && Payload(p, s[..2]) == []
  {
    EndTwo(p, s[0], s[1]);
    assert s[..2] == [s[0], s[1]];
  }

  /** The carriage return alone */
  lemma HalfChunkEnd(d: State, s: seq<byte>)
    requires Represents(d, ChunkEnd(false)) && s == [CR]
    ensures Faithful(FooterPass(d, s), d, ChunkEnd(false), s)
  {
    OneByte(ChunkEnd(false), s);
    assert s[..1] == s && d.tmp + s == s && d.data + [] == d.data;
    WholeFragment(FooterPass(d, s), d, ChunkEnd(false), s);
  }

  /** A pass that ends after k bytes which hold no data. */
  lemma PartOfFragment(r: Pass, d: State, p: Phase, s: seq<byte>, k: nat)
    requires 0 < k <= |s| && r.rest == s[k..] && !r.done && r.d.error == d.error && r.d.keepAlive == d.keepAlive
    requires r.d.data == d.data && Payload(p, s[..k]) == [] && Represents(r.d, End(p, s[..k]))
    requires NoWrap(End(p, s[..k]), r.rest)
    ensures Faithful(r, d, p, s)
  {
    assert d.data + [] == d.data;
    RepresentedIsOpen(r.d, End(p, s[..k]));
  }

  lemma FirstLineFeed(t: seq<byte>, n: nat)
    requires n < |t| && t[n] == LF && n <= 1 && (n == 1 ==> t[0] != LF)
    ensures NextLF(t, 0) == n
  {}

  /** After the last chunk the first line feed ends the transfer, whatever its line holds. */
  lemma {:induction false} TrailerFaithful(d: State, line: seq<byte>, s: seq<byte>)
    requires Represents(d, Trailer(line, false)) && 0 < |s|
    ensures Faithful(FooterPass(d, s), d, Trailer(line, false), s)
  {
    var n := NextLF(s, 0);
    LineFeedAfter(line, s);
    assert d.data + [] == d.data;
    if n == |s| {
      EndTrailer(line, false, s);
      assert s[..n] == s;
    } else {
      TrailerLineEnds(line, s, n);
      assert s[..|s|] == s;
    }
  }

  lemma TrailerLineEnds(line: seq<byte>, s: seq<byte>, n: nat)
    requires n < |s| && s[n] == LF && LF !in s[..n]
    ensures Closed(End(Trailer(line, false), s)) && Payload(Trailer(line, false), s) == []
  {
    assert s == s[..n] + ([LF] + s[n + 1..]);
    EndTrailer(line, false, s[..n]);
    EndAppend(Trailer(line, false), s[..n], [LF] + s[n + 1..]);
    EndCons(Trailer(line + s[..n], false), LF, s[n + 1..]);
    ClosedForever(Step(Trailer(line + s[..n], false), LF), s[n + 1..]);
  }

  lemma LineFeedAfter(line: seq<byte>, s: seq<byte>)
    requires LF !in line
    ensures NextLF(line + s, 0) == |line| + NextLF(s, 0)
  {
    var n := NextLF(s, 0);
    forall j | 0 <= j < |line| + n ensures (line + s)[j] != LF {
      assert (line + s)[j] == if j < |line| then line[j] else s[j - |line|];
    }
    assert n < |s| ==> (line + s)[|line| + n] == s[n];
  }

  lemma {:induction false} ChunkEndComplete(d: State, s: seq<byte>, k: nat)
    requires d.Valid() && d.footer && !d.last && k < |s| && s[k] == LF && |d.tmp| + k <= 1
    requires |d.tmp| + k == 1 ==> (d.tmp + s)[0] == CR
    ensures var r := FooterPass(d, s);
      && r.rest == s[k + 1..] && !r.done && Represents(r.d, SizeLine([]))
      && r.d.data == d.data && r.d.error == d.error && r.d.keepAlive == d.keepAlive
  {
    var t := d.tmp + s;
    var n := |d.tmp| + k;
    DropConcat(d.tmp, s, k + 1);
    FirstLineFeed(t, n);
    assert |t| - (n + 1) == |s[k + 1..]|;
    if s[k + 1..] == [] {
      assert t == if n == 0 then [LF] else [CR, LF];
      assert t[..|t|] == t;
    } else {
      assert t[n + 1..n + 1 + |s[k + 1..]|] == s[k + 1..];
    }
  }

  lemma {:induction false} PassFaithful(d: State, p: Phase, s: seq<byte>)
    requires Represents(d, p) && 0 < |s| < 0x8000_0000 && NoWrap(p, s)
    requires !End(p, s).Bad?
    ensures Faithful(OnePass(d, s), d, p, s)
  {
    match p {
      case SizeLine(line) => SizePassFaithful(d, line, s);
      case Body(left, read) => BodyPassFaithful(d, left, read, s);
      case ChunkEnd(cr) => ChunkEndFaithful(d, cr, s);
      case Trailer(line, _) => TrailerFaithful(d, line, s);
    }
  }

  lemma StreamSplits(p: Phase, s: seq<byte>, k: nat)
    requires k <= |s|
    ensures End(p, s) == End(End(p, s[..k]), s[k..])
    ensures Payload(p, s) == Payload(p, s[..k]) + Payload(End(p, s[..k]), s[k..])
    ensures k == |s| ==> End(p, s) == End(p, s[..k]) && Payload(p, s) == Payload(p, s[..k])
  {
    assert s == s[..k] + s[k..];
    EndAppend(p, s[..k], s[k..]);
    assert k == |s| ==> s == s[..k];
  }

  /** A pass leaves the decoder at a phase `q` from which the rest of the stream reads the same. */
  lemma {:induction false} PassRefines(d: State, p: Phase, s: seq<byte>) returns (q: Phase, out: seq<byte>)
    requires Represents(d, p) && 0 < |s| < 0x8000_0000 && NoWrap(p, s)
    requires !End(p, s).Bad?
    ensures var r := OnePass(d, s);
      && r.d.data == d.data + out && r.d.error == d.error && r.d.keepAlive == d.keepAlive
      && r.done == Closed(q) && (r.done ==> r.rest == [])
      && (if r.rest == [] then End(p, s) == q && Payload(p, s) == out
          else End(p, s) == End(q, r.rest) && Payload(p, s) == out + Payload(q, r.rest))
      && (!r.done ==> Represents(r.d, q)) && (r.rest != [] ==> NoWrap(q, r.rest))
  {
    PassFaithful(d, p, s);
    var k := |s| - |OnePass(d, s).rest|;
    StreamSplits(p, s, k);
    q, out := End(p, s[..k]), Payload(p, s[..k]);
  }

  lemma {:induction false} DecodeRefines(d: State, p: Phase, s: seq<byte>)
    requires Represents(d, p) && 0 < |s| < 0x8000_0000 && NoWrap(p, s)
    requires !End(p, s).Bad?
    ensures var (d', done) := Decode(d, s, false);
      && d'.data == d.data + Payload(p, s)
      && done == Closed(End(p, s))
      && d'.error == d.error && d'.keepAlive == d.keepAlive
      && (!done ==> Represents(d', End(p, s)))
    decreases |s|
  {
    var q, out := PassRefines(d, p, s);
    var r := OnePass(d, s);
    if r.rest != [] {
      DecodeRefines(r.d, q, r.rest);
      Assoc(d.data, out, Payload(q, r.rest));
    }
  }

  /** One call of the decoder, on any fragment of a well-formed stream. */
  lemma Refines(d: State, p: Phase, s: seq<byte>, flush: bool)
    requires Represents(d, p) && 0 < |s| < 0x8000_0000 && NoWrap(p, s)
    requires !End(p, s).Bad?
    ensures var (d', done) := Decode(d, s, flush);
      && d'.data == (if flush then [] else d.data) + Payload(p, s)
      && done == Closed(End(p, s))
      && d'.error == d.error && d'.keepAlive == d.keepAlive
      && (!done ==> Represents(d', End(p, s)))
  {
    var d0 := if flush then d.(data := []) else d;
    assert Represents(d0, p);
    assert Decode(d, s, flush) == Decode(d0, s, false);
    DecodeRefines(d0, p, s);
  }

  /** One call, on any fragment: the data is right if and only if Offset + len does not wrap. */
  lemma RefinesIff(d: State, p: Phase, s: seq<byte>, flush: bool)
    requires Represents(d, p) && 0 < |s| < 0x8000_0000
    requires !End(p, s).Bad?
    ensures Decode(d, s, flush).0.data == (if flush then [] else d.data) + Payload(p, s) <==> NoWrap(p, s)
  {
    if NoWrap(p, s) {
      Refines(d, p, s, flush);
    } else {
      var d0 := if flush then d.(data := []) else d;
      BodyPassWraps(d0, p.left, p.read, s);
      assert |Decode(d, s, flush).0.data| == |d0.data| + |s|;
    }
  }
}
