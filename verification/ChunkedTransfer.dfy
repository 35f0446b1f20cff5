/** The chunked transfer coding itself (section 3.6.1 of RFC 2616), one byte at a time.
    Nothing here knows about buffers, fragments or the decoder. */
module ChunkedTransfer {
  import opened Bytes

  /** Largest size that 32 bits hold. */
  const MAX_CHUNK := 0xFFFF_FFFF

  datatype Phase =
    | SizeLine(line: seq<byte>)               // reading a chunk-size line
    | Body(left: nat, read: nat)              // `left` bytes of chunk-data to come, after `read`
    | ChunkEnd(cr: bool)                      // the line end that closes chunk-data
    | Trailer(line: seq<byte>, seen: bool)    // after the last chunk; `seen`: there was a trailer line
    | Done(seen: bool)
    | Bad

  /** The phase after one byte. */
  function Step(p: Phase, b: byte): Phase
  {
    match p
    case SizeLine(line) => if b == LF then AfterSizeLine(DropCR(line)) else SizeLine(line + [b])
    case Body(left, n) => if left <= 1 then ChunkEnd(false) else Body(left - 1, n + 1)
    case ChunkEnd(cr) => if b == LF then SizeLine([]) else if b == CR && !cr then ChunkEnd(true) else Bad
    case Trailer(line, seen) =>
      if b != LF then Trailer(line + [b], seen)
      else if DropCR(line) == [] then Done(seen)
      else Trailer([], true)
    case Done(_) => p
    case Bad => p
  }

  /** chunk-size is 1*HEX, perhaps followed by white space or by an extension. */
  predicate IsSizeLine(line: seq<byte>)
  {
    var n := HexRun(line);
    n > 0 && (n < |line| ==> line[n] in {9, 32, 59}) && HexNumber(line[..n]) <= MAX_CHUNK
  }

  function AfterSizeLine(line: seq<byte>): Phase
  {
    if !IsSizeLine(line) then Bad
    else
      var n := HexNumber(line[..HexRun(line)]);
      if n == 0 then Trailer([], false) else Body(n, 0)
  }

  /** The phase reached from `p` over `s`. */
  function End(p: Phase, s: seq<byte>): Phase
    decreases |s|
  {
    if s == [] then p else End(Step(p, s[0]), s[1..])
  }

  /** The entity bytes in `s` when read from `p`. */
  function Payload(p: Phase, s: seq<byte>): seq<byte>
    decreases |s|
  {
    if s == [] then [] else (if p.Body? then [s[0]] else []) + Payload(Step(p, s[0]), s[1..])
  }

  /** The transfer is over, or a first trailer line has been read. */
  predicate Closed(p: Phase)
  {
    p.Done? || (p.Trailer? && p.seen)
  }

  // ---- laws ----

  lemma {:induction false} EndAppend(p: Phase, a: seq<byte>, b: seq<byte>)
    ensures End(p, a + b) == End(End(p, a), b)
    ensures Payload(p, a + b) == Payload(p, a) + Payload(End(p, a), b)
    decreases |a|
  {
    if a == [] {
      assert a + b == b;
    } else {
      var q := Step(p, a[0]);
      TailConcat(a, b);
      EndAppend(q, a[1..], b);
      Assoc(if p.Body? then [a[0]] else [], Payload(q, a[1..]), Payload(End(q, a[1..]), b));
    }
  }

  lemma EndCons(p: Phase, b: byte, s: seq<byte>)
    ensures End(p, [b] + s) == End(Step(p, b), s)
    ensures Payload(p, [b] + s) == (if p.Body? then [b] else []) + Payload(Step(p, b), s)
  {
    assert ([b] + s)[1..] == s;
  }

  lemma EndTwo(p: Phase, a: byte, b: byte)
    ensures End(p, [a, b]) == Step(Step(p, a), b)
    ensures !p.Body? && !Step(p, a).Body? ==> Payload(p, [a, b]) == []
  {
    var q := Step(p, a);
    assert [a, b][1..] == [b] && [b][1..] == [];
    assert End(p, [a, b]) == End(q, [b]) == End(Step(q, b), []);
    assert Payload(q, [b]) == (if q.Body? then [b] else []) + Payload(Step(q, b), []);
  }

  /** A malformed stream stays one. */
  lemma {:induction false} BadForever(p: Phase, s: seq<byte>)
    requires !End(p, s).Bad?
    ensures !p.Bad?
    decreases |s|
  {
    if s != [] {
      BadForever(Step(p, s[0]), s[1..]);
    }
  }

  /** Nothing after the first trailer line belongs to the entity. */
  lemma {:induction false} ClosedForever(p: Phase, s: seq<byte>)
    requires Closed(p)
    ensures Closed(End(p, s)) && Payload(p, s) == []
    decreases |s|
  {
    if s != [] {
      ClosedForever(Step(p, s[0]), s[1..]);
    }
  }

  /** Outside chunk-data the first byte is not payload. */
  lemma {:induction false} PayloadShorter(p: Phase, s: seq<byte>)
    ensures |Payload(p, s)| <= |s| && (s != [] && !p.Body? ==> |Payload(p, s)| < |s|)
    decreases |s|
  {
    if s != [] {
      PayloadShorter(Step(p, s[0]), s[1..]);
    }
  }

  lemma {:induction false} EndTrailer(line: seq<byte>, seen: bool, s: seq<byte>)
    requires LF !in s
    ensures End(Trailer(line, seen), s) == Trailer(line + s, seen) && Payload(Trailer(line, seen), s) == []
    decreases |s|
  {
    if s == [] {
      assert line + [] == line;
    } else {
      assert line + [s[0]] + s[1..] == line + s;
      EndTrailer(line + [s[0]], seen, s[1..]);
    }
  }

  lemma {:induction false} EndSizeLine(line: seq<byte>, s: seq<byte>)
    requires LF !in s
    ensures End(SizeLine(line), s) == SizeLine(line + s) && Payload(SizeLine(line), s) == []
    decreases |s|
  {
    if s == [] {
      assert line + s == line;
    } else {
      EndSizeLine(line + [s[0]], s[1..]);
      assert line + [s[0]] + s[1..] == line + s;
    }
  }

  lemma {:induction false} EndBody(left: nat, read: nat, s: seq<byte>)
    requires 0 < left && |s| <= left
    ensures End(Body(left, read), s) == if |s| == left then ChunkEnd(false) else Body(left - |s|, read + |s|)
    ensures Payload(Body(left, read), s) == s
    decreases |s|
  {
    if |s| > 1 {
      EndBody(left - 1, read + 1, s[1..]);
    } else if s != [] {
      assert s[1..] == [];
    }
  }

  // ---- chunks that no fragment can wrap ----

  /** No chunk met is longer than 2^31 bytes. */
  predicate ShortChunks(p: Phase, s: seq<byte>)
    decreases |s|
  {
    (p.Body? ==> p.left + p.read <= 0x8000_0000) && (s == [] || ShortChunks(Step(p, s[0]), s[1..]))
  }

  lemma {:induction false} ShortAppend(p: Phase, a: seq<byte>, b: seq<byte>)
    requires ShortChunks(p, a) && ShortChunks(End(p, a), b)
    ensures ShortChunks(p, a + b)
    decreases |a|
  {
    if a == [] {
      assert a + b == b;
    } else {
      TailConcat(a, b);
      ShortAppend(Step(p, a[0]), a[1..], b);
    }
  }

  lemma {:induction false} ShortSizeLine(line: seq<byte>, s: seq<byte>)
    requires LF !in s
    ensures ShortChunks(SizeLine(line), s)
    decreases |s|
  {
    if s != [] {
      ShortSizeLine(line + [s[0]], s[1..]);
    }
  }

  lemma {:induction false} ShortBody(left: nat, read: nat, s: seq<byte>)
    requires 0 < left && |s| <= left && left + read <= 0x8000_0000
    ensures ShortChunks(Body(left, read), s)
    decreases |s|
  {
    if |s| > 1 {
      ShortBody(left - 1, read + 1, s[1..]);
    } else if s != [] {
      assert s[1..] == [];
    }
  }

  lemma {:induction false} ShortPrefix(p: Phase, a: seq<byte>, b: seq<byte>)
    requires ShortChunks(p, a + b)
    ensures ShortChunks(p, a) && ShortChunks(End(p, a), b)
    decreases |a|
  {
    if a == [] {
      assert a + b == b;
    } else {
      TailConcat(a, b);
      ShortPrefix(Step(p, a[0]), a[1..], b);
    }
  }
}
