/** Whole transfers: fragmentation independence of the decoder, and its inverse, the encoder. */
module ChunkStreams {
  import opened Bytes
  import opened ChunkedTransfer
  import opened ChunkDecoder

  /** The decoder as Reset and AddHeaderData leave it before the first body byte. */
  predicate Fresh(d: State)
  {
    d.Valid() && !d.body && !d.footer && !d.last && d.tmp == []
  }

  const START := SizeLine([])

  lemma FreshRepresents(d: State)
    requires Fresh(d)
    ensures Represents(d, START)
  {}

  /** The fragments one receive call after another can deliver: none is empty. */
  predicate IsCut(frags: seq<seq<byte>>)
  {
    forall i :: 0 <= i < |frags| ==> 0 < |frags[i]| < 0x8000_0000
  }

  /** In no call does Offset + len wrap around. */
  predicate Unwrapped(p: Phase, frags: seq<seq<byte>>)
    decreases |frags|
  {
    frags == [] || (NoWrap(p, frags[0]) && Unwrapped(End(p, frags[0]), frags[1..]))
  }

  /** What the caller collects: `out` from each call until `done`, after `used` fragments. */
  datatype Fed = Fed(out: seq<byte>, done: bool, used: nat)

  function Feed(d: State, frags: seq<seq<byte>>): (r: Fed)
    requires d.Valid()
    ensures r.used <= |frags|
    decreases |frags|
  {
    if frags == [] then Fed([], false, 0)
    else
      var (d', done) := Decode(d, frags[0], true);
      if done then Fed(d'.data, true, 1)
      else
        var r := Feed(d', frags[1..]);
        Fed(d'.data + r.out, r.done, 1 + r.used)
  }

  /** Fragment number k closes the transfer: not fewer fragments. */
  predicate ClosesIn(p: Phase, frags: seq<seq<byte>>, k: nat)
  {
    0 < k <= |frags| && Closed(End(p, Flatten(frags[..k]))) && !Closed(End(p, Flatten(frags[..k - 1])))
  }

  lemma FirstCall(d: State, p: Phase, frags: seq<seq<byte>>) returns (d': State)
    requires Represents(d, p) && frags != [] && 0 < |frags[0]| < 0x8000_0000 && NoWrap(p, frags[0])
    requires !End(p, frags[0]).Bad?
    ensures Closed(End(p, frags[0])) ==> Feed(d, frags) == Fed(Payload(p, frags[0]), true, 1)
    ensures !Closed(End(p, frags[0])) ==> Represents(d', End(p, frags[0]))
    ensures !Closed(End(p, frags[0])) ==> var r := Feed(d', frags[1..]);
      Feed(d, frags) == Fed(Payload(p, frags[0]) + r.out, r.done, 1 + r.used)
  {
    Refines(d, p, frags[0], true);
    d' := Decode(d, frags[0], true).0;
    assert [] + Payload(p, frags[0]) == Payload(p, frags[0]);
    FeedOne(d, frags, d', Decode(d, frags[0], true).1);
  }

  lemma FeedOne(d: State, frags: seq<seq<byte>>, d': State, done: bool)
    requires d.Valid() && frags != [] && (d', done) == Decode(d, frags[0], true)
    ensures done ==> Feed(d, frags) == Fed(d'.data, true, 1)
    ensures !done ==> var r := Feed(d', frags[1..]); Feed(d, frags) == Fed(d'.data + r.out, r.done, 1 + r.used)
  {}

  /** The stream in the fragments, from the second one on. */
  lemma StreamAfterFirst(p: Phase, frags: seq<seq<byte>>)
    requires frags != [] && !End(p, Flatten(frags)).Bad?
    ensures var q, rest := End(p, frags[0]), Flatten(frags[1..]);
      && !q.Bad? && !End(q, rest).Bad? && End(p, Flatten(frags)) == End(q, rest)
      && Payload(p, Flatten(frags)) == Payload(p, frags[0]) + Payload(q, rest)
      && (Closed(q) ==> Closed(End(q, rest)) && Payload(p, Flatten(frags)) == Payload(p, frags[0]))
  {
    var q, rest := End(p, frags[0]), Flatten(frags[1..]);
    EndAppend(p, frags[0], rest);
    BadForever(q, rest);
    if Closed(q) {
      ClosedForever(q, rest);
      assert Payload(p, frags[0]) + [] == Payload(p, frags[0]);
    }
  }

  lemma {:induction false} FeedPayload(d: State, p: Phase, frags: seq<seq<byte>>)
    requires Represents(d, p) && IsCut(frags) && Unwrapped(p, frags)
    requires !End(p, Flatten(frags)).Bad?
    ensures Feed(d, frags).out == Payload(p, Flatten(frags))
    ensures Feed(d, frags).done == Closed(End(p, Flatten(frags)))
    decreases |frags|
  {
    if frags != [] {
      StreamAfterFirst(p, frags);
      var d' := FirstCall(d, p, frags);
      if !Closed(End(p, frags[0])) {
        FeedPayload(d', End(p, frags[0]), frags[1..]);
      }
    }
  }

  lemma FeedDoneNext(d: State, d': State, frags: seq<seq<byte>>, k: nat)
    requires d.Valid() && 0 < k <= |frags| && (d', false) == Decode(d, frags[0], true)
    ensures Feed(d, frags[..k]).done == Feed(d', frags[1..][..k - 1]).done
  {
    assert frags[..k][0] == frags[0] && frags[..k][1..] == frags[1..][..k - 1];
    FeedOne(d, frags[..k], d', false);
  }

  lemma StopsAtFirst(d: State, frags: seq<seq<byte>>)
    requires d.Valid() && frags != [] && Decode(d, frags[0], true).1
    ensures Feed(d, frags).done && Feed(d, frags).used == 1
    ensures Feed(d, frags[..1]).done && !Feed(d, frags[..0]).done
  {
    FeedOne(d, frags[..1], Decode(d, frags[0], true).0, true);
  }

  /** The loop stops with the first fragment that makes the decoder say `done`. */
  lemma {:induction false} FeedStops(d: State, frags: seq<seq<byte>>)
    requires d.Valid()
    ensures var r := Feed(d, frags);
      if !r.done then r.used == |frags|
      else r.used > 0 && Feed(d, frags[..r.used]).done && !Feed(d, frags[..r.used - 1]).done
    decreases |frags|
  {
    if frags != [] {
      var (d', done) := Decode(d, frags[0], true);
      if done {
        StopsAtFirst(d, frags);
      } else {
        FeedOne(d, frags, d', done);
        FeedStops(d', frags[1..]);
        StopsLater(d, d', frags);
      }
    }
  }

  lemma StopsLater(d: State, d': State, frags: seq<seq<byte>>)
    requires d.Valid() && frags != [] && (d', false) == Decode(d, frags[0], true)
    requires Feed(d, frags).done == Feed(d', frags[1..]).done && Feed(d, frags).used == 1 + Feed(d', frags[1..]).used
    requires var r := Feed(d', frags[1..]);
      r.done ==> r.used > 0 && Feed(d', frags[1..][..r.used]).done && !Feed(d', frags[1..][..r.used - 1]).done
    ensures var r := Feed(d, frags);
      r.done ==> Feed(d, frags[..r.used]).done && !Feed(d, frags[..r.used - 1]).done
  {
    var k := Feed(d, frags).used;
    FeedDoneNext(d, d', frags, k);
    if k > 1 {
      FeedDoneNext(d, d', frags, k - 1);
    }
  }

  lemma {:induction false} UnwrappedPrefix(p: Phase, frags: seq<seq<byte>>, k: nat)
    requires Unwrapped(p, frags) && k <= |frags|
    ensures Unwrapped(p, frags[..k])
    decreases |frags|
  {
    if k > 0 {
      UnwrappedPrefix(End(p, frags[0]), frags[1..], k - 1);
      assert frags[..k][1..] == frags[1..][..k - 1];
    }
  }

  /** The stream up to a fragment, and what is fed of it. */
  lemma FeedAfter(d: State, p: Phase, frags: seq<seq<byte>>, k: nat)
    requires Represents(d, p) && IsCut(frags) && Unwrapped(p, frags) && k <= |frags|
    requires !End(p, Flatten(frags)).Bad?
    ensures Feed(d, frags[..k]).done == Closed(End(p, Flatten(frags[..k])))
    ensures Feed(d, frags[..k]).out == Payload(p, Flatten(frags[..k]))
  {
    assert frags == frags[..k] + frags[k..];
    FlattenAppend(frags[..k], frags[k..]);
    EndAppend(p, Flatten(frags[..k]), Flatten(frags[k..]));
    BadForever(End(p, Flatten(frags[..k])), Flatten(frags[k..]));
    UnwrappedPrefix(p, frags, k);
    FeedPayload(d, p, frags[..k]);
  }

  /** Any cut of a well-formed stream in which no 32-bit sum wraps yields the payload of the whole, and
      `done` comes in the call that receives the line feed which closes the transfer: of the last line
      when there are no trailers, and else of the first trailer line. */
  lemma FragmentationIndependence(d: State, p: Phase, frags: seq<seq<byte>>)
    requires Represents(d, p) && IsCut(frags) && Unwrapped(p, frags)
    requires !End(p, Flatten(frags)).Bad?
    ensures var r := Feed(d, frags);
      && r.out == Payload(p, Flatten(frags))
      && r.done == Closed(End(p, Flatten(frags)))
      && (if r.done then ClosesIn(p, frags, r.used) else r.used == |frags|)
  {
    FeedPayload(d, p, frags);
    FeedStops(d, frags);
    var used := Feed(d, frags).used;
    if Feed(d, frags).done {
      FeedAfter(d, p, frags, used);
      FeedAfter(d, p, frags, used - 1);
    }
  }

  // ---- chunks of more than 2^31 bytes ----

  /** What has been fed is right after every fragment. */
  ghost predicate AlwaysRight(d: State, p: Phase, frags: seq<seq<byte>>)
    requires d.Valid()
  {
    forall k :: 0 <= k <= |frags| ==> Feed(d, frags[..k]).out == Payload(p, Flatten(frags[..k]))
  }

  lemma {:induction false} ClosedIsUnwrapped(p: Phase, frags: seq<seq<byte>>)
    requires Closed(p)
    ensures Unwrapped(p, frags)
    decreases |frags|
  {
    if frags != [] {
      ClosedForever(p, frags[0]);
      ClosedIsUnwrapped(End(p, frags[0]), frags[1..]);
    }
  }

  lemma FirstIsWrong(d: State, p: Phase, first: seq<byte>)
    requires Represents(d, p) && 0 < |first| < 0x8000_0000
    requires !End(p, first).Bad? && !NoWrap(p, first)
    ensures Feed(d, [first]).out != Payload(p, first)
  {
    RefinesIff(d, p, first, true);
    assert [] + Payload(p, first) == Payload(p, first);
    var (d', done) := Decode(d, first, true);
    FeedSingle(d, first, d', done);
  }

  lemma FeedSingle(d: State, first: seq<byte>, d': State, done: bool)
    requires d.Valid() && (d', done) == Decode(d, first, true)
    ensures Feed(d, [first]).out == d'.data && Flatten([first]) == first
  {
    var one: seq<seq<byte>> := [first];
    assert one[1..] == [] && Flatten(one[1..]) == [];
    FeedOne(d, one, d', done);
    assert Feed(d', one[1..]).out == [] && d'.data + [] == d'.data;
  }

  lemma FlattenCons(first: seq<byte>, rest: seq<seq<byte>>)
    ensures Flatten([first] + rest) == first + Flatten(rest)
  {
    assert ([first] + rest)[1..] == rest;
  }

  /** What is fed first, and then the rest. */
  lemma FeedCons(d: State, p: Phase, first: seq<byte>, rest: seq<seq<byte>>) returns (d': State)
    requires Represents(d, p) && 0 < |first| < 0x8000_0000 && NoWrap(p, first)
    requires !End(p, first).Bad? && !Closed(End(p, first))
    ensures Represents(d', End(p, first)) && d' == Decode(d, first, true).0
    ensures Feed(d, [first] + rest).out == Payload(p, first) + Feed(d', rest).out
  {
    var some := [first] + rest;
    assert some[0] == first && some[1..] == rest;
    d' := FirstCall(d, p, some);
    Refines(d, p, first, true);
    FeedOne(d, some, Decode(d, first, true).0, false);
    d' := Decode(d, first, true).0;
    assert [] + Payload(p, first) == Payload(p, first);
  }

  lemma LaterIsWrong(d: State, d': State, p: Phase, first: seq<byte>, rest: seq<seq<byte>>)
    requires d.Valid() && d'.Valid() && Feed(d, [first] + rest).out == Payload(p, first) + Feed(d', rest).out
    requires Feed(d', rest).out != Payload(End(p, first), Flatten(rest))
    ensures Feed(d, [first] + rest).out != Payload(p, Flatten([first] + rest))
  {
    FlattenCons(first, rest);
    EndAppend(p, first, Flatten(rest));
    SamePrefix(Payload(p, first), Feed(d', rest).out, Payload(End(p, first), Flatten(rest)));
  }

  lemma SamePrefix(a: seq<byte>, b: seq<byte>, c: seq<byte>)
    requires b != c
    ensures a + b != a + c
  {
    assert (a + b)[|a|..] == b && (a + c)[|a|..] == c;
  }

  /** Fragments of which the last is not read right. */
  predicate Wrong(d: State, p: Phase, some: seq<seq<byte>>)
    requires d.Valid()
  {
    Feed(d, some).out != Payload(p, Flatten(some))
  }

  lemma WrongNext(d: State, p: Phase, first: seq<byte>, some: seq<seq<byte>>)
    requires Represents(d, p) && 0 < |first| < 0x8000_0000 && NoWrap(p, first)
    requires !End(p, first).Bad? && !Closed(End(p, first))
    requires Wrong(Decode(d, first, true).0, End(p, first), some)
    ensures Wrong(d, p, [first] + some)
  {
    var d' := FeedCons(d, p, first, some);
    LaterIsWrong(d, d', p, first, some);
  }

  lemma {:induction false} WrongSomewhere(d: State, p: Phase, frags: seq<seq<byte>>) returns (some: seq<seq<byte>>)
    requires Represents(d, p) && IsCut(frags) && !Unwrapped(p, frags)
    requires !End(p, Flatten(frags)).Bad?
    ensures some <= frags && Wrong(d, p, some)
    decreases |frags|
  {
    var first := frags[0];
    StreamAfterFirst(p, frags);
    if !NoWrap(p, first) {
      some := WrongAtOnce(d, p, first);
    } else {
      NotClosedYet(p, frags);
      var d' := FeedCons(d, p, first, []);
      some := WrongSomewhere(d', End(p, first), frags[1..]);
      WrongNext(d, p, first, some);
      some := [first] + some;
    }
  }

  lemma WrongAtOnce(d: State, p: Phase, first: seq<byte>) returns (some: seq<seq<byte>>)
    requires Represents(d, p) && 0 < |first| < 0x8000_0000
    requires !End(p, first).Bad? && !NoWrap(p, first)
    ensures some == [first] && Wrong(d, p, some)
  {
    some := [first];
    FirstIsWrong(d, p, first);
    FeedSingle(d, first, Decode(d, first, true).0, Decode(d, first, true).1);
  }

  lemma NotClosedYet(p: Phase, frags: seq<seq<byte>>)
    requires frags != [] && NoWrap(p, frags[0]) && !Unwrapped(p, frags)
    ensures !Closed(End(p, frags[0])) && !Unwrapped(End(p, frags[0]), frags[1..])
  {
    if Closed(End(p, frags[0])) {
      ClosedIsUnwrapped(End(p, frags[0]), frags[1..]);
    }
  }

  /** Chunks of any size that 32 bits hold, cut anywhere: the data is right after every fragment if and
      only if none arrives in a chunk with Offset + len at 2^32 or more. */
  lemma RightIffUnwrapped(d: State, p: Phase, frags: seq<seq<byte>>)
    requires Represents(d, p) && IsCut(frags) && !End(p, Flatten(frags)).Bad?
    ensures AlwaysRight(d, p, frags) <==> Unwrapped(p, frags)
  {
    if Unwrapped(p, frags) {
      forall k | 0 <= k <= |frags| ensures Feed(d, frags[..k]).out == Payload(p, Flatten(frags[..k])) {
        FeedAfter(d, p, frags, k);
      }
    } else {
      var some := WrongSomewhere(d, p, frags);
      assert some == frags[..|some|];
    }
  }

  /** Without chunks of more than 2^31 bytes nothing wraps. */
  lemma {:induction false} ShortIsUnwrapped(p: Phase, frags: seq<seq<byte>>)
    requires IsCut(frags) && ShortChunks(p, Flatten(frags)) && (p.Body? ==> p.left > 0)
    ensures Unwrapped(p, frags)
    decreases |frags|
  {
    if frags != [] {
      ShortPrefix(p, frags[0], Flatten(frags[1..]));
      BodyHasMore(p, frags[0]);
      ShortIsUnwrapped(End(p, frags[0]), frags[1..]);
    }
  }

  lemma {:induction false} BodyHasMore(p: Phase, s: seq<byte>)
    requires p.Body? ==> p.left > 0
    ensures End(p, s).Body? ==> End(p, s).left > 0
    decreases |s|
  {
    if s != [] {
      BodyHasMore(Step(p, s[0]), s[1..]);
    }
  }

  // ---- trailers ----

  /** A complete transfer and nothing after it. */
  predicate Complete(p: Phase, s: seq<byte>)
  {
    s != [] && End(p, s).Done? && !End(p, s[..|s| - 1]).Done?
  }

  /** A complete transfer is closed before its last byte if and only if it has trailers. */
  lemma ClosedEarlyIff(p: Phase, s: seq<byte>)
    requires Complete(p, s)
    ensures Closed(End(p, s[..|s| - 1])) <==> End(p, s) == Done(true)
  {
    var n := |s| - 1;
    assert s == s[..n] + [s[n]] && [s[n]][1..] == [];
    EndAppend(p, s[..n], [s[n]]);
    assert End(p, s) == End(Step(End(p, s[..n]), s[n]), []);
  }

  function Singles(s: seq<byte>): (frags: seq<seq<byte>>)
    ensures |frags| == |s| && Flatten(frags) == s
  {
    if s == [] then [] else [[s[0]]] + Singles(s[1..])
  }

  lemma {:induction false} SinglesPrefix(s: seq<byte>, k: nat)
    requires k <= |s|
    ensures Flatten(Singles(s)[..k]) == s[..k] && IsCut(Singles(s))
  {
    if s != [] && k > 0 {
      SinglesPrefix(s[1..], k - 1);
      assert Singles(s)[..k][1..] == Singles(s[1..])[..k - 1];
      assert s[..k] == [s[0]] + s[1..][..k - 1];
    } else if s != [] {
      SinglesPrefix(s[1..], 0);
    }
  }

  /** One byte at a time no sum wraps. */
  lemma {:induction false} SinglesUnwrapped(p: Phase, s: seq<byte>)
    requires p.Body? ==> 0 < p.left && p.left + p.read <= MAX_CHUNK
    ensures Unwrapped(p, Singles(s))
    decreases |s|
  {
    if s != [] {
      SinglesUnwrapped(Step(p, s[0]), s[1..]);
      assert [s[0]][1..] == [] && End(p, [s[0]]) == Step(p, s[0]);
      assert Singles(s)[0] == [s[0]] && Singles(s)[1..] == Singles(s[1..]);
    }
  }

  /** Received byte by byte, a complete transfer is reported done by its last byte exactly
      when it has no trailers. */
  lemma DoneOnLastByteIffNoTrailers(d: State, p: Phase, s: seq<byte>)
    requires Represents(d, p) && Complete(p, s)
    ensures Feed(d, Singles(s)).done && Feed(d, Singles(s)).out == Payload(p, s)
    ensures Feed(d, Singles(s)).used == |s| <==> End(p, s) == Done(false)
  {
    SinglesPrefix(s, |s|);
    SinglesUnwrapped(p, s);
    FragmentationIndependence(d, p, Singles(s));
    ClosedEarlyIff(p, s);
    var k := Feed(d, Singles(s)).used;
    SinglesPrefix(s, k);
    SinglesPrefix(s, k - 1);
    if k < |s| {
      ClosedLater(p, s, k, |s| - 1);
    }
  }

  lemma ClosedLater(p: Phase, s: seq<byte>, k: nat, n: nat)
    requires k <= n <= |s| && Closed(End(p, s[..k]))
    ensures Closed(End(p, s[..n]))
  {
    assert s[..n] == s[..k] + s[k..n];
    EndAppend(p, s[..k], s[k..n]);
    ClosedForever(End(p, s[..k]), s[k..n]);
  }

  /** "0" CRLF, "A:b" CRLF, CRLF */
  const WITH_TRAILER: seq<byte> := [48, CR, LF] + ([65, 58, 98, CR] + [LF] + [CR, LF])

  /** What is read of it after the size line. */
  lemma PhaseWithTrailer(s: seq<byte>, rest: seq<byte>)
    requires s == [48, CR, LF] + ([65, 58, 98, CR] + [LF] + rest)
    ensures End(START, s) == End(Trailer([], true), rest) && Payload(START, s) == []
  {
    var line: seq<byte> := [65, 58, 98, CR];
    LastChunk(line + [LF] + rest);
    TrailerLine(line, rest);
  }

  lemma PhaseBeforeTrailer()
    ensures End(START, WITH_TRAILER[..7]) == Trailer([65, 58, 98, CR], false)
  {
    var line: seq<byte> := [65, 58, 98, CR];
    LastChunk(line);
    EndTrailer([], false, line);
    assert [] + line == line;
    assert WITH_TRAILER[..7] == [48, CR, LF] + line;
  }

  lemma PhasesWithTrailer()
    ensures End(START, WITH_TRAILER) == Done(true) && Payload(START, WITH_TRAILER) == []
    ensures End(START, WITH_TRAILER[..9]) == Trailer([CR], true)
    ensures End(START, WITH_TRAILER[..8]) == Trailer([], true)
    ensures End(START, WITH_TRAILER[..7]) == Trailer([65, 58, 98, CR], false)
  {
    var p := Trailer([], true);
    PhaseBeforeTrailer();
    PhaseWithTrailer(WITH_TRAILER, [CR, LF]);
    EndTwo(p, CR, LF);
    PhaseWithTrailer(WITH_TRAILER[..9], [CR]);
    EndTrailer([], true, [CR]);
    assert [] + [CR] == [CR];
    PhaseWithTrailer(WITH_TRAILER[..8], []);
  }

  /** Of its ten bytes the decoder takes eight. */
  lemma TrailerStopsEarly(d: State)
    requires Fresh(d)
    ensures Complete(START, WITH_TRAILER) && |WITH_TRAILER| == 10 && Feed(d, Singles(WITH_TRAILER)) == Fed([], true, 8)
  {
    var s := WITH_TRAILER;
    FreshRepresents(d);
    PhasesWithTrailer();
    SinglesPrefix(s, 10);
    SinglesUnwrapped(START, s);
    FragmentationIndependence(d, START, Singles(s));
    var k := Feed(d, Singles(s)).used;
    SinglesPrefix(s, k);
    SinglesPrefix(s, k - 1);
    ClosedFrom(s, 8, k);
  }

  /** Closed after i bytes and not before: there is only one such place. */
  lemma ClosedFrom(s: seq<byte>, i: nat, k: nat)
    requires 0 < i <= |s| && 0 < k <= |s|
    requires Closed(End(START, s[..i])) && !Closed(End(START, s[..i - 1]))
    requires Closed(End(START, s[..k])) && !Closed(End(START, s[..k - 1]))
    ensures i == k
  {
    NotClosedBefore(START, s, i, k);
    NotClosedBefore(START, s, k, i);
  }

  lemma NotClosedBefore(p: Phase, s: seq<byte>, i: nat, k: nat)
    requires i <= |s| && 0 < k <= |s| && Closed(End(p, s[..i])) && !Closed(End(p, s[..k - 1]))
    ensures k <= i
  {
    if i < k {
      ClosedLater(p, s, i, k - 1);
    }
  }

  lemma LastChunk(s: seq<byte>)
    ensures End(START, [48, CR, LF] + s) == End(Trailer([], false), s)
    ensures Payload(START, [48, CR, LF] + s) == Payload(Trailer([], false), s)
  {
    assert PrintHex(0) == [48];
    assert [48, CR, LF] + s == PrintHex(0) + [CR, LF] + s;
    FrameSizeLine(PrintHex(0), 0, s);
  }

  lemma TrailerLine(line: seq<byte>, rest: seq<byte>)
    requires LF !in line && DropCR(line) != []
    ensures End(Trailer([], false), line + [LF] + rest) == End(Trailer([], true), rest)
    ensures Payload(Trailer([], false), line + [LF] + rest) == []
  {
    Assoc(line, [LF], rest);
    assert ([LF] + rest)[1..] == rest && [] + line == line;
    EndTrailer([], false, line);
    EndAppend(Trailer([], false), line, [LF] + rest);
    ClosedForever(Trailer([], true), rest);
  }

  // ---- a sum that wraps ----

  const EIGHT_FS: seq<byte> := [70, 70, 70, 70, 70, 70, 70, 70]

  function Sixteen(n: nat): nat
  {
    if n == 0 then 1 else 16 * Sixteen(n - 1)
  }

  lemma {:induction false} AllFs(s: seq<byte>)
    requires forall i :: 0 <= i < |s| ==> s[i] == 70
    ensures HexNumber(s) == Sixteen(|s|) - 1
    decreases |s|
  {
    if s != [] {
      AllFs(s[..|s| - 1]);
    }
  }

  lemma SizeOfFs(f: seq<byte>)
    requires |f| == 8 && forall i :: 0 <= i < |f| ==> f[i] == 70
    ensures ScanHex(LineText(f + [CR, LF])) == 0xFFFF_FFFF
  {
    AllFs(f);
    assert Sixteen(8) == 0x1_0000_0000;
    ScanHexReads([], f, [0, 0]);
    assert LineText(f + [CR, LF]) == [] + f + [0, 0];
  }

  /** A chunk of 2^32 - 1 bytes: with one byte of it to come, three more are all taken for data. */
  lemma WrapMissesChunkEnd(d: State) returns (e: State)
    requires Fresh(d)
    ensures var d1 := Decode(d, EIGHT_FS + [CR, LF], true).0; var z := seq(0x7FFF_FFFF, _ => 0);
      && e == Decode(Decode(d1, z, true).0, z, true).0
      && e.body && e.size - e.offset == 1 && U32(e.offset + 3) < e.size
      && Decode(e, [1, 2, 3], true).0.data == [1, 2, 3]
  {
    SizeOfFs(EIGHT_FS);
    assert (EIGHT_FS + [CR, LF])[9] == LF;
    SizeOnly(d, EIGHT_FS + [CR, LF]);
    e := AllButOne(Decode(d, EIGHT_FS + [CR, LF], true).0);
  }

  lemma AllButOne(d: State) returns (e: State)
    requires d.Valid() && d.body && d.size == 0xFFFF_FFFF && d.offset == 0
    ensures var z := seq(0x7FFF_FFFF, _ => 0); e == Decode(Decode(d, z, true).0, z, true).0
    ensures e.body && e.size - e.offset == 1 && U32(e.offset + 3) < e.size
    ensures Decode(e, [1, 2, 3], true).0.data == [1, 2, 3]
  {
    var z: seq<byte> := seq(0x7FFF_FFFF, _ => 0);
    BodyOnly(d, z);
    var d2 := Decode(d, z, true).0;
    BodyOnly(d2, z);
    e := Decode(d2, z, true).0;
    BodyOnly(e, [1, 2, 3]);
  }

  lemma SizeOnly(d: State, line: seq<byte>)
    requires Fresh(d) && line != [] && NextLF(line, 0) == |line| - 1 && ScanHex(LineText(line)) > 0
    ensures var e := Decode(d, line, true).0;
      e.Valid() && e.body && e.size == ScanHex(LineText(line)) && e.offset == 0 && e.data == []
  {
    assert [] + line == line;
  }

  lemma BodyOnly(d: State, s: seq<byte>)
    requires d.Valid() && d.body && s != [] && U32(d.offset + |s|) < d.size
    ensures Decode(d, s, true).0 == d.(data := [] + s, tmp := [], offset := U32(d.offset + |s|))
  {
    assert s[..|s|] == s && s[|s|..] == [];
  }

  // ---- the encoder ----

  /** A chunk of data behind a size line. */
  function Sized(size: seq<byte>, data: seq<byte>): seq<byte>
  {
    size + [CR, LF] + data + [CR, LF]
  }

  /** What SendBodyData sends under chunked coding for one piece of data. */
  function Frame(data: seq<byte>): seq<byte>
  {
    Sized(PrintHex(|data|), data)
  }

  function Encode(pieces: seq<seq<byte>>): seq<byte>
  {
    if pieces == [] then Frame([]) else Frame(pieces[0]) + Encode(pieces[1..])
  }

  /** The same with any size lines, one for each piece and one for the end. */
  function EncodeSized(sizes: seq<seq<byte>>, pieces: seq<seq<byte>>): seq<byte>
    requires |sizes| == |pieces| + 1
  {
    if pieces == [] then Sized(sizes[0], []) else Sized(sizes[0], pieces[0]) + EncodeSized(sizes[1..], pieces[1..])
  }

  predicate IsBody(pieces: seq<seq<byte>>)
  {
    forall i :: 0 <= i < |pieces| ==> 0 < |pieces[i]| < 0x8000_0000
  }

  /** Hexadecimal digits for the number. */
  predicate Denotes(size: seq<byte>, n: nat)
  {
    size != [] && AllHex(size) && HexNumber(size) == n
  }

  predicate SizesFit(sizes: seq<seq<byte>>, pieces: seq<seq<byte>>)
    requires |sizes| == |pieces| + 1
  {
    Denotes(sizes[|pieces|], 0) && forall i :: 0 <= i < |pieces| ==> Denotes(sizes[i], |pieces[i]|)
  }

  function AfterSize(n: nat): Phase { if n == 0 then Trailer([], false) else Body(n, 0) }

  lemma SizeLineOf(size: seq<byte>, n: nat)
    requires Denotes(size, n) && n <= MAX_CHUNK
    ensures AfterSizeLine(DropCR(size + [CR])) == AfterSize(n) && LF !in size + [CR]
  {
    assert DropCR(size + [CR]) == size;
    HexRunPrefix(size, |size|);
    assert size[..|size|] == size;
  }

  lemma FrameSizeLine(size: seq<byte>, n: nat, rest: seq<byte>)
    requires Denotes(size, n) && n <= MAX_CHUNK
    ensures End(START, size + [CR, LF] + rest) == End(AfterSize(n), rest)
    ensures Payload(START, size + [CR, LF] + rest) == Payload(AfterSize(n), rest)
  {
    var line := size + [CR];
    assert size + [CR, LF] + rest == line + ([LF] + rest);
    SizeLineOf(size, n);
    LineReads(line, rest);
  }

  lemma LineReads(line: seq<byte>, rest: seq<byte>)
    requires LF !in line
    ensures End(START, line + ([LF] + rest)) == End(AfterSizeLine(DropCR(line)), rest)
    ensures Payload(START, line + ([LF] + rest)) == Payload(AfterSizeLine(DropCR(line)), rest)
  {
    EndSizeLine([], line);
    assert [] + line == line;
    EndAppend(START, line, [LF] + rest);
    EndCons(SizeLine(line), LF, rest);
  }

  lemma FrameDecodes(size: seq<byte>, data: seq<byte>, rest: seq<byte>)
    requires Denotes(size, |data|) && 0 < |data| < 0x8000_0000
    ensures End(START, Sized(size, data) + rest) == End(START, rest)
    ensures Payload(START, Sized(size, data) + rest) == data + Payload(START, rest)
  {
    var tail := [CR, LF] + rest;
    assert Sized(size, data) + rest == size + [CR, LF] + (data + tail);
    FrameSizeLine(size, |data|, data + tail);
    EndAppend(Body(|data|, 0), data, tail);
    EndBody(|data|, 0, data);
    EndAppend(ChunkEnd(false), [CR, LF], rest);
    EndTwo(ChunkEnd(false), CR, LF);
    assert [] + Payload(START, rest) == Payload(START, rest);
  }

  predicate ReadsWhole(s: seq<byte>, data: seq<byte>)
  {
    && Payload(START, s) == data && End(START, s) == Done(false)
    && s != [] && End(START, s[..|s| - 1]) == Trailer([CR], false)
  }

  lemma LastFrameReads(size: seq<byte>)
    requires Denotes(size, 0)
    ensures ReadsWhole(Sized(size, []), [])
  {
    var p, s := Trailer([], false), Sized(size, []);
    assert s == size + [CR, LF] + [CR, LF] && s[..|s| - 1] == size + [CR, LF] + [CR];
    FrameSizeLine(size, 0, [CR, LF]);
    EndTwo(p, CR, LF);
    FrameSizeLine(size, 0, [CR]);
    EndTrailer([], false, [CR]);
    assert [] + [CR] == [CR];
  }

  lemma AllButLast(a: seq<byte>, b: seq<byte>)
    requires b != []
    ensures (a + b)[..|a + b| - 1] == a + b[..|b| - 1]
  {}

  lemma NextFrameReads(size: seq<byte>, piece: seq<byte>, rest: seq<byte>, data: seq<byte>)
    requires Denotes(size, |piece|) && 0 < |piece| < 0x8000_0000 && ReadsWhole(rest, data)
    ensures ReadsWhole(Sized(size, piece) + rest, piece + data)
  {
    FrameDecodes(size, piece, rest);
    FrameDecodes(size, piece, rest[..|rest| - 1]);
    AllButLast(Sized(size, piece), rest);
  }

  /** Pieces behind size lines that denote their lengths are read as their concatenation, and end just with
      their last byte. */
  lemma {:induction false} SizedReads(sizes: seq<seq<byte>>, pieces: seq<seq<byte>>)
    requires IsBody(pieces) && |sizes| == |pieces| + 1 && SizesFit(sizes, pieces)
    ensures ReadsWhole(EncodeSized(sizes, pieces), Flatten(pieces))
    decreases |pieces|
  {
    if pieces == [] {
      LastFrameReads(sizes[0]);
    } else {
      SizesNext(sizes, pieces);
      SizedReads(sizes[1..], pieces[1..]);
      NextFrameReads(sizes[0], pieces[0], EncodeSized(sizes[1..], pieces[1..]), Flatten(pieces[1..]));
    }
  }

  lemma SizesNext(sizes: seq<seq<byte>>, pieces: seq<seq<byte>>)
    requires pieces != [] && |sizes| == |pieces| + 1 && SizesFit(sizes, pieces)
    ensures SizesFit(sizes[1..], pieces[1..]) && Denotes(sizes[0], |pieces[0]|)
  {
    forall i | 0 <= i < |pieces[1..]| ensures Denotes(sizes[1..][i], |pieces[1..][i]|) {
      assert Denotes(sizes[i + 1], |pieces[i + 1]|);
    }
  }

  lemma FrameIsShort(size: seq<byte>, data: seq<byte>)
    requires Denotes(size, |data|) && 0 < |data| < 0x8000_0000
    ensures ShortChunks(START, Sized(size, data)) && End(START, Sized(size, data)) == START
  {
    var line := size + [CR];
    SizeLineIsShort(size, |data|);
    ShortBody(|data|, 0, data);
    EndBody(|data|, 0, data);
    LineEndIsShort();
    ShortAppend(START, line + [LF], data);
    EndAppend(START, line + [LF], data);
    ShortAppend(START, line + [LF] + data, [CR, LF]);
    EndAppend(START, line + [LF] + data, [CR, LF]);
    assert Sized(size, data) == line + [LF] + data + [CR, LF];
  }

  lemma SizeLineIsShort(size: seq<byte>, n: nat)
    requires Denotes(size, n) && n < 0x8000_0000
    ensures End(START, size + [CR] + [LF]) == AfterSize(n) && ShortChunks(START, size + [CR] + [LF])
  {
    var line := size + [CR];
    FrameSizeLine(size, n, []);
    assert size + [CR, LF] + [] == line + [LF];
    SizeLineOf(size, n);
    ShortSizeLine([], line);
    EndSizeLine([], line);
    EndAppend(START, line, [LF]);
    OneIsShort(End(START, line), LF);
    ShortAppend(START, line, [LF]);
  }

  lemma OneIsShort(p: Phase, b: byte)
    requires !p.Body? && (Step(p, b).Body? ==> Step(p, b).left + Step(p, b).read <= 0x8000_0000)
    ensures ShortChunks(p, [b])
  {
    assert [b][1..] == [] && ShortChunks(Step(p, b), []);
  }

  lemma LineEndIsShort()
    ensures ShortChunks(ChunkEnd(false), [CR, LF]) && End(ChunkEnd(false), [CR, LF]) == START
  {
    EndTwo(ChunkEnd(false), CR, LF);
    OneIsShort(ChunkEnd(true), LF);
    assert [CR, LF][1..] == [LF] && Step(ChunkEnd(false), CR) == ChunkEnd(true);
  }

  lemma LastFrameIsShort(size: seq<byte>)
    requires Denotes(size, 0)
    ensures ShortChunks(START, Sized(size, []))
  {
    var p := Trailer([], false);
    SizeLineIsShort(size, 0);
    OneIsShort(Step(p, CR), LF);
    assert [CR, LF][1..] == [LF];
    assert ShortChunks(p, [CR, LF]);
    ShortAppend(START, size + [CR] + [LF], [CR, LF]);
    assert Sized(size, []) == size + [CR] + [LF] + [CR, LF];
  }

  lemma {:induction false} EncodeIsShort(sizes: seq<seq<byte>>, pieces: seq<seq<byte>>)
    requires IsBody(pieces) && |sizes| == |pieces| + 1 && SizesFit(sizes, pieces)
    ensures ShortChunks(START, EncodeSized(sizes, pieces))
    decreases |pieces|
  {
    if pieces == [] {
      LastFrameIsShort(sizes[0]);
    } else {
      SizesNext(sizes, pieces);
      EncodeIsShort(sizes[1..], pieces[1..]);
      FrameIsShort(sizes[0], pieces[0]);
      ShortAppend(START, Sized(sizes[0], pieces[0]), EncodeSized(sizes[1..], pieces[1..]));
    }
  }

  /** Any chunks whose size lines denote their lengths, in digits of either case and with leading zeros or
      not, decode under any cut to the bytes in them, and the decoder is done in the call that receives the
      last byte and not before. */
  lemma SizedRoundTrip(d: State, sizes: seq<seq<byte>>, pieces: seq<seq<byte>>, frags: seq<seq<byte>>)
    requires Fresh(d) && IsBody(pieces) && |sizes| == |pieces| + 1 && SizesFit(sizes, pieces) && IsCut(frags)
    requires Flatten(frags) == EncodeSized(sizes, pieces)
    ensures Feed(d, frags) == Fed(Flatten(pieces), true, |frags|)
  {
    SizedReads(sizes, pieces);
    EncodeIsShort(sizes, pieces);
    WholeDecodes(d, EncodeSized(sizes, pieces), Flatten(pieces), frags);
  }

  lemma WholeDecodes(d: State, s: seq<byte>, data: seq<byte>, frags: seq<seq<byte>>)
    requires Fresh(d) && ReadsWhole(s, data) && ShortChunks(START, s) && IsCut(frags) && Flatten(frags) == s
    ensures Feed(d, frags) == Fed(data, true, |frags|)
  {
    FreshRepresents(d);
    ShortIsUnwrapped(START, frags);
    FragmentationIndependence(d, START, frags);
    ClosesWithLast(START, frags, Feed(d, frags).used);
  }

  /** The size lines that SendBodyData writes. */
  function PrintedSizes(pieces: seq<seq<byte>>): (sizes: seq<seq<byte>>)
    ensures |sizes| == |pieces| + 1
  {
    if pieces == [] then [PrintHex(0)] else [PrintHex(|pieces[0]|)] + PrintedSizes(pieces[1..])
  }

  lemma {:induction false} PrintedSizesFit(pieces: seq<seq<byte>>)
    ensures SizesFit(PrintedSizes(pieces), pieces) && EncodeSized(PrintedSizes(pieces), pieces) == Encode(pieces)
    decreases |pieces|
  {
    if pieces != [] {
      var sizes := PrintedSizes(pieces);
      PrintedSizesFit(pieces[1..]);
      assert sizes[1..] == PrintedSizes(pieces[1..]);
      forall i | 0 <= i < |pieces| ensures Denotes(sizes[i], |pieces[i]|) {
        if i > 0 {
          assert Denotes(sizes[1..][i - 1], |pieces[1..][i - 1]|);
        }
      }
    }
  }

  /** The encoded pieces are read as their concatenation, and end just with their last byte. */
  lemma EncodeReads(pieces: seq<seq<byte>>)
    requires IsBody(pieces)
    ensures ReadsWhole(Encode(pieces), Flatten(pieces))
  {
    PrintedSizesFit(pieces);
    SizedReads(PrintedSizes(pieces), pieces);
  }

  /** Whatever SendBodyData emitted, re-cut in any way, decodes to the bytes it was given,
      and the decoder is done in the call that receives the last byte and not before. */
  lemma RoundTrip(d: State, pieces: seq<seq<byte>>, frags: seq<seq<byte>>)
    requires Fresh(d) && IsBody(pieces) && IsCut(frags)
    requires Flatten(frags) == Encode(pieces)
    ensures Feed(d, frags) == Fed(Flatten(pieces), true, |frags|)
  {
    PrintedSizesFit(pieces);
    SizedRoundTrip(d, PrintedSizes(pieces), pieces, frags);
  }

  /** What "%x" prints, but for the case of the digits. */
  predicate PrintedSize(size: seq<byte>, n: nat)
  {
    Upper(size) == Upper(PrintHex(n))
  }

  lemma PrintedDenotes(size: seq<byte>, n: nat)
    requires PrintedSize(size, n)
    ensures Denotes(size, n)
  {
    CaseIgnored(PrintHex(n), size);
    assert |size| == |Upper(size)| == |PrintHex(n)|;
  }

  /** Size lines in digits of either case denote the same lengths. */
  lemma EitherCase(sizes: seq<seq<byte>>, pieces: seq<seq<byte>>)
    requires |sizes| == |pieces| + 1 && PrintedSize(sizes[|pieces|], 0)
    requires forall i :: 0 <= i < |pieces| ==> PrintedSize(sizes[i], |pieces[i]|)
    ensures SizesFit(sizes, pieces)
  {
    PrintedDenotes(sizes[|pieces|], 0);
    forall i | 0 <= i < |pieces| ensures Denotes(sizes[i], |pieces[i]|) {
      PrintedDenotes(sizes[i], |pieces[i]|);
    }
  }

  lemma ClosesWithLast(p: Phase, frags: seq<seq<byte>>, k: nat)
    requires IsCut(frags) && ClosesIn(p, frags, k)
    requires var s := Flatten(frags); s != [] && !Closed(End(p, s[..|s| - 1]))
    ensures k == |frags|
  {
    if k < |frags| {
      NotDoneBefore(p, frags, k);
    }
  }

  /** When the last byte of a stream is needed to close the transfer, no earlier fragment closes it. */
  lemma {:induction false} NotDoneBefore(p: Phase, frags: seq<seq<byte>>, k: nat)
    requires IsCut(frags) && k < |frags|
    requires var s := Flatten(frags); s != [] && !Closed(End(p, s[..|s| - 1]))
    ensures !Closed(End(p, Flatten(frags[..k])))
  {
    var a, b := Flatten(frags[..k]), Flatten(frags[k..]);
    assert frags == frags[..k] + frags[k..];
    FlattenAppend(frags[..k], frags[k..]);
    assert b == frags[k] + Flatten(frags[k..][1..]);
    assert (a + b)[..|a + b| - 1] == a + b[..|b| - 1];
    EndAppend(p, a, b[..|b| - 1]);
    if Closed(End(p, a)) {
      ClosedForever(End(p, a), b[..|b| - 1]);
    }
  }
}
