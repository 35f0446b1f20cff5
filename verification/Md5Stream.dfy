/** Messages of sections 3.1 to 3.3 of RFC 1321: padding, length, and blocks. The compression
    function is a parameter. */
module MD5Stream {
  import opened Bytes
  import opened MD5Words
  import opened MD5Spec

  type Digest = Regs<Word>
  type Compression = (Digest, seq<byte>) -> Digest

  const IV: Digest := Regs(0x67452301, 0xefcdab89, 0x98badcfe, 0x10325476)

  /** The registers after the first n blocks of a message. */
  function Absorb(f: Compression, msg: seq<byte>, n: nat): Digest
    requires 64 * n <= |msg|
  {
    if n == 0 then IV else f(Absorb(f, msg, n - 1), msg[64 * (n - 1)..64 * n])
  }

  function Zeros(n: nat): (s: seq<byte>)
    ensures |s| == n
  {
    seq(n, _ => 0)
  }

  /** The first n words of a block. */
  function Words(b: seq<byte>, n: nat): (x: seq<Word>)
    requires 4 * n <= |b|
    ensures |x| == n
  {
    if n == 0 then [] else Words(b, n - 1) + [WordOf(b[4 * n - 4..4 * n])]
  }

  function BlockWords(b: seq<byte>): (x: seq<Word>)
    requires |b| == 64
    ensures |x| == 16
  {
    Words(b, |b| / 4)
  }

  lemma {:induction false} WordsPrefix(a: seq<byte>, b: seq<byte>, n: nat)
    requires 4 * n <= |a| && a <= b
    ensures Words(a, n) == Words(b, n)
  {
    if n > 0 {
      WordsPrefix(a, b, n - 1);
      assert a[4 * n - 4..4 * n] == b[4 * n - 4..4 * n];
    }
  }

  // ---- the bit counter ----

  function BitCount(msg: seq<byte>): nat { 8 * |msg| % 0x1_0000_0000_0000_0000 }

  function CountLow(msg: seq<byte>): u32 { BitCount(msg) % 0x1_0000_0000 }
  function CountHigh(msg: seq<byte>): u32 { BitCount(msg) / 0x1_0000_0000 }

  /** The two-word addition with carry of MD5Update. */
  function AddCount(lo: u32, hi: u32, len: u32): (u32, u32)
  {
    var sum := (lo + (len * 8) % 0x1_0000_0000) % 0x1_0000_0000;
    var carry := if sum < lo then 1 else 0;
    (sum, (hi + carry + len / 0x2000_0000) % 0x1_0000_0000)
  }

  lemma NextByte(msg: seq<byte>, data: seq<byte>, p: nat)
    requires p < |data|
    ensures msg + data[..p] + [data[p]] == msg + data[..p + 1]
  {}

  lemma CarryIsAdded(x: u32, y: nat)
    ensures ((x + 1) % 0x1_0000_0000 + y) % 0x1_0000_0000 == (x + 1 + y) % 0x1_0000_0000
  {}

  lemma Mod32(x: int, q: int, r: int)
    requires x == 0x1_0000_0000 * q + r && 0 <= r < 0x1_0000_0000
    ensures x % 0x1_0000_0000 == r && x / 0x1_0000_0000 == q
  {}

  lemma Mod64(x: int, q: int, r: int)
    requires x == 0x1_0000_0000_0000_0000 * q + r && 0 <= r < 0x1_0000_0000_0000_0000
    ensures x % 0x1_0000_0000_0000_0000 == r
  {}

  lemma Split64(x: int, q: int, r: int)
    requires x == 64 * q + r && 0 <= r < 64
    ensures x % 64 == r && x / 64 == q
  {}

  lemma AddCountArithmetic(total: int, q: int, hi: int, lo: int, len: int) returns (q': int, hi': int, lo': int)
    requires total == 0x1_0000_0000_0000_0000 * q + 0x1_0000_0000 * hi + lo
    requires 0 <= lo < 0x1_0000_0000 && 0 <= hi < 0x1_0000_0000 && 0 <= len < 0x1_0000_0000
    ensures 0 <= lo' < 0x1_0000_0000 && 0 <= hi' < 0x1_0000_0000
    ensures AddCount(lo, hi, len) == (lo', hi')
    ensures total + 8 * len == 0x1_0000_0000_0000_0000 * q' + 0x1_0000_0000 * hi' + lo'
  {
    var h, rest := len / 0x2000_0000, len % 0x2000_0000;
    Mod32(len * 8, h, 8 * rest);
    var c := if lo + 8 * rest >= 0x1_0000_0000 then 1 else 0;
    lo' := lo + 8 * rest - 0x1_0000_0000 * c;
    Mod32(lo + 8 * rest, c, lo');
    var e := if hi + c + h >= 0x1_0000_0000 then 1 else 0;
    hi' := hi + c + h - 0x1_0000_0000 * e;
    Mod32(hi + c + h, e, hi');
    q' := q + e;
  }

  lemma CountSplit(msg: seq<byte>) returns (q: int)
    ensures 8 * |msg| == 0x1_0000_0000_0000_0000 * q + 0x1_0000_0000 * CountHigh(msg) + CountLow(msg)
  {
    q := 8 * |msg| / 0x1_0000_0000_0000_0000;
  }

  lemma CountIs(msg: seq<byte>, q: int, hi: int, lo: int)
    requires 8 * |msg| == 0x1_0000_0000_0000_0000 * q + 0x1_0000_0000 * hi + lo
    requires 0 <= lo < 0x1_0000_0000 && 0 <= hi < 0x1_0000_0000
    ensures CountLow(msg) == lo && CountHigh(msg) == hi
  {
    Mod64(8 * |msg|, q, 0x1_0000_0000 * hi + lo);
    Mod32(0x1_0000_0000 * hi + lo, hi, lo);
  }

  /** The counter of a message and the length of more data give the counter of both: the
      two words are 8 times the length modulo 2^64, with the carry right. */
  lemma AddCountCounts(msg: seq<byte>, data: seq<byte>)
    requires |data| < 0x1_0000_0000
    ensures AddCount(CountLow(msg), CountHigh(msg), |data|) == (CountLow(msg + data), CountHigh(msg + data))
  {
    var q := CountSplit(msg);
    var q', hi, lo := AddCountArithmetic(8 * |msg|, q, CountHigh(msg), CountLow(msg), |data|);
    assert 8 * |msg + data| == 8 * |msg| + 8 * |data|;
    CountIs(msg + data, q', hi, lo);
  }

  lemma CountEmpty()
    ensures CountLow([]) == 0 && CountHigh([]) == 0
  {}

  /** The low word tells where in the current block the message stands. */
  lemma Position(msg: seq<byte>)
    ensures CountLow(msg) / 8 % 64 == |msg| % 64
  {
    var q := CountSplit(msg);
    var k := 0x0080_0000_0000_0000 * q + 0x0080_0000 * CountHigh(msg);
    assert CountLow(msg) == 8 * (|msg| - 64 * k);
    PositionArithmetic(CountLow(msg), |msg|, k);
  }

  lemma PositionArithmetic(lo: int, n: int, k: int)
    requires lo == 8 * (n - 64 * k)
    ensures lo / 8 % 64 == n % 64
  {
    assert lo / 8 == n - 64 * k;
    assert n - 64 * k == 64 * (n / 64 - k) + n % 64;
  }

  // ---- padding ----

  function PadLength(n: nat): (p: nat)
    ensures 1 <= p <= 64 && (n + p) % 64 == 56
  {
    if n % 64 < 56 then 56 - n % 64 else 120 - n % 64
  }

  function Padding(n: nat): (s: seq<byte>)
    requires 1 <= n <= 64
    ensures |s| == n
  {
    [0x80] + Zeros(n - 1)
  }

  /** The padded message: a one bit, zeros up to 56 mod 64, and the length in bits. */
  function Pad(msg: seq<byte>): (s: seq<byte>)
    ensures |s| % 64 == 0
  {
    var n := |msg| + PadLength(|msg|);
    assert (n + 8) % 64 == 0;
    msg + Padding(PadLength(|msg|)) + (Bytes32(CountLow(msg)) + Bytes32(CountHigh(msg)))
  }

  function MD5(f: Compression, msg: seq<byte>): seq<byte>
  {
    var d := Absorb(f, Pad(msg), |Pad(msg)| / 64);
    BytesOf(d.a) + BytesOf(d.b) + BytesOf(d.c) + BytesOf(d.d)
  }

  lemma {:induction false} AbsorbPrefix(f: Compression, a: seq<byte>, b: seq<byte>, n: nat)
    requires 64 * n <= |a|
    ensures Absorb(f, a + b, n) == Absorb(f, a, n)
  {
    if n > 0 {
      AbsorbPrefix(f, a, b, n - 1);
      assert (a + b)[64 * (n - 1)..64 * n] == a[64 * (n - 1)..64 * n];
    }
  }

  /** n blocks of the message are in the registers and the rest of it waits in the buffer. */
  predicate Progress(f: Compression, msg: seq<byte>, n: nat, buf: Digest, pending: seq<byte>)
  {
    && |msg| == 64 * n + |pending| && |pending| <= 64
    && msg[64 * n..] == pending
    && buf == Absorb(f, msg, n)
  }

  lemma ProgressEmpty(f: Compression)
    ensures Progress(f, [], 0, IV, [])
  {}

  lemma ProgressByte(f: Compression, msg: seq<byte>, n: nat, buf: Digest, pending: seq<byte>, b: byte)
    requires Progress(f, msg, n, buf, pending) && |pending| < 64
    ensures Progress(f, msg + [b], n, buf, pending + [b])
  {
    AbsorbPrefix(f, msg, [b], n);
    assert (msg + [b])[64 * n..] == msg[64 * n..] + [b];
  }

  lemma ProgressBlock(f: Compression, msg: seq<byte>, n: nat, buf: Digest, pending: seq<byte>)
    requires Progress(f, msg, n, buf, pending) && |pending| == 64
    ensures Progress(f, msg, n + 1, f(buf, pending), [])
  {
    assert msg[64 * n..64 * (n + 1)] == pending;
  }

  /** The registers and the pending bytes depend on the message alone, not on how it came. */
  lemma ProgressDetermined(f: Compression, msg: seq<byte>, n: nat, buf: Digest, pending: seq<byte>,
                           n': nat, buf': Digest, pending': seq<byte>)
    requires Progress(f, msg, n, buf, pending) && |pending| < 64
    requires Progress(f, msg, n', buf', pending') && |pending'| < 64
    ensures n == n' && buf == buf' && pending == pending'
  {
    Split64(|msg|, n, |pending|);
    Split64(|msg|, n', |pending'|);
  }

  lemma LastOfPad(m: seq<byte>, length: seq<byte>, n: nat, pending: seq<byte>)
    requires |m| == 64 * n + |pending| && m[64 * n..] == pending && |pending| == 56 && |length| == 8
    ensures |m + length| == 64 * (n + 1) && (m + length)[64 * n..64 * (n + 1)] == pending + length
  {}

  /** What is absorbed last: what waited in the buffer, and the length. */
  lemma LastAbsorbed(f: Compression, msg: seq<byte>, n: nat, buf: Digest, pending: seq<byte>)
    requires |pending| == 56 && Progress(f, msg + Padding(PadLength(|msg|)), n, buf, pending)
    ensures Absorb(f, Pad(msg), |Pad(msg)| / 64) == f(buf, pending + (Bytes32(CountLow(msg)) + Bytes32(CountHigh(msg))))
  {
    var m, length := msg + Padding(PadLength(|msg|)), Bytes32(CountLow(msg)) + Bytes32(CountHigh(msg));
    LastOfPad(m, length, n, pending);
    AbsorbPrefix(f, m, length, n);
    Split64(|Pad(msg)|, n + 1, 0);
  }
}
