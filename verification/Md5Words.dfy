/** The words of MD5: the macros of md5.c, and the bytes of a word. */
module MD5Words {
  import opened Bytes

  type Word = bv32        // UINT4

  function Sum(x: Word, y: Word): Word { x + y }

  function RotateLeft(x: Word, n: bv6): Word
  {
    if n <= 32 then (x << n) | (x >> (32 - n)) else x
  }

  function F(x: Word, y: Word, z: Word): Word { (x & y) | (!x & z) }

  function G(x: Word, y: Word, z: Word): Word { (x & z) | (y & !z) }

  function H(x: Word, y: Word, z: Word): Word { x ^ y ^ z }

  function I(x: Word, y: Word, z: Word): Word { y ^ (x | !z) }

  // ---- words and numbers ----

  function Half(w: Word): Word { w >> 1 }

  function Low(w: Word): (b: nat)
    ensures b < 2
  {
    if w & 1 == 1 then 1 else 0
  }

  function Twice(t: Word, e: Word): Word { 2 * t + e }

  /** The number a word stands for. */
  function Value(w: Word): nat
    decreases w
  {
    if w == 0 then 0 else 2 * Value(Half(w)) + Low(w)
  }

  /** The cast of a number to UINT4. */
  function Cast(n: nat): Word
  {
    if n == 0 then 0 else (Cast(n / 2) << 1) | if n % 2 == 1 then 1 else 0
  }

  // ---- words and bytes ----

  function Join(b0: Word, b1: Word, b2: Word, b3: Word): Word
  {
    (b3 << 24) | (b2 << 16) | (b1 << 8) | b0
  }

  /** Four bytes as a word, the low-order byte first. */
  function WordOf(b: seq<byte>): Word
    requires |b| == 4
  {
    Join(Cast(b[0]), Cast(b[1]), Cast(b[2]), Cast(b[3]))
  }

  lemma SomeBit(w: Word)
    requires Half(w) == 0 && Low(w) == 0
    ensures w == 0
  {}

  lemma {:induction false} NotZero(w: Word)
    ensures Value(w) == 0 ==> w == 0
    decreases w
  {
    if w != 0 {
      NotZero(Half(w));
      if Value(w) == 0 {
        SomeBit(w);
      }
    }
  }

  lemma MaskHalves(w: Word, m: Word)
    ensures Half(w & m) == Half(w) & Half(m) && Low(w & m) <= Low(m)
  {}

  lemma {:induction false} Masked(w: Word, m: Word)
    ensures Value(w & m) <= Value(m)
    decreases Value(m)
  {
    MaskHalves(w, m);
    if m == 0 {
      assert w & m == 0;
    } else {
      NotZero(m);
      Masked(Half(w), Half(m));
    }
  }

  function ByteOf(w: Word): byte
  {
    Masked(w, 0xFF);
    assert Value(0xFF) == 255;
    Value(w & 0xFF)
  }

  /** The bytes of a word, the low-order byte first. */
  function BytesOf(w: Word): (s: seq<byte>)
    ensures |s| == 4
  {
    [ByteOf(w), ByteOf(w >> 8), ByteOf(w >> 16), ByteOf(w >> 24)]
  }
}
