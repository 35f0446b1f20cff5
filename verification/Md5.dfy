/** MD5Init, MD5Update, MD5Final and CalcMD5, on 32-bit words. */
module MD5Digest {
  import opened Bytes
  import opened MD5Words
  import MD5Laws
  import opened MD5Spec
  import opened MD5Transforming
  import opened MD5Stream

  /** The compression of one block of 64 bytes. */
  function BlockWith(ops: Arithmetic<Word>, r: Digest, b: seq<byte>): Digest
  {
    if |b| == 64 then Compress(ops, r, BlockWords(b)) else r
  }

  function Block(ops: Arithmetic<Word>): Compression
  {
    (r, b) => BlockWith(ops, r, b)
  }

  /** A buffer of 64 bytes as 16 words, low-order byte first. */
  method DecodeWords(buffer: array<byte>, count: nat) returns (x: seq<Word>)
    requires buffer.Length == 64 && count <= 16
    ensures x == Words(buffer[..], count)
  {
    x := [];
    for i := 0 to count
      invariant x == Words(buffer[..], i)
    {
      var b0, b1, b2, b3 := buffer[4 * i], buffer[4 * i + 1], buffer[4 * i + 2], buffer[4 * i + 3];
      assert buffer[..][4 * i..4 * i + 4] == [b0, b1, b2, b3];
      x := x + [(Cast(b3) << 24) | (Cast(b2) << 16) | (Cast(b1) << 8) | Cast(b0)];
    }
  }

  class MD5_CTX {
    var buf: Digest
    var i0: u32
    var i1: u32
    const buffer: array<byte>      // the field `in`
    const ops: Arithmetic<Word>     // the arithmetic of UINT4
    ghost const compression: Compression
    ghost var Message: seq<byte>   // all that was hashed so far

    /** The compression is that of a block in this arithmetic. */
    ghost predicate Compresses()
    {
      forall r, b {:trigger BlockWith(ops, r, b)} :: compression(r, b) == BlockWith(ops, r, b)
    }

    /** The context is the one of the message, however the message was cut. */
    ghost predicate Valid()
      reads this, buffer
    {
      && Compresses() && buffer.Length == 64
      && Progress(compression, Message, |Message| / 64, buf, buffer[..|Message| % 64])
      && i0 == CountLow(Message) && i1 == CountHigh(Message)
    }

    /** MD5Init */
    constructor (ops: Arithmetic<Word>)
      ensures Valid() && Message == [] && fresh(buffer) && compression == Block(ops)
    {
      this.ops, compression := ops, Block(ops);
      buf, i0, i1, Message := IV, 0, 0, [];
      buffer := new byte[64];
      new;
      CountEmpty();
      ProgressEmpty(compression);
      assert buffer[..|Message| % 64] == [] && |Message| / 64 == 0;
    }

    method MD5Update(data: seq<byte>)
      requires Valid() && |data| < 0x1_0000_0000
      modifies this, buffer
      ensures Valid() && Message == old(Message) + data
    {
      Position(Message);
      AddCountCounts(Message, data);
      var mdi := i0 / 8 % 64;
      UpdateCount(|data|);
      Feed(data, mdi, |Message| / 64);
    }

    /** Update the number of bits. */
    method UpdateCount(len: u32)
      modifies `i0, `i1
      ensures (i0, i1) == AddCount(old(i0), old(i1), len)
    {
      var shifted := (len * 8) % 0x1_0000_0000;
      CarryIsAdded(i1, len / 0x2000_0000);
      var low := (i0 + shifted) % 0x1_0000_0000;
      var high := if low < i0 then (i1 + 1) % 0x1_0000_0000 else i1;
      i0, i1 := low, (high + len / 0x2000_0000) % 0x1_0000_0000;
    }

    /** The loop of MD5Update; mdi is the position in the buffer. */
    method Feed(data: seq<byte>, start: nat, ghost blocks: nat)
      requires Compresses() && buffer.Length == 64 && start < 64
      requires Progress(compression, Message, blocks, buf, buffer[..start])
      modifies `buf, `Message, buffer
      ensures Message == old(Message) + data
      ensures Progress(compression, Message, |Message| / 64, buf, buffer[..|Message| % 64])
    {
      var mdi := start;
      ghost var n: nat := blocks;
      for p := 0 to |data|
        invariant 0 <= mdi < 64 && Message == old(Message) + data[..p]
        invariant Progress(compression, Message, n, buf, buffer[..mdi])
      {
        NextByte(old(Message), data, p);
        mdi, n := PutByte(data[p], mdi, n);
      }
      assert data[..|data|] == data;
      Split64(|Message|, n, mdi);
    }

    /** Add a new character to the buffer. */
    method Store(b: byte, mdi: nat, ghost n: nat)
      requires buffer.Length == 64 && mdi < 64 && Progress(compression, Message, n, buf, buffer[..mdi])
      modifies `Message, buffer
      ensures Message == old(Message) + [b] && Progress(compression, Message, n, buf, buffer[..mdi + 1])
    {
      ghost var pending := buffer[..mdi];
      ProgressByte(compression, Message, n, buf, pending, b);
      Message := Message + [b];
      buffer[mdi] := b;
      assert buffer[..mdi] == pending;
      assert buffer[..mdi + 1] == pending + [b];
    }

    /** Add a new character to the buffer, transform if necessary. */
    method PutByte(b: byte, mdi: nat, ghost n: nat) returns (mdi': nat, ghost n': nat)
      requires Compresses() && buffer.Length == 64 && mdi < 64
      requires Progress(compression, Message, n, buf, buffer[..mdi])
      modifies `buf, `Message, buffer
      ensures Message == old(Message) + [b]
      ensures mdi' < 64 && Progress(compression, Message, n', buf, buffer[..mdi'])
    {
      Store(b, mdi, n);
      mdi', n' := mdi + 1, n;
      if mdi' == 64 {
        Transform(n);
        n', mdi' := n + 1, 0;
      }
    }

    /** The buffer is full. */
    method Transform(ghost n: nat)
      requires Compresses() && buffer.Length == 64 && Progress(compression, Message, n, buf, buffer[..64])
      modifies `buf
      ensures Progress(compression, Message, n + 1, buf, [])
    {
      ProgressBlock(compression, Message, n, buf, buffer[..64]);
      TransformBuffer();
    }

    method TransformBuffer()
      requires buffer.Length == 64
      modifies `buf
      ensures buf == BlockWith(ops, old(buf), buffer[..64])
    {
      var x := DecodeWords(buffer, 16);
      assert buffer[..] == buffer[..64];
      assert x == BlockWords(buffer[..]);
      buf := MD5Transform(ops, buf, x);
    }

    /** Pad out to 56 mod 64. */
    method PadOut()
      requires Valid()
      modifies this, buffer
      ensures Valid() && Message == old(Message) + Padding(PadLength(|old(Message)|))
    {
      Position(Message);
      var mdi := i0 / 8 % 64;
      var padLen := if mdi < 56 then 56 - mdi else 120 - mdi;
      MD5Update(Padding(padLen));
    }

    /** Pad, append the length, and hash the last block. */
    method MD5Final() returns (digest: seq<byte>)
      requires Valid()
      modifies this, buffer
      ensures digest == MD5(compression, old(Message))
    {
      ghost var msg := Message;
      var in14, in15 := i0, i1;
      PadOut();
      assert |Message| == |msg| + PadLength(|msg|);
      ghost var n := |Message| / 64;
      assert |Message| % 64 == 56;
      assert buffer[..][..56] == buffer[..56];
      var x := DecodeWords(buffer, 14);
      LastBlock(compression, ops, msg, n, buf, buffer[..], x);
      buf := MD5Transform(ops, buf, x + [Cast(in14), Cast(in15)]);
      digest := BytesOf(buf.a) + BytesOf(buf.b) + BytesOf(buf.c) + BytesOf(buf.d);
    }
  }

  /** The words hashed last are the last block of the padded message. */
  lemma LastBlock(f: Compression, ops: Arithmetic<Word>, msg: seq<byte>, n: nat, buf: Digest, buffer: seq<byte>,
                  x: seq<Word>)
    requires forall r, b {:trigger BlockWith(ops, r, b)} :: f(r, b) == BlockWith(ops, r, b)
    requires |buffer| == 64 && x == Words(buffer, 14)
    requires Progress(f, msg + Padding(PadLength(|msg|)), n, buf, buffer[..56])
    ensures Compress(ops, buf, x + [Cast(CountLow(msg)), Cast(CountHigh(msg))])
         == Absorb(f, Pad(msg), |Pad(msg)| / 64)
  {
    LastAbsorbed(f, msg, n, buf, buffer[..56]);
    WordsOfLastBlock(buffer, x, CountLow(msg), CountHigh(msg));
    assert |buffer[..56] + (Bytes32(CountLow(msg)) + Bytes32(CountHigh(msg)))| == 64;
    assert f(buf, buffer[..56] + (Bytes32(CountLow(msg)) + Bytes32(CountHigh(msg))))
        == BlockWith(ops, buf, buffer[..56] + (Bytes32(CountLow(msg)) + Bytes32(CountHigh(msg))));
  }

  lemma WordsOfLastBlock(buffer: seq<byte>, x: seq<Word>, lo: u32, hi: u32)
    requires |buffer| == 64 && x == Words(buffer, 14)
    ensures BlockWords(buffer[..56] + (Bytes32(lo) + Bytes32(hi))) == x + [Cast(lo), Cast(hi)]
  {
    LastWords(buffer, x, Bytes32(lo), Bytes32(hi));
    MD5Laws.CastOfBytes(lo);
    MD5Laws.CastOfBytes(hi);
  }

  lemma LastWords(buffer: seq<byte>, x: seq<Word>, a: seq<byte>, b: seq<byte>)
    requires |buffer| == 64 && x == Words(buffer, 14) && |a| == |b| == 4
    ensures BlockWords(buffer[..56] + (a + b)) == x + [WordOf(a), WordOf(b)]
  {
    var block := buffer[..56] + (a + b);
    assert block[56..60] == a && block[60..64] == b;
    WordsPrefix(buffer[..56], buffer, 14);
    WordsPrefix(buffer[..56], block, 14);
    LastTwo(block, 14);
  }

  lemma LastTwo(b: seq<byte>, n: nat)
    requires |b| == 4 * n + 8
    ensures Words(b, n + 2) == Words(b, n) + [WordOf(b[4 * n..4 * n + 4]), WordOf(b[4 * n + 4..4 * n + 8])]
  {
    assert Words(b, n + 1) == Words(b, n) + [WordOf(b[4 * n..4 * n + 4])];
  }

  method CalcMD5(data: seq<byte>) returns (dest: seq<byte>)
    requires |data| < 0x1_0000_0000
    ensures dest == MD5(Block(UINT4), data)
  {
    var ctx := new MD5_CTX(UINT4);
    ctx.MD5Update(data);
    assert [] + data == data;
    dest := ctx.MD5Final();
  }

  /** Any fragmentation of a message over MD5Update calls gives the digest of the whole. */
  method DigestFragments(frags: seq<seq<byte>>) returns (digest: seq<byte>)
    requires forall i :: 0 <= i < |frags| ==> |frags[i]| < 0x1_0000_0000
    ensures digest == MD5(Block(UINT4), Flatten(frags))
  {
    var ctx := new MD5_CTX(UINT4);
    for i := 0 to |frags|
      invariant ctx.Valid() && ctx.compression == Block(UINT4) && fresh(ctx) && fresh(ctx.buffer)
      invariant ctx.Message + Flatten(frags[i..]) == Flatten(frags)
    {
      assert frags[i..][0] == frags[i] && frags[i..][1..] == frags[i + 1..];
      Assoc(ctx.Message, frags[i], Flatten(frags[i + 1..]));
      ctx.MD5Update(frags[i]);
    }
    assert ctx.Message + [] == ctx.Message;
    digest := ctx.MD5Final();
  }
}
