/** The MD5 compression function of section 3.4 of RFC 1321. The order of its 64 steps is
    kept apart from the word arithmetic they use. */
module MD5Spec {
  import opened MD5Words

  /** Addition, rotation, the four round functions, and the cast of a constant. */
  datatype Arithmetic<!W> = Arithmetic(add: (W, W) -> W, rotate: (W, bv6) -> W,
                                      f: (W, W, W) -> W, g: (W, W, W) -> W, h: (W, W, W) -> W, i: (W, W, W) -> W,
                                      constant: Word -> W)

  /** The arithmetic of UINT4. */
  const UINT4: Arithmetic<Word> := Arithmetic(Sum, RotateLeft, F, G, H, I, (ac: Word) => ac)

  datatype Regs<W> = Regs(a: W, b: W, c: W, d: W)

  /** The table T of section 3.4, for step i counted from 0. */
  function T(i: nat): Word
    requires i < 64
  {
    var row := Row(i / 4);
    if i % 4 == 0 then row.0 else if i % 4 == 1 then row.1 else if i % 4 == 2 then row.2 else row.3
  }

  /** Four constants of the table. */
  function Row(q: nat): (Word, Word, Word, Word)
    requires q < 16
  {
    match q
    case 0 => (0xd76aa478, 0xe8c7b756, 0x242070db, 0xc1bdceee)
    case 1 => (0xf57c0faf, 0x4787c62a, 0xa8304613, 0xfd469501)
    case 2 => (0x698098d8, 0x8b44f7af, 0xffff5bb1, 0x895cd7be)
    case 3 => (0x6b901122, 0xfd987193, 0xa679438e, 0x49b40821)
    case 4 => (0xf61e2562, 0xc040b340, 0x265e5a51, 0xe9b6c7aa)
    case 5 => (0xd62f105d, 0x02441453, 0xd8a1e681, 0xe7d3fbc8)
    case 6 => (0x21e1cde6, 0xc33707d6, 0xf4d50d87, 0x455a14ed)
    case 7 => (0xa9e3e905, 0xfcefa3f8, 0x676f02d9, 0x8d2a4c8a)
    case 8 => (0xfffa3942, 0x8771f681, 0x6d9d6122, 0xfde5380c)
    case 9 => (0xa4beea44, 0x4bdecfa9, 0xf6bb4b60, 0xbebfbc70)
    case 10 => (0x289b7ec6, 0xeaa127fa, 0xd4ef3085, 0x04881d05)
    case 11 => (0xd9d4d039, 0xe6db99e5, 0x1fa27cf8, 0xc4ac5665)
    case 12 => (0xf4292244, 0x432aff97, 0xab9423a7, 0xfc93a039)
    case 13 => (0x655b59c3, 0x8f0ccc92, 0xffeff47d, 0x85845dd1)
    case 14 => (0x6fa87e4f, 0xfe2ce6e0, 0xa3014314, 0x4e0811a1)
    case _ => (0xf7537e82, 0xbd3af235, 0x2ad7d2bb, 0xeb86d391)
  }

  function RoundFunction<W>(ops: Arithmetic<W>, i: nat, x: W, y: W, z: W): W
  {
    if i < 16 then ops.f(x, y, z) else if i < 32 then ops.g(x, y, z)
    else if i < 48 then ops.h(x, y, z) else ops.i(x, y, z)
  }

  /** Which word of the block step i takes. */
  function WordIndex(i: nat): (k: nat)
    ensures k < 16
  {
    if i < 16 then i % 16 else if i < 32 then (5 * i + 1) % 16
    else if i < 48 then (3 * i + 5) % 16 else (7 * i) % 16
  }

  /** By how much step i rotates. */
  function Shift(i: nat): (s: bv6)
    ensures 0 < s < 32
  {
    var j := i % 4;
    if i < 16 then (if j == 0 then 7 else if j == 1 then 12 else if j == 2 then 17 else 22)
    else if i < 32 then (if j == 0 then 5 else if j == 1 then 9 else if j == 2 then 14 else 20)
    else if i < 48 then (if j == 0 then 4 else if j == 1 then 11 else if j == 2 then 16 else 23)
    else (if j == 0 then 6 else if j == 1 then 10 else if j == 2 then 15 else 21)
  }

  /** Step i: a new value for a, after which the registers change roles. */
  function Step<W>(ops: Arithmetic<W>, r: Regs<W>, x: seq<W>, i: nat): Regs<W>
    requires |x| == 16 && i < 64
  {
    var f := RoundFunction(ops, i, r.b, r.c, r.d);
    var sum := ops.add(r.a, ops.add(ops.add(f, x[WordIndex(i)]), ops.constant(T(i))));
    Regs(r.d, ops.add(ops.rotate(sum, Shift(i)), r.b), r.b, r.c)
  }

  function Steps<W>(ops: Arithmetic<W>, r: Regs<W>, x: seq<W>, n: nat): Regs<W>
    requires |x| == 16 && n <= 64
  {
    if n == 0 then r else Step(ops, Steps(ops, r, x, n - 1), x, n - 1)
  }

  /** The whole of one block: the registers are added to what the steps made of them. */
  function Compress<W>(ops: Arithmetic<W>, r: Regs<W>, x: seq<W>): Regs<W>
    requires |x| == 16
  {
    var s := Steps(ops, r, x, 4 * |x|);
    Regs(ops.add(r.a, s.a), ops.add(r.b, s.b), ops.add(r.c, s.c), ops.add(r.d, s.d))
  }
}
