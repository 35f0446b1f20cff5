/** MD5Transform: the 64 steps written out, over any arithmetic. */
module MD5Transforming {
  import opened MD5Words
  import opened MD5Spec

  /** What FF, GG, HH and II have in common. */
  function Add<W>(ops: Arithmetic<W>, f: W, a: W, b: W, x: W, s: bv6, ac: Word): W
  {
    ops.add(ops.rotate(ops.add(a, ops.add(ops.add(f, x), ops.constant(ac))), s), b)
  }

  /** The words of the block and the constants of four steps in a row, from step n on. */
  predicate Four(n: nat, x: (nat, nat, nat, nat), ac: (Word, Word, Word, Word))
  {
    && n % 4 == 0 && n + 4 <= 64 && ac == Row(n / 4)
    && x == (WordIndex(n), WordIndex(n + 1), WordIndex(n + 2), WordIndex(n + 3))
  }

  lemma FourConstants(n: nat)
    requires n % 4 == 0 && n + 4 <= 64
    ensures (T(n), T(n + 1), T(n + 2), T(n + 3)) == Row(n / 4)
  {
    assert (n + 1) / 4 == (n + 2) / 4 == (n + 3) / 4 == n / 4;
  }

  lemma FourShifts(n: nat)
    requires n % 4 == 0 && n + 4 <= 64
    ensures (Shift(n), Shift(n + 1), Shift(n + 2), Shift(n + 3)) ==
      if n < 16 then (7, 12, 17, 22) else if n < 32 then (5, 9, 14, 20)
      else if n < 48 then (4, 11, 16, 23) else (6, 10, 15, 21)
  {}

  lemma OneStep<W>(ops: Arithmetic<W>, start: Regs<W>, x: seq<W>, n: nat, r: Regs<W>)
    requires |x| == 16 && n < 64 && r == Steps(ops, start, x, n)
    ensures Steps(ops, start, x, n + 1) ==
      Regs(r.d, Add(ops, RoundFunction(ops, n, r.b, r.c, r.d), r.a, r.b, x[WordIndex(n)], Shift(n), T(n)), r.b, r.c)
  {}

  /** Four times FF */
  method FF<W>(ops: Arithmetic<W>, r: Regs<W>, x: seq<W>, i: (nat, nat, nat, nat), ac: (Word, Word, Word, Word),
                ghost start: Regs<W>, ghost n: nat) returns (q: Regs<W>)
    requires |x| == 16 && Four(n, i, ac) && 0 <= n < 16 && r == Steps(ops, start, x, n)
    ensures q == Steps(ops, start, x, n + 4)
  {
    var a, b, c, d := r.a, r.b, r.c, r.d;
    FourConstants(n);
    FourShifts(n);
    OneStep(ops, start, x, n, r);
    a := Add(ops, ops.f(b, c, d), a, b, x[i.0], 7, ac.0);
    OneStep(ops, start, x, n + 1, Regs(d, a, b, c));
    d := Add(ops, ops.f(a, b, c), d, a, x[i.1], 12, ac.1);
    OneStep(ops, start, x, n + 2, Regs(c, d, a, b));
    c := Add(ops, ops.f(d, a, b), c, d, x[i.2], 17, ac.2);
    OneStep(ops, start, x, n + 3, Regs(b, c, d, a));
    b := Add(ops, ops.f(c, d, a), b, c, x[i.3], 22, ac.3);
    q := Regs(a, b, c, d);
  }

  /** Four times GG */
  method GG<W>(ops: Arithmetic<W>, r: Regs<W>, x: seq<W>, i: (nat, nat, nat, nat), ac: (Word, Word, Word, Word),
                ghost start: Regs<W>, ghost n: nat) returns (q: Regs<W>)
    requires |x| == 16 && Four(n, i, ac) && 16 <= n < 32 && r == Steps(ops, start, x, n)
    ensures q == Steps(ops, start, x, n + 4)
  {
    var a, b, c, d := r.a, r.b, r.c, r.d;
    FourConstants(n);
    FourShifts(n);
    OneStep(ops, start, x, n, r);
    a := Add(ops, ops.g(b, c, d), a, b, x[i.0], 5, ac.0);
    OneStep(ops, start, x, n + 1, Regs(d, a, b, c));
    d := Add(ops, ops.g(a, b, c), d, a, x[i.1], 9, ac.1);
    OneStep(ops, start, x, n + 2, Regs(c, d, a, b));
    c := Add(ops, ops.g(d, a, b), c, d, x[i.2], 14, ac.2);
    OneStep(ops, start, x, n + 3, Regs(b, c, d, a));
    b := Add(ops, ops.g(c, d, a), b, c, x[i.3], 20, ac.3);
    q := Regs(a, b, c, d);
  }

  /** Four times HH */
  method HH<W>(ops: Arithmetic<W>, r: Regs<W>, x: seq<W>, i: (nat, nat, nat, nat), ac: (Word, Word, Word, Word),
                ghost start: Regs<W>, ghost n: nat) returns (q: Regs<W>)
    requires |x| == 16 && Four(n, i, ac) && 32 <= n < 48 && r == Steps(ops, start, x, n)
    ensures q == Steps(ops, start, x, n + 4)
  {
    var a, b, c, d := r.a, r.b, r.c, r.d;
    FourConstants(n);
    FourShifts(n);
    OneStep(ops, start, x, n, r);
    a := Add(ops, ops.h(b, c, d), a, b, x[i.0], 4, ac.0);
    OneStep(ops, start, x, n + 1, Regs(d, a, b, c));
    d := Add(ops, ops.h(a, b, c), d, a, x[i.1], 11, ac.1);
    OneStep(ops, start, x, n + 2, Regs(c, d, a, b));
    c := Add(ops, ops.h(d, a, b), c, d, x[i.2], 16, ac.2);
    OneStep(ops, start, x, n + 3, Regs(b, c, d, a));
    b := Add(ops, ops.h(c, d, a), b, c, x[i.3], 23, ac.3);
    q := Regs(a, b, c, d);
  }

  /** Four times II */
  method II<W>(ops: Arithmetic<W>, r: Regs<W>, x: seq<W>, i: (nat, nat, nat, nat), ac: (Word, Word, Word, Word),
                ghost start: Regs<W>, ghost n: nat) returns (q: Regs<W>)
    requires |x| == 16 && Four(n, i, ac) && 48 <= n < 64 && r == Steps(ops, start, x, n)
    ensures q == Steps(ops, start, x, n + 4)
  {
    var a, b, c, d := r.a, r.b, r.c, r.d;
    FourConstants(n);
    FourShifts(n);
    OneStep(ops, start, x, n, r);
    a := Add(ops, ops.i(b, c, d), a, b, x[i.0], 6, ac.0);
    OneStep(ops, start, x, n + 1, Regs(d, a, b, c));
    d := Add(ops, ops.i(a, b, c), d, a, x[i.1], 10, ac.1);
    OneStep(ops, start, x, n + 2, Regs(c, d, a, b));
    c := Add(ops, ops.i(d, a, b), c, d, x[i.2], 15, ac.2);
    OneStep(ops, start, x, n + 3, Regs(b, c, d, a));
    b := Add(ops, ops.i(c, d, a), b, c, x[i.3], 21, ac.3);
    q := Regs(a, b, c, d);
  }

  // ---- the words and constants of each round ----

  lemma Table1(n: nat)
    requires n == 0
    ensures Four(n, (0, 1, 2, 3), (0xd76aa478, 0xe8c7b756, 0x242070db, 0xc1bdceee))
    ensures Four(n + 4, (4, 5, 6, 7), (0xf57c0faf, 0x4787c62a, 0xa8304613, 0xfd469501))
    ensures Four(n + 8, (8, 9, 10, 11), (0x698098d8, 0x8b44f7af, 0xffff5bb1, 0x895cd7be))
    ensures Four(n + 12, (12, 13, 14, 15), (0x6b901122, 0xfd987193, 0xa679438e, 0x49b40821))
  {}

  lemma Table2(n: nat)
    requires n == 16
    ensures Four(n, (1, 6, 11, 0), (0xf61e2562, 0xc040b340, 0x265e5a51, 0xe9b6c7aa))
    ensures Four(n + 4, (5, 10, 15, 4), (0xd62f105d, 0x02441453, 0xd8a1e681, 0xe7d3fbc8))
    ensures Four(n + 8, (9, 14, 3, 8), (0x21e1cde6, 0xc33707d6, 0xf4d50d87, 0x455a14ed))
    ensures Four(n + 12, (13, 2, 7, 12), (0xa9e3e905, 0xfcefa3f8, 0x676f02d9, 0x8d2a4c8a))
  {}

  lemma Table3(n: nat)
    requires n == 32
    ensures Four(n, (5, 8, 11, 14), (0xfffa3942, 0x8771f681, 0x6d9d6122, 0xfde5380c))
    ensures Four(n + 4, (1, 4, 7, 10), (0xa4beea44, 0x4bdecfa9, 0xf6bb4b60, 0xbebfbc70))
    ensures Four(n + 8, (13, 0, 3, 6), (0x289b7ec6, 0xeaa127fa, 0xd4ef3085, 0x04881d05))
    ensures Four(n + 12, (9, 12, 15, 2), (0xd9d4d039, 0xe6db99e5, 0x1fa27cf8, 0xc4ac5665))
  {}

  lemma Table4(n: nat)
    requires n == 48
    ensures Four(n, (0, 7, 14, 5), (0xf4292244, 0x432aff97, 0xab9423a7, 0xfc93a039))
    ensures Four(n + 4, (12, 3, 10, 1), (0x655b59c3, 0x8f0ccc92, 0xffeff47d, 0x85845dd1))
    ensures Four(n + 8, (8, 15, 6, 13), (0x6fa87e4f, 0xfe2ce6e0, 0xa3014314, 0x4e0811a1))
    ensures Four(n + 12, (4, 11, 2, 9), (0xf7537e82, 0xbd3af235, 0x2ad7d2bb, 0xeb86d391))
  {}

  // ---- the rounds ----

  method Round1<W>(ops: Arithmetic<W>, r: Regs<W>, x: seq<W>, ghost start: Regs<W>, ghost n: nat) returns (q: Regs<W>)
    requires |x| == 16 && n + 12 < 16 && r == Steps(ops, start, x, n)
    requires Four(n, (0, 1, 2, 3), (0xd76aa478, 0xe8c7b756, 0x242070db, 0xc1bdceee))
    requires Four(n + 4, (4, 5, 6, 7), (0xf57c0faf, 0x4787c62a, 0xa8304613, 0xfd469501))
    requires Four(n + 8, (8, 9, 10, 11), (0x698098d8, 0x8b44f7af, 0xffff5bb1, 0x895cd7be))
    requires Four(n + 12, (12, 13, 14, 15), (0x6b901122, 0xfd987193, 0xa679438e, 0x49b40821))
    ensures q == Steps(ops, start, x, n + 16)
  {
    q := FF(ops, r, x, (0, 1, 2, 3), (0xd76aa478, 0xe8c7b756, 0x242070db, 0xc1bdceee), start, n);
    q := FF(ops, q, x, (4, 5, 6, 7), (0xf57c0faf, 0x4787c62a, 0xa8304613, 0xfd469501), start, n + 4);
    q := FF(ops, q, x, (8, 9, 10, 11), (0x698098d8, 0x8b44f7af, 0xffff5bb1, 0x895cd7be), start, n + 8);
    q := FF(ops, q, x, (12, 13, 14, 15), (0x6b901122, 0xfd987193, 0xa679438e, 0x49b40821), start, n + 12);
  }

  method Round2<W>(ops: Arithmetic<W>, r: Regs<W>, x: seq<W>, ghost start: Regs<W>, ghost n: nat) returns (q: Regs<W>)
    requires |x| == 16 && 16 <= n && n + 16 <= 32 && r == Steps(ops, start, x, n)
    requires Four(n, (1, 6, 11, 0), (0xf61e2562, 0xc040b340, 0x265e5a51, 0xe9b6c7aa))
    requires Four(n + 4, (5, 10, 15, 4), (0xd62f105d, 0x02441453, 0xd8a1e681, 0xe7d3fbc8))
    requires Four(n + 8, (9, 14, 3, 8), (0x21e1cde6, 0xc33707d6, 0xf4d50d87, 0x455a14ed))
    requires Four(n + 12, (13, 2, 7, 12), (0xa9e3e905, 0xfcefa3f8, 0x676f02d9, 0x8d2a4c8a))
    ensures q == Steps(ops, start, x, n + 16)
  {
    q := GG(ops, r, x, (1, 6, 11, 0), (0xf61e2562, 0xc040b340, 0x265e5a51, 0xe9b6c7aa), start, n);
    q := GG(ops, q, x, (5, 10, 15, 4), (0xd62f105d, 0x02441453, 0xd8a1e681, 0xe7d3fbc8), start, n + 4);
    q := GG(ops, q, x, (9, 14, 3, 8), (0x21e1cde6, 0xc33707d6, 0xf4d50d87, 0x455a14ed), start, n + 8);
    q := GG(ops, q, x, (13, 2, 7, 12), (0xa9e3e905, 0xfcefa3f8, 0x676f02d9, 0x8d2a4c8a), start, n + 12);
  }

  method Round3<W>(ops: Arithmetic<W>, r: Regs<W>, x: seq<W>, ghost start: Regs<W>, ghost n: nat) returns (q: Regs<W>)
    requires |x| == 16 && 32 <= n && n + 16 <= 48 && r == Steps(ops, start, x, n)
    requires Four(n, (5, 8, 11, 14), (0xfffa3942, 0x8771f681, 0x6d9d6122, 0xfde5380c))
    requires Four(n + 4, (1, 4, 7, 10), (0xa4beea44, 0x4bdecfa9, 0xf6bb4b60, 0xbebfbc70))
    requires Four(n + 8, (13, 0, 3, 6), (0x289b7ec6, 0xeaa127fa, 0xd4ef3085, 0x04881d05))
    requires Four(n + 12, (9, 12, 15, 2), (0xd9d4d039, 0xe6db99e5, 0x1fa27cf8, 0xc4ac5665))
    ensures q == Steps(ops, start, x, n + 16)
  {
    q := HH(ops, r, x, (5, 8, 11, 14), (0xfffa3942, 0x8771f681, 0x6d9d6122, 0xfde5380c), start, n);
    q := HH(ops, q, x, (1, 4, 7, 10), (0xa4beea44, 0x4bdecfa9, 0xf6bb4b60, 0xbebfbc70), start, n + 4);
    q := HH(ops, q, x, (13, 0, 3, 6), (0x289b7ec6, 0xeaa127fa, 0xd4ef3085, 0x04881d05), start, n + 8);
    q := HH(ops, q, x, (9, 12, 15, 2), (0xd9d4d039, 0xe6db99e5, 0x1fa27cf8, 0xc4ac5665), start, n + 12);
  }

  method Round4<W>(ops: Arithmetic<W>, r: Regs<W>, x: seq<W>, ghost start: Regs<W>, ghost n: nat) returns (q: Regs<W>)
    requires |x| == 16 && 48 <= n && n + 16 <= 64 && r == Steps(ops, start, x, n)
    requires Four(n, (0, 7, 14, 5), (0xf4292244, 0x432aff97, 0xab9423a7, 0xfc93a039))
    requires Four(n + 4, (12, 3, 10, 1), (0x655b59c3, 0x8f0ccc92, 0xffeff47d, 0x85845dd1))
    requires Four(n + 8, (8, 15, 6, 13), (0x6fa87e4f, 0xfe2ce6e0, 0xa3014314, 0x4e0811a1))
    requires Four(n + 12, (4, 11, 2, 9), (0xf7537e82, 0xbd3af235, 0x2ad7d2bb, 0xeb86d391))
    ensures q == Steps(ops, start, x, n + 16)
  {
    q := II(ops, r, x, (0, 7, 14, 5), (0xf4292244, 0x432aff97, 0xab9423a7, 0xfc93a039), start, n);
    q := II(ops, q, x, (12, 3, 10, 1), (0x655b59c3, 0x8f0ccc92, 0xffeff47d, 0x85845dd1), start, n + 4);
    q := II(ops, q, x, (8, 15, 6, 13), (0x6fa87e4f, 0xfe2ce6e0, 0xa3014314, 0x4e0811a1), start, n + 8);
    q := II(ops, q, x, (4, 11, 2, 9), (0xf7537e82, 0xbd3af235, 0x2ad7d2bb, 0xeb86d391), start, n + 12);
  }

  method MD5Transform<W>(ops: Arithmetic<W>, buf: Regs<W>, x: seq<W>) returns (q: Regs<W>)
    requires |x| == 16
    ensures q == Compress(ops, buf, x)
  {
    ghost var n :| n == 0;
    Table1(n);
    var r := Round1(ops, buf, x, buf, n);
    Table2(n + 16);
    r := Round2(ops, r, x, buf, n + 16);
    Table3(n + 32);
    r := Round3(ops, r, x, buf, n + 32);
    Table4(n + 48);
    r := Round4(ops, r, x, buf, n + 48);
    q := Regs(ops.add(buf.a, r.a), ops.add(buf.b, r.b), ops.add(buf.c, r.c), ops.add(buf.d, r.d));
  }
}
