/** A test vector of appendix A.5 of RFC 1321, through all 64 steps. */
module MD5Vector {
  import opened Bytes
  import opened MD5Words
  import opened MD5Laws
  import opened MD5Spec
  import opened MD5Transforming
  import opened MD5Stream
  import opened MD5Digest

  type Quad = (Word, Word, Word, Word)

  /** Four words as the registers a, d, c and b. */
  function Registers(p: Quad): Digest { Regs(p.0, p.3, p.2, p.1) }

  function Pick(x: seq<Word>, i: (nat, nat, nat, nat)): Quad
    requires |x| == 16 && i.0 < 16 && i.1 < 16 && i.2 < 16 && i.3 < 16
  {
    (x[i.0], x[i.1], x[i.2], x[i.3])
  }

  /** One step, in the arithmetic of UINT4. */
  function Turn(f: Word, a: Word, b: Word, x: Word, s: bv6, ac: Word): Word
  {
    Sum(RotateLeft(Sum(a, Sum(Sum(f, x), ac)), s), b)
  }

  lemma TurnIs(f: Word, a: Word, b: Word, x: Word, s: bv6, ac: Word)
    ensures Add(UINT4, f, a, b, x, s, ac) == Turn(f, a, b, x, s, ac)
  {}

  // Four steps in a row make the words q of the words p.

  predicate TurnsF(p: Quad, x: Quad, ac: Quad, q: Quad)
  {
    && q.0 == Turn(F(p.3, p.2, p.1), p.0, p.3, x.0, 7, ac.0)
    && q.1 == Turn(F(q.0, p.3, p.2), p.1, q.0, x.1, 12, ac.1)
    && q.2 == Turn(F(q.1, q.0, p.3), p.2, q.1, x.2, 17, ac.2)
    && q.3 == Turn(F(q.2, q.1, q.0), p.3, q.2, x.3, 22, ac.3)
  }

  predicate TurnsG(p: Quad, x: Quad, ac: Quad, q: Quad)
  {
    && q.0 == Turn(G(p.3, p.2, p.1), p.0, p.3, x.0, 5, ac.0)
    && q.1 == Turn(G(q.0, p.3, p.2), p.1, q.0, x.1, 9, ac.1)
    && q.2 == Turn(G(q.1, q.0, p.3), p.2, q.1, x.2, 14, ac.2)
    && q.3 == Turn(G(q.2, q.1, q.0), p.3, q.2, x.3, 20, ac.3)
  }

  predicate TurnsH(p: Quad, x: Quad, ac: Quad, q: Quad)
  {
    && q.0 == Turn(H(p.3, p.2, p.1), p.0, p.3, x.0, 4, ac.0)
    && q.1 == Turn(H(q.0, p.3, p.2), p.1, q.0, x.1, 11, ac.1)
    && q.2 == Turn(H(q.1, q.0, p.3), p.2, q.1, x.2, 16, ac.2)
    && q.3 == Turn(H(q.2, q.1, q.0), p.3, q.2, x.3, 23, ac.3)
  }

  predicate TurnsI(p: Quad, x: Quad, ac: Quad, q: Quad)
  {
    && q.0 == Turn(I(p.3, p.2, p.1), p.0, p.3, x.0, 6, ac.0)
    && q.1 == Turn(I(q.0, p.3, p.2), p.1, q.0, x.1, 10, ac.1)
    && q.2 == Turn(I(q.1, q.0, p.3), p.2, q.1, x.2, 15, ac.2)
    && q.3 == Turn(I(q.2, q.1, q.0), p.3, q.2, x.3, 21, ac.3)
  }

  lemma StepsF(x: seq<Word>, n: nat, i: (nat, nat, nat, nat), ac: Quad, p: Quad, q: Quad)
    requires |x| == 16 && 0 <= n < 16 && Four(n, i, ac) && Steps(UINT4, IV, x, n) == Registers(p)
    requires TurnsF(p, Pick(x, i), ac, q)
    ensures Steps(UINT4, IV, x, n + 4) == Registers(q)
  {
    FourConstants(n);
    FourShifts(n);
    OneStep(UINT4, IV, x, n, Regs(p.0, p.3, p.2, p.1));
    TurnIs(F(p.3, p.2, p.1), p.0, p.3, x[i.0], 7, ac.0);
    OneStep(UINT4, IV, x, n + 1, Regs(p.1, q.0, p.3, p.2));
    TurnIs(F(q.0, p.3, p.2), p.1, q.0, x[i.1], 12, ac.1);
    OneStep(UINT4, IV, x, n + 2, Regs(p.2, q.1, q.0, p.3));
    TurnIs(F(q.1, q.0, p.3), p.2, q.1, x[i.2], 17, ac.2);
    OneStep(UINT4, IV, x, n + 3, Regs(p.3, q.2, q.1, q.0));
    TurnIs(F(q.2, q.1, q.0), p.3, q.2, x[i.3], 22, ac.3);
  }

  lemma StepsG(x: seq<Word>, n: nat, i: (nat, nat, nat, nat), ac: Quad, p: Quad, q: Quad)
    requires |x| == 16 && 16 <= n < 32 && Four(n, i, ac) && Steps(UINT4, IV, x, n) == Registers(p)
    requires TurnsG(p, Pick(x, i), ac, q)
    ensures Steps(UINT4, IV, x, n + 4) == Registers(q)
  {
    FourConstants(n);
    FourShifts(n);
    OneStep(UINT4, IV, x, n, Regs(p.0, p.3, p.2, p.1));
    TurnIs(G(p.3, p.2, p.1), p.0, p.3, x[i.0], 5, ac.0);
    OneStep(UINT4, IV, x, n + 1, Regs(p.1, q.0, p.3, p.2));
    TurnIs(G(q.0, p.3, p.2), p.1, q.0, x[i.1], 9, ac.1);
    OneStep(UINT4, IV, x, n + 2, Regs(p.2, q.1, q.0, p.3));
    TurnIs(G(q.1, q.0, p.3), p.2, q.1, x[i.2], 14, ac.2);
    OneStep(UINT4, IV, x, n + 3, Regs(p.3, q.2, q.1, q.0));
    TurnIs(G(q.2, q.1, q.0), p.3, q.2, x[i.3], 20, ac.3);
  }

  lemma StepsH(x: seq<Word>, n: nat, i: (nat, nat, nat, nat), ac: Quad, p: Quad, q: Quad)
    requires |x| == 16 && 32 <= n < 48 && Four(n, i, ac) && Steps(UINT4, IV, x, n) == Registers(p)
    requires TurnsH(p, Pick(x, i), ac, q)
    ensures Steps(UINT4, IV, x, n + 4) == Registers(q)
  {
    FourConstants(n);
    FourShifts(n);
    OneStep(UINT4, IV, x, n, Regs(p.0, p.3, p.2, p.1));
    TurnIs(H(p.3, p.2, p.1), p.0, p.3, x[i.0], 4, ac.0);
    OneStep(UINT4, IV, x, n + 1, Regs(p.1, q.0, p.3, p.2));
    TurnIs(H(q.0, p.3, p.2), p.1, q.0, x[i.1], 11, ac.1);
    OneStep(UINT4, IV, x, n + 2, Regs(p.2, q.1, q.0, p.3));
    TurnIs(H(q.1, q.0, p.3), p.2, q.1, x[i.2], 16, ac.2);
    OneStep(UINT4, IV, x, n + 3, Regs(p.3, q.2, q.1, q.0));
    TurnIs(H(q.2, q.1, q.0), p.3, q.2, x[i.3], 23, ac.3);
  }

  lemma StepsI(x: seq<Word>, n: nat, i: (nat, nat, nat, nat), ac: Quad, p: Quad, q: Quad)
    requires |x| == 16 && 48 <= n < 64 && Four(n, i, ac) && Steps(UINT4, IV, x, n) == Registers(p)
    requires TurnsI(p, Pick(x, i), ac, q)
    ensures Steps(UINT4, IV, x, n + 4) == Registers(q)
  {
    FourConstants(n);
    FourShifts(n);
    OneStep(UINT4, IV, x, n, Regs(p.0, p.3, p.2, p.1));
    TurnIs(I(p.3, p.2, p.1), p.0, p.3, x[i.0], 6, ac.0);
    OneStep(UINT4, IV, x, n + 1, Regs(p.1, q.0, p.3, p.2));
    TurnIs(I(q.0, p.3, p.2), p.1, q.0, x[i.1], 10, ac.1);
    OneStep(UINT4, IV, x, n + 2, Regs(p.2, q.1, q.0, p.3));
    TurnIs(I(q.1, q.0, p.3), p.2, q.1, x[i.2], 15, ac.2);
    OneStep(UINT4, IV, x, n + 3, Regs(p.3, q.2, q.1, q.0));
    TurnIs(I(q.2, q.1, q.0), p.3, q.2, x[i.3], 21, ac.3);
  }

  lemma Row0()
    ensures TurnsF((0x67452301, 0x10325476, 0x98badcfe, 0xefcdab89), (0x80636261, 0x0, 0x0, 0x0),
      (0xd76aa478, 0xe8c7b756, 0x242070db, 0xc1bdceee), (0xd6d117b4, 0x344a8432, 0x2f6fbd72, 0x7ad956f2))
  {}

  lemma Row1()
    ensures TurnsF((0xd6d117b4, 0x344a8432, 0x2f6fbd72, 0x7ad956f2), (0x0, 0x0, 0x0, 0x0),
      (0xf57c0faf, 0x4787c62a, 0xa8304613, 0xfd469501), (0xc73741ef, 0x8bac3051, 0x207dc67b, 0x928d99f6))
  {}

  lemma Row2()
    ensures TurnsF((0xc73741ef, 0x8bac3051, 0x207dc67b, 0x928d99f6), (0x0, 0x0, 0x0, 0x0),
      (0x698098d8, 0x8b44f7af, 0xffff5bb1, 0x895cd7be), (0x854b3712, 0x74e2f284, 0x3020401c, 0x5ed49596))
  {}

  lemma Row3()
    ensures TurnsF((0x854b3712, 0x74e2f284, 0x3020401c, 0x5ed49596), (0x0, 0x0, 0x18, 0x0),
      (0x6b901122, 0xfd987193, 0xa679438e, 0x49b40821), (0xdda9b9a6, 0xa1051895, 0xe396856b, 0x72aff2e0))
  {}

  lemma Row4()
    ensures TurnsG((0xdda9b9a6, 0xa1051895, 0xe396856b, 0x72aff2e0), (0x0, 0x0, 0x0, 0x80636261),
      (0xf61e2562, 0xc040b340, 0x265e5a51, 0xe9b6c7aa), (0x3e9e9126, 0x4a1d804e, 0xe25e1652, 0xb5b204e4))
  {}

  lemma Row5()
    ensures TurnsG((0x3e9e9126, 0x4a1d804e, 0xe25e1652, 0xb5b204e4), (0x0, 0x0, 0x0, 0x0),
      (0xd62f105d, 0x02441453, 0xd8a1e681, 0xe7d3fbc8), (0x59a8ffda, 0x6d002f1e, 0xabfc7920, 0x47092c07))
  {}

  lemma Row6()
    ensures TurnsG((0x59a8ffda, 0x6d002f1e, 0xabfc7920, 0x47092c07), (0x0, 0x18, 0x0, 0x0),
      (0x21e1cde6, 0xc33707d6, 0xf4d50d87, 0x455a14ed), (0xb7f268cf, 0x09388eff, 0xfe1623b1, 0x786acb8f))
  {}

  lemma Row7()
    ensures TurnsG((0xb7f268cf, 0x09388eff, 0xfe1623b1, 0x786acb8f), (0x0, 0x0, 0x0, 0x0),
      (0xa9e3e905, 0xfcefa3f8, 0x676f02d9, 0x8d2a4c8a), (0x790a77fb, 0x9f47e4f8, 0xa62884aa, 0x726342d3))
  {}

  lemma Row8()
    ensures TurnsH((0x790a77fb, 0x9f47e4f8, 0xa62884aa, 0x726342d3), (0x0, 0x0, 0x0, 0x18),
      (0xfffa3942, 0x8771f681, 0x6d9d6122, 0xfde5380c), (0xb3707ebf, 0x60127b2e, 0x8d212ff5, 0x3b0875c7))
  {}

  lemma Row9()
    ensures TurnsH((0xb3707ebf, 0x60127b2e, 0x8d212ff5, 0x3b0875c7), (0x0, 0x0, 0x0, 0x0),
      (0xa4beea44, 0x4bdecfa9, 0xf6bb4b60, 0xbebfbc70), (0x21b117b9, 0x6e7429d5, 0x3575227e, 0x5a2f5ea5))
  {}

  lemma Row10()
    ensures TurnsH((0x21b117b9, 0x6e7429d5, 0x3575227e, 0x5a2f5ea5), (0x0, 0x80636261, 0x0, 0x0),
      (0x289b7ec6, 0xeaa127fa, 0xd4ef3085, 0x04881d05), (0x11de1779, 0xfadcaa38, 0x31c465ca, 0x4c6124f4))
  {}

  lemma Row11()
    ensures TurnsH((0x11de1779, 0xfadcaa38, 0x31c465ca, 0x4c6124f4), (0x0, 0x0, 0x0, 0x0),
      (0xd9d4d039, 0xe6db99e5, 0x1fa27cf8, 0xc4ac5665), (0x7f2e507b, 0x99d9679d, 0x8fae6399, 0x7beb9700))
  {}

  lemma Row12()
    ensures TurnsI((0x7f2e507b, 0x99d9679d, 0x8fae6399, 0x7beb9700), (0x80636261, 0x0, 0x18, 0x0),
      (0xf4292244, 0x432aff97, 0xab9423a7, 0xfc93a039), (0x7b201df8, 0xf4e8e96e, 0xb298cefd, 0x8bf025c4))
  {}

  lemma Row13()
    ensures TurnsI((0x7b201df8, 0xf4e8e96e, 0xb298cefd, 0x8bf025c4), (0x0, 0x0, 0x0, 0x0),
      (0x655b59c3, 0x8f0ccc92, 0xffeff47d, 0x85845dd1), (0x06cc5e8a, 0x5b0d97aa, 0x7d632dd0, 0x3bfa2c27))
  {}

  lemma Row14()
    ensures TurnsI((0x06cc5e8a, 0x5b0d97aa, 0x7d632dd0, 0x3bfa2c27), (0x0, 0x0, 0x0, 0x0),
      (0x6fa87e4f, 0xfe2ce6e0, 0xa3014314, 0x4e0811a1), (0x7f81cc35, 0x094454ab, 0x4f9dbe3f, 0x7327d604))
  {}

  lemma Row15()
    ensures TurnsI((0x7f81cc35, 0x094454ab, 0x4f9dbe3f, 0x7327d604), (0x0, 0x0, 0x0, 0x0),
      (0xf7537e82, 0xbd3af235, 0x2ad7d2bb, 0xeb86d391), (0x310ade8f, 0x624d8cb2, 0xe484b9d8, 0xc08226b3))
  {}

  // ---- the block of "abc" ----

  /** The words of the padded message. */
  predicate IsAbc(x: seq<Word>)
  {
    && |x| == 16 && x[0] == 0x80636261 && x[14] == 24
    && forall i :: 0 <= i < 16 && i != 0 && i != 14 ==> x[i] == 0
  }

  lemma RoundF(x: seq<Word>, n: nat)
    requires IsAbc(x) && n + 12 < 16
    requires Four(n, (0, 1, 2, 3), (0xd76aa478, 0xe8c7b756, 0x242070db, 0xc1bdceee))
    requires Four(n + 4, (4, 5, 6, 7), (0xf57c0faf, 0x4787c62a, 0xa8304613, 0xfd469501))
    requires Four(n + 8, (8, 9, 10, 11), (0x698098d8, 0x8b44f7af, 0xffff5bb1, 0x895cd7be))
    requires Four(n + 12, (12, 13, 14, 15), (0x6b901122, 0xfd987193, 0xa679438e, 0x49b40821))
    requires Steps(UINT4, IV, x, n) == Registers((0x67452301, 0x10325476, 0x98badcfe, 0xefcdab89))
    ensures Steps(UINT4, IV, x, n + 16) == Registers((0xdda9b9a6, 0xa1051895, 0xe396856b, 0x72aff2e0))
  {
    Row0();
    StepsF(x, n, (0, 1, 2, 3), (0xd76aa478, 0xe8c7b756, 0x242070db, 0xc1bdceee),
           (0x67452301, 0x10325476, 0x98badcfe, 0xefcdab89), (0xd6d117b4, 0x344a8432, 0x2f6fbd72, 0x7ad956f2));
    Row1();
    StepsF(x, n + 4, (4, 5, 6, 7), (0xf57c0faf, 0x4787c62a, 0xa8304613, 0xfd469501),
           (0xd6d117b4, 0x344a8432, 0x2f6fbd72, 0x7ad956f2), (0xc73741ef, 0x8bac3051, 0x207dc67b, 0x928d99f6));
    Row2();
    StepsF(x, n + 8, (8, 9, 10, 11), (0x698098d8, 0x8b44f7af, 0xffff5bb1, 0x895cd7be),
           (0xc73741ef, 0x8bac3051, 0x207dc67b, 0x928d99f6), (0x854b3712, 0x74e2f284, 0x3020401c, 0x5ed49596));
    Row3();
    StepsF(x, n + 12, (12, 13, 14, 15), (0x6b901122, 0xfd987193, 0xa679438e, 0x49b40821),
           (0x854b3712, 0x74e2f284, 0x3020401c, 0x5ed49596), (0xdda9b9a6, 0xa1051895, 0xe396856b, 0x72aff2e0));
  }

  lemma RoundG(x: seq<Word>, n: nat)
    requires IsAbc(x) && 16 <= n && n + 16 <= 32
    requires Four(n, (1, 6, 11, 0), (0xf61e2562, 0xc040b340, 0x265e5a51, 0xe9b6c7aa))
    requires Four(n + 4, (5, 10, 15, 4), (0xd62f105d, 0x02441453, 0xd8a1e681, 0xe7d3fbc8))
    requires Four(n + 8, (9, 14, 3, 8), (0x21e1cde6, 0xc33707d6, 0xf4d50d87, 0x455a14ed))
    requires Four(n + 12, (13, 2, 7, 12), (0xa9e3e905, 0xfcefa3f8, 0x676f02d9, 0x8d2a4c8a))
    requires Steps(UINT4, IV, x, n) == Registers((0xdda9b9a6, 0xa1051895, 0xe396856b, 0x72aff2e0))
    ensures Steps(UINT4, IV, x, n + 16) == Registers((0x790a77fb, 0x9f47e4f8, 0xa62884aa, 0x726342d3))
  {
    Row4();
    StepsG(x, n, (1, 6, 11, 0), (0xf61e2562, 0xc040b340, 0x265e5a51, 0xe9b6c7aa),
           (0xdda9b9a6, 0xa1051895, 0xe396856b, 0x72aff2e0), (0x3e9e9126, 0x4a1d804e, 0xe25e1652, 0xb5b204e4));
    Row5();
    StepsG(x, n + 4, (5, 10, 15, 4), (0xd62f105d, 0x02441453, 0xd8a1e681, 0xe7d3fbc8),
           (0x3e9e9126, 0x4a1d804e, 0xe25e1652, 0xb5b204e4), (0x59a8ffda, 0x6d002f1e, 0xabfc7920, 0x47092c07));
    Row6();
    StepsG(x, n + 8, (9, 14, 3, 8), (0x21e1cde6, 0xc33707d6, 0xf4d50d87, 0x455a14ed),
           (0x59a8ffda, 0x6d002f1e, 0xabfc7920, 0x47092c07), (0xb7f268cf, 0x09388eff, 0xfe1623b1, 0x786acb8f));
    Row7();
    StepsG(x, n + 12, (13, 2, 7, 12), (0xa9e3e905, 0xfcefa3f8, 0x676f02d9, 0x8d2a4c8a),
           (0xb7f268cf, 0x09388eff, 0xfe1623b1, 0x786acb8f), (0x790a77fb, 0x9f47e4f8, 0xa62884aa, 0x726342d3));
  }

  lemma RoundH(x: seq<Word>, n: nat)
    requires IsAbc(x) && 32 <= n && n + 16 <= 48
    requires Four(n, (5, 8, 11, 14), (0xfffa3942, 0x8771f681, 0x6d9d6122, 0xfde5380c))
    requires Four(n + 4, (1, 4, 7, 10), (0xa4beea44, 0x4bdecfa9, 0xf6bb4b60, 0xbebfbc70))
    requires Four(n + 8, (13, 0, 3, 6), (0x289b7ec6, 0xeaa127fa, 0xd4ef3085, 0x04881d05))
    requires Four(n + 12, (9, 12, 15, 2), (0xd9d4d039, 0xe6db99e5, 0x1fa27cf8, 0xc4ac5665))
    requires Steps(UINT4, IV, x, n) == Registers((0x790a77fb, 0x9f47e4f8, 0xa62884aa, 0x726342d3))
    ensures Steps(UINT4, IV, x, n + 16) == Registers((0x7f2e507b, 0x99d9679d, 0x8fae6399, 0x7beb9700))
  {
    Row8();
    StepsH(x, n, (5, 8, 11, 14), (0xfffa3942, 0x8771f681, 0x6d9d6122, 0xfde5380c),
           (0x790a77fb, 0x9f47e4f8, 0xa62884aa, 0x726342d3), (0xb3707ebf, 0x60127b2e, 0x8d212ff5, 0x3b0875c7));
    Row9();
    StepsH(x, n + 4, (1, 4, 7, 10), (0xa4beea44, 0x4bdecfa9, 0xf6bb4b60, 0xbebfbc70),
           (0xb3707ebf, 0x60127b2e, 0x8d212ff5, 0x3b0875c7), (0x21b117b9, 0x6e7429d5, 0x3575227e, 0x5a2f5ea5));
    Row10();
    StepsH(x, n + 8, (13, 0, 3, 6), (0x289b7ec6, 0xeaa127fa, 0xd4ef3085, 0x04881d05),
           (0x21b117b9, 0x6e7429d5, 0x3575227e, 0x5a2f5ea5), (0x11de1779, 0xfadcaa38, 0x31c465ca, 0x4c6124f4));
    Row11();
    StepsH(x, n + 12, (9, 12, 15, 2), (0xd9d4d039, 0xe6db99e5, 0x1fa27cf8, 0xc4ac5665),
           (0x11de1779, 0xfadcaa38, 0x31c465ca, 0x4c6124f4), (0x7f2e507b, 0x99d9679d, 0x8fae6399, 0x7beb9700));
  }

  lemma RoundI(x: seq<Word>, n: nat)
    requires IsAbc(x) && 48 <= n && n + 16 <= 64
    requires Four(n, (0, 7, 14, 5), (0xf4292244, 0x432aff97, 0xab9423a7, 0xfc93a039))
    requires Four(n + 4, (12, 3, 10, 1), (0x655b59c3, 0x8f0ccc92, 0xffeff47d, 0x85845dd1))
    requires Four(n + 8, (8, 15, 6, 13), (0x6fa87e4f, 0xfe2ce6e0, 0xa3014314, 0x4e0811a1))
    requires Four(n + 12, (4, 11, 2, 9), (0xf7537e82, 0xbd3af235, 0x2ad7d2bb, 0xeb86d391))
    requires Steps(UINT4, IV, x, n) == Registers((0x7f2e507b, 0x99d9679d, 0x8fae6399, 0x7beb9700))
    ensures Steps(UINT4, IV, x, n + 16) == Registers((0x310ade8f, 0x624d8cb2, 0xe484b9d8, 0xc08226b3))
  {
    Row12();
    StepsI(x, n, (0, 7, 14, 5), (0xf4292244, 0x432aff97, 0xab9423a7, 0xfc93a039),
           (0x7f2e507b, 0x99d9679d, 0x8fae6399, 0x7beb9700), (0x7b201df8, 0xf4e8e96e, 0xb298cefd, 0x8bf025c4));
    Row13();
    StepsI(x, n + 4, (12, 3, 10, 1), (0x655b59c3, 0x8f0ccc92, 0xffeff47d, 0x85845dd1),
           (0x7b201df8, 0xf4e8e96e, 0xb298cefd, 0x8bf025c4), (0x06cc5e8a, 0x5b0d97aa, 0x7d632dd0, 0x3bfa2c27));
    Row14();
    StepsI(x, n + 8, (8, 15, 6, 13), (0x6fa87e4f, 0xfe2ce6e0, 0xa3014314, 0x4e0811a1),
           (0x06cc5e8a, 0x5b0d97aa, 0x7d632dd0, 0x3bfa2c27), (0x7f81cc35, 0x094454ab, 0x4f9dbe3f, 0x7327d604));
    Row15();
    StepsI(x, n + 12, (4, 11, 2, 9), (0xf7537e82, 0xbd3af235, 0x2ad7d2bb, 0xeb86d391),
           (0x7f81cc35, 0x094454ab, 0x4f9dbe3f, 0x7327d604), (0x310ade8f, 0x624d8cb2, 0xe484b9d8, 0xc08226b3));
  }

  lemma AbcSteps(x: seq<Word>, n: nat)
    requires IsAbc(x) && n == 0
    ensures Steps(UINT4, IV, x, n + 64) == Registers((0x310ade8f, 0x624d8cb2, 0xe484b9d8, 0xc08226b3))
  {
    Table1(n);
    RoundF(x, n);
    Table2(n + 16);
    RoundG(x, n + 16);
    Table3(n + 32);
    RoundH(x, n + 32);
    Table4(n + 48);
    RoundI(x, n + 48);
  }

  lemma AbcCompressed(x: seq<Word>)
    requires IsAbc(x)
    ensures Compress(UINT4, IV, x) == Regs(0x98500190, 0xb04fd23c, 0x7d3f96d6, 0x727fe128)
  {
    var n: nat :| n == 0;
    AbcSteps(x, n);
    assert n + 64 == 4 * |x|;
  }

  // ---- in bytes ----

  const ABC: seq<byte> := [97, 98, 99]

  lemma AbcPadded()
    ensures Pad(ABC) == ABC + ([0x80] + Zeros(52)) + ([24, 0, 0, 0] + [0, 0, 0, 0])
  {
    assert PadLength(|ABC|) == 53;
    assert CountLow(ABC) == 24 && CountHigh(ABC) == 0;
    Little(24);
    Little(0);
  }

  /** Numbers of one byte. */
  lemma Little(n: byte)
    ensures Bytes32(n) == [n, 0, 0, 0]
  {
    assert PutNumber(0, 1) == [0] + PutNumber(0, 0);
    assert PutNumber(0, 2) == [0] + PutNumber(0, 1);
    assert PutNumber(0, 3) == [0] + PutNumber(0, 2);
    assert PutNumber(n, 4) == [n % 256] + PutNumber(n / 256, 3);
  }

  lemma ZeroWord()
    ensures WordOf([0, 0, 0, 0]) == 0
  {}

  lemma LengthWord()
    ensures WordOf([24, 0, 0, 0]) == 24
  {}

  lemma FirstWord()
    ensures WordOf([97, 98, 99, 0x80]) == 0x80636261
  {}

  lemma ByteFrom(w: Word, b: byte)
    requires w & 0xFF == Cast(b)
    ensures ByteOf(w) == b
  {
    CastIs(b);
  }

  lemma BytesFrom(w: Word, b0: byte, b1: byte, b2: byte, b3: byte)
    requires w & 0xFF == Cast(b0) && (w >> 8) & 0xFF == Cast(b1)
    requires (w >> 16) & 0xFF == Cast(b2) && (w >> 24) & 0xFF == Cast(b3)
    ensures BytesOf(w) == [b0, b1, b2, b3]
  {
    ByteFrom(w, b0);
    ByteFrom(w >> 8, b1);
    ByteFrom(w >> 16, b2);
    ByteFrom(w >> 24, b3);
  }

  lemma Digest0()
    ensures BytesOf(0x98500190) == [0x90, 0x01, 0x50, 0x98]
  {
    BytesFrom(0x98500190, 0x90, 0x01, 0x50, 0x98);
  }

  lemma Digest1()
    ensures BytesOf(0xb04fd23c) == [0x3c, 0xd2, 0x4f, 0xb0]
  {
    BytesFrom(0xb04fd23c, 0x3c, 0xd2, 0x4f, 0xb0);
  }

  lemma Digest2()
    ensures BytesOf(0x7d3f96d6) == [0xd6, 0x96, 0x3f, 0x7d]
  {
    BytesFrom(0x7d3f96d6, 0xd6, 0x96, 0x3f, 0x7d);
  }

  lemma Digest3()
    ensures BytesOf(0x727fe128) == [0x28, 0xe1, 0x7f, 0x72]
  {
    BytesFrom(0x727fe128, 0x28, 0xe1, 0x7f, 0x72);
  }

  lemma ZeroBytes(b: seq<byte>, i: nat)
    requires |b| == 64 && 4 <= i && i + 4 <= 64 && (i + 4 <= 56 || 56 < i)
    requires forall j :: 4 <= j < 64 && j != 56 ==> b[j] == 0
    ensures b[i..i + 4] == [0, 0, 0, 0]
  {
    assert b[i] == 0 && b[i + 1] == 0 && b[i + 2] == 0 && b[i + 3] == 0;
  }

  lemma AbcWords(b: seq<byte>, n: nat)
    requires |b| == 64 && n <= 16 && b[..4] == [97, 98, 99, 0x80] && b[56..60] == [24, 0, 0, 0]
    requires forall i :: 4 <= i < 64 && i != 56 ==> b[i] == 0
    ensures |Words(b, n)| == n && forall i :: 0 <= i < n ==>
      Words(b, n)[i] == if i == 0 then 0x80636261 else if i == 14 then 24 else 0
  {
    if n > 0 {
      AbcWords(b, n - 1);
      FirstWord();
      LengthWord();
      ZeroWord();
      var w := b[4 * n - 4..4 * n];
      if n == 1 {
        assert w == [97, 98, 99, 0x80];
      } else if n == 15 {
        assert w == [24, 0, 0, 0];
      } else {
        ZeroBytes(b, 4 * n - 4);
      }
    }
  }

  lemma AbcBlock(n: nat)
    requires n == 16
    ensures |Pad(ABC)| == 64 && IsAbc(BlockWords(Pad(ABC)))
  {
    AbcPadded();
    var b := Pad(ABC);
    assert b[..4] == [97, 98, 99, 0x80] && b[56..60] == [24, 0, 0, 0];
    AbcWords(b, n);
    assert |b| / 4 == n;
  }

  lemma AbcRegisters(n: nat)
    requires n == 16
    ensures Absorb(Block(UINT4), Pad(ABC), |Pad(ABC)| / 64) == Regs(0x98500190, 0xb04fd23c, 0x7d3f96d6, 0x727fe128)
  {
    AbcBlock(n);
    AbcCompressed(BlockWords(Pad(ABC)));
    OneBlock(Block(UINT4), Pad(ABC));
    assert Block(UINT4)(IV, Pad(ABC)) == BlockWith(UINT4, IV, Pad(ABC));
  }

  lemma AbcBytes(a: seq<byte>, b: seq<byte>, c: seq<byte>, d: seq<byte>)
    requires a == [0x90, 0x01, 0x50, 0x98] && b == [0x3c, 0xd2, 0x4f, 0xb0]
    requires c == [0xd6, 0x96, 0x3f, 0x7d] && d == [0x28, 0xe1, 0x7f, 0x72]
    ensures a + b + c + d == [
      0x90, 0x01, 0x50, 0x98, 0x3c, 0xd2, 0x4f, 0xb0,
      0xd6, 0x96, 0x3f, 0x7d, 0x28, 0xe1, 0x7f, 0x72]
  {}

  lemma DigestIs(f: Compression, msg: seq<byte>, d: Digest)
    requires d == Absorb(f, Pad(msg), |Pad(msg)| / 64)
    ensures MD5(f, msg) == BytesOf(d.a) + BytesOf(d.b) + BytesOf(d.c) + BytesOf(d.d)
  {}

  /** The digest of "abc". */
  lemma AbcDigest()
    ensures MD5(Block(UINT4), ABC) == [
      0x90, 0x01, 0x50, 0x98, 0x3c, 0xd2, 0x4f, 0xb0,
      0xd6, 0x96, 0x3f, 0x7d, 0x28, 0xe1, 0x7f, 0x72]
  {
    var n: nat :| n == 16;
    var d := Regs(0x98500190, 0xb04fd23c, 0x7d3f96d6, 0x727fe128);
    AbcRegisters(n);
    DigestIs(Block(UINT4), ABC, d);
    Digest0();
    Digest1();
    Digest2();
    Digest3();
    AbcBytes(BytesOf(d.a), BytesOf(d.b), BytesOf(d.c), BytesOf(d.d));
  }

  lemma OneBlock(f: Compression, m: seq<byte>)
    requires |m| == 64
    ensures Absorb(f, m, |m| / 64) == f(IV, m)
  {
    assert Absorb(f, m, 0) == IV && m[64 * 0..64 * 1] == m;
  }
}
