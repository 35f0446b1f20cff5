/** What the macros and conversions of MD5 compute: bit by bit, and as numbers. */
module MD5Laws {
  import opened Bytes
  import opened MD5Words

  // ---- bits ----

  /** Half and Low are what integer division by two gives. */
  lemma ByTwo(w: Word)
    ensures Half(w) == w / 2 && (Low(w) == 1 <==> w % 2 == 1)
  {}

  /** The bit of weight 2^k. */
  function Bit(w: Word, k: nat): (b: nat)
    ensures b < 2
    decreases k
  {
    if k == 0 then Low(w) else Bit(Half(w), k - 1)
  }

  lemma FHalves(x: Word, y: Word, z: Word)
    ensures Half(F(x, y, z)) == F(Half(x), Half(y), Half(z))
    ensures Low(F(x, y, z)) == if Low(x) == 1 then Low(y) else Low(z)
  {}

  /** F takes each bit from y where x has a one, and from z elsewhere. */
  lemma {:induction false} FBits(x: Word, y: Word, z: Word, k: nat)
    ensures Bit(F(x, y, z), k) == if Bit(x, k) == 1 then Bit(y, k) else Bit(z, k)
    decreases k
  {
    FHalves(x, y, z);
    if k > 0 {
      FBits(Half(x), Half(y), Half(z), k - 1);
    }
  }

  lemma GIsF(x: Word, y: Word, z: Word)
    ensures G(x, y, z) == F(z, x, y)
  {}

  /** G takes each bit from x where z has a one, and from y elsewhere. */
  lemma GBits(x: Word, y: Word, z: Word, k: nat)
    ensures Bit(G(x, y, z), k) == if Bit(z, k) == 1 then Bit(x, k) else Bit(y, k)
  {
    GIsF(x, y, z);
    FBits(z, x, y, k);
  }

  function Xor(x: Word, y: Word): Word { x ^ y }

  lemma XorHalves(x: Word, y: Word)
    ensures Half(Xor(x, y)) == Xor(Half(x), Half(y)) && Low(Xor(x, y)) == if Low(x) == Low(y) then 0 else 1
  {}

  lemma {:induction false} XorBits(x: Word, y: Word, k: nat)
    ensures Bit(Xor(x, y), k) == if Bit(x, k) == Bit(y, k) then 0 else 1
    decreases k
  {
    XorHalves(x, y);
    if k > 0 {
      XorBits(Half(x), Half(y), k - 1);
    }
  }

  lemma XorOfXor(x: Word, y: Word, z: Word)
    ensures Xor(x ^ y, z) == H(x, y, z)
  {}

  lemma HIsXor(x: Word, y: Word, z: Word)
    ensures H(x, y, z) == Xor(Xor(x, y), z)
  {
    XorOfXor(x, y, z);
  }

  /** H is the parity. */
  lemma HBits(x: Word, y: Word, z: Word, k: nat)
    ensures Bit(H(x, y, z), k) == (Bit(x, k) + Bit(y, k) + Bit(z, k)) % 2
  {
    HIsXor(x, y, z);
    XorBits(x, y, k);
    XorBits(Xor(x, y), z, k);
  }

  lemma OnesHalves(j: bv6)
    requires j < 32
    ensures Low(0xFFFF_FFFF >> j) == 1 && Half(0xFFFF_FFFF >> j) == 0xFFFF_FFFF >> (j + 1)
    ensures (j + 1) as int == j as int + 1
  {}

  lemma {:induction false} OnesBits(j: bv6, k: nat)
    requires j as int + k < 32
    ensures Bit(0xFFFF_FFFF >> j, k) == 1
    decreases k
  {
    OnesHalves(j);
    if k > 0 {
      OnesBits(j + 1, k - 1);
    }
  }

  lemma AllOnes(k: nat)
    requires k < 32
    ensures Bit(0xFFFF_FFFF, k) == 1
  {
    OnesBits(0, k);
  }

  lemma IIsXor(x: Word, y: Word, z: Word)
    ensures I(x, y, z) == Xor(Xor(y, F(x, 0, z)), 0xFFFF_FFFF)
  {}

  lemma {:induction false} ZeroBits(k: nat)
    ensures Bit(0, k) == 0
    decreases k
  {
    if k > 0 {
      ZeroBits(k - 1);
    }
  }

  /** I takes each bit from y where x has a zero and z a one, and its complement elsewhere. */
  lemma IBits(x: Word, y: Word, z: Word, k: nat)
    requires k < 32
    ensures Bit(I(x, y, z), k) == if Bit(x, k) == 0 && Bit(z, k) == 1 then Bit(y, k) else 1 - Bit(y, k)
  {
    IIsXor(x, y, z);
    FBits(x, 0, z, k);
    ZeroBits(k);
    XorBits(y, F(x, 0, z), k);
    XorBits(Xor(y, F(x, 0, z)), 0xFFFF_FFFF, k);
    AllOnes(k);
  }

  // ---- numbers ----

  lemma ValueHalves(w: Word)
    ensures Value(w) == 2 * Value(Half(w)) + Low(w)
  {}

  lemma OneBit(c: Word)
    requires c <= 1
    ensures Value(c) == Digit(c)
  {}

  function Power2(n: nat): (p: nat)
    ensures p > 0
  {
    if n == 0 then 1 else 2 * Power2(n - 1)
  }

  lemma Powers()
    ensures Power2(31) == 0x8000_0000 && Power2(32) == 0x1_0000_0000
  {
    assert Power2(8) == 256;
    assert Power2(16) == 65536;
    assert Power2(24) == 0x100_0000;
  }

  lemma PutTogether(t: Word, e: Word)
    requires t < 0x8000_0000 && e <= 1
    ensures Half(Twice(t, e)) == t && Low(Twice(t, e)) == Digit(e)
  {}

  function Digit(b: Word): nat { if b == 1 then 1 else 0 }

  function LowBit(w: Word): (b: Word)
    ensures b <= 1 && Digit(b) == Low(w)
  {
    w & 1
  }

  lemma SplitUp(w: Word)
    ensures w == 2 * Half(w) + LowBit(w)
  {}

  lemma SameBits(v: Word, w: Word)
    requires Half(v) == Half(w) && Low(v) == Low(w)
    ensures v == w
  {}

  /** The number tells words apart. */
  lemma {:induction false} ValueDiffers(v: Word, w: Word)
    requires Value(v) == Value(w)
    ensures v == w
    decreases Value(v)
  {
    NotZero(v);
    NotZero(w);
    if Value(v) > 0 {
      ValueHalves(v);
      ValueHalves(w);
      ValueDiffers(Half(v), Half(w));
      SameBits(v, w);
    }
  }

  // ---- shifts ----

  function Up(x: Word, n: bv6): Word
    requires n <= 32
  {
    x << n
  }

  function Down(x: Word, n: bv6): Word
    requires n <= 32
  {
    x >> n
  }

  lemma Shifts(x: Word, n: bv6)
    requires 0 < n < 32
    ensures Up(x, n) == Twice(Up(x, n - 1), 0) && Down(x, n) == Half(Down(x, n - 1))
  {}

  lemma NoShift(x: Word)
    ensures Up(x, 0) == x && Down(x, 0) == x
  {}

  lemma OneLess(n: bv6)
    requires 0 < n
    ensures (n - 1) as int == n as int - 1 && (n <= 32 ==> (32 - n) as int == 32 - n as int)
  {}

  lemma {:induction false} DownIs(x: Word, n: bv6)
    requires n < 32
    ensures Value(Down(x, n)) == Value(x) / Power2(n as int)
    decreases n as int
  {
    if n == 0 {
      NoShift(x);
    } else {
      Shifts(x, n);
      OneLess(n);
      DownIs(x, n - 1);
      ValueHalves(Down(x, n - 1));
      QuotientTwice(Value(x), Power2(n as int - 1), 2);
    }
  }

  lemma LastShift(w: Word)
    ensures Down(w, 31) == 0 <==> w < 0x8000_0000
    ensures Down(w, 31) <= 1
  {}

  lemma ValueBelow(w: Word)
    ensures Value(w) < 0x1_0000_0000
    ensures w < 0x8000_0000 <==> Value(w) < 0x8000_0000
  {
    LastShift(w);
    DownIs(w, 31);
    Powers();
    OneBit(Down(w, 31));
  }

  // ---- addition ----

  /** What three bits come to, and what is carried. */
  function Parity(a: Word, b: Word, c: Word): Word { a ^ b ^ c }

  function Carry(a: Word, b: Word, c: Word): Word { (a & b) | (a & c) | (b & c) }

  lemma BitsAdd(a: Word, b: Word, c: Word)
    requires a <= 1 && b <= 1 && c <= 1
    ensures Parity(a, b, c) <= 1 && Carry(a, b, c) <= 1
    ensures Digit(a) + Digit(b) + Digit(c) == 2 * Digit(Carry(a, b, c)) + Digit(Parity(a, b, c))
  {}

  /** Addition in columns, with a carry. */
  function Columns(x: Word, y: Word, c: Word): Word
    requires c <= 1
    decreases Value(x) + Value(y)
  {
    NotZero(x);
    NotZero(y);
    ValueHalves(x);
    ValueHalves(y);
    BitsAdd(LowBit(x), LowBit(y), c);
    if x == 0 && y == 0 then c
    else Twice(Columns(Half(x), Half(y), Carry(LowBit(x), LowBit(y), c)), Parity(LowBit(x), LowBit(y), c))
  }

  lemma Doubled(t: Word, e: Word)
    requires e <= 1 && Value(t) < 0x8000_0000
    ensures Value(Twice(t, e)) == 2 * Value(t) + Digit(e)
  {
    ValueBelow(t);
    PutTogether(t, e);
    ValueHalves(Twice(t, e));
  }

  lemma {:induction false} ColumnsExact(x: Word, y: Word, c: Word)
    requires c <= 1 && Value(x) + Value(y) + Digit(c) < 0x1_0000_0000
    ensures Value(Columns(x, y, c)) == Value(x) + Value(y) + Digit(c)
    decreases Value(x) + Value(y)
  {
    if x == 0 && y == 0 {
      OneBit(c);
    } else {
      var a, b := LowBit(x), LowBit(y);
      NotZero(x);
      NotZero(y);
      ValueHalves(x);
      ValueHalves(y);
      BitsAdd(a, b, c);
      ColumnsExact(Half(x), Half(y), Carry(a, b, c));
      Doubled(Columns(Half(x), Half(y), Carry(a, b, c)), Parity(a, b, c));
    }
  }

  function Flip(t: Word): Word { t ^ 0x8000_0000 }

  lemma TopGone(t: Word, e: Word)
    ensures Twice(t ^ 0x8000_0000, e) == 2 * t + e
  {}

  lemma TwiceFlipped(t: Word, e: Word)
    ensures Twice(Flip(t), e) == Twice(t, e)
  {
    TopGone(t, e);
  }

  lemma OneUp(n: bv6)
    requires 0 < n < 32
    ensures Half(Up(1, n)) == Up(1, n - 1) && Low(Up(1, n)) == 0 && (n - 1) as int == n as int - 1
  {}

  lemma {:induction false} PowerIs(n: bv6)
    requires n < 32
    ensures Value(Up(1, n)) == Power2(n as int)
    decreases n as int
  {
    if n == 0 {
      assert Up(1, n) == 1;
      OneBit(1);
    } else {
      OneUp(n);
      ValueHalves(Up(1, n));
      PowerIs(n - 1);
    }
  }

  lemma FlipClears(t: Word)
    requires !(t < 0x8000_0000)
    ensures Flip(t) < 0x8000_0000 && Flip(t) + 0x8000_0000 + 0 == t
  {}

  lemma HighHalf()
    ensures Value(0x8000_0000) == 0x8000_0000
  {
    PowerIs(31);
    Powers();
    assert Up(1, 31) == 0x8000_0000;
  }

  lemma HighBit(t: Word)
    requires Value(t) >= 0x8000_0000
    ensures Value(Flip(t)) == Value(t) - 0x8000_0000
  {
    ValueBelow(t);
    FlipClears(t);
    ValueBelow(Flip(t));
    HighHalf();
    ColumnsExact(Flip(t), 0x8000_0000, 0);
    ColumnsAdd(Flip(t), 0x8000_0000, 0);
  }

  /** Doubling loses the highest bit. */
  lemma DoubledModulo(t: Word, e: Word)
    requires e <= 1
    ensures Value(Twice(t, e)) == (2 * Value(t) + Digit(e)) % 0x1_0000_0000
  {
    ValueBelow(t);
    if Value(t) < 0x8000_0000 {
      Doubled(t, e);
    } else {
      TwiceFlipped(t, e);
      HighBit(t);
      Doubled(Flip(t), e);
    }
  }

  // ---- addition in columns is addition ----

  predicate FullAdder(a: Word, b: Word, c: Word, d: Word, e: Word)
  {
    a <= 1 && b <= 1 && c <= 1 && d == Carry(a, b, c) && e == Parity(a, b, c) && e <= 1
  }

  lemma Regrouped(x: Word, y: Word, a: Word, b: Word, c: Word, d: Word, e: Word)
    requires FullAdder(a, b, c, d, e)
    ensures (2 * x + a) + (2 * y + b) + c == 2 * (x + y + d) + e
  {}

  function Plus(x: Word, y: Word, c: Word): Word { x + y + c }

  lemma PlusOfSums(x: Word, y: Word, a: Word, b: Word, c: Word, d: Word, e: Word)
    requires FullAdder(a, b, c, d, e)
    ensures Plus(2 * x + a, 2 * y + b, c) == 2 * (x + y + d) + e
  {
    Regrouped(x, y, a, b, c, d, e);
  }

  lemma TwiceOfSum(x: Word, y: Word, d: Word, e: Word)
    ensures Twice(x + y + d, e) == 2 * (x + y + d) + e
  {}

  lemma PlusIsTwice(x: Word, y: Word, a: Word, b: Word, c: Word, d: Word, e: Word)
    requires FullAdder(a, b, c, d, e)
    ensures Plus(2 * x + a, 2 * y + b, c) == Twice(x + y + d, e)
  {
    PlusOfSums(x, y, a, b, c, d, e);
    TwiceOfSum(x, y, d, e);
  }

  lemma TwiceOfPlus(x: Word, y: Word, d: Word, e: Word)
    ensures Twice(x + y + d, e) == Twice(Plus(x, y, d), e)
  {}

  lemma TwoColumns(x: Word, y: Word, a: Word, b: Word, c: Word, d: Word, e: Word)
    requires FullAdder(a, b, c, d, e)
    ensures Plus(2 * x + a, 2 * y + b, c) == Twice(Plus(x, y, d), e)
  {
    PlusIsTwice(x, y, a, b, c, d, e);
    TwiceOfPlus(x, y, d, e);
  }

  lemma Column(x: Word, y: Word, c: Word, d: Word, e: Word)
    requires FullAdder(LowBit(x), LowBit(y), c, d, e)
    ensures Plus(x, y, c) == Twice(Plus(Half(x), Half(y), d), e)
  {
    SplitUp(x);
    SplitUp(y);
    TwoColumns(Half(x), Half(y), LowBit(x), LowBit(y), c, d, e);
  }

  lemma {:induction false} ColumnsAdd(x: Word, y: Word, c: Word)
    requires c <= 1
    ensures Columns(x, y, c) == Plus(x, y, c)
    decreases Value(x) + Value(y)
  {
    if x == 0 && y == 0 {
    } else {
      var a, b := LowBit(x), LowBit(y);
      NotZero(x);
      NotZero(y);
      ValueHalves(x);
      ValueHalves(y);
      BitsAdd(a, b, c);
      ColumnsAdd(Half(x), Half(y), Carry(a, b, c));
      Column(x, y, c, Carry(a, b, c), Parity(a, b, c));
    }
  }

  lemma PlusIs(x: Word, y: Word, c: Word)
    ensures Plus(x, y, c) == x + y + c
  {}

  lemma NoCarry(x: Word, y: Word)
    ensures Plus(x, y, 0) == x + y
  {
    PlusIs(x, y, 0);
  }

  lemma SumIsPlus(x: Word, y: Word)
    ensures Sum(x, y) == Plus(x, y, 0)
  {
    NoCarry(x, y);
  }

  /** Sum is addition modulo 2^32. */
  lemma SumIsModulo(x: Word, y: Word)
    ensures Value(Sum(x, y)) == (Value(x) + Value(y)) % 0x1_0000_0000
  {
    var a, b := LowBit(x), LowBit(y);
    var d, e := Carry(a, b, 0), Parity(a, b, 0);
    BitsAdd(a, b, 0);
    SumIsPlus(x, y);
    Column(x, y, 0, d, e);
    ValueHalves(x);
    ValueHalves(y);
    ValueBelow(x);
    ValueBelow(y);
    ColumnsExact(Half(x), Half(y), d);
    ColumnsAdd(Half(x), Half(y), d);
    DoubledModulo(Columns(Half(x), Half(y), d), e);
  }

  // ---- rotation ----

  lemma DoubleModulo(m: nat)
    ensures 2 * (m % 0x1_0000_0000) % 0x1_0000_0000 == 2 * m % 0x1_0000_0000
  {
    var q, r := m / 0x1_0000_0000, m % 0x1_0000_0000;
    var c := if 2 * r >= 0x1_0000_0000 then 1 else 0;
    QuotientIs(2 * r, 0x1_0000_0000, c, 2 * r - 0x1_0000_0000 * c);
    QuotientIs(2 * m, 0x1_0000_0000, 2 * q + c, 2 * r - 0x1_0000_0000 * c);
  }

  lemma DoubleProduct(v: nat, p: nat)
    ensures 2 * (v * p % 0x1_0000_0000) % 0x1_0000_0000 == v * (2 * p) % 0x1_0000_0000
  {
    DoubleModulo(v * p);
    assert v * (2 * p) == 2 * (v * p);
  }

  lemma DoubledUp(w: Word, v: nat, p: nat)
    requires Value(w) == v * p % 0x1_0000_0000
    ensures Value(Twice(w, 0)) == v * (2 * p) % 0x1_0000_0000
  {
    DoubledModulo(w, 0);
    DoubleProduct(v, p);
  }

  lemma {:induction false} UpIs(x: Word, n: bv6)
    requires n < 32
    ensures Value(Up(x, n)) == Value(x) * Power2(n as int) % 0x1_0000_0000
    decreases n as int
  {
    ValueBelow(x);
    if n == 0 {
      NoShift(x);
    } else {
      Shifts(x, n);
      OneLess(n);
      UpIs(x, n - 1);
      DoubledUp(Up(x, n - 1), Value(x), Power2(n as int - 1));
    }
  }

  lemma RotationOr(x: Word, n: bv6)
    requires 0 < n < 32
    ensures (x << n) | (x >> (32 - n)) == (x << n) + (x >> (32 - n))
  {}

  lemma RotationSum(x: Word, n: bv6)
    requires 0 < n < 32
    ensures Sum(x << n, x >> (32 - n)) == (x << n) + (x >> (32 - n))
  {}

  lemma RotationAdds(x: Word, n: bv6)
    requires 0 < n < 32
    ensures RotateLeft(x, n) == Sum(Up(x, n), Down(x, 32 - n))
  {
    RotationOr(x, n);
    RotationSum(x, n);
  }

  lemma {:induction false} PowersMultiply(a: nat, b: nat)
    ensures Power2(a) * Power2(b) == Power2(a + b)
  {
    if a > 0 {
      PowersMultiply(a - 1, b);
    }
  }

  lemma Products(h: nat, p: nat, q: nat)
    ensures h >= p ==> h * q >= p * q
  {}

  lemma NoOverlap(v: nat, p: nat, q: nat)
    requires p > 0 && q > 0 && p * q == 0x1_0000_0000 && v < 0x1_0000_0000
    ensures v * p % 0x1_0000_0000 + v / q < 0x1_0000_0000
  {
    var h, r := v / q, v % q;
    assert v * p == h * (p * q) + r * p;
    Products(q - 1, r, p);
    assert (q - 1) * p == 0x1_0000_0000 - p;
    QuotientIs(v * p, 0x1_0000_0000, h, r * p);
    Products(h, p, q);
  }

  lemma ShiftsDoNotOverlap(v: nat, n: nat)
    requires n <= 32 && v < 0x1_0000_0000
    ensures v * Power2(n) % 0x1_0000_0000 + v / Power2(32 - n) < 0x1_0000_0000
  {
    Powers();
    PowersMultiply(n, 32 - n);
    NoOverlap(v, Power2(n), Power2(32 - n));
  }

  lemma SumOfShifts(x: Word, y: Word, a: nat, b: nat)
    requires Value(x) == a && Value(y) == b && a + b < 0x1_0000_0000
    ensures Value(Sum(x, y)) == a + b
  {
    SumIsModulo(x, y);
  }

  /** Rotation in numbers: what leaves at the top comes back below. */
  lemma RotationIs(x: Word, n: bv6)
    requires 0 < n < 32
    ensures Value(RotateLeft(x, n)) ==
      Value(x) * Power2(n as int) % 0x1_0000_0000 + Value(x) / Power2(32 - n as int)
  {
    OneLess(n);
    RotationFrom(x, n, n as int, Value(x));
  }

  lemma RotationFrom(x: Word, n: bv6, m: nat, v: nat)
    requires 0 < n < 32 && m == n as int && (32 - n) as int == 32 - m && v == Value(x)
    ensures Value(RotateLeft(x, n)) == v * Power2(m) % 0x1_0000_0000 + v / Power2(32 - m)
  {
    RotationAdds(x, n);
    ShiftsAdd(x, n, 32 - n, m, v);
  }

  lemma ShiftsAdd(x: Word, n: bv6, k: bv6, m: nat, v: nat)
    requires 0 < n < 32 && 0 < k < 32 && m == n as int && k as int == 32 - m && v == Value(x)
    ensures Value(Sum(Up(x, n), Down(x, k))) == v * Power2(m) % 0x1_0000_0000 + v / Power2(32 - m)
  {
    ValueBelow(x);
    ShiftsDoNotOverlap(v, m);
    UpBy(x, n, m);
    DownBy(x, k, 32 - m);
    SumOfShifts(Up(x, n), Down(x, k), v * Power2(m) % 0x1_0000_0000, v / Power2(32 - m));
  }

  lemma UpBy(x: Word, n: bv6, m: nat)
    requires n < 32 && m == n as int
    ensures Value(Up(x, n)) == Value(x) * Power2(m) % 0x1_0000_0000
  {
    UpIs(x, n);
  }

  lemma DownBy(x: Word, n: bv6, m: nat)
    requires n < 32 && m == n as int
    ensures Value(Down(x, n)) == Value(x) / Power2(m)
  {
    DownIs(x, n);
  }

  // ---- bytes ----

  lemma TwiceIs(t: Word, e: Word)
    requires e <= 1
    ensures (t << 1) | e == 2 * t + e
  {}

  lemma CastOf(n: nat, t: Word, e: Word)
    requires n > 0 && t == Cast(n / 2) && e == if n % 2 == 1 then 1 else 0
    ensures Cast(n) == Twice(t, e)
  {
    TwiceIs(t, e);
  }

  /** A cast to UINT4 keeps the number. */
  lemma {:induction false} CastIs(n: nat)
    requires n < 0x1_0000_0000
    ensures Value(Cast(n)) == n
  {
    if n > 0 {
      CastIs(n / 2);
      CastOf(n, Cast(n / 2), if n % 2 == 1 then 1 else 0);
      Doubled(Cast(n / 2), if n % 2 == 1 then 1 else 0);
    }
  }

  function LowEight(w: Word): Word { w & 0xFF }

  lemma SameLow(w: Word, k: bv6)
    requires k < 8
    ensures Low(Down(w, k)) == Low(Down(LowEight(w), k))
  {}

  lemma NoneLeft(w: Word)
    ensures Down(LowEight(w), 8) == 0
  {}

  lemma OneMore(k: bv6)
    requires k < 8
    ensures (k + 1) as int == k as int + 1 && k + 1 - 1 == k
  {}

  lemma DoubleTerm(p: nat, v: nat)
    ensures 2 * (p * v) == (2 * p) * v
  {}

  lemma {:induction false} LowByteFrom(w: Word, k: bv6, p: nat)
    requires k <= 8 && p == Power2(8 - k as int)
    ensures Value(Down(w, k)) == p * Value(Down(w, 8)) + Value(Down(LowEight(w), k))
    decreases 8 - k as int
  {
    if k == 8 {
      NoneLeft(w);
    } else {
      OneMore(k);
      SameLow(w, k);
      Shifts(w, k + 1);
      Shifts(LowEight(w), k + 1);
      ValueHalves(Down(w, k));
      ValueHalves(Down(LowEight(w), k));
      LowByteFrom(w, k + 1, p / 2);
      DoubleTerm(p / 2, Value(Down(w, 8)));
    }
  }

  lemma LowByte(w: Word)
    ensures Value(w) == 256 * Value(Down(w, 8)) + Value(LowEight(w))
  {
    NoShift(w);
    NoShift(LowEight(w));
    assert Power2(8) == 256;
    LowByteFrom(w, 0, 256);
  }

  lemma Peeled(b0: Word, b1: Word, b2: Word, b3: Word)
    requires b0 <= 0xFF && b1 <= 0xFF && b2 <= 0xFF && b3 <= 0xFF
    ensures Down(Join(b0, b1, b2, b3), 8) == Join(b1, b2, b3, 0) && LowEight(Join(b0, b1, b2, b3)) == b0
  {}

  lemma JoinIs(b0: Word, b1: Word, b2: Word, b3: Word)
    requires b0 <= 0xFF && b1 <= 0xFF && b2 <= 0xFF && b3 <= 0xFF
    ensures Value(Join(b0, b1, b2, b3)) == Value(b0) + 256 * Value(Join(b1, b2, b3, 0))
  {
    Peeled(b0, b1, b2, b3);
    LowByte(Join(b0, b1, b2, b3));
  }

  lemma NoBytes()
    ensures Join(0, 0, 0, 0) == 0 && Value(0) == 0
  {}

  lemma FourBytesIs(b0: Word, b1: Word, b2: Word, b3: Word)
    requires b0 <= 0xFF && b1 <= 0xFF && b2 <= 0xFF && b3 <= 0xFF
    ensures Value(Join(b0, b1, b2, b3)) ==
      Value(b0) + 256 * (Value(b1) + 256 * (Value(b2) + 256 * Value(b3)))
  {
    JoinIs(b0, b1, b2, b3);
    JoinIs(b1, b2, b3, 0);
    JoinIs(b2, b3, 0, 0);
    JoinIs(b3, 0, 0, 0);
    NoBytes();
  }

  lemma NothingAbove(w: Word)
    requires Down(w, 8) == 0
    ensures w <= 0xFF
  {}

  lemma CastByte(b: byte)
    ensures Cast(b) <= 0xFF && Value(Cast(b)) == b
  {
    CastIs(b);
    DownIs(Cast(b), 8);
    assert Power2(8) == 256;
    NotZero(Down(Cast(b), 8));
    NothingAbove(Cast(b));
  }

  /** A word read from four bytes is the number they stand for on a little-endian machine. */
  lemma WordOfIs(b: seq<byte>)
    requires |b| == 4
    ensures Value(WordOf(b)) == Number(b)
  {
    CastByte(b[0]);
    CastByte(b[1]);
    CastByte(b[2]);
    CastByte(b[3]);
    FourBytesIs(Cast(b[0]), Cast(b[1]), Cast(b[2]), Cast(b[3]));
    WordOfDigits(b);
  }

  /** The word of the bytes of a number is the number, cast. */
  lemma CastOfBytes(n: u32)
    ensures WordOf(Bytes32(n)) == Cast(n)
  {
    WordOfIs(Bytes32(n));
    assert Power(4) == 0x1_0000_0000;
    NumberOfPut(n, 4);
    CastIs(n);
    ValueDiffers(WordOf(Bytes32(n)), Cast(n));
  }

  lemma Rejoined(w: Word)
    ensures Join(LowEight(w), LowEight(Down(w, 8)), LowEight(Down(w, 16)), LowEight(Down(w, 24))) == w
    ensures LowEight(w) <= 0xFF && LowEight(Down(w, 8)) <= 0xFF && LowEight(Down(w, 16)) <= 0xFF
    ensures LowEight(Down(w, 24)) <= 0xFF
  {}

  /** The bytes of a word, written out, are its number again. */
  lemma BytesOfIs(w: Word)
    ensures Number(BytesOf(w)) == Value(w)
  {
    Rejoined(w);
    FourBytesIs(LowEight(w), LowEight(Down(w, 8)), LowEight(Down(w, 16)), LowEight(Down(w, 24)));
    WordOfDigits(BytesOf(w));
  }
}
