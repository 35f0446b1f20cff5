/** Byte strings, the C library conversions the codecs share, and facts about sequences. */
module Bytes {

  type byte = x: int | 0 <= x < 256

  const CR: byte := 13
  const LF: byte := 10

  /** Conversion to a 32-bit unsigned int. */
  function U32(x: int): (r: nat)
    ensures r < 0x1_0000_0000
    ensures 0 <= x < 0x1_0000_0000 ==> r == x
  {
    x % 0x1_0000_0000
  }

  function Flatten<T>(parts: seq<seq<T>>): (s: seq<T>)
  {
    if parts == [] then [] else parts[0] + Flatten(parts[1..])
  }

  lemma Assoc<T>(a: seq<T>, b: seq<T>, c: seq<T>)
    ensures a + b + c == a + (b + c)
  {}

  lemma TailConcat<T>(a: seq<T>, b: seq<T>)
    requires a != []
    ensures (a + b)[0] == a[0] && (a + b)[1..] == a[1..] + b
  {}

  lemma CutTail<T>(s: seq<T>, i: nat)
    requires 0 < i < |s|
    ensures (s[..i] + s[i + 1..])[0] == s[0] && (s[..i] + s[i + 1..])[1..] == s[1..][..i - 1] + s[1..][i..]
  {}

  lemma DropConcat<T>(a: seq<T>, b: seq<T>, k: nat)
    requires k <= |b|
    ensures (a + b)[|a| + k..] == b[k..]
  {}

  lemma LessLast<T>(a: seq<T>, b: seq<T>, x: T)
    ensures var t := a + (b + [x]); t != [] && t[..|t| - 1] == a + b
  {}

  lemma Regroup<T>(a: seq<T>, b: seq<T>, n: nat, c: seq<T>, d: seq<T>)
    requires n <= |b|
    ensures a + b + c + d == a + b[..n] + (b[n..] + c + d)
  {}

  lemma {:induction false} FlattenAppend<T>(a: seq<seq<T>>, b: seq<seq<T>>)
    ensures Flatten(a + b) == Flatten(a) + Flatten(b)
  {
    if a == [] {
      assert a + b == b;
    } else {
      TailConcat(a, b);
      FlattenAppend(a[1..], b);
      Assoc(a[0], Flatten(a[1..]), Flatten(b));
    }
  }

  function Min(a: nat, b: nat): nat
  {
    if a <= b then a else b
  }

  /** A list without an element. */
  function Without<T(==)>(s: seq<T>, x: T): (r: seq<T>)
    ensures x !in s ==> r == s
  {
    if s == [] then [] else if s[0] == x then Without(s[1..], x) else [s[0]] + Without(s[1..], x)
  }

  lemma {:induction false} WithoutHolds<T>(s: seq<T>, x: T)
    ensures forall y :: y in Without(s, x) <==> y in s && y != x
    ensures x in s ==> |Without(s, x)| < |s|
  {
    if s != [] {
      WithoutHolds(s[1..], x);
    }
  }

  lemma {:induction false} WithoutAt<T>(s: seq<T>, k: nat)
    requires k < |s| && forall i :: 0 <= i < |s| && i != k ==> s[i] != s[k]
    ensures Without(s, s[k]) == s[..k] + s[k + 1..]
  {
    if k > 0 {
      WithoutAt(s[1..], k - 1);
      assert s[..k] == [s[0]] + s[1..][..k - 1];
      Assoc([s[0]], s[1..][..k - 1], s[k + 1..]);
    }
  }

  // ---- division ----

  lemma Multiples(k: int, d: int)
    requires d > 0
    ensures k >= 1 ==> k * d >= d
    ensures k <= -1 ==> k * d <= -d
  {}

  lemma QuotientIs(v: int, d: int, h: int, r: int)
    requires 0 <= r < d && v == h * d + r
    ensures v / d == h && v % d == r
  {
    var k := v / d - h;
    assert k * d == r - v % d;
    Multiples(k, d);
  }

  /** Dividing twice is dividing by the product. */
  lemma QuotientTwice(v: nat, a: nat, b: nat)
    requires a > 0 && b > 0
    ensures v / a / b == v / (b * a)
  {
    var q := v / a;
    var h, t := q / b, q % b;
    assert v == (h * b + t) * a + v % a;
    assert (h * b + t) * a == h * (b * a) + t * a;
    SmallerProduct(t, b, a);
    QuotientIs(v, b * a, h, t * a + v % a);
  }

  lemma SmallerProduct(t: nat, b: nat, a: nat)
    requires t < b && a > 0
    ensures t * a + a <= b * a && 0 <= t * a
  {
    var k := b - t - 1;
    assert b * a == t * a + a + k * a;
  }

  // ---- C strings ----

  /** What is before the first `c`, or everything. */
  function Before<T(==)>(s: seq<T>, c: T): (r: seq<T>)
    ensures r <= s && c !in r && (c !in s ==> r == s)
    ensures c in s ==> |r| < |s| && s[|r|] == c
  {
    if s == [] || s[0] == c then [] else [s[0]] + Before(s[1..], c)
  }

  /** The C string in a buffer. */
  function CStr(s: seq<byte>): seq<byte>
  {
    Before(s, 0)
  }

  // ---- numbers as a little-endian machine stores them ----

  type u32 = x: int | 0 <= x < 0x1_0000_0000

  function Power(width: nat): (p: nat)
    ensures p > 0
  {
    if width == 0 then 1 else 256 * Power(width - 1)
  }

  /** Low-order byte first. */
  function PutNumber(n: nat, width: nat): (s: seq<byte>)
    ensures |s| == width
  {
    if width == 0 then [] else [n % 256] + PutNumber(n / 256, width - 1)
  }

  function Number(s: seq<byte>): nat
  {
    if s == [] then 0 else s[0] as int + 256 * Number(s[1..])
  }

  lemma {:induction false} NumberOfPut(n: nat, width: nat)
    requires n < Power(width)
    ensures Number(PutNumber(n, width)) == n
  {
    if width > 0 {
      assert PutNumber(n, width)[1..] == PutNumber(n / 256, width - 1);
      NumberOfPut(n / 256, width - 1);
    }
  }

  /** Byte i of a number is worth 256^i. */
  lemma {:induction false} PutDigit(n: nat, width: nat, i: nat, e: nat)
    requires i < width && e == n / Power(i)
    ensures PutNumber(n, width)[i] == e % 256
    decreases width
  {
    if i > 0 {
      QuotientTwice(n, 256, Power(i - 1));
      ShiftDigit(n, i, e);
      PutDigit(n / 256, width - 1, i - 1, e);
    }
  }

  lemma ShiftDigit(n: nat, i: nat, e: nat)
    requires i > 0 && e == n / Power(i)
    ensures e == n / 256 / Power(i - 1)
  {
    QuotientTwice(n, 256, Power(i - 1));
  }

  function Bytes32(x: u32): (s: seq<byte>)
    ensures |s| == 4
  {
    PutNumber(x, 4)
  }

  function Word(b: seq<byte>, at: nat): u32
    requires at + 4 <= |b|
  {
    WordOfDigits(b[at..at + 4]);
    Number(b[at..at + 4])
  }

  lemma WordOfDigits(w: seq<byte>)
    requires |w| == 4
    ensures Number(w) == (w[0] as int) + 256 * (w[1] as int) + 65536 * (w[2] as int) + 16777216 * (w[3] as int)
  {
    assert w[3..][1..] == [];
    assert w[2..][1..] == w[3..];
    assert w[1..][1..] == w[2..];
    assert Number(w[2..]) == w[2] as int + 256 * Number(w[3..]);
    assert Number(w[1..]) == w[1] as int + 256 * Number(w[2..]);
  }

  lemma WordOfBytes(b: seq<byte>, at: nat, x: u32)
    requires at + 4 <= |b| && b[at..at + 4] == Bytes32(x)
    ensures Word(b, at) == x
  {
    assert Power(4) == 0x1_0000_0000;
    NumberOfPut(x, 4);
  }

  // ---- lines ----

  /** Position of the first line feed at or after `from`, or |s| when there is none. */
  function NextLF(s: seq<byte>, from: nat): (i: nat)
    requires from <= |s|
    ensures from <= i <= |s|
    ensures forall j :: from <= j < i ==> s[j] != LF
    ensures i < |s| ==> s[i] == LF
    decreases |s| - from
  {
    if from == |s| || s[from] == LF then from
    else
      NextLF(s, from + 1)
  }

  /** A line without the carriage return that may end it. */
  function DropCR(line: seq<byte>): seq<byte>
  {
    if line != [] && line[|line| - 1] == CR then line[..|line| - 1] else line
  }

  // ---- hexadecimal numbers: what "%x" reads and writes ----

  predicate IsSpace(b: byte) { 9 <= b <= 13 || b == 32 }

  predicate IsHex(b: byte) { 48 <= b <= 57 || 65 <= b <= 70 || 97 <= b <= 102 }

  function HexValue(b: byte): (v: nat)
    requires IsHex(b)
    ensures v < 16
  {
    if b <= 57 then b - 48 else if b <= 70 then b - 55 else b - 87
  }

  function HexChar(v: nat): (b: byte)
    requires v < 16
    ensures IsHex(b) && HexValue(b) == v
  {
    if v < 10 then 48 + v else 87 + v
  }

  /** Length of the longest prefix of hexadecimal digits. */
  function HexRun(s: seq<byte>): (n: nat)
    ensures n <= |s|
    ensures forall i :: 0 <= i < n ==> IsHex(s[i])
    ensures n < |s| ==> !IsHex(s[n])
  {
    if s == [] || !IsHex(s[0]) then 0 else 1 + HexRun(s[1..])
  }

  /** The number a string of hexadecimal digits denotes. */
  function HexNumber(s: seq<byte>): (v: nat)
    requires forall i :: 0 <= i < |s| ==> IsHex(s[i])
  {
    if s == [] then 0 else 16 * HexNumber(s[..|s| - 1]) + HexValue(s[|s| - 1])
  }

  /** sprintf("%x", n) */
  function PrintHex(n: nat): (s: seq<byte>)
    ensures |s| > 0 && forall i :: 0 <= i < |s| ==> IsHex(s[i])
    ensures HexNumber(s) == n && (n > 0 ==> s[0] != 48)
  {
    if n < 16 then
      assert [HexChar(n)][..0] == [];
      [HexChar(n)]
    else
      var r := PrintHex(n / 16) + [HexChar(n % 16)];
      assert r[..|r| - 1] == PrintHex(n / 16);
      r
  }

  function SkipSpace(s: seq<byte>): seq<byte>
  {
    if s != [] && IsSpace(s[0]) then SkipSpace(s[1..]) else s
  }

  /** The number at the start, behind 0x or not. */
  function Prefixed(u: seq<byte>): nat
  {
    var w := if |u| >= 2 && u[0] == 48 && (u[1] == 120 || u[1] == 88) then u[2..] else u;
    HexNumber(w[..HexRun(w)])
  }

  /** sscanf(s, "%x", &n) into a 32-bit n preset to 0: leading white space, a sign
      and a 0x prefix are accepted; the end of `s` and a NUL byte both stop it. */
  function ScanHex(s: seq<byte>): (v: nat)
    ensures v < 0x1_0000_0000
  {
    var t := SkipSpace(s);
    var neg := t != [] && t[0] == 45;
    var u := if t != [] && (t[0] == 45 || t[0] == 43) then t[1..] else t;
    var n: int := Prefixed(u);
    if neg then U32(-n) else U32(n)
  }

  /** Reading a number does not look past the first byte that is not a digit. */
  lemma {:induction false} HexRunPrefix(s: seq<byte>, n: nat)
    requires n <= |s| && (forall i :: 0 <= i < n ==> IsHex(s[i])) && (n < |s| ==> !IsHex(s[n]))
    ensures HexRun(s) == n
  {
    if n > 0 {
      HexRunPrefix(s[1..], n - 1);
    }
  }

  lemma {:induction false} SkipSpacePrefix(junk: seq<byte>, s: seq<byte>)
    requires forall i :: 0 <= i < |junk| ==> IsSpace(junk[i])
    requires s != [] && !IsSpace(s[0])
    ensures SkipSpace(junk + s) == s
  {
    if junk == [] {
      assert junk + s == s;
    } else {
      SkipSpacePrefix(junk[1..], s);
      assert (junk + s)[1..] == junk[1..] + s;
    }
  }

  /** Scanning white space, digits and a separator gives the number the digits denote. */
  lemma {:induction false} ScanHexReads(junk: seq<byte>, digits: seq<byte>, rest: seq<byte>)
    requires forall i :: 0 <= i < |junk| ==> IsSpace(junk[i])
    requires digits != [] && forall i :: 0 <= i < |digits| ==> IsHex(digits[i])
    requires rest != [] ==> !IsHex(rest[0]) && rest[0] != 120 && rest[0] != 88
    requires HexNumber(digits) < 0x1_0000_0000
    ensures ScanHex(junk + digits + rest) == HexNumber(digits)
  {
    var t := digits + rest;
    assert t[0] == digits[0];
    assert junk + digits + rest == junk + t;
    SkipSpacePrefix(junk, t);
    HexRunPrefix(t, |digits|);
    assert t[..|digits|] == digits;
  }

  // ---- the digits, in either case ----

  const UPPER := "0123456789ABCDEF"
  const LOWER := "0123456789abcdef"

  lemma DigitValue(v: nat)
    requires v < 16
    ensures IsHex(UPPER[v] as int) && HexValue(UPPER[v] as int) == v
    ensures IsHex(LOWER[v] as int) && HexValue(LOWER[v] as int) == v
  {
    if v < 10 {
      assert UPPER[v] as int == 48 + v && LOWER[v] as int == 48 + v;
    } else {
      assert UPPER[v] as int == 55 + v && LOWER[v] as int == 87 + v;
    }
  }

  /** There are no other digits. */
  lemma OnlyDigits(b: byte)
    requires IsHex(b)
    ensures b == UPPER[HexValue(b)] as int || b == LOWER[HexValue(b)] as int
  {
    DigitValue(HexValue(b));
  }

  predicate AllHex(s: seq<byte>)
  {
    forall i :: 0 <= i < |s| ==> IsHex(s[i])
  }

  function UpperByte(b: byte): byte
  {
    if 97 <= b <= 102 then b - 32 else b
  }

  function Upper(s: seq<byte>): (t: seq<byte>)
    ensures |t| == |s| && forall i :: 0 <= i < |s| ==> t[i] == UpperByte(s[i])
  {
    if s == [] then [] else Upper(s[..|s| - 1]) + [UpperByte(s[|s| - 1])]
  }

  /** Digits that differ in case alone denote the same number. */
  lemma UpperPrefix(s: seq<byte>)
    requires s != []
    ensures Upper(s) == Upper(s[..|s| - 1]) + [UpperByte(s[|s| - 1])]
  {}

  lemma SameDigit(a: byte, b: byte)
    requires IsHex(a) && UpperByte(b) == UpperByte(a)
    ensures IsHex(b) && HexValue(b) == HexValue(a)
  {}

  lemma {:induction false} CaseIgnored(s: seq<byte>, t: seq<byte>)
    requires AllHex(s) && Upper(t) == Upper(s)
    ensures AllHex(t) && HexNumber(t) == HexNumber(s)
  {
    assert |s| == |t|;
    if s != [] {
      var m := |s| - 1;
      UpperPrefix(s);
      UpperPrefix(t);
      assert Upper(s[..m]) == Upper(s)[..m] == Upper(t)[..m] == Upper(t[..m]);
      assert UpperByte(s[m]) == Upper(s)[m] == Upper(t)[m] == UpperByte(t[m]);
      SameDigit(s[m], t[m]);
      CaseIgnored(s[..m], t[..m]);
    }
  }

  function Power16(k: nat): (p: nat)
    ensures p > 0
  {
    if k == 0 then 1 else 16 * Power16(k - 1)
  }

  lemma TimesSixteen(v: nat, p: nat)
    ensures 16 * (v * p) == v * (16 * p)
  {}

  /** The k-th digit from the right is worth 16^k. */
  lemma {:induction false} HexPositions(b: byte, s: seq<byte>)
    requires IsHex(b) && AllHex(s)
    ensures AllHex([b] + s) && HexNumber([b] + s) == HexValue(b) * Power16(|s|) + HexNumber(s)
  {
    var t := [b] + s;
    if s == [] {
      assert t[..0] == [] && HexNumber(t) == HexValue(b);
    } else {
      var m := |s| - 1;
      HexPositions(b, s[..m]);
      assert t[..|t| - 1] == [b] + s[..m];
      TimesSixteen(HexValue(b), Power16(m));
    }
  }

  /** The k-th digit that "%x" prints, from the right. */
  lemma {:induction false} PrintedDigit(n: nat, k: nat, e: nat)
    requires k < |PrintHex(n)| && e == n / Power16(k)
    ensures PrintHex(n)[|PrintHex(n)| - 1 - k] == LOWER[e % 16] as int
    decreases k
  {
    if k == 0 {
      LastPrinted(n);
    } else {
      var m := n / 16;
      DivideFurther(n, m, k);
      DigitsBefore(n, m, k);
      PrintedDigit(m, k - 1, e);
    }
  }

  lemma LastPrinted(n: nat)
    ensures n / Power16(0) == n && PrintHex(n)[|PrintHex(n)| - 1] == LOWER[n % 16] as int
  {
    LowerDigit(n % 16);
  }

  lemma DivideFurther(n: nat, m: nat, k: nat)
    requires k > 0 && m == n / 16
    ensures m / Power16(k - 1) == n / Power16(k)
  {
    QuotientTwice(n, 16, Power16(k - 1));
  }

  lemma DigitsBefore(n: nat, m: nat, k: nat)
    requires 0 < k < |PrintHex(n)| && m == n / 16
    ensures k - 1 < |PrintHex(m)|
    ensures PrintHex(n)[|PrintHex(n)| - 1 - k] == PrintHex(m)[|PrintHex(m)| - 1 - (k - 1)]
  {}

  lemma LowerDigit(v: nat)
    requires v < 16
    ensures HexChar(v) == LOWER[v] as int
  {}

  /** What "%x" reads, in either case, after white space and before anything that is no digit. */
  lemma ScanHexAnyCase(junk: seq<byte>, n: u32, digits: seq<byte>, rest: seq<byte>)
    requires forall i :: 0 <= i < |junk| ==> IsSpace(junk[i])
    requires Upper(digits) == Upper(PrintHex(n))
    requires rest != [] ==> !IsHex(rest[0]) && rest[0] != 120 && rest[0] != 88
    ensures ScanHex(junk + digits + rest) == n
  {
    CaseIgnored(PrintHex(n), digits);
    assert |digits| == |Upper(digits)| == |PrintHex(n)|;
    ScanHexReads(junk, digits, rest);
  }

  lemma AfterSpace(junk: seq<byte>, t: seq<byte>)
    requires (forall i :: 0 <= i < |junk| ==> IsSpace(junk[i])) && t != [] && !IsSpace(t[0])
    ensures ScanHex(junk + t) == ScanHex(t)
  {
    SkipSpacePrefix(junk, t);
    assert SkipSpace(t) == t;
  }

  lemma Negated(n: int)
    ensures U32(0 - U32(n)) == U32(-n)
  {
    var q := n / 0x1_0000_0000;
    assert -n == 0 - U32(n) - 0x1_0000_0000 * q;
  }

  lemma AfterSign(sign: seq<byte>, u: seq<byte>)
    requires (sign == [43] || sign == [45]) && u != [] && !IsSpace(u[0]) && u[0] != 43 && u[0] != 45
    ensures ScanHex(sign + u) == if sign == [45] then U32(0 - ScanHex(u)) else ScanHex(u)
  {
    assert (sign + u)[1..] == u && SkipSpace(sign + u) == sign + u && SkipSpace(u) == u;
    Negated(Prefixed(u));
  }

  lemma AfterPrefix(prefix: seq<byte>, digits: seq<byte>, rest: seq<byte>)
    requires prefix == [48, 120] || prefix == [48, 88]
    requires digits != [] && AllHex(digits) && HexNumber(digits) < 0x1_0000_0000 && (rest != [] ==> !IsHex(rest[0]))
    ensures ScanHex(prefix + (digits + rest)) == HexNumber(digits)
  {
    var w := digits + rest;
    HexRunPrefix(w, |digits|);
    assert w[..|digits|] == digits && (prefix + w)[2..] == w;
    assert SkipSpace(prefix + w) == prefix + w;
  }

  /** A sign and a 0x before the digits: "%x" reads them too. */
  lemma ScanHexSigned(junk: seq<byte>, sign: seq<byte>, prefix: seq<byte>, digits: seq<byte>, rest: seq<byte>)
    requires forall i :: 0 <= i < |junk| ==> IsSpace(junk[i])
    requires sign == [43] || sign == [45]
    requires prefix == [48, 120] || prefix == [48, 88]
    requires digits != [] && AllHex(digits) && HexNumber(digits) < 0x1_0000_0000 && (rest != [] ==> !IsHex(rest[0]))
    ensures ScanHex(junk + (sign + (prefix + (digits + rest)))) ==
      if sign == [45] && HexNumber(digits) > 0 then 0x1_0000_0000 - HexNumber(digits) else HexNumber(digits)
  {
    AfterPrefix(prefix, digits, rest);
    SignAndNumber(junk, sign, prefix + (digits + rest), HexNumber(digits));
  }

  lemma SignAndNumber(junk: seq<byte>, sign: seq<byte>, u: seq<byte>, n: u32)
    requires forall i :: 0 <= i < |junk| ==> IsSpace(junk[i])
    requires (sign == [43] || sign == [45]) && u != [] && u[0] == 48 && ScanHex(u) == n
    ensures ScanHex(junk + (sign + u)) == if sign == [45] && n > 0 then 0x1_0000_0000 - n else n
  {
    AfterSpace(junk, sign + u);
    AfterSign(sign, u);
  }
}
