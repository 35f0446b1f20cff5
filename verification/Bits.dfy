/** Masks and shifts of eight bits, as arithmetic. */
module Bits {

  lemma ThereAndBack(x: int)
    requires 0 <= x < 256
    ensures (x as bv8) as int == x
  {}

  /** Bits that do not meet are added. */
  lemma OrAdds(a: bv8, b: bv8)
    requires a & b == 0
    ensures (a | b) as int == a as int + b as int
  {}

  lemma TwoBitsClear(x: int)
    requires 0 <= x < 256 && x % 4 == 0
    ensures x as bv8 & 0x03 == 0
  {}

  lemma FourBitsClear(x: int)
    requires 0 <= x < 256 && x % 16 == 0
    ensures x as bv8 & 0x0F == 0
  {}

  lemma SixBitsClear(x: int)
    requires 0 <= x < 256 && x % 64 == 0
    ensures x as bv8 & 0x3F == 0
  {}

  lemma ShiftsDivide(v: bv8)
    requires v < 64
    ensures (v << 2) as int == v as int * 4 && (v & 0x3F) as int == v as int
    ensures ((v & 0x30) >> 4) as int == v as int / 16 && ((v & 0x0F) << 4) as int == v as int % 16 * 16
    ensures ((v & 0x3C) >> 2) as int == v as int / 4 && ((v & 0x03) << 6) as int == v as int % 4 * 64
  {}

  lemma MasksMiss(k: bv8, v: bv8)
    requires v < 64
    ensures k & 0x03 == 0 ==> k & ((v & 0x30) >> 4) == 0
    ensures k & 0x0F == 0 ==> k & ((v & 0x3C) >> 2) == 0
    ensures k & 0x3F == 0 ==> k & (v & 0x3F) == 0
  {}

  lemma Small(v: int)
    requires 0 <= v < 64
    ensures v as bv8 < 64 && (v as bv8) as int == v
  {
    ThereAndBack(v);
  }

  /** Six bits shifted up, less those that leave the byte. */
  lemma ShiftUp(v: int)
    requires 0 <= v < 64
    ensures (v as bv8 << 2) as int == v * 4
    ensures ((v as bv8 & 0x0F) << 4) as int == v % 16 * 16
    ensures ((v as bv8 & 0x03) << 6) as int == v % 4 * 64
  {
    Small(v);
    ShiftsDivide(v as bv8);
  }

  /** The high two, the high four or all of six bits, put where a byte has none. */
  method AddHighTwo(kept: int, v: int) returns (b: int)
    requires 0 <= kept < 256 && kept % 4 == 0 && 0 <= v < 64
    ensures b == kept + v / 16
  {
    ThereAndBack(kept);
    TwoBitsClear(kept);
    Small(v);
    ShiftsDivide(v as bv8);
    MasksMiss(kept as bv8, v as bv8);
    OrAdds(kept as bv8, (v as bv8 & 0x30) >> 4);
    b := (kept as bv8 | ((v as bv8 & 0x30) >> 4)) as int;
  }

  method AddHighFour(kept: int, v: int) returns (b: int)
    requires 0 <= kept < 256 && kept % 16 == 0 && 0 <= v < 64
    ensures b == kept + v / 4
  {
    ThereAndBack(kept);
    FourBitsClear(kept);
    Small(v);
    ShiftsDivide(v as bv8);
    MasksMiss(kept as bv8, v as bv8);
    OrAdds(kept as bv8, (v as bv8 & 0x3C) >> 2);
    b := (kept as bv8 | ((v as bv8 & 0x3C) >> 2)) as int;
  }

  method AddAll(kept: int, v: int) returns (b: int)
    requires 0 <= kept < 256 && kept % 64 == 0 && 0 <= v < 64
    ensures b == kept + v
  {
    ThereAndBack(kept);
    SixBitsClear(kept);
    Small(v);
    ShiftsDivide(v as bv8);
    MasksMiss(kept as bv8, v as bv8);
    OrAdds(kept as bv8, v as bv8 & 0x3F);
    b := (kept as bv8 | (v as bv8 & 0x3F)) as int;
  }
}
