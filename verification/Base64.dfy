/** Base64Decode, and the encoding of section 4 of RFC 4648 that it undoes. */
module Base64 {
  import opened Bits
  import opened Bytes
  import opened CStrings

  // ---- the alphabet ----

  type Sextet = v: int | 0 <= v < 64

  function Symbol(v: Sextet): char
  {
    if v < 26 then 'A' + v as char
    else if v < 52 then 'a' + (v - 26) as char
    else if v < 62 then '0' + (v - 52) as char
    else if v == 62 then '+' else '/'
  }

  /** Place of a character in the table, if it is there. */
  function Lookup(c: char): Option<Sextet>
  {
    if 'A' <= c <= 'Z' then Some((c - 'A') as int)
    else if 'a' <= c <= 'z' then Some((c - 'a') as int + 26)
    else if '0' <= c <= '9' then Some((c - '0') as int + 52)
    else if c == '+' then Some(62)
    else if c == '/' then Some(63)
    else None
  }

  lemma LookupSymbol(v: Sextet)
    ensures Lookup(Symbol(v)) == Some(v)
  {}

  const ALPHABET := CAPITALS + SMALL + "0123456789" + "+/"

  lemma SymbolIs(v: Sextet)
    ensures |ALPHABET| == 64 && Symbol(v) == ALPHABET[v]
  {
    if v < 26 {
      assert CAPITALS[v] as int == 65 + v;
    } else if v < 52 {
      assert SMALL[v - 26] as int == 97 + (v - 26);
    } else if v < 62 {
      assert "0123456789"[v - 52] as int == v - 4;
    }
  }

  // ---- decoding ----

  /** Whether the bits kept are where the next place in the group wants them. */
  predicate Fits(step: nat, kept: byte)
  {
    step < 4 && (step == 1 ==> kept % 4 == 0) && (step == 2 ==> kept % 16 == 0) && (step == 3 ==> kept % 64 == 0)
  }

  /** The byte completed by a character in place `step` of its group, after the digits `kept` so far. */
  function Byte(step: nat, kept: byte, v: Sextet): byte
    requires Fits(step, kept) && step > 0
  {
    if step == 1 then kept + v / 16 else if step == 2 then kept + v / 4 else kept + v
  }

  /** The digits of a character that belong to the next byte, in their place. */
  function Kept(step: nat, v: Sextet): byte
  {
    if step == 0 then v * 4 else if step == 1 then v % 16 * 16 else if step == 2 then v % 4 * 64 else 0
  }

  /** What is decoded from `s`, in the middle of a group, with room for so many bytes. */
  function DecodeFrom(s: string, step: nat, kept: byte, room: nat): (r: seq<byte>)
    requires Fits(step, kept)
    ensures |r| <= room
  {
    if s == "" || s[0] == '\0' || s[0] == '=' || room == 0 then []
    else match Lookup(s[0])
      case None => DecodeFrom(s[1..], step, kept, room)
      case Some(v) =>
        if step == 0 then DecodeFrom(s[1..], 1, Kept(0, v), room)
        else [Byte(step, kept, v)] + DecodeFrom(s[1..], (step + 1) % 4, Kept(step, v), room - 1)
  }

  // ---- encoding ----

  /** The sextets of three bytes. */
  function S0(a: byte): Sextet { a / 4 }
  function S1(a: byte, b: byte): Sextet { a % 4 * 16 + b / 16 }
  function S2(b: byte, c: byte): Sextet { b % 16 * 4 + c / 64 }
  function S3(c: byte): Sextet { c % 64 }

  function Encode(data: seq<byte>): string
  {
    if data == [] then ""
    else if |data| == 1 then [Symbol(S0(data[0])), Symbol(S1(data[0], 0)), '=', '=']
    else if |data| == 2 then
      [Symbol(S0(data[0])), Symbol(S1(data[0], data[1])), Symbol(S2(data[1], 0)), '=']
    else
      [Symbol(S0(data[0])), Symbol(S1(data[0], data[1])), Symbol(S2(data[1], data[2])), Symbol(S3(data[2]))]
      + Encode(data[3..])
  }

  /** Four sextets are the same 24 bits as three bytes. */
  lemma GroupIs(a: byte, b: byte, c: byte)
    ensures 65536 * a + 256 * b + c == 262144 * S0(a) + 4096 * S1(a, b) + 64 * S2(b, c) + S3(c)
  {}

  lemma DecodeSymbol(v: Sextet, rest: string, step: nat, kept: byte, room: nat)
    requires Fits(step, kept) && room > 0
    ensures DecodeFrom([Symbol(v)] + rest, step, kept, room) ==
      if step == 0 then DecodeFrom(rest, 1, Kept(0, v), room)
      else [Byte(step, kept, v)] + DecodeFrom(rest, (step + 1) % 4, Kept(step, v), room - 1)
  {
    LookupSymbol(v);
    assert ([Symbol(v)] + rest)[1..] == rest;
  }

  lemma SextetsMakeBytes(a: byte, b: byte, c: byte)
    ensures Fits(1, Kept(0, S0(a))) && Byte(1, Kept(0, S0(a)), S1(a, b)) == a
    ensures Fits(2, Kept(1, S1(a, b))) && Byte(2, Kept(1, S1(a, b)), S2(b, c)) == b
    ensures Fits(3, Kept(2, S2(b, c))) && Byte(3, Kept(2, S2(b, c)), S3(c)) == c
  {}

  /** The end of a group gives back the third byte, and so on to the first, as far as there is room. */
  lemma DecodeThird(b: byte, c: byte, rest: string, room: nat)
    ensures DecodeFrom([Symbol(S3(c))] + rest, 3, Kept(2, S2(b, c)), room) ==
      if room == 0 then [] else [c] + DecodeFrom(rest, 0, 0, room - 1)
  {
    if room > 0 {
      SextetsMakeBytes(0, b, c);
      DecodeSymbol(S3(c), rest, 3, Kept(2, S2(b, c)), room);
    }
  }

  lemma DecodeSecond(a: byte, b: byte, c: byte, rest: string, room: nat)
    ensures DecodeFrom([Symbol(S2(b, c))] + rest, 2, Kept(1, S1(a, b)), room) ==
      if room == 0 then [] else [b] + DecodeFrom(rest, 3, Kept(2, S2(b, c)), room - 1)
  {
    if room > 0 {
      SextetsMakeBytes(a, b, c);
      DecodeSymbol(S2(b, c), rest, 2, Kept(1, S1(a, b)), room);
    }
  }

  lemma DecodeFirst(a: byte, b: byte, rest: string, room: nat)
    ensures DecodeFrom([Symbol(S0(a))] + ([Symbol(S1(a, b))] + rest), 0, 0, room) ==
      if room == 0 then [] else [a] + DecodeFrom(rest, 2, Kept(1, S1(a, b)), room - 1)
  {
    if room > 0 {
      SextetsMakeBytes(a, b, 0);
      DecodeSymbol(S0(a), [Symbol(S1(a, b))] + rest, 0, 0, room);
      DecodeSymbol(S1(a, b), rest, 1, Kept(0, S0(a)), room);
    }
  }

  /** Decoding what was encoded gives the data, as far as there is room. */
  lemma {:induction false} DecodeEncoded(data: seq<byte>, room: nat)
    ensures DecodeFrom(Encode(data), 0, 0, room) == data[..Min(|data|, room)]
  {
    if |data| == 1 {
      EncodeOne(data[0], room);
    } else if |data| == 2 {
      EncodeTwo(data[0], data[1], room);
    } else if |data| > 2 {
      EncodeThree(data[0], data[1], data[2], Encode(data[3..]), room);
      if room > 3 {
        DecodeEncoded(data[3..], room - 3);
      }
      FirstThree(data, room);
    }
  }

  lemma FirstThree(data: seq<byte>, room: nat)
    requires |data| > 2
    ensures data[..Min(|data|, room)] ==
      if room <= 3 then [data[0], data[1], data[2]][..room]
      else [data[0], data[1], data[2]] + data[3..][..Min(|data| - 3, room - 3)]
  {}

  lemma EncodeOne(a: byte, room: nat)
    ensures DecodeFrom([Symbol(S0(a)), Symbol(S1(a, 0)), '=', '='], 0, 0, room) == if room == 0 then [] else [a]
  {
    assert [Symbol(S0(a)), Symbol(S1(a, 0)), '=', '='] == [Symbol(S0(a))] + ([Symbol(S1(a, 0))] + "==");
    DecodeFirst(a, 0, "==", room);
  }

  lemma EncodeTwo(a: byte, b: byte, room: nat)
    ensures DecodeFrom([Symbol(S0(a)), Symbol(S1(a, b)), Symbol(S2(b, 0)), '='], 0, 0, room) == [a, b][..Min(2, room)]
  {
    var tail := [Symbol(S2(b, 0))] + "=";
    assert [Symbol(S0(a)), Symbol(S1(a, b)), Symbol(S2(b, 0)), '='] == [Symbol(S0(a))] + ([Symbol(S1(a, b))] + tail);
    DecodeFirst(a, b, tail, room);
    if room > 0 {
      DecodeSecond(a, b, 0, "=", room - 1);
    }
  }

  lemma OneByOne(a: byte, b: byte, c: byte, r: seq<byte>)
    ensures [a] + ([b] + ([c] + r)) == [a, b, c] + r
    ensures [a] == [a, b, c][..1] && [a] + [b] == [a, b, c][..2] && [a] + ([b] + [c]) == [a, b, c][..3]
  {}

  lemma EncodeThree(a: byte, b: byte, c: byte, rest: string, room: nat)
    ensures DecodeFrom([Symbol(S0(a)), Symbol(S1(a, b)), Symbol(S2(b, c)), Symbol(S3(c))] + rest, 0, 0, room) ==
      if room <= 3 then [a, b, c][..room] else [a, b, c] + DecodeFrom(rest, 0, 0, room - 3)
  {
    var g3 := [Symbol(S3(c))] + rest;
    var g2 := [Symbol(S2(b, c))] + g3;
    assert [Symbol(S0(a)), Symbol(S1(a, b)), Symbol(S2(b, c)), Symbol(S3(c))] + rest
        == [Symbol(S0(a))] + ([Symbol(S1(a, b))] + g2);
    DecodeFirst(a, b, g2, room);
    if room > 0 {
      DecodeSecond(a, b, c, g3, room - 1);
      if room > 1 {
        DecodeThird(b, c, rest, room - 2);
      }
    }
    OneByOne(a, b, c, if room > 3 then DecodeFrom(rest, 0, 0, room - 3) else []);
  }

  // ---- characters that do not belong ----

  /** The characters that decoding looks at: the alphabet and the padding. */
  function Strip(s: string): string
  {
    if s == "" then ""
    else if Lookup(s[0]).Some? || s[0] == '=' then [s[0]] + Strip(s[1..])
    else Strip(s[1..])
  }

  lemma {:induction false} StripDecodes(s: string, step: nat, kept: byte, room: nat)
    requires '\0' !in s && Fits(step, kept)
    ensures DecodeFrom(s, step, kept, room) == DecodeFrom(Strip(s), step, kept, room)
  {
    if s != "" && room > 0 && s[0] != '=' {
      match Lookup(s[0]) {
        case None => StripDecodes(s[1..], step, kept, room);
        case Some(v) =>
          assert ([s[0]] + Strip(s[1..]))[1..] == Strip(s[1..]);
          if step == 0 {
            StripDecodes(s[1..], 1, Kept(0, v), room);
          } else {
            StripDecodes(s[1..], (step + 1) % 4, Kept(step, v), room - 1);
          }
      }
    }
  }

  /** Any string whose alphabet and padding characters are the encoding of some data decodes to that
      data, as far as there is room, whatever else is strewn in. */
  lemma NoisyRoundTrip(s: string, data: seq<byte>, room: nat)
    requires '\0' !in s && Strip(s) == Encode(data)
    ensures DecodeFrom(s, 0, 0, room) == data[..Min(|data|, room)]
  {
    StripDecodes(s, 0, 0, room);
    DecodeEncoded(data, room);
  }

  // ---- masks and shifts ----

  /** newbyte with the bits of a character that complete it. */
  method AddBits(step: nat, kept: byte, v: Sextet) returns (b: byte)
    requires Fits(step, kept) && step > 0
    ensures b == Byte(step, kept, v)
  {
    if step == 1 {
      b := AddHighTwo(kept, v);
    } else if step == 2 {
      b := AddHighFour(kept, v);
    } else {
      b := AddAll(kept, v);
    }
  }

  /** The bits of a character that belong to the next byte, in their place. */
  method KeepBits(step: nat, v: Sextet) returns (kept: byte)
    ensures kept == Kept(step, v)
  {
    ShiftUp(v);
    if step == 0 {
      kept := (v as bv8 << 2) as int;
    } else if step == 1 {
      kept := ((v as bv8 & 0x0F) << 4) as int;
    } else if step == 2 {
      kept := ((v as bv8 & 0x03) << 6) as int;
    } else {
      kept := 0;
    }
  }

  // ---- the loop ----

  /** What the next character comes to. */
  lemma DecodeNext(c: char, rest: string, step: nat, kept: byte, room: nat)
    requires Fits(step, kept) && room > 0 && c != '\0' && c != '='
    ensures DecodeFrom([c] + rest, step, kept, room) ==
      match Lookup(c)
      case None => DecodeFrom(rest, step, kept, room)
      case Some(v) =>
        if step == 0 then DecodeFrom(rest, 1, Kept(0, v), room)
        else [Byte(step, kept, v)] + DecodeFrom(rest, (step + 1) % 4, Kept(step, v), room - 1)
  {
    assert ([c] + rest)[1..] == rest;
  }

  /** A character does nothing, or leaves some bits, or some bits and a byte. */
  method Accept(to: array<byte>, n: nat, size: int, step: nat, kept: byte, c: char, ghost rest: string, ghost room: nat)
    returns (n': nat, size': int, step': nat, kept': byte)
    requires Fits(step, kept) && room > 0 && c != '\0' && c != '=' && n < to.Length
    modifies to
    ensures n <= n' <= n + 1 && size' == size - (n' - n) && Fits(step', kept')
    ensures to[..n'] + DecodeFrom(rest, step', kept', room - (n' - n)) ==
      old(to[..n]) + DecodeFrom([c] + rest, step, kept, room)
    ensures forall k :: n' <= k < to.Length ==> to[k] == old(to[k])
  {
    n', size', step', kept' := n, size, step, kept;
    DecodeNext(c, rest, step, kept, room);
    match Lookup(c) {
      case None =>
      case Some(value) =>
        if step == 0 {
          kept' := KeepBits(0, value);
          step' := 1;
        } else {
          ghost var out := to[..n];
          var b := AddBits(step, kept, value);
          to[n] := b;
          n', size' := n + 1, size - 1;
          kept' := KeepBits(step, value);
          step' := (step + 1) % 4;
          assert to[..n'] == out + [b];
          Assoc(out, [b], DecodeFrom(rest, step', kept', room - 1));
        }
    }
  }

  /** How many bytes there is room for: a size of zero or less is counted down for ever. */
  function Limit(from: string, size: int): nat
  {
    if size >= 1 then size - 1 else |from|
  }

  /** `from` ends at its first NUL, or at its end. */
  method Base64Decode(from: string, to: array<byte>, size: int)
    requires Limit(from, size) < to.Length
    modifies to
    ensures var r := DecodeFrom(from, 0, 0, Limit(from, size));
      && |r| < to.Length && to[..|r|] == r && to[|r|] == 0
      && forall k :: |r| < k < to.Length ==> to[k] == old(to[k])
  {
    var left, step: nat, newbyte: byte := size - 1, 0, 0;
    var i: nat, n: nat := 0, 0;
    ghost var limit := Limit(from, size);
    assert from[0..] == from;
    while i < |from| && from[i] != '\0' && from[i] != '=' && left != 0
      invariant 0 <= i <= |from| && Fits(step, newbyte) && n <= limit
      invariant if size >= 1 then left == limit - n else left < 0 && |from| - i <= limit - n
      invariant to[..n] + DecodeFrom(from[i..], step, newbyte, limit - n) == DecodeFrom(from, 0, 0, limit)
      invariant forall k :: n <= k < to.Length ==> to[k] == old(to[k])
      decreases |from| - i
    {
      assert from[i..] == [from[i]] + from[i + 1..];
      n, left, step, newbyte := Accept(to, n, left, step, newbyte, from[i], from[i + 1..], limit - n);
      i := i + 1;
    }
    assert DecodeFrom(from[i..], step, newbyte, limit - n) == [];
    to[n] := 0;
  }

  /** Nothing is lost for want of room: neither with a size that leaves room for the data and the NUL,
      nor with a size of zero or less. */
  lemma EnoughRoom(s: string, data: seq<byte>, size: int)
    requires '\0' !in s && Strip(s) == Encode(data) && (size > |data| || size <= 0)
    ensures DecodeFrom(s, 0, 0, Limit(s, size)) == data
  {
    NoisyRoundTrip(s, data, Limit(s, size));
    EncodeGrows(data);
    StripShrinks(s);
  }

  lemma {:induction false} EncodeGrows(data: seq<byte>)
    ensures |data| <= |Encode(data)|
  {
    if |data| > 2 {
      EncodeGrows(data[3..]);
    }
  }

  lemma {:induction false} StripShrinks(s: string)
    ensures |Strip(s)| <= |s|
  {
    if s != "" {
      StripShrinks(s[1..]);
    }
  }
}
