/** Character buffers, pointers into them, and the C strings found there. */
module CBuffers {
  import opened Bytes
  import opened UrlCodec

  /** At `from` a buffer holds the C string `t`. */
  predicate Holds(s: string, from: nat, t: string)
  {
    from + |t| < |s| && s[from..from + |t|] == t && s[from + |t|] == '\0' && '\0' !in t
  }

  /** A NUL over the `c` between two strings. */
  lemma NulCuts(s: string, from: nat, a: string, c: char, b: string)
    requires Holds(s, from, a + [c] + b)
    ensures Holds(s[from + |a| := '\0'], from, a) && Holds(s[from + |a| := '\0'], from + |a| + 1, b)
  {
    var p := from + |a|;
    HoldsTail(s, from, a + [c], b);
    HoldsFurtherOn(s, p, p + 1, b);
    HoldsHead(s, from, a, [c] + b);
    assert a + ([c] + b) == a + [c] + b;
  }

  lemma HoldsHead(s: string, from: nat, a: string, b: string)
    requires Holds(s, from, a + b) && b != ""
    ensures Holds(s[from + |a| := '\0'], from, a)
  {
    var t := a + b;
    assert forall k :: 0 <= k < |t| ==> s[from + k] == t[k];
    assert forall k :: 0 <= k < |a| ==> t[k] == a[k];
    assert forall d <- a :: d in t;
    var r := s[from + |a| := '\0'];
    assert forall k :: 0 <= k < |a| ==> r[from + k] == a[k];
  }

  /** Strings further on are not touched by it. */
  lemma HoldsFurtherOn(s: string, p: nat, from: nat, t: string)
    requires Holds(s, from, t) && p < from
    ensures Holds(s[p := '\0'], from, t)
  {}

  lemma HoldsTail(s: string, from: nat, a: string, b: string)
    requires Holds(s, from, a + b)
    ensures Holds(s, from + |a|, b)
  {
    var t := a + b;
    assert forall k :: 0 <= k < |t| ==> s[from + k] == t[k];
    assert forall k :: 0 <= k < |b| ==> t[|a| + k] == b[k];
    assert forall d <- b :: d in t;
  }

  method StrDup(text: string) returns (temp: array<char>)
    ensures fresh(temp) && Holds(temp[..], 0, Before(text, '\0'))
  {
    var s := Before(text, '\0');
    temp := new char[|s| + 1](i requires 0 <= i => if i < |s| then s[i] else '\0');
  }

  lemma FirstAt(t: string, c: char, k: nat)
    requires k < |t| && t[k] == c && forall i :: 0 <= i < k ==> t[i] != c
    ensures |Before(t, c)| == k
  {}

  /** Where `c` is in the string, or -1. */
  method StrChr(buf: array<char>, from: nat, c: char, ghost t: string) returns (ptr: int)
    requires Holds(buf[..], from, t) && c != '\0'
    ensures ptr == if c in t then from + |Before(t, c)| else -1
  {
    ptr := from;
    assert forall k :: 0 <= k < |t| ==> buf[from + k] == t[k];
    while buf[ptr] != '\0' && buf[ptr] != c
      invariant from <= ptr <= from + |t|
      invariant forall k :: 0 <= k < ptr - from ==> t[k] != c
      decreases buf.Length - ptr
    {
      assert buf[ptr] == t[ptr - from];
      ptr := ptr + 1;
    }
    assert ptr < from + |t| ==> buf[ptr] == t[ptr - from] && t[ptr - from] in t;
    if buf[ptr] == c {
      FirstAt(t, c, ptr - from);
    } else {
      ptr := -1;
    }
  }

  /** Whether the string starts with another. */
  method StrNCmp(buf: array<char>, from: nat, start: string, ghost t: string) returns (same: bool)
    requires Holds(buf[..], from, t) && '\0' !in start
    ensures same <==> start <= t
  {
    assert forall k :: 0 <= k < |t| ==> buf[from + k] == t[k];
    for i := 0 to |start|
      invariant i <= |t| && start[..i] == t[..i]
    {
      assert start[i] in start;
      if buf[from + i] != start[i] {
        assert i < |t| ==> t[i] != start[i];
        return false;
      }
      assert i < |t| && buf[from + i] == t[i];
    }
    same := true;
  }

  /** StrChr, with a NUL written over what is found. */
  method Cut(buf: array<char>, from: nat, c: char, ghost t: string) returns (ptr: int)
    requires Holds(buf[..], from, t) && c != '\0'
    modifies buf
    ensures c !in t ==> ptr == -1 && buf[..] == old(buf[..])
    ensures c in t ==> ptr == from + |Before(t, c)| && ptr < buf.Length && buf[..] == old(buf[..])[ptr := '\0']
    ensures Holds(buf[..], from, Before(t, c)) && (c in t ==> Holds(buf[..], ptr + 1, After(t, c)))
  {
    ptr := StrChr(buf, from, c, t);
    if ptr >= 0 {
      AfterFollows(t, c);
      WriteNul(buf, ptr, from, Before(t, c), c, After(t, c));
    }
  }

  /** What comes later in the buffer stays. */
  method CutBefore(buf: array<char>, from: nat, c: char, ghost t: string, ghost next: nat, ghost rest: string)
    returns (ptr: int)
    requires Holds(buf[..], from, t) && Holds(buf[..], next, rest) && from + |t| < next && c != '\0'
    modifies buf
    ensures ptr == if c in t then from + |Before(t, c)| else -1
    ensures Holds(buf[..], from, Before(t, c)) && (c in t ==> Holds(buf[..], ptr + 1, After(t, c)))
    ensures Holds(buf[..], next, rest)
  {
    ptr := Cut(buf, from, c, t);
    if ptr >= 0 {
      HoldsFurtherOn(old(buf[..]), ptr, next, rest);
    }
  }

  method WriteNul(buf: array<char>, ptr: nat, ghost from: nat, ghost a: string, ghost c: char, ghost b: string)
    requires Holds(buf[..], from, a + [c] + b) && ptr == from + |a|
    modifies buf
    ensures ptr < buf.Length && buf[..] == old(buf[..])[ptr := '\0']
    ensures Holds(buf[..], from, a) && Holds(buf[..], ptr + 1, b)
  {
    NulCuts(buf[..], from, a, c, b);
    buf[ptr] := '\0';
    assert buf[..] == old(buf[..])[ptr := '\0'];
  }

  /** The string at a pointer. */
  method Str(buf: array<char>, from: nat, ghost t: string) returns (s: string)
    requires Holds(buf[..], from, t)
    ensures s == t
  {
    s := [];
    assert forall k :: 0 <= k < |t| ==> buf[from + k] == t[k];
    while buf[from + |s|] != '\0'
      invariant |s| <= |t| && s == t[..|s|]
      decreases |t| - |s|
    {
      assert buf[from + |s|] == t[|s|];
      s := s + [buf[from + |s|]];
    }
  }

  /** Whether a string and its NUL fit in a buffer, where they are then. */
  method Print(buf: array<char>, s: string) returns (fits: bool)
    requires '\0' !in s
    modifies buf
    ensures fits <==> |s| + 1 <= buf.Length
    ensures fits ==> Holds(buf[..], 0, s)
  {
    fits := |s| + 1 <= buf.Length;
    if fits {
      for i := 0 to |s|
        invariant buf[..i] == s[..i]
      {
        buf[i] := s[i];
      }
      buf[|s|] := '\0';
    }
  }
}
