/** The cache index on disk: what SaveToIdx and WriteIndex write, and what LoadFromIdx and LoadIndex
    read back. Numbers are as a little-endian machine stores them, and a time_t is eight bytes. */
module IndexFile {
  import opened Bytes
  import opened CStrings

  const INDEX_VERSION := 0

  /** What the index keeps of an object. */
  datatype Record = Record(id: seq<byte>, fileName: seq<byte>, uri: seq<byte>, mimeType: seq<byte>, eTag: seq<byte>,
                           size: nat, created: nat, lastAccess: nat, expires: nat, lastModified: nat)

  predicate Storable(r: Record)
  {
    && |r.id| < 0x1_0000_0000 && |r.fileName| < 0x1_0000_0000 && |r.uri| < 0x1_0000_0000
    && |r.mimeType| < 0x1_0000_0000 && |r.eTag| < 0x1_0000_0000
    && r.size < Power(4) && r.created < Power(8) && r.lastAccess < Power(8)
    && r.expires < Power(8) && r.lastModified < Power(8)
  }

  type Row = r: Record | Storable(r) witness Record([], [], [], [], [], 0, 0, 0, 0, 0)

  // ---- numbers and strings ----

  /** What is read, and the bytes after it; nothing when the file ends too early. */
  type Parse<T> = Option<(T, seq<byte>)>

  function TakeNumber(s: seq<byte>, width: nat): Parse<nat>
  {
    if |s| < width then None else Some((Number(s[..width]), s[width..]))
  }

  lemma TakePut(n: nat, width: nat, rest: seq<byte>)
    requires n < Power(width)
    ensures TakeNumber(PutNumber(n, width) + rest, width) == Some((n, rest))
  {
    NumberOfPut(n, width);
    var p := PutNumber(n, width);
    assert (p + rest)[..width] == p && (p + rest)[width..] == rest;
  }

  function PutString(s: seq<byte>): seq<byte>
  {
    PutNumber(|s|, 4) + s
  }

  function TakeString(s: seq<byte>): Parse<seq<byte>>
  {
    match TakeNumber(s, 4)
    case None => None
    case Some((len, rest)) => if |rest| < len then None else Some((CStr(rest[..len]), rest[len..]))
  }

  lemma TakePutString(t: seq<byte>, rest: seq<byte>)
    requires |t| < 0x1_0000_0000
    ensures TakeString(PutString(t) + rest) == Some((CStr(t), rest))
  {
    assert Power(4) == 0x1_0000_0000;
    Assoc(PutNumber(|t|, 4), t, rest);
    TakePut(|t|, 4, t + rest);
    assert (t + rest)[..|t|] == t && (t + rest)[|t|..] == rest;
  }

  // ---- several in a row ----

  function PutStrings(ts: seq<seq<byte>>): seq<byte>
  {
    if ts == [] then [] else PutString(ts[0]) + PutStrings(ts[1..])
  }

  function TakeStrings(s: seq<byte>, n: nat): Parse<seq<seq<byte>>>
  {
    if n == 0 then Some(([], s))
    else match TakeString(s)
      case None => None
      case Some((t, rest)) =>
        match TakeStrings(rest, n - 1)
        case None => None
        case Some((ts, rest')) => Some(([t] + ts, rest'))
  }

  function CutAll(ts: seq<seq<byte>>): (r: seq<seq<byte>>)
    ensures |r| == |ts| && forall i :: 0 <= i < |ts| ==> r[i] == CStr(ts[i])
  {
    if ts == [] then [] else [CStr(ts[0])] + CutAll(ts[1..])
  }

  lemma {:induction false} TakePutStrings(ts: seq<seq<byte>>, rest: seq<byte>)
    requires forall i :: 0 <= i < |ts| ==> |ts[i]| < 0x1_0000_0000
    ensures TakeStrings(PutStrings(ts) + rest, |ts|) == Some((CutAll(ts), rest))
  {
    if ts == [] {
      assert [] + rest == rest;
    } else {
      Assoc(PutString(ts[0]), PutStrings(ts[1..]), rest);
      TakePutString(ts[0], PutStrings(ts[1..]) + rest);
      TakePutStrings(ts[1..], rest);
    }
  }

  function PutNumbers(ns: seq<nat>, width: nat): seq<byte>
  {
    if ns == [] then [] else PutNumber(ns[0], width) + PutNumbers(ns[1..], width)
  }

  function TakeNumbers(s: seq<byte>, width: nat, n: nat): Parse<seq<nat>>
  {
    if n == 0 then Some(([], s))
    else match TakeNumber(s, width)
      case None => None
      case Some((x, rest)) =>
        match TakeNumbers(rest, width, n - 1)
        case None => None
        case Some((xs, rest')) => Some(([x] + xs, rest'))
  }

  lemma {:induction false} TakePutNumbers(ns: seq<nat>, width: nat, rest: seq<byte>)
    requires forall i :: 0 <= i < |ns| ==> ns[i] < Power(width)
    ensures TakeNumbers(PutNumbers(ns, width) + rest, width, |ns|) == Some((ns, rest))
  {
    if ns == [] {
      assert [] + rest == rest;
    } else {
      Assoc(PutNumber(ns[0], width), PutNumbers(ns[1..], width), rest);
      TakePut(ns[0], width, PutNumbers(ns[1..], width) + rest);
      TakePutNumbers(ns[1..], width, rest);
      assert [ns[0]] + ns[1..] == ns;
    }
  }

  // ---- one object ----

  function Strings(r: Record): seq<seq<byte>>
  {
    [r.id, r.fileName, r.uri, r.mimeType, r.eTag]
  }

  function Times(r: Record): seq<nat>
  {
    [r.created, r.lastAccess, r.expires, r.lastModified]
  }

  function Build(ts: seq<seq<byte>>, size: nat, times: seq<nat>): Record
    requires |ts| == 5 && |times| == 4
  {
    Record(ts[0], ts[1], ts[2], ts[3], ts[4], size, times[0], times[1], times[2], times[3])
  }

  /** The record with every string cut at its first NUL. */
  function CutRecord(r: Record): Record
  {
    Build(CutAll(Strings(r)), r.size, Times(r))
  }

  predicate NulFree(r: Record)
  {
    0 !in r.id && 0 !in r.fileName && 0 !in r.uri && 0 !in r.mimeType && 0 !in r.eTag
  }

  lemma CutRecordIff(r: Record)
    ensures CutRecord(r) == r <==> NulFree(r)
  {
  }

  function PutShape(ts: seq<seq<byte>>, size: nat, times: seq<nat>): seq<byte>
  {
    PutStrings(ts) + (PutNumber(size, 4) + PutNumbers(times, 8))
  }

  function SaveToIdx(r: Record): seq<byte>
  {
    PutShape(Strings(r), r.size, Times(r))
  }

  function TakeShape(s: seq<byte>): Parse<(seq<seq<byte>>, nat, seq<nat>)>
  {
    match TakeStrings(s, 5)
    case None => None
    case Some((ts, s1)) =>
      match TakeNumber(s1, 4)
      case None => None
      case Some((size, s2)) =>
        match TakeNumbers(s2, 8, 4)
        case None => None
        case Some((times, s3)) => Some(((ts, size, times), s3))
  }

  function LoadFromIdx(s: seq<byte>): Parse<Record>
  {
    match TakeShape(s)
    case None => None
    case Some(((ts, size, times), rest)) =>
      if |ts| == 5 && |times| == 4 then Some((Build(ts, size, times), rest)) else None
  }

  lemma TakePutShape(ts: seq<seq<byte>>, size: nat, times: seq<nat>, rest: seq<byte>)
    requires |ts| == 5 && forall i :: 0 <= i < |ts| ==> |ts[i]| < 0x1_0000_0000
    requires size < Power(4) && |times| == 4 && forall i :: 0 <= i < |times| ==> times[i] < Power(8)
    ensures TakeShape(PutShape(ts, size, times) + rest) == Some(((CutAll(ts), size, times), rest))
  {
    var a, b, c := PutStrings(ts), PutNumber(size, 4), PutNumbers(times, 8);
    Assoc(a, b + c, rest);
    Assoc(b, c, rest);
    TakePutStrings(ts, b + (c + rest));
    TakePut(size, 4, c + rest);
    TakePutNumbers(times, 8, rest);
  }

  lemma LoadSaved(r: Row, rest: seq<byte>)
    ensures LoadFromIdx(SaveToIdx(r) + rest) == Some((CutRecord(r), rest))
  {
    TakePutShape(Strings(r), r.size, Times(r), rest);
  }

  lemma FirstOf(ts: seq<seq<byte>>, a: seq<byte>, more: seq<seq<byte>>)
    requires ts == [a] + more
    ensures PutStrings(ts) == PutString(a) + PutStrings(more)
  {
    assert ts[1..] == more;
  }

  lemma FirstTime(ns: seq<nat>, n: nat, more: seq<nat>)
    requires ns == [n] + more
    ensures PutNumbers(ns, 8) == PutNumber(n, 8) + PutNumbers(more, 8)
  {
    assert ns[1..] == more;
  }

  /** An object in the index: its strings in this order, each behind its length, then its size and its times. */
  lemma RecordLayout(r: Record)
    ensures SaveToIdx(r) ==
      (PutString(r.id) + (PutString(r.fileName) + (PutString(r.uri)
         + (PutString(r.mimeType) + (PutString(r.eTag) + [])))))
      + (PutNumber(r.size, 4) + (PutNumber(r.created, 8) + (PutNumber(r.lastAccess, 8)
         + (PutNumber(r.expires, 8) + (PutNumber(r.lastModified, 8) + [])))))
  {
    FirstOf(Strings(r), r.id, [r.fileName, r.uri, r.mimeType, r.eTag]);
    FirstOf([r.fileName, r.uri, r.mimeType, r.eTag], r.fileName, [r.uri, r.mimeType, r.eTag]);
    FirstOf([r.uri, r.mimeType, r.eTag], r.uri, [r.mimeType, r.eTag]);
    FirstOf([r.mimeType, r.eTag], r.mimeType, [r.eTag]);
    FirstOf([r.eTag], r.eTag, []);
    FirstTime(Times(r), r.created, [r.lastAccess, r.expires, r.lastModified]);
    FirstTime([r.lastAccess, r.expires, r.lastModified], r.lastAccess, [r.expires, r.lastModified]);
    FirstTime([r.expires, r.lastModified], r.expires, [r.lastModified]);
    FirstTime([r.lastModified], r.lastModified, []);
  }

  // ---- the whole index ----

  function SaveObjects(rs: seq<Record>): seq<byte>
  {
    if rs == [] then [] else SaveToIdx(rs[0]) + SaveObjects(rs[1..])
  }

  function LoadObjects(s: seq<byte>, n: nat): Parse<seq<Record>>
    decreases n
  {
    if n == 0 then Some(([], s))
    else match LoadFromIdx(s)
      case None => None
      case Some((r, rest)) =>
        match LoadObjects(rest, n - 1)
        case None => None
        case Some((rs, rest')) => Some(([r] + rs, rest'))
  }

  function CutRecords(rs: seq<Record>): (r: seq<Record>)
    ensures |r| == |rs| && forall i :: 0 <= i < |rs| ==> r[i] == CutRecord(rs[i])
  {
    seq(|rs|, i requires 0 <= i < |rs| => CutRecord(rs[i]))
  }

  lemma CutFirst(rs: seq<Record>)
    requires rs != []
    ensures [CutRecord(rs[0])] + CutRecords(rs[1..]) == CutRecords(rs)
  {}

  lemma {:induction false} LoadSavedObjects(rs: seq<Row>, rest: seq<byte>)
    ensures LoadObjects(SaveObjects(rs) + rest, |rs|) == Some((CutRecords(rs), rest))
  {
    if rs == [] {
      assert [] + rest == rest;
    } else {
      Assoc(SaveToIdx(rs[0]), SaveObjects(rs[1..]), rest);
      LoadSaved(rs[0], SaveObjects(rs[1..]) + rest);
      LoadSavedObjects(rs[1..], rest);
      CutFirst(rs);
    }
  }

  /** A four-byte number read as a signed int. */
  function Signed(n: nat): int
  {
    if n >= 0x8000_0000 then n - 0x1_0000_0000 else n
  }

  /** WriteIndex: the version, how many, and each. */
  function Save(rs: seq<Record>): seq<byte>
  {
    PutNumber(INDEX_VERSION, 4) + (PutNumber(|rs|, 4) + SaveObjects(rs))
  }

  /** LoadIndex: nothing of a later version. None: the file ends too early, and what the original then
      reads is not defined. */
  function Load(s: seq<byte>): Option<seq<Record>>
  {
    match TakeNumber(s, 4)
    case None => None
    case Some((ver, s1)) =>
      if Signed(ver) > INDEX_VERSION then Some([])
      else match TakeNumber(s1, 4)
        case None => None
        case Some((num, s2)) =>
          match LoadObjects(s2, if Signed(num) > 0 then Signed(num) else 0)
          case None => None
          case Some((rs, _)) => Some(rs)
  }

  lemma LoadSavedIndex(rs: seq<Row>, tail: seq<byte>)
    requires |rs| < 0x8000_0000
    ensures Load(Save(rs) + tail) == Some(CutRecords(rs))
  {
    assert Power(4) == 0x1_0000_0000;
    var a, b, c := PutNumber(INDEX_VERSION, 4), PutNumber(|rs|, 4), SaveObjects(rs);
    Assoc(a, b + c, tail);
    Assoc(b, c, tail);
    TakePut(INDEX_VERSION, 4, b + (c + tail));
    TakePut(|rs|, 4, c + tail);
    LoadSavedObjects(rs, tail);
  }

  /** The index restores exactly what was saved if and only if no string holds a NUL. */
  lemma RoundTripIff(rs: seq<Row>, tail: seq<byte>)
    requires |rs| < 0x8000_0000
    ensures Load(Save(rs) + tail) == Some(rs) <==> forall i :: 0 <= i < |rs| ==> NulFree(rs[i])
  {
    LoadSavedIndex(rs, tail);
    forall i | 0 <= i < |rs| ensures CutRecords(rs)[i] == rs[i] <==> NulFree(rs[i]) {
      CutRecordIff(rs[i]);
    }
    if forall i :: 0 <= i < |rs| ==> NulFree(rs[i]) {
      assert CutRecords(rs) == rs;
    }
  }
}
