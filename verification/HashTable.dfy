/** What StrHash stores, as values: buckets of entries, and the map they stand for. */
module HashTables {
  import opened Bytes
  import opened CStrings

  /** The code of a string, continuing from `code`; 32-bit arithmetic. */
  function Code(code: nat, s: CString): (r: nat)
    requires code < 0x1_0000_0000
    ensures r < 0x1_0000_0000
    decreases |s|
  {
    if s == [] then code else Code(U32(code * 32 + ToLower(s[0])), s[1..])
  }

  function Hash(s: CString, size: nat): (h: nat)
    requires size > 0
    ensures h < size
  {
    Code(0, s) % size
  }

  lemma {:induction false} CodeIgnoresCase(code: nat, a: CString, b: CString)
    requires code < 0x1_0000_0000 && SameCase(a, b)
    ensures Code(code, a) == Code(code, b)
    decreases |a|
  {
    assert |a| == |Lower(a)| == |b|;
    if a != [] {
      assert ToLower(a[0]) == Lower(a)[0] == ToLower(b[0]);
      assert Lower(a[1..]) == Lower(a)[1..] == Lower(b[1..]);
      CodeIgnoresCase(U32(code * 32 + ToLower(a[0])), a[1..], b[1..]);
    }
  }

  function Power32(k: nat): (p: nat)
    ensures p > 0
  {
    if k == 0 then 1 else 32 * Power32(k - 1)
  }

  /** The characters as digits to the base 32. */
  function Polynomial(s: CString): int
  {
    if s == [] then 0 else ToLower(s[0]) * Power32(|s| - 1) + Polynomial(s[1..])
  }

  lemma SameRemainder(a: int, b: int, k: int)
    requires a == b + 0x1_0000_0000 * k
    ensures U32(a) == U32(b)
  {}

  lemma WrapsOnce(code: nat, c: int, p: nat, rest: int)
    ensures U32(U32(code * 32 + c) * p + rest) == U32(code * (32 * p) + (c * p + rest))
  {
    var x := code * 32 + c;
    var q := x / 0x1_0000_0000;
    assert x == 0x1_0000_0000 * q + U32(x);
    assert x * p == 0x1_0000_0000 * (q * p) + U32(x) * p;
    assert x * p == code * (32 * p) + c * p;
    SameRemainder(code * (32 * p) + (c * p + rest), U32(x) * p + rest, q * p);
  }

  /** The code of a string is that number modulo 2^32. */
  lemma {:induction false} CodeIs(code: nat, s: CString)
    requires code < 0x1_0000_0000
    ensures Code(code, s) == U32(code * Power32(|s|) + Polynomial(s))
    decreases |s|
  {
    if s != [] {
      var p := Power32(|s| - 1);
      CodeIs(U32(code * 32 + ToLower(s[0])), s[1..]);
      WrapsOnce(code, ToLower(s[0]), p, Polynomial(s[1..]));
    }
  }

  datatype Entry = Entry(key: CString, data: int)

  type Bucket = seq<Entry>
  type Table = seq<Bucket>

  /** Position of the first entry with this key, or the length of the bucket. */
  function Search(b: Bucket, key: CString): (i: nat)
    ensures i <= |b|
    ensures forall j :: 0 <= j < i ==> !SameCase(b[j].key, key)
    ensures i < |b| ==> SameCase(b[i].key, key)
  {
    if b == [] || SameCase(b[0].key, key) then 0 else 1 + Search(b[1..], key)
  }

  /** Every entry sits in the bucket of its hash, and no bucket holds a key twice. */
  ghost predicate Inv(t: Table)
  {
    && |t| > 0
    && (forall h, i :: 0 <= h < |t| && 0 <= i < |t[h]| ==> Hash(t[h][i].key, |t|) == h)
    && (forall h, i, j :: 0 <= h < |t| && 0 <= i < j < |t[h]| ==> !SameCase(t[h][i].key, t[h][j].key))
  }

  function BucketOf(t: Table, key: CString): Bucket
    requires |t| > 0
  {
    t[Hash(key, |t|)]
  }

  function Find(t: Table, key: CString): Option<int>
    requires |t| > 0
  {
    var b := BucketOf(t, key);
    var i := Search(b, key);
    if i < |b| then Some(b[i].data) else None
  }

  function Add(t: Table, key: CString, data: int): (r: Table)
    requires |t| > 0
    ensures |r| == |t|
  {
    if Find(t, key).Some? then t
    else t[Hash(key, |t|) := [Entry(key, data)] + BucketOf(t, key)]
  }

  function Replace(t: Table, key: CString, data: int): (r: Table)
    requires |t| > 0
    ensures |r| == |t|
  {
    var b := BucketOf(t, key);
    var i := Search(b, key);
    if i < |b| then t[Hash(key, |t|) := b[i := b[i].(data := data)]] else Add(t, key, data)
  }

  function Remove(t: Table, key: CString): (r: Table)
    requires |t| > 0
    ensures |r| == |t|
  {
    var b := BucketOf(t, key);
    var i := Search(b, key);
    if i < |b| then t[Hash(key, |t|) := b[..i] + b[i + 1..]] else t
  }

  // ---- the table is a finite map keyed by lower-cased strings ----

  /** The table stands for the map m. */
  ghost predicate Represents(t: Table, m: map<CString, int>)
  {
    && Inv(t)
    && (forall k :: k in m ==> Lower(k) == k)
    && (forall k: CString :: Find(t, k) == if Lower(k) in m then Some(m[Lower(k)]) else None)
  }

  lemma HashIgnoresCase(a: CString, b: CString, size: nat)
    requires size > 0 && SameCase(a, b)
    ensures Hash(a, size) == Hash(b, size)
  {
    CodeIgnoresCase(0, a, b);
  }

  lemma FindIgnoresCase(t: Table, a: CString, b: CString)
    requires |t| > 0 && SameCase(a, b)
    ensures Find(t, a) == Find(t, b)
  {
    HashIgnoresCase(a, b, |t|);
  }

  lemma {:induction false} SearchDrop(b: Bucket, i: nat, key: CString)
    requires i < |b| && !SameCase(b[i].key, key)
    ensures Search(b[..i] + b[i + 1..], key) == if Search(b, key) > i then Search(b, key) - 1 else Search(b, key)
  {
    if i == 0 {
      assert b[..0] + b[1..] == b[1..];
    } else {
      CutTail(b, i);
      if !SameCase(b[0].key, key) {
        SearchDrop(b[1..], i - 1, key);
      }
    }
  }

  lemma {:induction false} SearchSet(b: Bucket, i: nat, data: int, key: CString)
    requires i < |b|
    ensures Search(b[i := b[i].(data := data)], key) == Search(b, key)
  {
    if i == 0 {
      assert b[0 := b[0].(data := data)][1..] == b[1..];
    } else {
      SearchSet(b[1..], i - 1, data, key);
      assert b[i := b[i].(data := data)][1..] == b[1..][i - 1 := b[i].(data := data)];
    }
  }

  lemma FindAfterAdd(t: Table, key: CString, data: int, k: CString)
    requires Inv(t)
    ensures Find(Add(t, key, data), k) ==
      if SameCase(k, key) && Find(t, key) == None then Some(data) else Find(t, k)
  {
    if SameCase(k, key) {
      HashIgnoresCase(k, key, |t|);
      FindIgnoresCase(t, k, key);
    } else if Find(t, key) == None && Hash(k, |t|) == Hash(key, |t|) {
      assert BucketOf(Add(t, key, data), k)[1..] == BucketOf(t, k);
    }
  }

  lemma FindAfterReplace(t: Table, key: CString, data: int, k: CString)
    requires Inv(t)
    ensures Find(Replace(t, key, data), k) == if SameCase(k, key) then Some(data) else Find(t, k)
  {
    var b := BucketOf(t, key);
    var i := Search(b, key);
    if i == |b| {
      FindAfterAdd(t, key, data, k);
    } else {
      SearchSet(b, i, data, k);
      if SameCase(k, key) {
        HashIgnoresCase(k, key, |t|);
        SearchIgnoresCase(b, k, key);
      } else if Hash(k, |t|) == Hash(key, |t|) && Search(b, k) == i {
        assert false;
      }
    }
  }

  lemma SearchIgnoresCase(b: Bucket, a: CString, c: CString)
    requires SameCase(a, c)
    ensures Search(b, a) == Search(b, c)
  {}

  lemma SearchCut(b: Bucket, i: nat, key: CString)
    requires i < |b| && SameCase(b[i].key, key)
    requires forall j, n :: 0 <= j < n < |b| ==> !SameCase(b[j].key, b[n].key)
    ensures Search(b[..i] + b[i + 1..], key) == |b| - 1
  {
    var r := b[..i] + b[i + 1..];
    assert forall j :: 0 <= j < |r| ==> r[j] == if j < i then b[j] else b[j + 1];
    assert forall j :: 0 <= j < |r| ==> !SameCase(r[j].key, key);
  }

  lemma FindAfterRemove(t: Table, key: CString, k: CString)
    requires Inv(t)
    ensures Find(Remove(t, key), k) == if SameCase(k, key) then None else Find(t, k)
  {
    if SameCase(k, key) {
      RemovedIsGone(t, key);
      FindIgnoresCase(Remove(t, key), k, key);
    } else {
      RemoveKeepsOthers(t, key, k);
    }
  }

  lemma RemoveKeepsOthers(t: Table, key: CString, k: CString)
    requires Inv(t) && !SameCase(k, key)
    ensures Find(Remove(t, key), k) == Find(t, k)
  {
    var b := BucketOf(t, key);
    var i := Search(b, key);
    if i < |b| && Hash(k, |t|) == Hash(key, |t|) {
      FindInCut(b, i, k);
    }
  }

  lemma FindInCut(b: Bucket, i: nat, key: CString)
    requires i < |b| && !SameCase(b[i].key, key)
    ensures var r := b[..i] + b[i + 1..]; var j := Search(r, key);
      (j < |r| <==> Search(b, key) < |b|) && (j < |r| ==> r[j] == b[Search(b, key)])
  {
    SearchDrop(b, i, key);
  }

  lemma RemovedIsGone(t: Table, key: CString)
    requires Inv(t)
    ensures Find(Remove(t, key), key) == None
  {
    var b := BucketOf(t, key);
    if Search(b, key) < |b| {
      SearchCut(b, Search(b, key), key);
    }
  }

  lemma AddKeepsInv(t: Table, key: CString, data: int)
    requires Inv(t)
    ensures Inv(Add(t, key, data))
  {
    var h := Hash(key, |t|);
    assert Search(t[h], key) == |t[h]| ==> forall j :: 0 <= j < |t[h]| ==> !SameCase(t[h][j].key, key);
  }

  lemma ReplaceKeepsInv(t: Table, key: CString, data: int)
    requires Inv(t)
    ensures Inv(Replace(t, key, data))
  {
    AddKeepsInv(t, key, data);
  }

  /** A bucket without one of its entries. */
  lemma BucketCut(b: Bucket, i: nat)
    requires i < |b| && forall j, k :: 0 <= j < k < |b| ==> !SameCase(b[j].key, b[k].key)
    ensures var r := b[..i] + b[i + 1..];
      && (forall j :: 0 <= j < |r| ==> r[j] in b)
      && forall j, k :: 0 <= j < k < |r| ==> !SameCase(r[j].key, r[k].key)
  {
    var r := b[..i] + b[i + 1..];
    assert forall j :: 0 <= j < |r| ==> r[j] == if j < i then b[j] else b[j + 1];
  }

  lemma BucketKeepsInv(t: Table, h: nat, r: Bucket)
    requires Inv(t) && h < |t| && forall j :: 0 <= j < |r| ==> Hash(r[j].key, |t|) == h
    requires forall j, k :: 0 <= j < k < |r| ==> !SameCase(r[j].key, r[k].key)
    ensures Inv(t[h := r])
  {}

  lemma RemoveKeepsInv(t: Table, key: CString)
    requires Inv(t)
    ensures Inv(Remove(t, key))
  {
    var b := BucketOf(t, key);
    var i := Search(b, key);
    if i < |b| {
      BucketCut(b, i);
      BucketKeepsInv(t, Hash(key, |t|), b[..i] + b[i + 1..]);
    }
  }

  // ---- runs of operations ----

  datatype Op = AddOp(key: CString, data: int) | ReplaceOp(key: CString, data: int) | RemoveOp(key: CString)

  function Apply(t: Table, op: Op): (r: Table)
    requires |t| > 0
    ensures |r| == |t|
  {
    match op
    case AddOp(key, data) => Add(t, key, data)
    case ReplaceOp(key, data) => Replace(t, key, data)
    case RemoveOp(key) => Remove(t, key)
  }

  function ApplyToMap(m: map<CString, int>, op: Op): map<CString, int>
  {
    match op
    case AddOp(key, data) => if Lower(key) in m then m else m[Lower(key) := data]
    case ReplaceOp(key, data) => m[Lower(key) := data]
    case RemoveOp(key) => m - {Lower(key)}
  }

  lemma FindAfter(t: Table, op: Op, k: CString)
    requires Inv(t)
    ensures Find(Apply(t, op), k) ==
      if !SameCase(k, op.key) then Find(t, k)
      else if op.RemoveOp? then None
      else if op.AddOp? && Find(t, op.key).Some? then Find(t, op.key) else Some(op.data)
  {
    match op
    case AddOp(key, data) => FindAfterAdd(t, key, data, k); AddedOrFound(t, key, k);
    case ReplaceOp(key, data) => FindAfterReplace(t, key, data, k);
    case RemoveOp(key) => FindAfterRemove(t, key, k);
  }

  lemma AddedOrFound(t: Table, key: CString, k: CString)
    requires Inv(t)
    ensures SameCase(k, key) ==> Find(t, k) == Find(t, key)
  {
    if SameCase(k, key) {
      FindIgnoresCase(t, k, key);
    }
  }

  lemma ApplyKeepsInv(t: Table, op: Op)
    requires Inv(t)
    ensures Inv(Apply(t, op))
  {
    match op {
      case AddOp(key, data) => AddKeepsInv(t, key, data);
      case ReplaceOp(key, data) => ReplaceKeepsInv(t, key, data);
      case RemoveOp(key) => RemoveKeepsInv(t, key);
    }
  }

  lemma MapIsLower(m: map<CString, int>, op: Op)
    requires forall k :: k in m ==> Lower(k) == k
    ensures forall k :: k in ApplyToMap(m, op) ==> Lower(k) == k
  {
    LowerIdempotent(op.key);
  }

  lemma FoundInMap(t: Table, m: map<CString, int>, op: Op, k: CString)
    requires Represents(t, m)
    ensures var m' := ApplyToMap(m, op);
      Find(Apply(t, op), k) == if Lower(k) in m' then Some(m'[Lower(k)]) else None
  {
    LowerIdempotent(op.key);
    FindAfter(t, op, k);
    assert Find(t, k) == if Lower(k) in m then Some(m[Lower(k)]) else None;
    assert Find(t, op.key) == if Lower(op.key) in m then Some(m[Lower(op.key)]) else None;
  }

  lemma ApplyRefines(t: Table, m: map<CString, int>, op: Op)
    requires Represents(t, m)
    ensures Represents(Apply(t, op), ApplyToMap(m, op))
  {
    ApplyKeepsInv(t, op);
    MapIsLower(m, op);
    forall k: CString
      ensures var m' := ApplyToMap(m, op);
        Find(Apply(t, op), k) == if Lower(k) in m' then Some(m'[Lower(k)]) else None
    {
      FoundInMap(t, m, op, k);
    }
  }

  function EmptyTable(size: nat): (t: Table)
    ensures |t| == size
  {
    seq(size, _ => [])
  }

  lemma EmptyTableInv(size: nat)
    requires size > 0
    ensures Inv(EmptyTable(size)) && |Flatten(EmptyTable(size))| == 0
  {
    if |Flatten(EmptyTable(size))| > 0 {
      var h, k := Locate(EmptyTable(size), 0);
    }
  }

  function Run(t: Table, ops: seq<Op>): (r: Table)
    requires |t| > 0
    ensures |r| == |t|
  {
    if ops == [] then t else Apply(Run(t, ops[..|ops| - 1]), ops[|ops| - 1])
  }

  function RunMap(ops: seq<Op>): map<CString, int>
  {
    if ops == [] then map[] else ApplyToMap(RunMap(ops[..|ops| - 1]), ops[|ops| - 1])
  }

  /** After any sequence of operations the table is the map the same sequence builds. */
  lemma {:induction false} RunRefines(size: nat, ops: seq<Op>)
    requires size > 0
    ensures Represents(Run(EmptyTable(size), ops), RunMap(ops))
  {
    if ops != [] {
      RunRefines(size, ops[..|ops| - 1]);
      ApplyRefines(Run(EmptyTable(size), ops[..|ops| - 1]), RunMap(ops[..|ops| - 1]), ops[|ops| - 1]);
    }
  }

  // ---- enumeration and count ----

  lemma {:induction false} FlattenSet(t: Table, h: nat, b: Bucket)
    requires h < |t|
    ensures |Flatten(t[h := b])| == |Flatten(t)| - |t[h]| + |b|
  {
    if h == 0 {
      assert t[0 := b][1..] == t[1..];
    } else {
      FlattenSet(t[1..], h - 1, b);
      assert t[h := b][1..] == t[1..][h - 1 := b];
    }
  }

  /** NumItems after each operation: one more for a new key, one less for a removed one. */
  lemma CountAfter(t: Table, op: Op)
    requires |t| > 0
    ensures |Flatten(Apply(t, op))| == |Flatten(t)| +
      if op.RemoveOp? then (if Find(t, op.key).Some? then -1 else 0) else (if Find(t, op.key).Some? then 0 else 1)
  {
    var h := Hash(op.key, |t|);
    var b, i := t[h], Search(t[h], op.key);
    match op {
      case AddOp(key, data) => FlattenSet(t, h, [Entry(key, data)] + b);
      case ReplaceOp(key, data) =>
        FlattenSet(t, h, if i < |b| then b[i := b[i].(data := data)] else [Entry(key, data)] + b);
      case RemoveOp(key) =>
        if i < |b| {
          FlattenSet(t, h, b[..i] + b[i + 1..]);
        }
    }
  }

  lemma AddNew(t: Table, key: CString, data: int)
    requires Inv(t) && Find(t, key) == None
    ensures var r := t[Hash(key, |t|) := [Entry(key, data)] + BucketOf(t, key)];
      r == Add(t, key, data) && Inv(r) && |Flatten(r)| == |Flatten(t)| + 1
  {
    AddKeepsInv(t, key, data);
    CountAfter(t, AddOp(key, data));
  }

  lemma ReplaceFound(t: Table, key: CString, data: int, i: nat)
    requires Inv(t) && i == Search(BucketOf(t, key), key) < |BucketOf(t, key)|
    ensures var b := BucketOf(t, key); var r := t[Hash(key, |t|) := b[i := b[i].(data := data)]];
      r == Replace(t, key, data) && Inv(r) && |Flatten(r)| == |Flatten(t)|
  {
    ReplaceKeepsInv(t, key, data);
    CountAfter(t, ReplaceOp(key, data));
  }

  lemma RemoveCounts(t: Table, key: CString)
    requires |t| > 0 && Find(t, key).Some?
    ensures |Flatten(t)| > 0 && |Flatten(Remove(t, key))| == |Flatten(t)| - 1
  {
    CountAfter(t, RemoveOp(key));
  }

  lemma RemoveFinds(t: Table, key: CString, i: nat)
    requires |t| > 0 && i == Search(BucketOf(t, key), key) < |BucketOf(t, key)|
    ensures Find(t, key).Some?
    ensures Remove(t, key) == t[Hash(key, |t|) := BucketOf(t, key)[..i] + BucketOf(t, key)[i + 1..]]
  {}

  /** The table whose bucket has lost the item that was found. */
  lemma RemovedOne(t: Table, key: CString, hash: nat, i: nat)
    requires Inv(t) && hash == Hash(key, |t|) && i == Search(t[hash], key) && i < |t[hash]|
    ensures Remove(t, key) == t[hash := t[hash][..i] + t[hash][i + 1..]] && Inv(Remove(t, key))
    ensures |Flatten(t)| > 0 && |Flatten(Remove(t, key))| == |Flatten(t)| - 1
  {
    RemoveFinds(t, key, i);
    RemoveKeepsInv(t, key);
    RemoveCounts(t, key);
  }

  /** Where entry number i of the enumeration sits. */
  lemma {:induction false} Locate(t: Table, i: nat) returns (h: nat, k: nat)
    requires i < |Flatten(t)|
    ensures h < |t| && k < |t[h]| && t[h][k] == Flatten(t)[i]
    ensures |Flatten(t[..h])| + k == i
  {
    if i < |t[0]| {
      h, k := 0, i;
    } else {
      h, k := Locate(t[1..], i - |t[0]|);
      h := h + 1;
      assert t[..h][1..] == t[1..][..h - 1];
    }
  }

  lemma {:induction false} Enumerated(t: Table, h: nat, k: nat)
    requires h < |t| && k < |t[h]|
    ensures t[h][k] in Flatten(t)
  {
    if h > 0 {
      Enumerated(t[1..], h - 1, k);
    }
  }

  ghost predicate DistinctKeys(s: seq<Entry>)
  {
    forall i, j :: 0 <= i < j < |s| ==> !SameCase(s[i].key, s[j].key)
  }

  /** GetData(0), ..., GetData(NumItems - 1) meets every key exactly once. */
  lemma EnumerationDistinct(t: Table)
    requires Inv(t)
    ensures DistinctKeys(Flatten(t))
  {
    var s := Flatten(t);
    forall i, j | 0 <= i < j < |s|
      ensures !SameCase(s[i].key, s[j].key)
    {
      var h, k := Locate(t, i);
      var h', k' := Locate(t, j);
      if SameCase(s[i].key, s[j].key) {
        HashIgnoresCase(s[i].key, s[j].key, |t|);
      }
    }
  }

  ghost function LowerKeys(s: seq<Entry>): set<CString>
  {
    set e | e in s :: Lower(e.key)
  }

  lemma {:induction false} DistinctCount(s: seq<Entry>)
    requires DistinctKeys(s)
    ensures |LowerKeys(s)| == |s|
  {
    if s != [] {
      DistinctCount(s[1..]);
      assert LowerKeys(s) == {Lower(s[0].key)} + LowerKeys(s[1..]);
      assert forall e :: e in s[1..] ==> !SameCase(s[0].key, e.key);
    }
  }

  lemma FindsItsEntries(t: Table, h: nat, k: nat)
    requires Inv(t) && h < |t| && k < |t[h]|
    ensures Find(t, t[h][k].key) == Some(t[h][k].data)
  {
    assert Hash(t[h][k].key, |t|) == h;
    assert Search(t[h], t[h][k].key) == k;
  }

  lemma EnumeratedKeys(t: Table, m: map<CString, int>)
    requires Represents(t, m)
    ensures LowerKeys(Flatten(t)) == m.Keys
  {
    var s := Flatten(t);
    forall k | k in LowerKeys(s)
      ensures k in m
    {
      var e :| e in s && Lower(e.key) == k;
      var i :| 0 <= i < |s| && s[i] == e;
      var h, n := Locate(t, i);
      FindsItsEntries(t, h, n);
    }
    forall k | k in m
      ensures k in LowerKeys(s)
    {
      var h := Hash(k, |t|);
      assert Find(t, k).Some?;
      Enumerated(t, h, Search(t[h], k));
    }
  }

  /** The number of entries is the size of the map, and the enumeration holds its pairs. */
  lemma EnumerationIsMap(t: Table, m: map<CString, int>)
    requires Represents(t, m)
    ensures |Flatten(t)| == |m|
    ensures forall i :: 0 <= i < |Flatten(t)| ==>
      var e := Flatten(t)[i]; Lower(e.key) in m && m[Lower(e.key)] == e.data
  {
    EnumerationDistinct(t);
    DistinctCount(Flatten(t));
    EnumeratedKeys(t, m);
    forall i | 0 <= i < |Flatten(t)|
      ensures var e := Flatten(t)[i]; Lower(e.key) in m && m[Lower(e.key)] == e.data
    {
      var h, k := Locate(t, i);
      FindsItsEntries(t, h, k);
    }
  }
}
