/** The HTTP class: its fields, and the methods that feed it the bytes of a connection. */
module Http {
  import opened Bytes
  import opened ChunkDecoder
  import opened ChunkStreams
  import opened HeaderSplit

  /** The scanning loop: the first line feed from `from` on, or the end of the data. */
  method ScanLine(data: seq<byte>, from: nat) returns (i: nat)
    requires from <= |data|
    ensures i == NextLF(data, from)
  {
    i := from;
    while i < |data| && data[i] != LF
      invariant from <= i <= NextLF(data, from)
    {
      i := i + 1;
    }
  }

  /** The footer scan. `scanned` is what it adds to Offset; the line feed of a line that is
      not empty is met twice, the second time as the end of an empty line. */
  method FindEmptyLine(buf: seq<byte>) returns (found: bool, i: nat, scanned: nat)
    ensures i == NextLF(buf, 0) && found == (i < |buf|)
    ensures scanned == if !found then 0 else if i == 0 || (i == 1 && buf[0] == CR) then i + 1 else 2 * (i + 1)
  {
    i, found, scanned := 0, false, 0;
    ghost var n := NextLF(buf, 0);
    ghost var empty := n == 0 || (n == 1 && buf[0] == CR);
    while i < |buf| && !found
      invariant found || ((i == 0 || i == n == |buf|) && scanned == 0)
                || (0 < i == n < |buf| && scanned == n + 1 && !empty)
      invariant found ==> i == n < |buf| && scanned == if empty then n + 1 else 2 * (n + 1)
      decreases !found, |buf| - i
    {
      var start := i;
      i := ScanLine(buf, i);
      var num := i - start;
      if i < |buf| {
        scanned := scanned + i + 1;
        found := num == 0 || (num == 1 && buf[i - 1] == CR);
      }
    }
  }

  class HTTP {
    var Method: HTTPMethod
    var Parsed: seq<seq<byte>>   // strings passed to ParseMethod and ParseHeader
    var Data: seq<byte>
    var TmpBuf: seq<byte>
    var Size: nat
    var Offset: nat
    var ChunkBody: bool
    var ChunkFooter: bool
    var ChunkLast: bool
    var BodyError: bool
    var KeepAlive: bool
    var Is11: bool
    var Sent: seq<byte>          // bytes handed to the socket

    function Decoder(): State
      reads this
    {
      State(ChunkBody, ChunkFooter, ChunkLast, BodyError, KeepAlive, TmpBuf, Data, Size, Offset)
    }

    function Head(): Header
      reads this
    {
      Header(Method, TmpBuf, Parsed, Data)
    }

    /** Reset() */
    constructor ()
      ensures Fresh(Decoder()) && Tracks(Head(), Open(M_NONE, [], []))
      ensures !BodyError && Sent == []
    {
      Method, Parsed, Data, TmpBuf, Size, Offset := M_NONE, [], [], [], 0, 0;
      ChunkBody, ChunkFooter, ChunkLast, BodyError, KeepAlive, Is11 := false, false, false, false, false, false;
      Sent := [];
    }

    method AddHeaderData(data: seq<byte>) returns (complete: bool)
      requires data != []
      modifies `Method, `Parsed, `Data, `TmpBuf
      ensures (Head(), complete) == AddHeader(old(Head()), data)
    {
      complete := false;
      var rest := data;
      ghost var result := AddHeader(Head(), data);
      while !complete && rest != []
        invariant if complete then result == (if rest == [] then Head() else Head().(data := rest), true)
                  else if rest == [] then result == (Head(), false)
                  else result == AddHeader(Head(), rest)
        decreases |rest|
      {
        rest, complete := ReadLine(rest);
      }
      if rest != [] {
        Data := rest;
      }
    }

    /** One round of AddHeaderData: take the data up to the end of the line, parse it if it is whole. */
    method ReadLine(data: seq<byte>) returns (rest: seq<byte>, complete: bool)
      modifies `Method, `Parsed, `TmpBuf
      ensures (Head(), rest, complete) == Round(old(Head()), data)
    {
      var copy := ScanLine(data, 0);
      if copy < |data| {
        rest := data[copy + 1..];
        complete := TakeLine(data[..copy], data[copy]);
      } else {
        TmpBuf := TmpBuf + data;
        rest, complete := [], false;
      }
    }

    /** The end of a line, and the line feed. */
    method TakeLine(line: seq<byte>, end: byte) returns (complete: bool)
      modifies `Method, `Parsed, `TmpBuf
      ensures var r := EndLine(old(Method), old(TmpBuf) + line, old(Parsed));
        Head() == Header(r.verb, [], r.lines, Data) && complete == r.Closed?
    {
      ghost var whole := TmpBuf + line;
      LessLast(TmpBuf, line, end);
      TmpBuf := TmpBuf + (line + [end]);
      complete := EndOfLine(whole);
    }

    /** TmpBuf holds a whole line and its line feed: parse it. */
    method EndOfLine(ghost line: seq<byte>) returns (complete: bool)
      requires TmpBuf != [] && line == TmpBuf[..|TmpBuf| - 1]
      modifies `Method, `Parsed, `TmpBuf
      ensures var r := EndLine(old(Method), line, old(Parsed));
        Head() == Header(r.verb, [], r.lines, Data) && complete == r.Closed?
    {
      var str := CStr(DropCR(TmpBuf[..|TmpBuf| - 1]));
      complete := false;
      if Method == M_NONE {
        Method, Parsed := ParseMethod(str), Parsed + [str];
        complete := Method == M_UNKNOWN;
      } else if str == [] {
        complete := true;
      } else {
        Parsed := Parsed + [str];
      }
      TmpBuf := [];
    }

    method DecodeChunkedData(data: seq<byte>, flush: bool) returns (done: bool)
      requires Decoder().Valid()
      modifies `Data, `TmpBuf, `Size, `Offset, `ChunkBody, `ChunkFooter, `ChunkLast, `BodyError, `KeepAlive
      ensures (Decoder(), done) == Decode(old(Decoder()), data, flush)
      decreases |data|
    {
      done := false;
      if data == [] {
        BodyError, KeepAlive := true, false;
        return true;
      }
      if flush {
        Data := [];
      }
      if ChunkBody {
        done := DecodeBody(data);
      } else if ChunkFooter {
        done := DecodeFooter(data);
      } else {
        done := DecodeSizeLine(data);
      }
    }

    /** The CHUNK_BODY branch of DecodeChunkedData. */
    method DecodeBody(data: seq<byte>) returns (done: bool)
      requires Decoder().Valid() && ChunkBody && data != []
      modifies `Data, `TmpBuf, `Size, `Offset, `ChunkBody, `ChunkFooter, `ChunkLast, `BodyError, `KeepAlive
      ensures (Decoder(), done) == Decode(old(Decoder()), data, false)
      decreases |data|, 0
    {
      var max := TakeBody(data);
      done := false;
      if max < |data| {
        done := DecodeChunkedData(data[max..], false);
      }
    }

    /** Takes the bytes that belong to the chunk. */
    method TakeBody(data: seq<byte>) returns (max: nat)
      requires Decoder().Valid() && ChunkBody && data != []
      modifies `Data, `TmpBuf, `Size, `Offset, `ChunkBody, `ChunkFooter
      ensures 0 < max <= |data| && BodyPass(old(Decoder()), data) == Pass(Decoder(), data[max..], false)
    {
      max := |data|;
      TmpBuf := [];
      if U32(Offset + |data|) > Size {
        max := Size - Offset;
      }
      Data := Data + data[..max];
      Advance(U32(Offset + max));
    }

    /** The place reached in the chunk, or its end. */
    method Advance(offset: nat)
      modifies `Size, `Offset, `ChunkBody, `ChunkFooter
      ensures var d := old(Decoder());
        Decoder() == if offset >= d.size then d.(offset := 0, size := 0, body := false, footer := true)
                     else d.(offset := offset)
    {
      Offset := offset;
      if Offset >= Size {
        Offset, Size, ChunkBody, ChunkFooter := 0, 0, false, true;
      }
    }

    /** The CHUNK_FOOTER branch: look for an empty line in what was received. */
    method DecodeFooter(data: seq<byte>) returns (done: bool)
      requires Decoder().Valid() && ChunkFooter && data != []
      modifies `Data, `TmpBuf, `Size, `Offset, `ChunkBody, `ChunkFooter, `ChunkLast, `BodyError, `KeepAlive
      ensures (Decoder(), done) == Decode(old(Decoder()), data, false)
      decreases |data|, 0
    {
      done := false;
      TmpBuf := TmpBuf + data;
      var found, i, scanned := FindEmptyLine(TmpBuf);
      ghost var p := FooterPass(old(Decoder()), data);
      if found {
        var size := |TmpBuf| - scanned;
        ChunkFooter := false;
        if ChunkLast {
          done := true;
        } else if size > 0 {
          var tmp := TmpBuf[i + 1..i + 1 + size];
          TmpBuf := [];
          assert p == Pass(Decoder(), tmp, false);
          done := DecodeChunkedData(tmp, false);
        }
      }
    }

    /** The remaining branch: wait for the end of a chunk-size line. */
    method DecodeSizeLine(data: seq<byte>) returns (done: bool)
      requires Decoder().Valid() && !ChunkBody && !ChunkFooter && data != []
      modifies `Data, `TmpBuf, `Size, `Offset, `ChunkBody, `ChunkFooter, `ChunkLast, `BodyError, `KeepAlive
      ensures (Decoder(), done) == Decode(old(Decoder()), data, false)
      decreases |data|, 0
    {
      done := false;
      var num := TakeSizeLine(data);
      if num < |data| {
        done := DecodeChunkedData(data[num..], false);
      }
    }

    /** Takes the bytes up to the end of the line, and reads the size if it is whole. */
    method TakeSizeLine(data: seq<byte>) returns (num: nat)
      requires Decoder().Valid() && !ChunkBody && !ChunkFooter && data != []
      modifies `TmpBuf, `Size, `Offset, `ChunkBody, `ChunkFooter, `ChunkLast
      ensures 0 < num <= |data| && SizePass(old(Decoder()), data) == Pass(Decoder(), data[num..], false)
    {
      TmpBuf := TmpBuf + data;
      num := ScanLine(data, 0);
      if num < |data| {
        StartChunk(ScanHex(LineText(TmpBuf)));
        num := num + 1;
      }
    }

    method StartChunk(size: nat)
      modifies `TmpBuf, `Size, `Offset, `ChunkBody, `ChunkFooter, `ChunkLast
      ensures var d := old(Decoder()).(tmp := [], size := size, offset := 0);
        Decoder() == if size == 0 then d.(footer := true, last := true) else d.(body := true)
    {
      Size, Offset := size, 0;
      TmpBuf := [];
      if Size == 0 {
        ChunkFooter, ChunkLast := true, true;
      } else {
        ChunkBody := true;
      }
    }

    /** Without filters and without compression. */
    method SendBodyData(data: seq<byte>)
      modifies `Sent
      ensures Sent == old(Sent) + if Is11 then Frame(data) else data
    {
      if Is11 {
        Sent := Sent + PrintHex(|data|) + [CR, LF];
        if data != [] {
          Sent := Sent + data;
        }
        Sent := Sent + [CR, LF];
      } else if data != [] {
        Sent := Sent + data;
      }
    }

    /** A body is sent piece by piece and closed by an empty piece. */
    method SendBody(pieces: seq<seq<byte>>)
      requires Is11
      modifies `Sent
      ensures Sent == old(Sent) + Encode(pieces)
    {
      for i := 0 to |pieces|
        invariant Sent + Encode(pieces[i..]) == old(Sent) + Encode(pieces)
      {
        ghost var rest := pieces[i..];
        assert rest[0] == pieces[i] && rest[1..] == pieces[i + 1..];
        Assoc(Sent, Frame(pieces[i]), Encode(pieces[i + 1..]));
        SendBodyData(pieces[i]);
      }
      SendBodyData([]);
    }
  }
}
