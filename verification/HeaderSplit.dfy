/** HTTP::AddHeaderData on values: cutting the header into lines as fragments arrive. */
module HeaderSplit {
  import opened Bytes

  datatype HTTPMethod =
    M_NONE | M_UNKNOWN | M_RESPONSE | M_GET | M_HEAD | M_POST | M_PUT | M_CONNECT

  /** `lines`: the strings handed to ParseMethod (the first one) and ParseHeader so far. */
  datatype Header = Header(verb: HTTPMethod, tmp: seq<byte>, lines: seq<seq<byte>>, data: seq<byte>)

  const RESPONSE: seq<byte> := [72, 84, 84, 80, 47]   // HTTP/
  const GET: seq<byte> := [71, 69, 84]
  const HEAD: seq<byte> := [72, 69, 65, 68]
  const POST: seq<byte> := [80, 79, 83, 84]
  const PUT: seq<byte> := [80, 85, 84]
  const CONNECT: seq<byte> := [67, 79, 78, 78, 69, 67, 84]

  /** Whether the line is that word, or that word, a space and more. */
  predicate StartsWith(str: seq<byte>, word: seq<byte>)
  {
    word <= str && (|str| > |word| ==> str[|word|] == 32)
  }

  lemma FirstWord(str: seq<byte>, word: seq<byte>)
    requires 32 !in word
    ensures Before(str, 32) == word <==> StartsWith(str, word)
  {
    if StartsWith(str, word) {
      assert forall i :: 0 <= i < |word| ==> str[i] in word;
    }
  }

  /** The method ParseMethod reads from the first line. */
  function ParseMethod(str: seq<byte>): (m: HTTPMethod)
    ensures m != M_NONE
  {
    if RESPONSE <= str then M_RESPONSE
    else
      var word := Before(str, 32);
      if word == GET then M_GET
      else if word == HEAD then M_HEAD
      else if word == POST then M_POST
      else if word == PUT then M_PUT
      else if word == CONNECT then M_CONNECT
      else M_UNKNOWN
  }

  /** A response starts with HTTP/; anything else is for the method that is its first word. */
  lemma ParseMethodReads(str: seq<byte>)
    ensures ParseMethod(str) == M_RESPONSE <==> RESPONSE <= str
    ensures ParseMethod(str) == M_GET <==> StartsWith(str, GET)
    ensures ParseMethod(str) == M_HEAD <==> StartsWith(str, HEAD)
    ensures ParseMethod(str) == M_POST <==> StartsWith(str, POST)
    ensures ParseMethod(str) == M_PUT <==> StartsWith(str, PUT)
    ensures ParseMethod(str) == M_CONNECT <==> StartsWith(str, CONNECT)
  {
    FirstWord(str, GET);
    FirstWord(str, HEAD);
    FirstWord(str, POST);
    FirstWord(str, PUT);
    FirstWord(str, CONNECT);
    assert RESPONSE[0] != GET[0] && RESPONSE[1] != HEAD[1];
  }

  // ---- the header itself, byte by byte ----

  /** `Open(verb, line, lines)`: still reading; `Closed`: `rest` follows the header. */
  datatype Reader =
    | Open(verb: HTTPMethod, line: seq<byte>, lines: seq<seq<byte>>)
    | Closed(verb: HTTPMethod, lines: seq<seq<byte>>, rest: seq<byte>)

  function EndLine(verb: HTTPMethod, line: seq<byte>, lines: seq<seq<byte>>): Reader
  {
    var str := CStr(DropCR(line));
    if verb == M_NONE then
      var m := ParseMethod(str);
      if m == M_UNKNOWN then Closed(m, lines + [str], []) else Open(m, [], lines + [str])
    else if str == [] then Closed(verb, lines, [])
    else Open(verb, [], lines + [str])
  }

  function ReadByte(r: Reader, b: byte): Reader
  {
    if r.Closed? then r.(rest := r.rest + [b])
    else if b == LF then EndLine(r.verb, r.line, r.lines)
    else r.(line := r.line + [b])
  }

  function Read(r: Reader, s: seq<byte>): Reader
    decreases |s|
  {
    if s == [] then r else Read(ReadByte(r, s[0]), s[1..])
  }

  lemma {:induction false} ReadAppend(r: Reader, a: seq<byte>, b: seq<byte>)
    ensures Read(r, a + b) == Read(Read(r, a), b)
    decreases |a|
  {
    if a == [] {
      assert a + b == b;
    } else {
      TailConcat(a, b);
      ReadAppend(ReadByte(r, a[0]), a[1..], b);
    }
  }

  lemma {:induction false} ReadClosed(r: Reader, s: seq<byte>)
    requires r.Closed?
    ensures Read(r, s) == r.(rest := r.rest + s)
    decreases |s|
  {
    if s == [] {
      assert r.rest + s == r.rest;
    } else {
      ReadClosed(ReadByte(r, s[0]), s[1..]);
      assert r.rest + [s[0]] + s[1..] == r.rest + s;
    }
  }

  lemma {:induction false} ReadWithinLine(r: Reader, s: seq<byte>)
    requires r.Open? && forall j :: 0 <= j < |s| ==> s[j] != LF
    ensures Read(r, s) == r.(line := r.line + s)
    decreases |s|
  {
    if s == [] {
      assert r.line + s == r.line;
    } else {
      ReadWithinLine(ReadByte(r, s[0]), s[1..]);
      assert r.line + [s[0]] + s[1..] == r.line + s;
    }
  }

  // ---- AddHeaderData ----

  /** One round of the loop: the new state, the unread bytes, and whether the header ended. */
  function Round(h: Header, s: seq<byte>): (r: (Header, seq<byte>, bool))
    ensures s != [] ==> |r.1| < |s|
  {
    var n := NextLF(s, 0);
    if n == |s| then (h.(tmp := h.tmp + s), [], false)
    else
      var next := EndLine(h.verb, h.tmp + s[..n], h.lines);
      (h.(verb := next.verb, tmp := [], lines := next.lines), s[n + 1..], next.Closed?)
  }

  function AddHeader(h: Header, s: seq<byte>): (r: (Header, bool))
    requires s != []
    decreases |s|
  {
    var (h1, rest, complete) := Round(h, s);
    if complete then (if rest == [] then h1 else h1.(data := rest), true)
    else if rest == [] then (h1, false)
    else AddHeader(h1, rest)
  }

  predicate Tracks(h: Header, r: Reader)
  {
    r.Open? && r.verb == h.verb && r.line == h.tmp && r.lines == h.lines && h.data == []
  }

  lemma {:induction false} RoundReads(h: Header, r: Reader, s: seq<byte>) returns (q: Reader)
    requires Tracks(h, r)
    ensures var (h1, rest, complete) := Round(h, s);
      && Read(r, s) == (if rest == [] then q else Read(q, rest))
      && complete == q.Closed? && h1.verb == q.verb && h1.lines == q.lines
      && (if complete then q.rest == h1.data == h1.tmp == [] else Tracks(h1, q))
  {
    var n := NextLF(s, 0);
    ReadWithinLine(r, s[..n]);
    assert s == s[..n] + s[n..];
    ReadAppend(r, s[..n], s[n..]);
    if n == |s| {
      assert s[..n] == s;
      q := Read(r, s);
    } else {
      assert s[n..][1..] == s[n + 1..];
      q := EndLine(h.verb, h.tmp + s[..n], h.lines);
    }
  }

  /** One call: it stops at the end of the header and keeps what follows it in this fragment. */
  lemma {:induction false} AddHeaderReads(h: Header, r: Reader, s: seq<byte>)
    requires Tracks(h, r) && s != []
    ensures var (h', complete) := AddHeader(h, s); var r' := Read(r, s);
      && complete == r'.Closed?
      && h'.verb == r'.verb && h'.lines == r'.lines
      && (complete ==> h'.data == r'.rest && h'.tmp == [])
      && (!complete ==> Tracks(h', r'))
    decreases |s|
  {
    var q := RoundReads(h, r, s);
    var (h1, rest, complete) := Round(h, s);
    if complete {
      ReadClosed(q, rest);
      assert [] + rest == rest;
    } else if rest != [] {
      AddHeaderReads(h1, q, rest);
    }
  }

  /** The receive loop: one call per fragment until the header is complete. */
  function Receive(h: Header, frags: seq<seq<byte>>): (r: (Header, bool, nat))
    requires [] !in frags
    ensures r.2 <= |frags|
    decreases |frags|
  {
    if frags == [] then (h, false, 0)
    else
      var (h', complete) := AddHeader(h, frags[0]);
      if complete then (h', true, 1)
      else
        var (h'', c, used) := Receive(h', frags[1..]);
        (h'', c, used + 1)
  }

  /** However the bytes are cut, the same lines reach the parsers, and what was kept in Data
      together with the fragments not yet fed is exactly what follows the header. */
  lemma {:induction false} SplitIndependence(h: Header, r: Reader, frags: seq<seq<byte>>)
    requires Tracks(h, r) && [] !in frags
    ensures var (h', complete, used) := Receive(h, frags); var r' := Read(r, Flatten(frags));
      && complete == r'.Closed?
      && h'.verb == r'.verb && h'.lines == r'.lines
      && (complete ==> h'.data + Flatten(frags[used..]) == r'.rest)
      && (!complete ==> used == |frags| && Tracks(h', r'))
    decreases |frags|
  {
    if frags != [] {
      var rest := Flatten(frags[1..]);
      AddHeaderReads(h, r, frags[0]);
      ReadAppend(r, frags[0], rest);
      var (h', complete) := AddHeader(h, frags[0]);
      if complete {
        ReadClosed(Read(r, frags[0]), rest);
      } else {
        SplitIndependence(h', Read(r, frags[0]), frags[1..]);
        var used := Receive(h, frags).2;
        assert frags[used..] == frags[1..][used - 1..];
      }
    }
  }

  // ---- a header as it is written ----

  /** A line and its end: a carriage return and a line feed, or a line feed alone. */
  datatype Line = Line(text: seq<byte>, cr: bool)

  function End(cr: bool): seq<byte> { if cr then [CR, LF] else [LF] }

  function Written(l: Line): seq<byte> { l.text + End(l.cr) }

  function AllWritten(ls: seq<Line>): seq<byte>
  {
    if ls == [] then [] else Written(ls[0]) + AllWritten(ls[1..])
  }

  function Texts(ls: seq<Line>): (ts: seq<seq<byte>>)
    ensures |ts| == |ls|
  {
    if ls == [] then [] else [ls[0].text] + Texts(ls[1..])
  }

  /** No line feed or NUL in it, and no carriage return that would pass for its end. */
  predicate Clean(l: Line)
  {
    && LF !in l.text && 0 !in l.text
    && (!l.cr && l.text != [] ==> l.text[|l.text| - 1] != CR)
  }

  lemma LineReads(r: Reader, l: Line, rest: seq<byte>)
    requires r.Open? && r.line == [] && Clean(l)
    ensures Read(r, Written(l) + rest) == Read(EndLine(r.verb, l.text + if l.cr then [CR] else [], r.lines), rest)
    ensures CStr(DropCR(l.text + if l.cr then [CR] else [])) == l.text
  {
    var line := l.text + if l.cr then [CR] else [];
    assert Written(l) + rest == line + ([LF] + rest);
    ReadWithinLine(r, line);
    assert [] + line == line;
    ReadAppend(r, line, [LF] + rest);
    assert ([LF] + rest)[1..] == rest;
    assert DropCR(line) == l.text;
  }

  lemma HeaderLineReads(r: Reader, l: Line, rest: seq<byte>)
    requires r.Open? && r.line == [] && r.verb != M_NONE && Clean(l) && l.text != []
    ensures Read(r, Written(l) + rest) == Read(Open(r.verb, [], r.lines + [l.text]), rest)
  {
    LineReads(r, l, rest);
  }

  /** Header lines after the first: each is handed over as it is, in order. */
  lemma {:induction false} LinesRead(r: Reader, ls: seq<Line>, rest: seq<byte>)
    requires r.Open? && r.line == [] && r.verb != M_NONE
    requires forall l <- ls :: Clean(l) && l.text != []
    ensures Read(r, AllWritten(ls) + rest) == Read(Open(r.verb, [], r.lines + Texts(ls)), rest)
    decreases |ls|
  {
    if ls == [] {
      assert [] + rest == rest && r.lines + [] == r.lines;
    } else {
      var text, more := ls[0].text, AllWritten(ls[1..]);
      Assoc(Written(ls[0]), more, rest);
      HeaderLineReads(r, ls[0], more + rest);
      LinesRead(Open(r.verb, [], r.lines + [text]), ls[1..], rest);
      Assoc(r.lines, [text], Texts(ls[1..]));
    }
  }

  /** A header of a known method or a response, line by line, and what follows its empty line: the parsers are
      handed just those lines in that order, without their ends, and what follows is left. */
  lemma HeaderReads(first: Line, ls: seq<Line>, cr: bool, rest: seq<byte>)
    requires Clean(first) && ParseMethod(first.text) != M_UNKNOWN && forall l <- ls :: Clean(l) && l.text != []
    ensures Read(Open(M_NONE, [], []), Written(first) + (AllWritten(ls) + (End(cr) + rest)))
         == Closed(ParseMethod(first.text), [first.text] + Texts(ls), rest)
  {
    var m, empty := ParseMethod(first.text), Line([], cr);
    LineReads(Open(M_NONE, [], []), first, AllWritten(ls) + (End(cr) + rest));
    assert [] + [first.text] == [first.text];
    LinesRead(Open(m, [], [first.text]), ls, End(cr) + rest);
    assert [] + End(cr) == End(cr);
    LineReads(Open(m, [], [first.text] + Texts(ls)), empty, rest);
    ReadClosed(Closed(m, [first.text] + Texts(ls), []), rest);
    assert [] + rest == rest;
  }

  /** A first line with any other method ends the header, and is handed over alone. */
  lemma UnknownMethodReads(first: Line, rest: seq<byte>)
    requires Clean(first) && ParseMethod(first.text) == M_UNKNOWN
    ensures Read(Open(M_NONE, [], []), Written(first) + rest) == Closed(M_UNKNOWN, [first.text], rest)
  {
    LineReads(Open(M_NONE, [], []), first, rest);
    assert [] + [first.text] == [first.text] && [] + rest == rest;
    ReadClosed(Closed(M_UNKNOWN, [first.text], []), rest);
  }
}
