/** URL: its parts as fields, set by cutting a copy of the string in place. */
module Urls {
  import opened Bytes
  import opened CStrings
  import opened UrlCodec
  import opened CBuffers

  lemma AuthorityFollows(url: string, u: Url)
    ensures url + Authority(u) == url + UserInfo(u) + u.host + if u.port == 0 then "" else ":" + UrlCodec.Print(u.port)
    ensures u.port == 0 ==> url + Authority(u) == url + UserInfo(u) + u.host
  {}

  class URL {
    var Scheme: string
    var User: string
    var Password: string
    var Host: string
    var Port: int
    var Rest: string

    function Value(): Url
      reads this
    {
      Url(Scheme, User, Password, Host, Port, Rest)
    }

    constructor ()
      ensures Value() == BLANK
    {
      Scheme, User, Password, Host, Port, Rest := "", "", "", "", 80, "/";
    }

    method Clear()
      modifies this
      ensures Value() == BLANK
    {
      Scheme, User, Password, Host, Port, Rest := "", "", "", "", 80, "/";
    }

    method DecodePort(buf: array<char>, port: nat, ghost t: string)
      requires Holds(buf[..], port, t)
      modifies this`Port
      ensures Port == Atoi(t)
    {
      var digits := Str(buf, port, t);
      Port := Atoi(digits);
    }

    method DecodeHost(buf: array<char>, host: nat, ghost t: string)
      requires Holds(buf[..], host, t)
      modifies this, buf
      ensures Value() == UrlCodec.DecodeHost(old(Value()), t)
    {
      var ptr := Cut(buf, host, ':', t);
      if ptr >= 0 {
        DecodePort(buf, ptr + 1, After(t, ':'));
      }
      Host := Str(buf, host, Before(t, ':'));
    }

    /** What is before an @ and the host `t`: a name, and a password behind a colon. */
    method DecodeUser(buf: array<char>, string2: nat, ghost info: string, ghost host: nat, ghost t: string)
      requires Holds(buf[..], string2, info) && Holds(buf[..], host, t) && string2 + |info| < host
      modifies this, buf
      ensures Holds(buf[..], host, t)
      ensures Value() ==
        old(Value()).(user := Before(info, ':'), password := if ':' in info then After(info, ':') else old(Password))
    {
      var ptr := CutBefore(buf, string2, ':', info, host, t);
      if ptr >= 0 {
        Password := Str(buf, ptr + 1, After(info, ':'));
      }
      User := Str(buf, string2, Before(info, ':'));
    }

    method DecodeUserAndHost(buf: array<char>, string2: nat, ptr: nat, ghost info: string, ghost t: string)
      requires Holds(buf[..], string2, info) && ptr == string2 + |info| && Holds(buf[..], ptr + 1, t) && Password == ""
      modifies this, buf
      ensures Value() == UrlCodec.DecodeHost(
        old(Value()).(user := Before(info, ':'), password := if ':' in info then After(info, ':') else ""), t)
    {
      DecodeUser(buf, string2, info, ptr + 1, t);
      DecodeHost(buf, ptr + 1, t);
    }

    method DecodeAuthority(buf: array<char>, string2: nat, ghost t: string)
      requires Holds(buf[..], string2, t) && Password == ""
      modifies this, buf
      ensures Value() == UrlCodec.DecodeAuthority(old(Value()), t)
    {
      var ptr := Cut(buf, string2, '@', t);
      if ptr >= 0 {
        DecodeUserAndHost(buf, string2, ptr, Before(t, '@'), After(t, '@'));
      } else {
        DecodeHost(buf, string2, t);
      }
    }

    method DecodeRest(buf: array<char>, string2: nat, ghost t: string)
      requires Holds(buf[..], string2, t) && Password == "" && Rest == "/"
      modifies this, buf
      ensures Value() == UrlCodec.DecodeRest(old(Value()), t)
    {
      var ptr := Cut(buf, string2, '/', t);
      if ptr >= 0 {
        var rest := Str(buf, ptr + 1, After(t, '/'));
        Rest := Rest + rest;
      }
      DecodeAuthority(buf, string2, Before(t, '/'));
    }

    /** A scheme `a` is what a colon and two slashes follow. */
    method TakeScheme(buf: array<char>, ptr: nat, ghost a: string, ghost b: string) returns (string2: nat)
      requires Holds(buf[..], 0, a + [':'] + b) && ptr == |a|
      modifies this`Scheme, buf
      ensures Scheme == if "//" <= b then a else old(Scheme)
      ensures Holds(buf[..], string2, if "//" <= b then b[2..] else a + [':'] + b)
    {
      string2 := 0;
      HoldsTail(buf[..], 0, a + [':'], b);
      var slashes := StrNCmp(buf, ptr + 1, "//", b);
      if slashes {
        WriteNul(buf, ptr, 0, a, ':', b);
        Scheme := Str(buf, 0, a);
        string2 := ptr + 3;
        assert "//" + b[2..] == b;
        HoldsTail(buf[..], ptr + 1, "//", b[2..]);
      }
    }

    method DecodeScheme(buf: array<char>, ghost t: string) returns (string2: nat)
      requires Holds(buf[..], 0, t)
      modifies this`Scheme, buf
      ensures Scheme == if NamesScheme(t) then Before(t, ':') else old(Scheme)
      ensures Holds(buf[..], string2, if NamesScheme(t) then After(t, ':')[2..] else t)
    {
      string2 := 0;
      var ptr := StrChr(buf, 0, ':', t);
      if ptr >= 0 {
        string2 := TakeScheme(buf, ptr, Before(t, ':'), After(t, ':'));
      }
    }

    method Decode(text: string)
      modifies this
      ensures Value() == UrlCodec.Decode(text)
    {
      Clear();
      if text == "" || text[0] == '\0' {
        return;
      }
      var temp := StrDup(text);
      var ptr := Cut(temp, 0, ' ', Before(text, '\0'));
      ghost var word := Before(Before(text, '\0'), ' ');
      var string2 := DecodeScheme(temp, word);
      DecodeRest(temp, string2, if NamesScheme(word) then After(word, ':')[2..] else word);
    }

    method AppendUserInfo(url: string) returns (r: string)
      ensures r == url + UserInfo(Value())
    {
      r := url;
      if User != "" {
        r := r + User;
        if Password != "" {
          r := r + (":" + Password);
        }
        r := r + "@";
      }
    }

    /** Without room for the port in its buffer there is no saying what becomes of the rest. */
    method AppendPort(url: string) returns (r: Option<string>)
      ensures r == if Port == 0 then Some(url)
                   else if PortFits(Port) then Some(url + (":" + UrlCodec.Print(Port))) else None
    {
      r := Some(url);
      if Port != 0 {
        PortIsPlain(Port);
        var buf := new char[PORT_BUFFER];
        var fits := CBuffers.Print(buf, ":" + UrlCodec.Print(Port));
        if fits {
          var port := Str(buf, 0, ":" + UrlCodec.Print(Port));
          r := Some(url + port);
        } else {
          r := None;
        }
      }
    }

    method AppendAuthority(url: string) returns (r: Option<string>)
      ensures r == if Port != 0 && !PortFits(Port) then None else Some(url + Authority(Value()))
    {
      var s := AppendUserInfo(url);
      r := AppendPort(s + Host);
      AuthorityFollows(url, Value());
    }

    method Encode() returns (url: Option<string>)
      ensures url == UrlCodec.Encode(Value())
    {
      if Host == "" {
        assert "" + Rest == Rest;
        return Some(Rest);
      }
      url := AppendAuthority(if Scheme == "" then "" else Scheme + "://");
      if url.Some? {
        url := Some(url.value + Rest);
      }
    }
  }
}
