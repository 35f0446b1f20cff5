/** URLs (section 3.1 of RFC 1738) as the proxy takes them apart and puts them together again. */
module UrlCodec {
  import opened Bytes
  import opened CStrings

  datatype Url = Url(scheme: string, user: string, password: string, host: string, port: int, rest: string)

  const BLANK := Url("", "", "", "", 80, "/")

  // ---- strchr ----

  /** What is after the first `c`. */
  function After(s: string, c: char): string
    requires c in s
  {
    s[|Before(s, c)| + 1..]
  }

  lemma AfterFollows(s: string, c: char)
    requires c in s
    ensures s == Before(s, c) + [c] + After(s, c)
    ensures forall d <- After(s, c) :: d in s
  {}

  lemma {:induction false} CutAt(a: string, c: char, b: string)
    requires c !in a
    ensures c in a + [c] + b && Before(a + [c] + b, c) == a && After(a + [c] + b, c) == b
  {
    var s := a + [c] + b;
    if a == "" {
      assert s[0] == c && s[1..] == b;
    } else {
      assert s[0] == a[0] && s[1..] == a[1..] + [c] + b;
      CutAt(a[1..], c, b);
      assert Before(s, c) == [a[0]] + a[1..];
      assert s[|a| + 1..] == b;
    }
  }

  lemma CutEarlier(a: string, c: char, b: string)
    requires c in a
    ensures c in a + b && Before(a + b, c) == Before(a, c) && After(a + b, c) == After(a, c) + b
  {
    var rest := After(a, c);
    assert a + b == Before(a, c) + [c] + (rest + b);
    CutAt(Before(a, c), c, rest + b);
  }

  // ---- sprintf("%d") and atoi ----

  predicate AreDigits(s: string)
  {
    forall i :: 0 <= i < |s| ==> '0' <= s[i] <= '9'
  }

  function Digits(n: nat): (s: string)
    ensures s != "" && AreDigits(s)
  {
    if n < 10 then [(n as char) + '0'] else Digits(n / 10) + [((n % 10) as char) + '0']
  }

  function Print(n: int): string
  {
    if n < 0 then "-" + Digits(-n) else Digits(n)
  }

  function Number(s: string, acc: nat): nat
  {
    if s != "" && '0' <= s[0] <= '9' then Number(s[1..], 10 * acc + (s[0] - '0') as int) else acc
  }

  function Atoi(s: string): int
  {
    if s == "" then 0
    else if s[0] == ' ' || '\t' <= s[0] <= '\r' then Atoi(s[1..])
    else if s[0] == '-' then -(Number(s[1..], 0) as int)
    else if s[0] == '+' then Number(s[1..], 0)
    else Number(s, 0)
  }

  lemma {:induction false} NumberSnoc(s: string, d: char, acc: nat)
    requires '0' <= d <= '9' && AreDigits(s)
    ensures Number(s + [d], acc) == 10 * Number(s, acc) + (d - '0') as int
  {
    if s == "" {
      assert [d][1..] == "";
    } else {
      assert (s + [d])[1..] == s[1..] + [d];
      NumberSnoc(s[1..], d, 10 * acc + (s[0] - '0') as int);
    }
  }

  lemma {:induction false} NumberOfDigits(n: nat)
    ensures Number(Digits(n), 0) == n
  {
    if n < 10 {
      assert Digits(n)[1..] == "";
    } else {
      NumberOfDigits(n / 10);
      NumberSnoc(Digits(n / 10), ((n % 10) as char) + '0', 0);
    }
  }

  lemma AtoiPrint(n: int)
    ensures Atoi(Print(n)) == n
  {
    if n < 0 {
      NumberOfDigits(-n);
      assert Print(n)[1..] == Digits(-n);
    } else {
      NumberOfDigits(n);
      assert '0' <= Digits(n)[0] <= '9';
    }
  }

  // ---- decoding ----

  /** [user[:password]@]host[:port] */
  function DecodeHost(u: Url, host: string): (v: Url)
    ensures v.scheme == u.scheme
  {
    if ':' in host then u.(host := Before(host, ':'), port := Atoi(After(host, ':'))) else u.(host := host)
  }

  function DecodeAuthority(u: Url, s: string): (v: Url)
    ensures v.scheme == u.scheme
  {
    if '@' in s then
      var info := Before(s, '@');
      var v := u.(user := Before(info, ':'), password := if ':' in info then After(info, ':') else "");
      DecodeHost(v, After(s, '@'))
    else DecodeHost(u, s)
  }

  function DecodeRest(u: Url, s: string): (v: Url)
    ensures v.scheme == u.scheme
  {
    if '/' in s then DecodeAuthority(u.(rest := "/" + After(s, '/')), Before(s, '/')) else DecodeAuthority(u, s)
  }

  predicate NamesScheme(s: string)
  {
    ':' in s && "//" <= After(s, ':')
  }

  function DecodeWord(s: string): Url
  {
    if NamesScheme(s) then DecodeRest(BLANK.(scheme := Before(s, ':')), After(s, ':')[2..])
    else DecodeRest(BLANK, s)
  }

  /** Nothing after the first space counts. */
  function Decode(s: string): Url
  {
    if Before(s, '\0') == "" then BLANK else DecodeWord(Before(Before(s, '\0'), ' '))
  }

  // ---- encoding ----

  function Info(user: string, password: string): string
  {
    user + if password == "" then "" else ":" + password
  }

  function UserInfo(u: Url): string
  {
    if u.user == "" then "" else Info(u.user, u.password) + "@"
  }

  function Authority(u: Url): string
  {
    UserInfo(u) + u.host + (if u.port == 0 then "" else ":" + Print(u.port))
  }

  function Text(u: Url): string
  {
    (if u.host == "" then "" else (if u.scheme == "" then "" else u.scheme + "://") + Authority(u)) + u.rest
  }

  /** The buffer a colon, the port and a NUL are printed into. */
  const PORT_BUFFER := 8

  predicate PortFits(port: int)
  {
    |":" + Print(port)| + 1 <= PORT_BUFFER
  }

  function Ten(k: nat): nat
  {
    if k == 0 then 1 else 10 * Ten(k - 1)
  }

  lemma {:induction false} DigitsBelow(n: nat, k: nat)
    requires k > 0
    ensures |Digits(n)| <= k <==> n < Ten(k)
  {
    if k > 1 && n >= 10 {
      DigitsBelow(n / 10, k - 1);
    } else if k == 1 {
      assert Ten(1) == 10 * Ten(0);
    } else {
      TenIsLarge(k);
    }
  }

  lemma {:induction false} TenIsLarge(k: nat)
    ensures k > 0 ==> Ten(k) >= 10
  {
    if k > 1 {
      TenIsLarge(k - 1);
    }
  }

  /** The ports that fit are those of at most six digits, or five behind a minus sign. */
  lemma PortFitsIff(port: int)
    ensures PortFits(port) <==> -100000 < port < 1000000
  {
    assert Ten(5) == 100000 && Ten(6) == 1000000;
    if port < 0 {
      DigitsBelow(-port, 5);
    } else {
      DigitsBelow(port, 6);
    }
  }

  /** Nothing can be said of what is encoded with a port that overruns its buffer. */
  function Encode(u: Url): Option<string>
  {
    if u.host != "" && u.port != 0 && !PortFits(u.port) then None else Some(Text(u))
  }

  // ---- round trip ----

  predicate Free(s: string, cs: string)
  {
    forall c <- cs :: c !in s
  }

  /** No part holds what would end it. */
  predicate Clean(u: Url)
  {
    && Free(u.scheme, ": \0") && Free(u.user, ":/@ \0") && Free(u.password, "/@ \0") && Free(u.host, ":/ \0")
    && Free(u.rest, " \0") && "/" <= u.rest
  }

  /** What survives encoding: clean parts, a port that is printed and fits, and without a user no password
      and no @ in the host. Without a host there is only the rest, which must not look like a scheme. */
  predicate Encodable(u: Url)
  {
    && Clean(u)
    && if u.host == "" then u == BLANK.(rest := u.rest) && !NamesScheme(u.rest)
       else u.port != 0 && PortFits(u.port) && (u.user == "" ==> u.password == "" && '@' !in u.host)
  }

  lemma BeforeIsFree(s: string, c: char, cs: string)
    requires Free(s, cs)
    ensures Free(Before(s, c), [c] + cs)
  {
    forall d <- [c] + cs ensures d !in Before(s, c) {
      assert d != c ==> d in cs;
    }
  }

  lemma HostIsClean(u: Url, s: string)
    requires Free(s, "/ \0") && Clean(u)
    ensures Clean(DecodeHost(u, s))
  {
    BeforeIsFree(s, ':', "/ \0");
    assert [':'] + "/ \0" == ":/ \0";
  }

  lemma AuthorityIsClean(u: Url, s: string)
    requires Free(s, "/ \0") && Clean(u)
    ensures Clean(DecodeAuthority(u, s))
  {
    if '@' in s {
      var info := Before(s, '@');
      BeforeIsFree(s, '@', "/ \0");
      assert Free(info, "/@ \0") && Free(After(s, '@'), "/ \0");
      BeforeIsFree(info, ':', "/@ \0");
      assert [':'] + "/@ \0" == ":/@ \0";
      var v := u.(user := Before(info, ':'), password := if ':' in info then After(info, ':') else "");
      HostIsClean(v, After(s, '@'));
    } else {
      HostIsClean(u, s);
    }
  }

  lemma RestIsClean(u: Url, s: string)
    requires Free(s, " \0") && Clean(u)
    ensures Clean(DecodeRest(u, s))
  {
    BeforeIsFree(s, '/', " \0");
    assert ['/'] + " \0" == "/ \0";
    if '/' in s {
      assert Free("/" + After(s, '/'), " \0");
      AuthorityIsClean(u.(rest := "/" + After(s, '/')), Before(s, '/'));
    } else {
      AuthorityIsClean(u, s);
    }
  }

  /** Whatever is decoded is clean. */
  lemma DecodedIsClean(s: string)
    ensures Clean(Decode(s))
  {
    if Before(s, '\0') != "" {
      var t := Before(Before(s, '\0'), ' ');
      assert Free(t, " \0");
      if NamesScheme(t) {
        RestIsClean(BLANK.(scheme := Before(t, ':')), After(t, ':')[2..]);
      } else {
        RestIsClean(BLANK, t);
      }
    }
  }

  lemma PortIsPlain(n: int)
    ensures Print(n) != "" && Free(Print(n), ":/@ \0")
  {}

  lemma WordWithScheme(u: Url)
    requires u.scheme != "" && ':' !in u.scheme && u.host != ""
    ensures DecodeWord(Text(u)) == DecodeRest(BLANK.(scheme := u.scheme), Authority(u) + u.rest)
  {
    var s := Authority(u) + u.rest;
    assert Text(u) == u.scheme + [':'] + ("//" + s);
    CutAt(u.scheme, ':', "//" + s);
    assert ("//" + s)[2..] == s;
  }

  lemma WordWithoutScheme(u: Url)
    requires Clean(u) && u.scheme == "" && u.host != "" && u.port != 0
    ensures DecodeWord(Text(u)) == DecodeRest(BLANK, Authority(u) + u.rest)
  {
    var a, s := Authority(u), Authority(u) + u.rest;
    assert Text(u) == s;
    AuthorityIsPlain(u);
    CutEarlier(a, ':', u.rest);
    NoSlashes(a, u.rest);
  }

  /** What follows the first colon in an authority is no scheme's double slash. */
  lemma NoSlashes(a: string, rest: string)
    requires ':' in a && '/' !in a && After(a, ':') != ""
    ensures After(a, ':') + rest != "" && (After(a, ':') + rest)[0] != '/'
  {
    AfterFollows(a, ':');
    assert After(a, ':')[0] in After(a, ':');
  }

  /** Between the scheme and the rest the authority is found just as it was put there. */
  lemma AuthorityArrives(u: Url)
    requires Clean(u) && u.host != "" && u.port != 0
    ensures Decode(Text(u)) == DecodeAuthority(BLANK.(scheme := u.scheme, rest := u.rest), Authority(u))
  {
    TextIsWord(u);
    if u.scheme == "" {
      WordWithoutScheme(u);
    } else {
      WordWithScheme(u);
    }
    RestArrives(BLANK.(scheme := u.scheme), u);
  }

  lemma AuthorityIsPlain(u: Url)
    requires Clean(u) && u.port != 0
    ensures Free(Authority(u), "/ \0") && ':' in Authority(u) && After(Authority(u), ':') != ""
  {
    var a, port := Authority(u), Print(u.port);
    PortIsPlain(u.port);
    assert a == UserInfo(u) + u.host + ":" + port;
    assert a[|a| - |port| - 1] == ':';
    assert port[|port| - 1] in port && a[|a| - 1] == port[|port| - 1];
  }

  lemma TextHasNoSpace(u: Url)
    requires Clean(u)
    ensures Text(u) != "" && '\0' !in Text(u) && ' ' !in Text(u)
  {
    assert Free(UserInfo(u), " \0") && Free(Authority(u), " \0");
    var start := if u.scheme == "" then "" else u.scheme + "://";
    forall c <- " \0" ensures c !in start && c !in Authority(u) && c !in u.rest && c !in Text(u) {
      assert c !in u.scheme;
    }
    assert ' ' in " \0" && '\0' in " \0";
  }

  /** The text is one word. */
  lemma TextIsWord(u: Url)
    requires Clean(u)
    ensures Decode(Text(u)) == DecodeWord(Text(u))
  {
    TextHasNoSpace(u);
  }

  lemma RestIsCut(v: Url, a: string, rest: string)
    requires '/' !in a && "/" <= rest
    ensures DecodeRest(v, a + rest) == DecodeAuthority(v.(rest := rest), a)
  {
    var tail := rest[1..];
    assert rest == "/" + tail;
    assert a + rest == a + ['/'] + tail;
    CutAt(a, '/', tail);
  }

  lemma RestArrives(v: Url, u: Url)
    requires Clean(u) && u.port != 0
    ensures DecodeRest(v, Authority(u) + u.rest) == DecodeAuthority(v.(rest := u.rest), Authority(u))
  {
    AuthorityIsPlain(u);
    RestIsCut(v, Authority(u), u.rest);
  }

  lemma HostArrives(v: Url, host: string, port: int)
    requires ':' !in host
    ensures DecodeHost(v, host + ":" + Print(port)) == v.(host := host, port := port)
  {
    CutAt(host, ':', Print(port));
    AtoiPrint(port);
  }

  lemma UserArrives(v: Url, info: string, hp: string)
    requires '@' !in info
    ensures DecodeAuthority(v, info + "@" + hp) ==
      DecodeHost(v.(user := Before(info, ':'), password := if ':' in info then After(info, ':') else ""), hp)
  {
    CutAt(info, '@', hp);
  }

  lemma InfoParts(user: string, password: string)
    requires ':' !in user && '@' !in user && '@' !in password
    ensures '@' !in Info(user, password) && Before(Info(user, password), ':') == user
    ensures (if ':' in Info(user, password) then After(Info(user, password), ':') else "") == password
  {
    if password != "" {
      assert Info(user, password) == user + [':'] + password;
      CutAt(user, ':', password);
    } else {
      assert Info(user, password) == user;
    }
  }

  lemma UserReads(v: Url, user: string, password: string, hp: string)
    requires ':' !in user && '@' !in user && '@' !in password
    ensures DecodeAuthority(v, Info(user, password) + "@" + hp) ==
            DecodeHost(v.(user := user, password := password), hp)
  {
    InfoParts(user, password);
    UserArrives(v, Info(user, password), hp);
  }

  lemma NobodyReads(v: Url, host: string, port: int)
    requires ':' !in host && '@' !in host
    ensures DecodeAuthority(v, host + ":" + Print(port)) == v.(host := host, port := port)
  {
    PortIsPlain(port);
    assert '@' in ":/@ \0" && '@' !in host + ":" + Print(port);
    HostArrives(v, host, port);
  }

  lemma CleanParts(u: Url)
    requires Clean(u)
    ensures ':' !in u.user && '@' !in u.user && '@' !in u.password && ':' !in u.host
  {
    assert ':' in ":/@ \0" && '@' in ":/@ \0" && '@' in "/@ \0" && ':' in ":/ \0";
  }

  lemma AuthorityReads(v: Url, u: Url)
    requires Clean(u) && (u.user == "" ==> u.password == "" && '@' !in u.host)
    requires u.port != 0 && v.user == v.password == ""
    ensures DecodeAuthority(v, Authority(u)) ==
            v.(user := u.user, password := u.password, host := u.host, port := u.port)
  {
    CleanParts(u);
    if u.user == "" {
      assert Authority(u) == u.host + ":" + Print(u.port);
      NobodyReads(v, u.host, u.port);
    } else {
      AuthorityParts(u);
      UserReads(v, u.user, u.password, u.host + ":" + Print(u.port));
      HostArrives(v.(user := u.user, password := u.password), u.host, u.port);
    }
  }

  lemma AuthorityParts(u: Url)
    requires u.user != "" && u.port != 0
    ensures Authority(u) == Info(u.user, u.password) + "@" + (u.host + ":" + Print(u.port))
  {}

  /** Without a user, an @ in the host is taken for the end of one. */
  lemma HostLosesUser(v: Url, u: Url)
    requires Clean(u) && u.port != 0 && u.user == "" && '@' in u.host
    ensures DecodeAuthority(v, Authority(u)).host == After(u.host, '@') != u.host
  {
    var info, host, port := Before(u.host, '@'), After(u.host, '@'), Print(u.port);
    assert Authority(u) == info + "@" + (host + ":" + port);
    UserArrives(v, info, host + ":" + port);
    CleanParts(u);
    assert ':' !in u.host[|info| + 1..] && ':' !in info;
    HostArrives(v.(user := info, password := ""), host, u.port);
  }

  /** A scheme that is found is not empty, unless a colon comes first. */
  lemma SchemeIsFound(s: string)
    requires NamesScheme(s) && s[0] != ':'
    ensures DecodeWord(s).scheme == Before(s, ':') != ""
  {
    assert Before(s, ':') != "";
  }

  lemma FirstIsNoColon(u: Url)
    requires Clean(u) && u.host != ""
    ensures Authority(u) != "" && Authority(u)[0] != ':'
  {
    if u.user != "" {
      assert Authority(u)[0] == u.user[0] && u.user[0] in u.user;
    } else {
      assert Authority(u)[0] == u.host[0] && u.host[0] in u.host;
    }
  }

  /** Port 0 is not printed, and what is decoded has another port or a scheme that was not there. */
  lemma PortZeroIsLost(u: Url)
    requires Clean(u) && u.host != "" && u.port == 0
    ensures Decode(Text(u)) != u
  {
    TextIsWord(u);
    if u.scheme != "" {
      SchemeButNoPort(u);
    } else {
      NoSchemeNoPort(u);
    }
  }

  lemma SchemeButNoPort(u: Url)
    requires Clean(u) && u.host != "" && u.port == 0 && u.scheme != ""
    ensures DecodeWord(Text(u)).port == 80
  {
    assert ':' in ": \0";
    WordWithScheme(u);
    RestArrivesPlain(BLANK.(scheme := u.scheme), u);
    PortIsDefault(BLANK.(scheme := u.scheme, rest := u.rest), u);
  }

  lemma NoSchemeNoPort(u: Url)
    requires Clean(u) && u.host != "" && u.port == 0 && u.scheme == ""
    ensures DecodeWord(Text(u)).port == 80 || DecodeWord(Text(u)).scheme != ""
  {
    if NamesScheme(Text(u)) {
      FirstIsNoColon(u);
      SchemeIsFound(Text(u));
    } else {
      assert Text(u) == Authority(u) + u.rest;
      RestArrivesPlain(BLANK, u);
      PortIsDefault(BLANK.(rest := u.rest), u);
    }
  }

  lemma RestArrivesPlain(v: Url, u: Url)
    requires Clean(u) && u.port == 0
    ensures DecodeRest(v, Authority(u) + u.rest) == DecodeAuthority(v.(rest := u.rest), Authority(u))
  {
    assert Free(UserInfo(u), "/ \0") && Free(Authority(u), "/ \0");
    RestIsCut(v, Authority(u), u.rest);
  }

  lemma UserlessPort(u: Url)
    requires u.user != "" && u.port == 0
    ensures Authority(u) == Info(u.user, u.password) + "@" + u.host
  {}

  lemma PortIsDefault(v: Url, u: Url)
    requires Clean(u) && u.port == 0
    ensures DecodeAuthority(v, Authority(u)).port == v.port
  {
    CleanParts(u);
    if u.user != "" {
      UserlessPort(u);
      NoPortBehindUser(v, u);
    } else {
      assert Authority(u) == u.host;
      NoPortInHost(v, u.host);
    }
  }

  lemma NoPortBehindUser(v: Url, u: Url)
    requires ':' !in u.user && '@' !in u.user && '@' !in u.password && ':' !in u.host
    ensures DecodeAuthority(v, Info(u.user, u.password) + "@" + u.host).port == v.port
  {
    UserReads(v, u.user, u.password, u.host);
  }

  lemma NoPortInHost(v: Url, host: string)
    requires ':' !in host
    ensures DecodeAuthority(v, host).port == v.port
  {
    if '@' in host {
      AfterFollows(host, '@');
    }
  }

  /** Without a host only the rest is encoded. */
  lemma RestAlone(u: Url)
    requires Clean(u) && u.host == ""
    ensures Decode(Text(u)) == u <==> Encodable(u)
  {
    var s := u.rest;
    assert Text(u) == s && s[0] == '/';
    TextIsWord(u);
    if NamesScheme(s) {
      SchemeIsFound(s);
      RestShrinks(BLANK.(scheme := Before(s, ':')), After(s, ':')[2..]);
    } else {
      assert Before(s, '/') == "" && "/" + After(s, '/') == s;
      assert DecodeWord(s) == BLANK.(rest := s);
    }
  }

  lemma RestShrinks(v: Url, s: string)
    requires v.rest == "/"
    ensures |DecodeRest(v, s).rest| <= |s| + 1
  {}

  /** A port of eight digits is decoded, and overruns the buffer when it is encoded again. */
  lemma LongPortOverruns()
    ensures var u := Url("", "", "", "h", 10000000, "/"); Decode("h:10000000/") == u && Encode(u) == None
  {
    HostAndPort("h", 10000000);
    PrintTenMillion();
    Joined(Print(10000000));
    Overruns(Url("", "", "", "h", 10000000, "/"));
  }

  lemma Overruns(u: Url)
    requires u.host != "" && u.port >= 1000000
    ensures Encode(u) == None
  {
    PortFitsIff(u.port);
  }

  lemma HostAndPort(host: string, port: int)
    requires host != "" && port != 0 && Clean(Url("", "", "", host, port, "/")) && '@' !in host
    ensures Decode(host + ":" + Print(port) + "/") == Url("", "", "", host, port, "/")
  {
    TextOfHost(host, port);
    AuthorityRoundTripIff(Url("", "", "", host, port, "/"));
  }

  lemma TextOfHost(host: string, port: int)
    requires host != "" && port != 0
    ensures Text(Url("", "", "", host, port, "/")) == host + ":" + Print(port) + "/"
  {
    var u := Url("", "", "", host, port, "/");
    assert UserInfo(u) + host == host;
    assert Authority(u) == host + ":" + Print(port);
    assert "" + Authority(u) == Authority(u);
  }

  lemma PrintTenMillion()
    ensures Print(10000000) == "10000000"
  {
    assert Digits(1) == "1" && Digits(10) == "10" && Digits(100) == "100";
    assert Digits(1000) == "1000" && Digits(10000) == "10000";
    assert Digits(100000) == "100000" && Digits(1000000) == "1000000";
  }

  lemma Joined(port: string)
    requires port == "10000000"
    ensures "h" + ":" + port + "/" == "h:10000000/"
  {}

  /** Decoding an encoded URL gives it back if and only if it is Encodable: no part holds what would end
      it, the port is printed and fits its buffer, and when there is no user, there is no password and
      the host holds no @; and without a host, there is nothing but a rest that names no scheme. */
  lemma RoundTripIff(u: Url)
    ensures Encode(u).Some? && Decode(Encode(u).value) == u <==> Encodable(u)
  {
    if !Clean(u) {
      DecodedIsClean(Text(u));
    } else if u.host == "" {
      RestAlone(u);
    } else if u.port == 0 {
      PortZeroIsLost(u);
    } else {
      AuthorityRoundTripIff(u);
    }
  }

  lemma AuthorityRoundTripIff(u: Url)
    requires Clean(u) && u.host != "" && u.port != 0
    ensures Decode(Text(u)) == u <==> (u.user == "" ==> u.password == "" && '@' !in u.host)
  {
    var v := BLANK.(scheme := u.scheme, rest := u.rest);
    AuthorityArrives(u);
    if u.user == "" && '@' in u.host {
      HostLosesUser(v, u);
    } else if u.user == "" && u.password != "" {
      AuthorityReads(v, u.(password := ""));
      assert Authority(u) == Authority(u.(password := ""));
    } else {
      AuthorityReads(v, u);
    }
  }

  // ---- what may be left out ----

  /** A URL as it may be written: with or without a scheme, a user, a port, and anything after the host. */
  function Spelled(u: Url, tail: string): string
  {
    (if u.scheme == "" then "" else u.scheme + "://") + (Authority(u) + tail)
  }

  lemma AuthorityIsFree(u: Url)
    requires Clean(u)
    ensures Free(Authority(u), "/ \0")
  {
    if u.port != 0 {
      AuthorityIsPlain(u);
    } else {
      assert Authority(u) == UserInfo(u) + u.host;
    }
  }

  lemma SpelledIsWord(u: Url, tail: string)
    requires Clean(u) && u.host != "" && (tail == "" || tail == u.rest)
    ensures Decode(Spelled(u, tail)) == DecodeWord(Spelled(u, tail))
  {
    AuthorityIsFree(u);
    var start := if u.scheme == "" then "" else u.scheme + "://";
    forall c <- " \0" ensures c !in Spelled(u, tail) {
      assert c !in u.scheme && c !in Authority(u) && c !in u.rest;
      assert c !in start;
    }
    assert ' ' in " \0" && '\0' in " \0";
    FirstIsNoColon(u);
  }

  lemma SpelledWord(u: Url, tail: string)
    requires Clean(u) && (u.scheme == "" ==> !NamesScheme(Spelled(u, tail)))
    ensures DecodeWord(Spelled(u, tail)) == DecodeRest(BLANK.(scheme := u.scheme), Authority(u) + tail)
  {
    var s := Authority(u) + tail;
    if u.scheme == "" {
      assert Spelled(u, tail) == s;
    } else {
      assert ':' in ": \0" && ':' !in u.scheme;
      assert Spelled(u, tail) == u.scheme + [':'] + ("//" + s);
      CutAt(u.scheme, ':', "//" + s);
      assert ("//" + s)[2..] == s;
    }
  }

  lemma TailIsCut(v: Url, u: Url, tail: string)
    requires Clean(u) && (tail == "" || tail == u.rest) && v.rest == "/"
    ensures DecodeRest(v, Authority(u) + tail) ==
            DecodeAuthority(v.(rest := if tail == "" then "/" else tail), Authority(u))
  {
    AuthorityIsFree(u);
    assert '/' in "/ \0" && '/' !in Authority(u);
    if tail == "" {
      assert Authority(u) + tail == Authority(u);
    } else {
      RestIsCut(v, Authority(u), tail);
    }
  }

  lemma PortlessReads(v: Url, u: Url)
    requires Clean(u) && u.port == 0 && (u.user == "" ==> u.password == "" && '@' !in u.host)
    requires v.user == v.password == ""
    ensures DecodeAuthority(v, Authority(u)) == v.(user := u.user, password := u.password, host := u.host)
  {
    CleanParts(u);
    if u.user == "" {
      assert Authority(u) == u.host;
    } else {
      UserlessPort(u);
      UserReads(v, u.user, u.password, u.host);
    }
  }

  /** The parts are read as they are written, and what is left out is 80 for the port, and a slash. */
  lemma SpelledReads(u: Url, tail: string)
    requires Clean(u) && u.host != "" && (u.user == "" ==> u.password == "" && '@' !in u.host)
    requires (tail == "" || tail == u.rest) && (u.scheme == "" ==> !NamesScheme(Spelled(u, tail)))
    ensures Decode(Spelled(u, tail)) ==
            u.(port := if u.port == 0 then 80 else u.port, rest := if tail == "" then "/" else tail)
  {
    var v := BLANK.(scheme := u.scheme, rest := if tail == "" then "/" else tail);
    SpelledIsWord(u, tail);
    SpelledWord(u, tail);
    TailIsCut(BLANK.(scheme := u.scheme), u, tail);
    if u.port == 0 {
      PortlessReads(v, u);
    } else {
      AuthorityReads(v, u);
    }
  }

  /** What follows a space is not read. */
  lemma SpaceEnds(s: string, t: string)
    requires s != "" && ' ' !in s && '\0' !in s
    ensures Decode(s + " " + t) == Decode(s)
  {
    var u := Before(t, '\0');
    BeforeJoins(s + " ", t, '\0');
    CutAt(s, ' ', u);
    assert s + " " + u == s + [' '] + u;
  }

  lemma {:induction false} BeforeJoins(a: string, b: string, c: char)
    requires c !in a
    ensures Before(a + b, c) == a + Before(b, c)
    decreases |a|
  {
    if a == "" {
      assert a + b == b;
    } else {
      TailConcat(a, b);
      BeforeJoins(a[1..], b, c);
    }
  }
}
