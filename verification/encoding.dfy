/** What a conforming client writes, and the proof that the one-shot reader of
    `Wire` undoes it and accepts nothing else. */
module Encoding {
  import opened Common
  import opened Address
  import opened Wire
  import Utf8

  datatype Credentials = Credentials(user: string, password: bytes)

  datatype Addr = V4(octets: bytes) | V6(octets: bytes) | Name(text: string) {
    predicate Valid() {
      match this
      case V4(o) => |o| == 4
      case V6(o) => |o| == 16
      case Name(t) => |Utf8.Encode(t)| < 256
    }

    function Type(): byte {
      match this
      case V4(_) => ATYP_IPV4
      case V6(_) => ATYP_IPV6
      case Name(_) => ATYP_DOMAIN
    }

    function Encode(): bytes
      requires Valid()
    {
      match this
      case V4(o) => o
      case V6(o) => o
      case Name(t) => [|Utf8.Encode(t)|] + Utf8.Encode(t)
    }

    /** The host text: a domain name is taken verbatim. */
    function Text(): string
      requires Valid()
    {
      match this
      case V4(o) => Ipv4Text(o)
      case V6(o) => Ipv6Text(o)
      case Name(t) => t
    }
  }

  /** A client that wants a connection. It logs in when it offered to. */
  datatype Client = Client(methods: bytes, login: Option<Credentials>, rsv: byte, addr: Addr, port: nat) {
    predicate Valid() {
      && |methods| < 256
      && (login.Some? <==> METHOD_USERPASS in methods)
      && (login.None? ==> METHOD_NOAUTH in methods)
      && (login.Some? ==> |Utf8.Encode(login.value.user)| < 256 && |login.value.password| < 256)
      && addr.Valid()
      && port < 0x10000
    }

    function User(): Option<string> {
      if login.Some? then Some(login.value.user) else None
    }

    function Destination(): Dest
      requires Valid()
    {
      Dest(addr.Text(), port)
    }

    /** The replies that lead this client up to its CONNECT. */
    function Welcome(): bytes {
      if login.Some? then [SOCKS5, METHOD_USERPASS, AUTH_USERPASS_VER, REP_SUCCESS]
      else [SOCKS5, METHOD_NOAUTH]
    }

    function EncodeGreeting(): bytes
      requires Valid()
    {
      [SOCKS5, |methods|] + methods
    }

    function EncodeLogin(): bytes
      requires Valid()
    {
      if login.None? then []
      else
        var u := Utf8.Encode(login.value.user);
        [AUTH_USERPASS_VER, |u|] + u + [|login.value.password|] + login.value.password
    }

    function EncodeTarget(): bytes
      requires Valid()
    {
      addr.Encode() + [port / 256, port % 256]
    }

    function EncodeRequest(): bytes
      requires Valid()
    {
      [SOCKS5, CMD_CONNECT, rsv, addr.Type()] + EncodeTarget()
    }

    function Encode(): bytes
      requires Valid()
    {
      EncodeGreeting() + EncodeLogin() + EncodeRequest()
    }
  }

  // ---- reading what was written ----

  lemma HostReadsAddr(a: Addr, rest: bytes)
    requires a.Valid()
    ensures Host(a.Encode() + rest, a.Type()) == Got(a.Text(), |a.Encode()|)
  {
    var s := a.Encode() + rest;
    match a {
      case V4(o) => assert s[..4] == o;
      case V6(o) => assert s[..16] == o;
      case Name(t) =>
        var e := Utf8.Encode(t);
        assert s[1..1 + |e|] == e;
        Utf8.DecodeEncode(t);
    }
  }

  lemma RequestReadsClient(c: Client, rest: bytes)
    requires c.Valid()
    ensures Request(c.EncodeRequest() + rest, c.User())
         == Dialogue([], |c.EncodeRequest()|, Connect(c.User(), c.Destination()))
  {
    var s := c.EncodeRequest() + rest;
    var n := |c.addr.Encode()|;
    assert s[4..] == c.addr.Encode() + ([c.port / 256, c.port % 256] + rest);
    HostReadsAddr(c.addr, [c.port / 256, c.port % 256] + rest);
    assert s[4..][n] == c.port / 256 && s[4..][n + 1] == c.port % 256;
  }

  lemma UserpassReadsLogin(c: Client, rest: bytes)
    requires c.Valid() && c.login.Some?
    ensures Userpass(c.EncodeLogin() + rest) == Got(c.login.value.user, |c.EncodeLogin()|)
  {
    var s := c.EncodeLogin() + rest;
    var e := Utf8.Encode(c.login.value.user);
    assert s[2..2 + |e|] == e;
    assert s[2 + |e|] == |c.login.value.password|;
    Utf8.DecodeEncode(c.login.value.user);
  }

  lemma GreetingReadsMethods(c: Client, rest: bytes)
    requires c.Valid()
    ensures Greeting(c.EncodeGreeting() + rest) == Got(Choose(c.methods), |c.EncodeGreeting()|)
  {
    var s := c.EncodeGreeting() + rest;
    assert s[2..2 + |c.methods|] == c.methods;
  }

  lemma LoginOfUserpassAnd(l: bytes, t: bytes, user: string)
    requires Userpass(l + t) == Got(user, |l|)
    ensures Login(l + t) == Request(t, Some(user)).After([AUTH_USERPASS_VER, REP_SUCCESS], |l|)
  {
    hide Userpass, Request;
    assert (l + t)[|l|..] == t;
  }

  lemma LoginReadsClient(c: Client, rest: bytes)
    requires c.Valid() && c.login.Some?
    ensures Login(c.EncodeLogin() + c.EncodeRequest() + rest)
         == Dialogue([AUTH_USERPASS_VER, REP_SUCCESS], |c.EncodeLogin() + c.EncodeRequest()|,
                     Connect(c.User(), c.Destination()))
  {
    var l, r, user := c.EncodeLogin(), c.EncodeRequest(), c.login.value.user;
    assert c.User() == Some(user);
    hide *;
    assert l + r + rest == l + (r + rest);
    UserpassReadsLogin(c, r + rest);
    RequestReadsClient(c, rest);
    LoginOfUserpassAnd(l, r + rest, user);
    AfterIs(Dialogue([], |r|, Connect(c.User(), c.Destination())), [AUTH_USERPASS_VER, REP_SUCCESS], |l|);
  }

  lemma AfterIs(d: Dialogue, said: bytes, n: nat)
    ensures d.After(said, n) == Dialogue(said + d.sent, n + d.used, d.end)
  {}

  lemma SessionOfGreeting(g: bytes, t: bytes, m: Method)
    requires Greeting(g + t) == Got(m, |g|) && m != Unacceptable
    ensures Session(g + t) == if m == NoAuth then Request(t, None).After([SOCKS5, METHOD_NOAUTH], |g|)
                              else Login(t).After([SOCKS5, METHOD_USERPASS], |g|)
  {
    hide Greeting, Login, Request;
    assert (g + t)[|g|..] == t;
  }

  lemma Regroup(g: bytes, l: bytes, r: bytes, rest: bytes)
    ensures g + l + r + rest == g + (l + r + rest) && |g + l + r| == |g| + |l + r|
    ensures l == [] ==> l + r + rest == r + rest && |l + r| == |r|
  {}

  lemma WelcomeIs(c: Client)
    requires c.Valid()
    ensures if c.login.Some?
            then Choose(c.methods) == UserPass
                 && c.Welcome() == [SOCKS5, METHOD_USERPASS] + [AUTH_USERPASS_VER, REP_SUCCESS]
            else Choose(c.methods) == NoAuth && c.User() == None && c.Welcome() == [SOCKS5, METHOD_NOAUTH] + []
  {}

  lemma SessionReadsLogin(c: Client, rest: bytes)
    requires c.Valid() && c.login.Some?
    ensures Session(c.EncodeGreeting() + (c.EncodeLogin() + c.EncodeRequest() + rest))
         == Dialogue(c.Welcome(), |c.EncodeGreeting()| + |c.EncodeLogin() + c.EncodeRequest()|,
                     Connect(c.User(), c.Destination()))
  {
    hide *;
    var t, n := c.EncodeLogin() + c.EncodeRequest() + rest, |c.EncodeLogin() + c.EncodeRequest()|;
    WelcomeIs(c);
    GreetingReadsMethods(c, t);
    LoginReadsClient(c, rest);
    SessionOfGreeting(c.EncodeGreeting(), t, UserPass);
    AfterIs(Dialogue([AUTH_USERPASS_VER, REP_SUCCESS], n, Connect(c.User(), c.Destination())),
            [SOCKS5, METHOD_USERPASS], |c.EncodeGreeting()|);
  }

  lemma SessionReadsNoAuth(c: Client, rest: bytes)
    requires c.Valid() && c.login.None?
    ensures Session(c.EncodeGreeting() + (c.EncodeRequest() + rest))
         == Dialogue(c.Welcome(), |c.EncodeGreeting()| + |c.EncodeRequest()|, Connect(c.User(), c.Destination()))
  {
    hide *;
    var t, n := c.EncodeRequest() + rest, |c.EncodeRequest()|;
    WelcomeIs(c);
    GreetingReadsMethods(c, t);
    RequestReadsClient(c, rest);
    SessionOfGreeting(c.EncodeGreeting(), t, NoAuth);
    AfterIs(Dialogue([], n, Connect(c.User(), c.Destination())), [SOCKS5, METHOD_NOAUTH], |c.EncodeGreeting()|);
  }

  /** Round trip with exact consumption: the reader recovers username and
      destination and leaves whatever was pipelined behind them. */
  lemma SessionReadsClient(c: Client, rest: bytes)
    requires c.Valid()
    ensures Session(c.Encode() + rest)
         == Dialogue(c.Welcome(), |c.Encode()|, Connect(c.User(), c.Destination()))
  {
    var g, l, r := c.EncodeGreeting(), c.EncodeLogin(), c.EncodeRequest();
    assert c.Encode() == g + l + r && (c.login.None? ==> l == []);
    hide *;
    Regroup(g, l, r, rest);
    if c.login.Some? {
      SessionReadsLogin(c, rest);
    } else {
      SessionReadsNoAuth(c, rest);
    }
  }

  // ---- nothing else is accepted ----

  lemma NameOfDomain(s: bytes) returns (a: Addr)
    requires DomainName(s).Got?
    ensures a.Name? && a.Valid() && a.text == DomainName(s).value
    ensures a.Encode() == s[..DomainName(s).used]
  {
    var n := 1 + s[0] as nat;
    Utf8.EncodeDecode(s[1..n]);
    a := Name(DomainName(s).value);
    assert s[..n] == [s[0]] + s[1..n];
  }

  lemma AddrOfHost(s: bytes, atyp: byte) returns (a: Addr)
    requires Host(s, atyp).Got?
    ensures a.Valid() && a.Type() == atyp
    ensures a.Encode() == s[..Host(s, atyp).used]
  {
    if atyp == ATYP_IPV4 {
      a := V4(s[..4]);
    } else if atyp == ATYP_IPV6 {
      a := V6(s[..16]);
    } else {
      a := NameOfDomain(s);
    }
  }

  lemma CutInFour(s: bytes, i: nat, j: nat, k: nat)
    requires i <= j < k <= |s|
    ensures s[..k] == s[..i] + s[i..j] + [s[j]] + s[j + 1..k]
  {}

  lemma LoginOfUserpass(s: bytes) returns (l: Credentials)
    requires Userpass(s).Got?
    ensures |Utf8.Encode(l.user)| < 256 && |l.password| < 256
    ensures Userpass(s).value == l.user
    ensures [AUTH_USERPASS_VER, |Utf8.Encode(l.user)|] + Utf8.Encode(l.user) + [|l.password|] + l.password
         == s[..Userpass(s).used]
  {
    hide Utf8.Encode, Utf8.Decode;
    var u := 2 + s[1] as nat;
    var p := u + 1 + s[u] as nat;
    Utf8.EncodeDecode(s[2..u]);
    l := Credentials(Utf8.Decode(s[2..u]).value, s[u + 1..p]);
    CutInFour(s, 2, u, p);
    assert s[..2] == [AUTH_USERPASS_VER, |s[2..u]|];
  }

  lemma PortBytes(high: byte, low: byte)
    ensures BigEndian(high, low) / 256 == high && BigEndian(high, low) % 256 == low
  {}

  lemma AddrOfTarget(s: bytes, atyp: byte) returns (a: Addr, port: nat)
    requires Target(s, atyp).Got?
    ensures a.Valid() && a.Type() == atyp && port < 0x10000
    ensures a.Encode() + [port / 256, port % 256] == s[..Target(s, atyp).used]
  {
    a := AddrOfHost(s, atyp);
    var n := Host(s, atyp).used;
    port := BigEndian(s[n], s[n + 1]);
    PortBytes(s[n], s[n + 1]);
    CutPort(s, n);
  }

  lemma CutPort(s: bytes, n: nat)
    requires n + 2 <= |s|
    ensures s[..n + 2] == s[..n] + [s[n], s[n + 1]]
  {}

  lemma CutRequest(s: bytes, n: nat)
    requires 4 + n <= |s|
    ensures s[..4 + n] == [s[0], s[1], s[2], s[3]] + s[4..][..n]
  {}

  /** The client whose encoding ends with the request at the head of `s`. */
  lemma ClientOfRequest(s: bytes, methods: bytes, login: Option<Credentials>, user: Option<string>) returns (c: Client)
    requires Request(s, user).end.Connect?
    requires |methods| < 256
    requires login.Some? <==> METHOD_USERPASS in methods
    requires login.None? ==> METHOD_NOAUTH in methods
    requires login.Some? ==> |Utf8.Encode(login.value.user)| < 256 && |login.value.password| < 256
    ensures c.Valid() && c.methods == methods && c.login == login
    ensures c.EncodeRequest() == s[..Request(s, user).used]
  {
    var a, port := AddrOfTarget(s[4..], s[3]);
    c := Client(methods, login, s[2], a, port);
    CutRequest(s, Target(s[4..], s[3]).used);
  }

  lemma TakeTwice(s: bytes, i: nat, j: nat)
    requires i + j <= |s|
    ensures s[..i + j] == s[..i] + s[i..][..j]
  {}

  /** The client whose encoding ends with the login and request in `s`. */
  lemma ClientOfLogin(s: bytes, methods: bytes) returns (c: Client)
    requires |methods| < 256 && METHOD_USERPASS in methods
    requires Userpass(s).Got?
    requires Request(s[Userpass(s).used..], Some(Userpass(s).value)).end.Connect?
    ensures c.Valid() && c.methods == methods
    ensures var j := Userpass(s).used;
            var r := Request(s[j..], Some(Userpass(s).value)).used;
            j + r <= |s| && c.EncodeLogin() + c.EncodeRequest() == s[..j + r]
  {
    var l := LoginOfUserpass(s);
    var j := Userpass(s).used;
    c := ClientOfRequest(s[j..], methods, Some(l), Some(l.user));
    RequestBounds(s[j..], Some(l.user));
    TakeTwice(s, j, Request(s[j..], Some(l.user)).used);
    assert c.EncodeLogin() == s[..j];
  }

  /** How a session that reaches its CONNECT came about. */
  lemma ConnectingSession(s: bytes)
    requires Session(s).end.Connect?
    ensures Greeting(s).Got? && Greeting(s).value == Choose(s[2..Greeting(s).used])
    ensures Greeting(s).used == 2 + s[1] as nat && s[0] == SOCKS5
    ensures var t := s[Greeting(s).used..];
            if Greeting(s).value == NoAuth then
              Request(t, None).end.Connect? && Session(s).used == Greeting(s).used + Request(t, None).used
            else
              && Greeting(s).value == UserPass && Userpass(t).Got?
              && var r := Request(t[Userpass(t).used..], Some(Userpass(t).value));
                 r.end.Connect? && Session(s).used == Greeting(s).used + Userpass(t).used + r.used
  {
    GreetingBounds(s);
  }

  /** A CONNECT is only ever asked of Tor for an input that starts with some
      valid client's encoding, of which nothing is left unread. */
  lemma ClientOfSession(s: bytes) returns (c: Client)
    requires Session(s).end.Connect?
    ensures c.Valid() && Session(s).used <= |s| && c.Encode() == s[..Session(s).used]
  {
    hide Session, Request, Userpass, Utf8.Encode;
    SessionBounds(s);
    ConnectingSession(s);
    var used, n := Session(s).used, Greeting(s).used;
    var t := s[n..];
    if Greeting(s).value == NoAuth {
      c := ClientOfRequest(t, s[2..n], None, None);
      RequestBounds(t, None);
      assert c.EncodeLogin() + c.EncodeRequest() == c.EncodeRequest();
    } else {
      c := ClientOfLogin(t, s[2..n]);
    }
    Assemble(c, s, n, used - n);
  }

  lemma CutHeader(s: bytes, n: nat)
    requires 2 <= n <= |s|
    ensures s[..n] == [s[0], s[1]] + s[2..n]
  {}

  lemma Glue(s: bytes, n: nat, m: nat, g: bytes, l: bytes, r: bytes)
    requires n + m <= |s| && g == s[..n] && l + r == s[n..][..m]
    ensures g + l + r == s[..n + m]
  {
    TakeTwice(s, n, m);
    assert g + l + r == g + (l + r);
  }

  lemma Assemble(c: Client, s: bytes, n: nat, m: nat)
    requires c.Valid() && n + m <= |s| && n >= 2
    requires c.methods == s[2..n] && s[0] == SOCKS5 && s[1] == n - 2
    requires c.EncodeLogin() + c.EncodeRequest() == s[n..][..m]
    ensures c.Encode() == s[..n + m]
  {
    CutHeader(s, n);
    Glue(s, n, m, c.EncodeGreeting(), c.EncodeLogin(), c.EncodeRequest());
  }

  lemma AcceptsClient(c: Client, s: bytes)
    requires c.Valid() && c.Encode() <= s
    ensures Session(s).end.Connect?
  {
    var rest := s[|c.Encode()|..];
    assert s == c.Encode() + rest;
    SessionReadsClient(c, rest);
  }

  lemma AcceptsOnlyClients(s: bytes)
    requires Session(s).end.Connect?
    ensures exists c: Client :: c.Valid() && c.Encode() <= s
  {
    var c := ClientOfSession(s);
    assert c.Valid() && c.Encode() <= s;
  }

  /** The reader asks Tor for a stream exactly when the input starts with the
      encoding of a valid client. */
  lemma AcceptsExactlyClients(s: bytes)
    ensures Session(s).end.Connect? <==> exists c: Client :: c.Valid() && c.Encode() <= s
  {
    if Session(s).end.Connect? {
      AcceptsOnlyClients(s);
    } else if c: Client :| c.Valid() && c.Encode() <= s {
      AcceptsClient(c, s);
    }
  }

  /** The bound of 1032 bytes on a handshake is attained. */
  lemma LongestHandshake() returns (c: Client)
    ensures c.Valid() && Session(c.Encode()).end.Connect? && Session(c.Encode()).used == 1032
  {
    var text := seq(255, _ => 'a');
    Utf8.AsciiAsItIs(text);
    c := Client(seq(255, _ => METHOD_USERPASS), Some(Credentials(text, seq(255, _ => 0))), 0, Name(text), 443);
    assert c.methods[0] == METHOD_USERPASS;
    assert c.Encode() + [] == c.Encode();
    SessionReadsClient(c, []);
  }
}
