/** The client side of the protocol on the wire, as sections 3 to 6 of RFC 1928
    and section 2 of RFC 1929 lay it out: a one-shot reader of everything a
    client has sent, independent of how `handle` reads it piece by piece. */
module Wire {
  import opened Common
  import opened Address
  import Utf8

  const SOCKS5: byte := 0x05
  const METHOD_NOAUTH: byte := 0x00
  const METHOD_USERPASS: byte := 0x02
  const METHOD_NONE: byte := 0xff
  const AUTH_USERPASS_VER: byte := 0x01
  const CMD_CONNECT: byte := 0x01
  const REP_SUCCESS: byte := 0x00
  const REP_GENERAL_FAILURE: byte := 0x01
  const REP_CMD_NOT_SUPPORTED: byte := 0x07
  const REP_ATYP_NOT_SUPPORTED: byte := 0x08
  const ATYP_IPV4: byte := 0x01
  const ATYP_DOMAIN: byte := 0x03
  const ATYP_IPV6: byte := 0x04

  /** A message at the head of the input: read in full, unacceptable after
      `used` bytes, or `need` bytes short of the next field. */
  datatype Parse<+T> = Got(value: T, used: nat) | Bad(used: nat) | Short(need: nat)

  datatype Method = UserPass | NoAuth | Unacceptable

  /** Username and password win over no authentication. */
  function Choose(methods: bytes): Method {
    if METHOD_USERPASS in methods then UserPass
    else if METHOD_NOAUTH in methods then NoAuth
    else Unacceptable
  }

  /** Section 3 of RFC 1928: version, method count, methods. */
  function Greeting(s: bytes): (r: Parse<Method>)
    ensures r.Got? || r.Bad? ==> r.used <= |s|
  {
    if |s| < 2 then Short(2 - |s|)
    else if s[0] != SOCKS5 then Bad(2)
    else
      var n := 2 + s[1] as nat;
      if |s| < n then Short(n - |s|) else Got(Choose(s[2..n]), n)
  }

  /** Section 2 of RFC 1929. The password is read and dropped. */
  function Userpass(s: bytes): (r: Parse<string>)
    ensures r.Got? || r.Bad? ==> r.used <= |s|
  {
    if |s| < 1 then Short(1)
    else if s[0] != AUTH_USERPASS_VER then Bad(1)
    else if |s| < 2 then Short(1)
    else
      var u := 2 + s[1] as nat;
      if |s| < u then Short(u - |s|)
      else if |s| == u then Short(1)
      else
        var p := u + 1 + s[u] as nat;
        if |s| < p then Short(p - |s|)
        else match Utf8.Decode(s[2..u])
          case None => Bad(p)
          case Some(name) => Got(name, p)
  }

  /** A domain name: a length and UTF-8 text, taken verbatim. */
  function DomainName(s: bytes): (r: Parse<string>)
    ensures r.Got? || r.Bad? ==> r.used <= |s|
  {
    if |s| < 1 then Short(1)
    else
      var n := 1 + s[0] as nat;
      if |s| < n then Short(n - |s|)
      else match Utf8.Decode(s[1..n])
        case None => Bad(n)
        case Some(name) => Got(name, n)
  }

  /** Section 5 of RFC 1928: the address, without its type. */
  function Host(s: bytes, atyp: byte): (r: Parse<string>)
    ensures r.Got? || r.Bad? ==> r.used <= |s|
  {
    if atyp == ATYP_IPV4 then
      if |s| < 4 then Short(4 - |s|) else Got(Ipv4Text(s[..4]), 4)
    else if atyp == ATYP_IPV6 then
      if |s| < 16 then Short(16 - |s|) else Got(Ipv6Text(s[..16]), 16)
    else if atyp == ATYP_DOMAIN then DomainName(s)
    else Bad(0)
  }

  /** The address and the port after it, in network order. */
  function Target(s: bytes, atyp: byte): (r: Parse<Dest>)
    ensures r.Got? || r.Bad? ==> r.used <= |s|
  {
    match Host(s, atyp)
    case Short(k) => Short(k)
    case Bad(n) => Bad(n)
    case Got(host, n) =>
      if |s| < n + 2 then Short(n + 2 - |s|)
      else Got(Dest(host, BigEndian(s[n], s[n + 1])), n + 2)
  }

  /** How a handshake stands once its input has been read as far as it goes. */
  datatype End =
    | Starved(need: nat, inTarget: bool)         // `need` more bytes are wanted
    | Refused                                    // the handler gives up
    | Connect(user: Option<string>, dest: Dest)  // a stream is asked of Tor

  /** What a handler answers to an input, how much of it it reads, and where it
      then stands. */
  datatype Dialogue = Dialogue(sent: bytes, used: nat, end: End) {
    function After(said: bytes, n: nat): Dialogue {
      Dialogue(said + sent, n + used, end)
    }
  }

  /** Section 6 of RFC 1928, with an unspecified bound address. */
  function Reply(rep: byte): bytes {
    [SOCKS5, rep, 0x00, ATYP_IPV4, 0, 0, 0, 0, 0, 0]
  }

  /** Section 4 of RFC 1928; only CONNECT is served. */
  function Request(s: bytes, user: Option<string>): Dialogue {
    if |s| < 4 then Dialogue([], |s|, Starved(4 - |s|, false))
    else if s[0] != SOCKS5 then Dialogue([], 4, Refused)
    else if s[1] != CMD_CONNECT then Dialogue(Reply(REP_CMD_NOT_SUPPORTED), 4, Refused)
    else match Target(s[4..], s[3])
      case Short(k) => Dialogue([], |s|, Starved(k, true))
      case Bad(n) => Dialogue(Reply(REP_ATYP_NOT_SUPPORTED), 4 + n, Refused)
      case Got(dest, n) => Dialogue([], 4 + n, Connect(user, dest))
  }

  /** What follows the choice of username and password. */
  function Login(s: bytes): Dialogue {
    match Userpass(s)
    case Short(k) => Dialogue([], |s|, Starved(k, false))
    case Bad(n) => Dialogue([], n, Refused)
    case Got(name, n) => Request(s[n..], Some(name)).After([AUTH_USERPASS_VER, REP_SUCCESS], n)
  }

  /** The whole handshake, up to the point where Tor is asked. */
  function Session(s: bytes): Dialogue {
    match Greeting(s)
    case Short(k) => Dialogue([], |s|, Starved(k, false))
    case Bad(n) => Dialogue([], n, Refused)
    case Got(Unacceptable, n) => Dialogue([SOCKS5, METHOD_NONE], n, Refused)
    case Got(NoAuth, n) => Request(s[n..], None).After([SOCKS5, METHOD_NOAUTH], n)
    case Got(UserPass, n) => Login(s[n..]).After([SOCKS5, METHOD_USERPASS], n)
  }

  /** Everything a handler says to an input that `hung` up or not, given what
      Tor answered, if anything. An input that breaks off inside the target is
      answered like a bad address type. */
  function Transcript(s: bytes, hung: bool, tor: Option<bool>): bytes {
    Session(s).sent + AfterSession(Session(s).end, hung, tor)
  }

  /** What is said once the input has been read as far as it goes. */
  function AfterSession(end: End, hung: bool, tor: Option<bool>): bytes {
    match end
    case Refused => []
    case Starved(_, inTarget) => if hung && inTarget then Reply(REP_ATYP_NOT_SUPPORTED) else []
    case Connect(_, _) =>
      match tor
      case None => []
      case Some(up) => Reply(if up then REP_SUCCESS else REP_GENERAL_FAILURE)
  }

  /** Whether a client that sends `s` and takes `room` bytes gets as far as a
      CONNECT. */
  predicate Connects(s: bytes, room: nat) {
    Session(s).end.Connect? && |Session(s).sent| <= room
  }

  lemma ConnectsIf(s: bytes, room: nat)
    requires Session(s).end.Connect? && |Session(s).sent| <= room
    ensures Connects(s, room)
  {}

  /** Whether it also hears that Tor accepted. */
  predicate Succeeds(s: bytes, room: nat, torUp: bool) {
    Connects(s, room) && torUp && |Transcript(s, true, Some(true))| <= room
  }

  /** All that such a client is told, if nothing stops it before. */
  function Heard(s: bytes, room: nat, torUp: bool): bytes {
    Transcript(s, true, if Connects(s, room) then Some(torUp) else None)
  }

  // ---- what has been read in full does not depend on what follows ----

  lemma DomainNameStable(s: bytes, rest: bytes)
    requires !DomainName(s).Short?
    ensures DomainName(s + rest) == DomainName(s)
  {
    assert (s + rest)[1..1 + s[0]] == s[1..1 + s[0]];
  }

  lemma HostStable(s: bytes, rest: bytes, atyp: byte)
    requires !Host(s, atyp).Short?
    ensures Host(s + rest, atyp) == Host(s, atyp)
  {
    var t := s + rest;
    if atyp == ATYP_IPV4 {
      assert t[..4] == s[..4];
    } else if atyp == ATYP_IPV6 {
      assert t[..16] == s[..16];
    } else if atyp == ATYP_DOMAIN {
      DomainNameStable(s, rest);
    }
  }

  lemma TargetStable(s: bytes, rest: bytes, atyp: byte)
    requires !Target(s, atyp).Short?
    ensures Target(s + rest, atyp) == Target(s, atyp)
  {
    HostStable(s, rest, atyp);
  }

  lemma GreetingStable(s: bytes, rest: bytes)
    requires !Greeting(s).Short?
    ensures Greeting(s + rest) == Greeting(s)
  {
    var t := s + rest;
    if s[0] == SOCKS5 {
      assert t[2..2 + s[1]] == s[2..2 + s[1]];
    }
  }

  lemma UserpassStable(s: bytes, rest: bytes)
    requires !Userpass(s).Short?
    ensures Userpass(s + rest) == Userpass(s)
  {
    hide Utf8.Decode;
    var t := s + rest;
    if s[0] == AUTH_USERPASS_VER {
      assert t[2..2 + s[1]] == s[2..2 + s[1]];
    }
  }

  lemma RequestStable(s: bytes, rest: bytes, user: Option<string>)
    requires !Request(s, user).end.Starved?
    ensures Request(s + rest, user) == Request(s, user)
  {
    if s[0] == SOCKS5 && s[1] == CMD_CONNECT {
      assert (s + rest)[4..] == s[4..] + rest;
      TargetStable(s[4..], rest, s[3]);
    }
  }

  lemma LoginStable(s: bytes, rest: bytes)
    requires !Login(s).end.Starved?
    ensures Login(s + rest) == Login(s)
  {
    UserpassStable(s, rest);
    if Userpass(s).Got? {
      var n := Userpass(s).used;
      assert (s + rest)[n..] == s[n..] + rest;
      RequestStable(s[n..], rest, Some(Userpass(s).value));
    }
  }

  /** A decision, once taken, is not changed by pipelined bytes. */
  lemma SessionStable(s: bytes, rest: bytes)
    requires !Session(s).end.Starved?
    ensures Session(s + rest) == Session(s)
  {
    GreetingStable(s, rest);
    if Greeting(s).Got? {
      var n := Greeting(s).used;
      assert (s + rest)[n..] == s[n..] + rest;
      match Greeting(s).value {
        case Unacceptable =>
        case NoAuth => RequestStable(s[n..], rest, None);
        case UserPass => LoginStable(s[n..], rest);
      }
    }
  }

  // ---- how much is read and said ----

  lemma GreetingBounds(s: bytes)
    ensures Greeting(s).Got? || Greeting(s).Bad? ==> 2 <= Greeting(s).used <= 257
  {}

  lemma RequestBounds(s: bytes, user: Option<string>)
    ensures var d := Request(s, user);
            && d.used <= |s| && d.used <= 4 + 258
            && |d.sent| <= 10
            && (d.end.Starved? ==> d.used == |s|)
            && (!d.end.Refused? ==> d.sent == [])
  {}

  lemma LoginBounds(s: bytes)
    ensures var d := Login(s);
            && d.used <= |s| && d.used <= 513 + 262
            && |d.sent| <= 12
            && (d.end.Starved? ==> d.used == |s|)
            && (!d.end.Refused? ==> |d.sent| <= 2)
  {
    if Userpass(s).Got? {
      RequestBounds(s[Userpass(s).used..], Some(Userpass(s).value));
    }
  }

  /** A handshake reads at most 1032 bytes, says at most 14, and only says more
      than 12 after a username. */
  lemma SessionBounds(s: bytes)
    ensures var d := Session(s);
            && d.used <= |s| && d.used <= 1032
            && |d.sent| <= 14
            && (|d.sent| > 12 ==> d.sent[1] == METHOD_USERPASS)
            && (d.end.Starved? ==> d.used == |s|)
            && (!d.end.Refused? ==> |d.sent| <= 4)
  {
    GreetingBounds(s);
    if Greeting(s).Got? {
      var n := Greeting(s).used;
      RequestBounds(s[n..], None);
      LoginBounds(s[n..]);
    }
  }

  // ---- more input never takes back what was said ----

  lemma LoginSentGrows(s: bytes, rest: bytes)
    ensures Login(s).sent <= Login(s + rest).sent
  {
    if !Login(s).end.Starved? {
      LoginStable(s, rest);
    } else if Userpass(s).Got? {
      UserpassStable(s, rest);
      RequestBounds(s[Userpass(s).used..], Some(Userpass(s).value));
    }
  }

  lemma SentGrows(s: bytes, rest: bytes)
    ensures Session(s).sent <= Session(s + rest).sent
  {
    if !Session(s).end.Starved? {
      SessionStable(s, rest);
    } else if Greeting(s).Got? {
      GreetingStable(s, rest);
      var n := Greeting(s).used;
      hide Greeting, Login, Request;
      assert (s + rest)[n..] == s[n..] + rest;
      if Greeting(s).value == NoAuth {
        RequestBounds(s[n..], None);
      } else {
        LoginSentGrows(s[n..], rest);
      }
    }
  }

  // ---- nothing more is read than a decision needs ----

  lemma HostPrefix(s: bytes, atyp: byte)
    requires !Host(s, atyp).Short?
    ensures Host(s[..Host(s, atyp).used], atyp) == Host(s, atyp)
  {
    var n := Host(s, atyp).used;
    if atyp == ATYP_IPV4 || atyp == ATYP_IPV6 {
      assert s[..n][..n] == s[..n];
    } else if atyp == ATYP_DOMAIN {
      assert s[..n][1..n] == s[1..n];
    }
  }

  lemma TargetPrefix(s: bytes, atyp: byte)
    requires !Target(s, atyp).Short?
    ensures Target(s[..Target(s, atyp).used], atyp) == Target(s, atyp)
  {
    HostPrefix(s, atyp);
    if Target(s, atyp).Got? {
      var n := Host(s, atyp).used;
      HostStable(s[..n], s[n..n + 2], atyp);
      assert s[..n + 2] == s[..n] + s[n..n + 2];
      hide Host;
      assert s[..n + 2][n] == s[n] && s[..n + 2][n + 1] == s[n + 1];
    }
  }

  lemma RequestPrefix(s: bytes, user: Option<string>)
    requires !Request(s, user).end.Starved?
    ensures Request(s, user).used <= |s|
    ensures Request(s[..Request(s, user).used], user) == Request(s, user)
  {
    RequestBounds(s, user);
    var n := Request(s, user).used;
    if s[0] == SOCKS5 && s[1] == CMD_CONNECT {
      TargetPrefix(s[4..], s[3]);
      assert s[..n][4..] == s[4..][..n - 4];
    }
  }

  lemma GreetingPrefix(s: bytes, n: nat)
    requires !Greeting(s).Short? && Greeting(s).used <= n <= |s|
    ensures Greeting(s[..n]) == Greeting(s)
  {
    var k := Greeting(s).used;
    if s[0] == SOCKS5 {
      assert s[..n][2..k] == s[2..k];
    }
  }

  lemma TakeWithin(s: bytes, n: nat, i: nat, j: nat)
    requires i <= j <= n <= |s|
    ensures s[..n][i..j] == s[i..j]
  {}

  lemma UserpassPrefix(s: bytes, n: nat)
    requires !Userpass(s).Short? && Userpass(s).used <= n <= |s|
    ensures Userpass(s[..n]) == Userpass(s)
  {
    hide Utf8.Decode;
    if s[0] == AUTH_USERPASS_VER {
      TakeWithin(s, n, 2, 2 + s[1] as nat);
    }
  }

  lemma LoginPrefix(s: bytes)
    requires !Login(s).end.Starved?
    ensures Login(s).used <= |s|
    ensures Login(s[..Login(s).used]) == Login(s)
  {
    LoginBounds(s);
    var n := Login(s).used;
    UserpassPrefix(s, n);
    if Userpass(s).Got? {
      var k := Userpass(s).used;
      RequestPrefix(s[k..], Some(Userpass(s).value));
      assert s[..n][k..] == s[k..][..n - k];
    }
  }

  /** The bytes up to a decision are enough for it. */
  lemma SessionPrefix(s: bytes)
    requires !Session(s).end.Starved?
    ensures Session(s).used <= |s|
    ensures Session(s[..Session(s).used]) == Session(s)
  {
    SessionBounds(s);
    var n := Session(s).used;
    GreetingPrefix(s, n);
    if Greeting(s).Got? {
      var k := Greeting(s).used;
      assert s[..n][k..] == s[k..][..n - k];
      match Greeting(s).value {
        case Unacceptable =>
        case NoAuth => RequestPrefix(s[k..], None);
        case UserPass => LoginPrefix(s[k..]);
      }
    }
  }

  // ---- the transcripts there are ----

  predicate IsWelcome(w: bytes) {
    || w == [SOCKS5, METHOD_NOAUTH]
    || w == [SOCKS5, METHOD_USERPASS, AUTH_USERPASS_VER, REP_SUCCESS]
  }

  predicate IsReply(r: bytes) {
    || r == Reply(REP_SUCCESS) || r == Reply(REP_GENERAL_FAILURE)
    || r == Reply(REP_CMD_NOT_SUPPORTED) || r == Reply(REP_ATYP_NOT_SUPPORTED)
  }

  /** The finitely many things a handler can say in all: at most one choice of
      method, one status of the sub-negotiation and one reply, in this order. */
  ghost predicate IsLegal(t: bytes) {
    || t == [] || t == [SOCKS5, METHOD_NONE] || t == [SOCKS5, METHOD_USERPASS]
    || exists w, r :: IsWelcome(w) && (r == [] || IsReply(r)) && t == w + r
  }

  /** The code of the reply in a transcript, once that byte is out. */
  function ReplyCode(t: bytes): Option<byte> {
    if |t| < 2 then None
    else
      var at := if t[1] == METHOD_USERPASS then 4 else 2;
      if |t| > at + 1 then Some(t[at + 1]) else None
  }

  predicate IsRefusal(r: bytes) {
    r == Reply(REP_CMD_NOT_SUPPORTED) || r == Reply(REP_ATYP_NOT_SUPPORTED)
  }

  lemma RequestSays(s: bytes, user: Option<string>)
    ensures var d := Request(s, user);
            d.sent == [] || (d.end.Refused? && IsRefusal(d.sent))
  {}

  lemma LoginSays(s: bytes) returns (r: bytes)
    ensures var d := Login(s);
            if d.sent == [] then !d.end.Connect? && !(d.end.Starved? && d.end.inTarget)
            else d.sent == [AUTH_USERPASS_VER, REP_SUCCESS] + r && (r == [] || (d.end.Refused? && IsRefusal(r)))
  {
    r := [];
    if Userpass(s).Got? {
      var t := s[Userpass(s).used..];
      RequestSays(t, Some(Userpass(s).value));
      r := Request(t, Some(Userpass(s).value)).sent;
    }
  }

  /** The welcome and the refusal in what is said before Tor is asked. */
  lemma SessionSays(s: bytes) returns (w: bytes, r: bytes)
    ensures var d := Session(s);
            && d.sent == w + r
            && (r == [] || (d.end.Refused? && IsRefusal(r)))
            && (IsWelcome(w)
                || (&& (w == [] || w == [SOCKS5, METHOD_NONE] || w == [SOCKS5, METHOD_USERPASS])
                    && r == [] && !d.end.Connect? && !(d.end.Starved? && d.end.inTarget)))
  {
    w, r := Session(s).sent, [];
    if Greeting(s).Got? {
      var t := s[Greeting(s).used..];
      match Greeting(s).value {
        case Unacceptable =>
        case NoAuth =>
          RequestSays(t, None);
          w, r := [SOCKS5, METHOD_NOAUTH], Request(t, None).sent;
        case UserPass =>
          var q := LoginSays(t);
          if Login(t).sent == [] {
            w := [SOCKS5, METHOD_USERPASS];
          } else {
            w, r := [SOCKS5, METHOD_USERPASS, AUTH_USERPASS_VER, REP_SUCCESS], q;
          }
      }
    }
  }

  /** The welcome and the reply in a transcript. */
  lemma TranscriptSays(s: bytes, hung: bool, tor: Option<bool>) returns (w: bytes, q: bytes)
    ensures Transcript(s, hung, tor) == w + q
    ensures if IsWelcome(w) then q == [] || IsReply(q)
            else q == [] && (w == [] || w == [SOCKS5, METHOD_NONE] || w == [SOCKS5, METHOD_USERPASS])
    ensures q == Reply(REP_SUCCESS) <==> Session(s).end.Connect? && tor == Some(true)
  {
    var r;
    w, r := SessionSays(s);
    hide Session;
    q := if r == [] then AfterSession(Session(s).end, hung, tor) else r;
    assert w + [] + q == w + q;
    assert w + r + [] == w + r;
  }

  lemma ReplyCodeOf(w: bytes, q: bytes)
    requires IsWelcome(w) && (q == [] || IsReply(q))
    ensures ReplyCode(w + q) == Some(REP_SUCCESS) <==> q == Reply(REP_SUCCESS)
  {
    var at := |w|;
    assert q != [] ==> (w + q)[at + 1] == q[1] && |w + q| == at + 10;
    assert (w + q)[1] == w[1];
  }

  /** Every transcript is legal, and only Tor's consent puts success in it. */
  lemma TranscriptsLegal(s: bytes, hung: bool, tor: Option<bool>)
    ensures IsLegal(Transcript(s, hung, tor))
    ensures ReplyCode(Transcript(s, hung, tor)) == Some(REP_SUCCESS)
       <==> Session(s).end.Connect? && tor == Some(true)
  {
    hide Session, Transcript;
    var w, q := TranscriptSays(s, hung, tor);
    if IsWelcome(w) {
      ReplyCodeOf(w, q);
    } else {
      assert w + q == w;
    }
  }
}
