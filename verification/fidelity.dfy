/** The stepwise handler refines the one-shot reader: whatever the deliveries,
    the partial writes and the failures, a handler has said what `Wire` says of
    the bytes it has read, and nothing else. */
module Fidelity {
  import opened Common
  import opened Address
  import opened Wire
  import opened Handler
  import Utf8

  // ---- what holds at each suspension point ----

  ghost predicate NothingAsked(l: Local) {
    l.dest.None? && l.tor.None? && l.up == l.down == []
  }

  /** The greeting is read, username and password are agreed on. */
  ghost predicate InAuth(l: Local, said: bytes) {
    && Greeting(l.hello) == Got(UserPass, |l.hello|)
    && l.head == l.tail == [] && l.user.None?
    && said == [SOCKS5, METHOD_USERPASS]
  }

  /** The request may come: everything before it is read and answered. */
  ghost predicate Welcomed(l: Local, said: bytes) {
    || (&& Greeting(l.hello) == Got(NoAuth, |l.hello|)
        && l.auth == [] && l.user.None?
        && said == [SOCKS5, METHOD_NOAUTH])
    || (&& Greeting(l.hello) == Got(UserPass, |l.hello|)
        && l.user.Some? && Userpass(l.auth) == Got(l.user.value, |l.auth|)
        && said == [SOCKS5, METHOD_USERPASS, AUTH_USERPASS_VER, REP_SUCCESS])
  }

  /** A CONNECT request is read up to its address, of type `atyp`. */
  ghost predicate Requested(l: Local, atyp: byte) {
    && |l.head| == 4 && l.head[0] == SOCKS5 && l.head[1] == CMD_CONNECT && l.head[3] == atyp
    && Welcomed(l, l.tx)
  }

  /** The first `n` bytes of the target are its host. */
  ghost predicate HostRead(l: Local, host: string, n: int) {
    && |l.head| == 4 && Requested(l, l.head[3]) && 0 <= n <= |l.tail|
    && Host(l.tail[..n], l.head[3]) == Got(host, n)
  }

  /** `got` has been read of the `want` bytes that `stage` needs. */
  ghost predicate At(l: Local, stage: Stage, want: nat, got: bytes) {
    && |got| <= want && Fits(stage, want)
    && NothingAsked(l) && !l.hung
    && match stage
       case ReadGreeting =>
         l.hello == got && l.auth == l.head == l.tail == [] && l.tx == [] && l.user.None?
       case ReadMethods =>
         want < 256 && l.hello == [SOCKS5, want] + got &&
         l.auth == l.head == l.tail == [] && l.tx == [] && l.user.None?
       case ReadAuthVersion => InAuth(l, l.tx) && l.auth == got
       case ReadUserLength => InAuth(l, l.tx) && l.auth == [AUTH_USERPASS_VER] + got
       case ReadUser =>
         want < 256 && InAuth(l, l.tx) && l.auth == [AUTH_USERPASS_VER, want] + got
       case ReadPasswordLength(uname) =>
         |uname| < 256 && InAuth(l, l.tx) && l.auth == [AUTH_USERPASS_VER, |uname|] + uname + got
       case ReadPassword(uname) =>
         |uname| < 256 && want < 256 && InAuth(l, l.tx) &&
         l.auth == [AUTH_USERPASS_VER, |uname|] + uname + [want] + got
       case ReadRequest => Welcomed(l, l.tx) && l.head == got && l.tail == []
       case ReadIpv4 => Requested(l, ATYP_IPV4) && l.tail == got
       case ReadIpv6 => Requested(l, ATYP_IPV6) && l.tail == got
       case ReadNameLength => Requested(l, ATYP_DOMAIN) && l.tail == got
       case ReadName => want < 256 && Requested(l, ATYP_DOMAIN) && l.tail == [want] + got
       case ReadPort(host) =>
         HostRead(l, host, |l.tail| - |got|) && l.tail[|l.tail| - |got|..] == got
  }

  /** The reader has all it needs, and `said` is the whole transcript. */
  ghost predicate Told(l: Local, said: bytes) {
    && Session(l.Rx()).used == |l.Rx()|
    && said == Transcript(l.Rx(), l.hung, l.tor)
  }

  /** The handler's CONNECT is the one the reader finds in its input. */
  ghost predicate Asked(l: Local) {
    && !l.hung && l.dest.Some?
    && Session(l.Rx()).end == Connect(l.user, l.dest.value)
  }

  /** A CONNECT is asked of Tor exactly when the reader finds one. */
  ghost predicate Settled(l: Local) {
    if l.dest.Some? then Asked(l) else !Session(l.Rx()).end.Connect? && l.tor.None?
  }

  /** What is always so, even of a handler that is gone. */
  ghost predicate Over(l: Local) {
    && Session(l.Rx()).used == |l.Rx()|
    && l.tx <= Transcript(l.Rx(), l.hung, l.tor)
    && Settled(l)
    && (l.up + l.down != [] ==> l.tor == Some(true) && l.tx == Transcript(l.Rx(), l.hung, l.tor))
  }

  /** A write is under way after which the handler will have said `said`. */
  ghost predicate Pending(l: Local, said: bytes, next: Sequel) {
    && l.up == l.down == []
    && match next
       case ToAuth => NothingAsked(l) && !l.hung && l.auth == l.tail == [] && InAuth(l, said)
       case ToRequest => NothingAsked(l) && !l.hung && l.head == l.tail == [] && Welcomed(l, said)
       case ToError => Told(l, said) && Settled(l) && (l.hung || !Session(l.Rx()).end.Starved?)
       case ToSplice => Told(l, said) && Asked(l) && l.tor == Some(true)
  }

  /** The invariant of a handler. */
  ghost predicate Inv(l: Local) {
    && Sized(l)
    && match l.io
       case Reading(stage, want, got) => At(l, stage, want, got)
       case Writing(left, next) => left != [] && Pending(l, l.tx + left, next)
       case Connecting => Asked(l) && Told(l, l.tx) && NothingAsked(l.(dest := None))
       case Splicing => Asked(l) && Told(l, l.tx) && l.tor == Some(true)
       case Done(_) => Over(l)
  }

  // ---- the reader on what a handler has read ----

  lemma AuthSession(l: Local)
    requires InAuth(l, [SOCKS5, METHOD_USERPASS])
    ensures Session(l.Rx()) == Login(l.auth).After([SOCKS5, METHOD_USERPASS], |l.hello|)
  {
    assert l.Rx() == l.hello + l.auth;
    GreetingStable(l.hello, l.auth);
    assert (l.hello + l.auth)[|l.hello|..] == l.auth;
  }

  lemma Regroup(a: bytes, b: bytes, c: bytes)
    ensures a + b + c == a + (b + c)
    ensures (a + b + c)[|a|..] == b + c && (b + c)[|b|..] == c
  {
    assert a + b + c == a + (b + c);
  }

  lemma WelcomedSession(l: Local, said: bytes)
    requires Welcomed(l, said)
    ensures Session(l.Rx()) == Request(l.head + l.tail, l.user).After(said, |l.hello + l.auth|)
  {
    hide Request, Greeting, Userpass;
    var rest := l.head + l.tail;
    Regroup(l.hello, l.auth, rest);
    GreetingStable(l.hello, l.auth + rest);
    if l.user.None? {
      assert l.auth + rest == rest;
    } else {
      UserpassStable(l.auth, rest);
    }
  }

  lemma RequestedSession(l: Local, atyp: byte)
    requires Requested(l, atyp)
    ensures Session(l.Rx()) ==
      (match Target(l.tail, atyp)
       case Short(k) => Dialogue(l.tx, |l.Rx()|, Starved(k, true))
       case Bad(n) => Dialogue(l.tx + Reply(REP_ATYP_NOT_SUPPORTED), |l.Rx()| - |l.tail| + n, Refused)
       case Got(dest, n) => Dialogue(l.tx, |l.Rx()| - |l.tail| + n, Connect(l.user, dest)))
  {
    WelcomedSession(l, l.tx);
    assert (l.head + l.tail)[4..] == l.tail;
    assert l.tx + [] == l.tx;
  }

  lemma AuthReading(l: Local, stage: Stage, want: nat, got: bytes)
    requires At(l, stage, want, got) && |got| < want
    requires stage.ReadAuthVersion? || stage.ReadUserLength? || stage.ReadUser?
          || stage.ReadPasswordLength? || stage.ReadPassword?
    ensures Userpass(l.auth) == Short(want - |got|) && InAuth(l, [SOCKS5, METHOD_USERPASS])
  {
    hide Greeting;
  }

  lemma TargetReading(l: Local, stage: Stage, want: nat, got: bytes)
    requires At(l, stage, want, got) && |got| < want && InTarget(stage)
    ensures |l.head| == 4 && Requested(l, l.head[3])
    ensures Target(l.tail, l.head[3]) == Short(want - |got|)
  {
    hide Welcomed;
    if stage.ReadPort? {
      var n := |l.tail| - |got|;
      HostStable(l.tail[..n], got, l.head[3]);
      assert l.tail[..n] + got == l.tail;
    }
  }

  /** While it reads, a handler has said what the reader says, and waits for
      exactly the bytes that the reader misses. */
  lemma ReadingSession(l: Local, stage: Stage, want: nat, got: bytes)
    requires At(l, stage, want, got) && |got| < want
    ensures Session(l.Rx()) == Dialogue(l.tx, |l.Rx()|, Starved(want - |got|, InTarget(stage)))
  {
    hide At, Session;
    if stage.ReadGreeting? || stage.ReadMethods? {
      GreetingReading(l, stage, want, got);
    } else if InTarget(stage) {
      hide Welcomed, Target, Request;
      TargetReading(l, stage, want, got);
      RequestedSession(l, l.head[3]);
    } else if stage.ReadRequest? {
      RequestReading(l, want, got);
    } else {
      LoginReading(l, stage, want, got);
    }
  }

  lemma LoginReading(l: Local, stage: Stage, want: nat, got: bytes)
    requires At(l, stage, want, got) && |got| < want
    requires stage.ReadAuthVersion? || stage.ReadUserLength? || stage.ReadUser?
          || stage.ReadPasswordLength? || stage.ReadPassword?
    ensures Session(l.Rx()) == Dialogue(l.tx, |l.Rx()|, Starved(want - |got|, false))
  {
    AuthReading(l, stage, want, got);
    assert l.tx == [SOCKS5, METHOD_USERPASS] && l.Rx() == l.hello + l.auth;
    hide At, InAuth, Session, Userpass;
    AuthSession(l);
    assert l.tx + [] == l.tx;
  }

  lemma GreetingReading(l: Local, stage: Stage, want: nat, got: bytes)
    requires At(l, stage, want, got) && |got| < want && (stage.ReadGreeting? || stage.ReadMethods?)
    ensures Session(l.Rx()) == Dialogue(l.tx, |l.Rx()|, Starved(want - |got|, false))
  {
    assert l.Rx() == l.hello;
    assert Greeting(l.hello) == Short(want - |got|);
  }

  lemma RequestReading(l: Local, want: nat, got: bytes)
    requires At(l, ReadRequest, want, got) && |got| < want
    ensures Session(l.Rx()) == Dialogue(l.tx, |l.Rx()|, Starved(want - |got|, false))
  {
    assert Welcomed(l, l.tx) && l.head + l.tail == got && want == 4;
    hide At, Session, Welcomed;
    WelcomedSession(l, l.tx);
    assert l.tx + [] == l.tx;
  }

  // ---- every step keeps the invariant ----

  lemma AwaitKeeps(l: Local, stage: Stage, want: nat)
    requires At(l, stage, want, [])
    ensures Inv(Await(l, stage, want))
    decreases Rank(stage), 2
  {
    if want == 0 {
      ResumeKeeps(l, stage, []);
    } else {
      var r := Await(l, stage, want);
      assert At(r, stage, want, []);
    }
  }

  /** Gone because of what the client sent, with all said that goes with it. */
  ghost predicate Refuses(l: Local) {
    Inv(l) && Session(l.Rx()).end.Refused? && l.tx == Session(l.Rx()).sent
  }

  lemma ResumeGreeting(l: Local, buf: bytes)
    requires At(l, ReadGreeting, 2, buf) && |buf| == 2
    ensures buf[0] == SOCKS5 ==> At(l, ReadMethods, buf[1], [])
    ensures buf[0] != SOCKS5 ==> Refuses(l.(io := Done(Unconnected)))
  {
    var r := l.(io := Done(Unconnected));
    assert l.Rx() == buf && r.Rx() == buf;
  }

  lemma ResumeMethods(l: Local, buf: bytes)
    requires At(l, ReadMethods, |buf|, buf)
    ensures Inv(Resume(l, ReadMethods, buf))
  {
    var r := Resume(l, ReadMethods, buf);
    assert l.hello[2..2 + |buf|] == buf;
    assert Greeting(l.hello) == Got(Choose(buf), |l.hello|);
    assert r.Rx() == l.hello;
    assert l.tx + r.io.left == r.io.left;
  }

  lemma ResumeAuth(l: Local, stage: Stage, buf: bytes)
    requires At(l, stage, |buf|, buf)
    requires stage.ReadAuthVersion? || stage.ReadUserLength? || stage.ReadUser? || stage.ReadPasswordLength?
    ensures match stage
      case ReadAuthVersion =>
        if buf[0] == AUTH_USERPASS_VER then At(l, ReadUserLength, 1, [])
        else Refuses(l.(io := Done(Unconnected)))
      case ReadUserLength => At(l, ReadUser, buf[0], [])
      case ReadUser => At(l, ReadPasswordLength(buf), 1, [])
      case ReadPasswordLength(uname) => At(l, ReadPassword(uname), buf[0], [])
  {
    if stage.ReadAuthVersion? && buf[0] != AUTH_USERPASS_VER {
      var r := l.(io := Done(Unconnected));
      AuthSession(r);
      assert r.Rx() == l.hello + l.auth;
    }
  }

  lemma LoginRead(uname: bytes, passwd: bytes)
    requires |uname| < 256 && |passwd| < 256
    ensures var a := [AUTH_USERPASS_VER, |uname|] + uname + [|passwd|] + passwd;
            Userpass(a) == (match Utf8.Decode(uname) case None => Bad(|a|) case Some(name) => Got(name, |a|))
  {
    hide Utf8.Decode;
    var a := [AUTH_USERPASS_VER, |uname|] + uname + [|passwd|] + passwd;
    assert a[2..2 + |uname|] == uname && a[2 + |uname|] == |passwd|;
  }

  lemma ResumePassword(l: Local, uname: bytes, buf: bytes)
    requires At(l, ReadPassword(uname), |buf|, buf)
    ensures Inv(Resume(l, ReadPassword(uname), buf))
    ensures Resume(l, ReadPassword(uname), buf).io.Done? ==> Refuses(Resume(l, ReadPassword(uname), buf))
  {
    hide Userpass, Utf8.Decode, Login;
    LoginRead(uname, buf);
    var r := Resume(l, ReadPassword(uname), buf);
    if Utf8.Decode(uname).None? {
      AuthSession(r);
      BadLogin(l.auth);
      assert r.Rx() == l.hello + l.auth;
    } else {
      assert l.tx + r.io.left == [SOCKS5, METHOD_USERPASS, AUTH_USERPASS_VER, REP_SUCCESS];
    }
  }

  lemma BadLogin(s: bytes)
    requires Userpass(s) == Bad(|s|)
    ensures Login(s) == Dialogue([], |s|, Refused)
  {}

  /** What a request leads to: a target to read, or a refusal. */
  predicate TargetFollows(buf: bytes)
    requires |buf| == 4
  {
    buf[0] == SOCKS5 && buf[1] == CMD_CONNECT && buf[3] in {ATYP_IPV4, ATYP_IPV6, ATYP_DOMAIN}
  }

  function Refusal(buf: bytes): bytes
    requires |buf| == 4
  {
    if buf[0] != SOCKS5 then []
    else if buf[1] != CMD_CONNECT then Reply(REP_CMD_NOT_SUPPORTED)
    else Reply(REP_ATYP_NOT_SUPPORTED)
  }

  lemma RefusedRequest(buf: bytes, user: Option<string>)
    requires |buf| == 4 && !TargetFollows(buf)
    ensures Request(buf, user) == Dialogue(Refusal(buf), 4, Refused)
  {}

  lemma RefusedSession(l: Local, said: bytes)
    requires Welcomed(l, said) && |l.head| == 4 && l.tail == [] && !TargetFollows(l.head)
    ensures Session(l.Rx()) == Dialogue(said + Refusal(l.head), |l.Rx()|, Refused)
  {
    assert l.head + l.tail == l.head;
    RefusedRequest(l.head, l.user);
    hide Welcomed, Session, Request, Refusal;
    WelcomedSession(l, said);
  }

  lemma RefusedInv(l: Local, said: bytes)
    requires Session(l.Rx()) == Dialogue(said, |l.Rx()|, Refused) && NothingAsked(l) && !l.hung
    requires match l.io
             case Done(_) => l.tx == said
             case Writing(left, ToError) => left != [] && l.tx + left == said
             case _ => false
    ensures Inv(l) && (l.io.Done? ==> Refuses(l))
  {
    hide Session;
    assert said + [] == said;
  }

  lemma RequestRefused(l: Local, buf: bytes)
    requires At(l, ReadRequest, 4, buf) && |buf| == 4 && !TargetFollows(buf)
    ensures var r := Resume(l, ReadRequest, buf);
            Inv(r) && !r.io.Reading? && (r.io.Done? ==> Refuses(r))
  {
    var r := Resume(l, ReadRequest, buf);
    assert Welcomed(r, l.tx) && NothingAsked(r) && !r.hung && r.head == buf && r.tail == [];
    assert l.tx + [] == l.tx;
    hide Welcomed, Session, Inv, Refuses, At;
    RefusedSession(r, l.tx);
    RefusedInv(r, l.tx + Refusal(buf));
  }

  lemma ResumeRequest(l: Local, buf: bytes)
    requires At(l, ReadRequest, 4, buf) && |buf| == 4
    ensures match Resume(l, ReadRequest, buf).io
      case Reading(_, _, _) =>
        && TargetFollows(buf)
        && (buf[3] == ATYP_IPV4 ==> At(l, ReadIpv4, 4, []))
        && (buf[3] == ATYP_IPV6 ==> At(l, ReadIpv6, 16, []))
        && (buf[3] == ATYP_DOMAIN ==> At(l, ReadNameLength, 1, []))
      case _ =>
        && Inv(Resume(l, ReadRequest, buf))
        && (Resume(l, ReadRequest, buf).io.Done? ==> Refuses(Resume(l, ReadRequest, buf)))
  {
    if !TargetFollows(buf) {
      RequestRefused(l, buf);
    }
    hide Inv, Welcomed, Refuses;
  }

  lemma ResumeIp(l: Local, stage: Stage, buf: bytes)
    requires At(l, stage, |buf|, buf) && (stage.ReadIpv4? || stage.ReadIpv6?)
    ensures At(l, ReadPort(if stage.ReadIpv4? then Ipv4Text(buf) else Ipv6Text(buf)), 2, [])
  {
    hide Welcomed, Ipv4Text, Ipv6Text;
    assert l.tail[..|buf|] == buf;
    AtPort(l, if stage.ReadIpv4? then Ipv4Text(buf) else Ipv6Text(buf));
  }

  lemma NameIs(s: bytes, buf: bytes)
    requires |s| == 1 + |buf| && s[0] == |buf| && s[1..] == buf
    ensures DomainName(s)
         == (match Utf8.Decode(buf) case None => Bad(|s|) case Some(name) => Got(name, |s|))
  {
    hide Utf8.Decode;
    assert s[1..|s|] == s[1..];
  }

  lemma NameRead(buf: bytes)
    requires |buf| < 256
    ensures DomainName([|buf|] + buf)
         == (match Utf8.Decode(buf) case None => Bad(1 + |buf|) case Some(name) => Got(name, 1 + |buf|))
  {
    hide *;
    Behind(|buf|, buf);
    NameIs([|buf|] + buf, buf);
  }

  lemma Behind(n: byte, buf: bytes)
    ensures var s := [n] + buf; |s| == 1 + |buf| && s[0] == n && s[1..] == buf
  {}

  lemma NameHostRead(l: Local, host: string, buf: bytes)
    requires |buf| < 256 && Requested(l, ATYP_DOMAIN) && l.tail == [|buf|] + buf
    requires Utf8.Decode(buf) == Some(host)
    ensures HostRead(l, host, |l.tail|)
  {
    hide Welcomed, DomainName, Utf8.Decode;
    NameRead(buf);
    assert l.tail[..|l.tail|] == l.tail;
  }

  lemma AtPort(l: Local, host: string)
    requires HostRead(l, host, |l.tail|) && NothingAsked(l) && !l.hung
    ensures At(l, ReadPort(host), 2, [])
  {
    assert l.tail[|l.tail|..] == [];
  }

  lemma ResumeName(l: Local, host: string, buf: bytes)
    requires At(l, ReadName, |buf|, buf) && Utf8.Decode(buf) == Some(host)
    ensures At(l, ReadPort(host), 2, [])
  {
    assert |buf| < 256 && Requested(l, ATYP_DOMAIN) && l.tail == [|buf|] + buf;
    assert NothingAsked(l) && !l.hung;
    hide At, Host, Requested;
    NameHostRead(l, host, buf);
    AtPort(l, host);
  }

  lemma ResumeBadName(l: Local, buf: bytes)
    requires At(l, ReadName, |buf|, buf) && Utf8.Decode(buf).None?
    ensures Inv(Resume(l, ReadName, buf))
  {
    NameRead(buf);
    var r := Resume(l, ReadName, buf);
    assert Requested(r, ATYP_DOMAIN);
    RequestedSession(r, ATYP_DOMAIN);
  }

  lemma ResumePort(l: Local, host: string, buf: bytes)
    requires At(l, ReadPort(host), 2, buf) && |buf| == 2
    ensures Inv(Resume(l, ReadPort(host), buf))
  {
    hide Welcomed, Host, Session;
    var r := Resume(l, ReadPort(host), buf);
    var n := |l.tail| - 2;
    var atyp := l.head[3];
    HostStable(l.tail[..n], buf, atyp);
    assert l.tail[..n] + buf == l.tail;
    assert l.tail[n] == l.tail[n..][0] && l.tail[n + 1] == l.tail[n..][1];
    RequestedSession(l, atyp);
    assert r.Rx() == l.Rx();
  }

  lemma ResumeLoginKeeps(l: Local, stage: Stage, buf: bytes)
    requires At(l, stage, |buf|, buf) && Rank(stage) > 5
    ensures Inv(Resume(l, stage, buf))
    decreases Rank(stage), 0
  {
    assert Fits(stage, |buf|);
    hide At, Inv, Utf8.Decode;
    match stage {
      case ReadGreeting =>
        ResumeGreeting(l, buf);
        if buf[0] == SOCKS5 { AwaitKeeps(l, ReadMethods, buf[1]); }
      case ReadMethods => ResumeMethods(l, buf);
      case ReadAuthVersion =>
        ResumeAuth(l, stage, buf);
        if buf[0] == AUTH_USERPASS_VER { AwaitKeeps(l, ReadUserLength, 1); }
      case ReadUserLength =>
        ResumeAuth(l, stage, buf);
        AwaitKeeps(l, ReadUser, buf[0]);
      case ReadUser =>
        ResumeAuth(l, stage, buf);
        AwaitKeeps(l, ReadPasswordLength(buf), 1);
      case ReadPasswordLength(uname) =>
        ResumeAuth(l, stage, buf);
        AwaitKeeps(l, ReadPassword(uname), buf[0]);
      case ReadPassword(uname) => ResumePassword(l, uname, buf);
    }
  }

  lemma ResumeRequestKeeps(l: Local, stage: Stage, buf: bytes)
    requires At(l, stage, |buf|, buf) && Rank(stage) <= 5
    ensures Inv(Resume(l, stage, buf))
    decreases Rank(stage), 0
  {
    assert Fits(stage, |buf|);
    hide At, Inv, Utf8.Decode, Ipv4Text, Ipv6Text;
    match stage {
      case ReadRequest =>
        ResumeRequest(l, buf);
        if Resume(l, stage, buf).io.Reading? {
          if buf[3] == ATYP_IPV4 { AwaitKeeps(l, ReadIpv4, 4); }
          else if buf[3] == ATYP_IPV6 { AwaitKeeps(l, ReadIpv6, 16); }
          else { AwaitKeeps(l, ReadNameLength, 1); }
        }
      case ReadIpv4 =>
        ResumeIp(l, stage, buf);
        AwaitKeeps(l, ReadPort(Ipv4Text(buf)), 2);
      case ReadIpv6 =>
        ResumeIp(l, stage, buf);
        AwaitKeeps(l, ReadPort(Ipv6Text(buf)), 2);
      case ReadNameLength =>
        NameLengthRead(l, buf);
        AwaitKeeps(l, ReadName, buf[0]);
      case ReadName =>
        if Utf8.Decode(buf).None? {
          ResumeBadName(l, buf);
        } else {
          ResumeName(l, Utf8.Decode(buf).value, buf);
          AwaitKeeps(l, ReadPort(Utf8.Decode(buf).value), 2);
        }
      case ReadPort(host) => ResumePort(l, host, buf);
    }
  }

  lemma ResumeKeeps(l: Local, stage: Stage, buf: bytes)
    requires At(l, stage, |buf|, buf)
    ensures Inv(Resume(l, stage, buf))
    decreases Rank(stage), 1
  {
    if Rank(stage) > 5 { ResumeLoginKeeps(l, stage, buf); } else { ResumeRequestKeeps(l, stage, buf); }
  }

  /** Where a handler may go between two suspension points. */
  lemma DoneStages(l: Local, stage: Stage, buf: bytes)
    requires Fits(stage, |buf|) && Resume(l, stage, buf).io.Done?
    ensures stage.ReadGreeting? || stage.ReadAuthVersion? || stage.ReadPasswordLength? || stage.ReadPassword?
         || stage.ReadRequest?
    ensures stage.ReadGreeting? ==> buf[0] != SOCKS5 && Resume(l, stage, buf) == l.(io := Done(Unconnected))
    ensures stage.ReadAuthVersion? ==>
              buf[0] != AUTH_USERPASS_VER && Resume(l, stage, buf) == l.(io := Done(Unconnected))
    ensures stage.ReadPasswordLength? ==>
              buf[0] == 0 && Resume(l, stage, buf) == Resume(l, ReadPassword(stage.uname), [])
  {}

  /** If it does, it has refused its client. */
  lemma ResumeRefuses(l: Local, stage: Stage, buf: bytes)
    requires At(l, stage, |buf|, buf) && Resume(l, stage, buf).io.Done?
    ensures Refuses(Resume(l, stage, buf))
  {
    assert Fits(stage, |buf|);
    DoneStages(l, stage, buf);
    hide At, Refuses, Resume;
    match stage {
      case ReadGreeting => ResumeGreeting(l, buf);
      case ReadAuthVersion => ResumeAuth(l, stage, buf);
      case ReadPasswordLength(uname) =>
        ResumeAuth(l, stage, buf);
        ResumePassword(l, uname, []);
      case ReadPassword(uname) => ResumePassword(l, uname, buf);
      case ReadRequest => ResumeRequest(l, buf);
    }
  }

  lemma NameLengthRead(l: Local, buf: bytes)
    requires At(l, ReadNameLength, 1, buf) && |buf| == 1
    ensures At(l, ReadName, buf[0], [])
  {}

  /** A delivery puts its bytes where the stage expects them. */
  lemma RecordKeeps(l: Local, stage: Stage, want: nat, got: bytes, chunk: bytes)
    requires At(l, stage, want, got) && |got + chunk| <= want
    ensures At(Record(l, stage, chunk), stage, want, got + chunk)
  {
    if stage.ReadPort? {
      RecordPort(l, stage, want, got, chunk);
    } else if InTarget(stage) || stage.ReadRequest? {
      hide Userpass, Greeting, Host, Welcomed, InAuth;
    } else {
      RecordLogin(l, stage, want, got, chunk);
    }
  }

  lemma RecordLogin(l: Local, stage: Stage, want: nat, got: bytes, chunk: bytes)
    requires At(l, stage, want, got) && |got + chunk| <= want && !InTarget(stage) && !stage.ReadRequest?
    ensures At(Record(l, stage, chunk), stage, want, got + chunk)
  {
    hide Userpass, Greeting, Host, Welcomed, Requested, HostRead;
    match stage {
      case ReadMethods => Rejoin([SOCKS5, want], [], [], got, chunk);
      case ReadUserLength => Rejoin([AUTH_USERPASS_VER], [], [], got, chunk);
      case ReadUser => Rejoin([AUTH_USERPASS_VER, want], [], [], got, chunk);
      case ReadPasswordLength(uname) => Rejoin([AUTH_USERPASS_VER, |uname|], uname, [], got, chunk);
      case ReadPassword(uname) => Rejoin([AUTH_USERPASS_VER, |uname|], uname, [want], got, chunk);
      case _ =>
    }
  }

  lemma Rejoin(a: bytes, b: bytes, c: bytes, got: bytes, chunk: bytes)
    ensures a + b + c + got + chunk == a + b + c + (got + chunk)
    ensures a + b + got + chunk == a + b + (got + chunk)
    ensures a + got + chunk == a + (got + chunk)
  {}

  lemma RecordPort(l: Local, stage: Stage, want: nat, got: bytes, chunk: bytes)
    requires At(l, stage, want, got) && |got + chunk| <= want && stage.ReadPort?
    ensures At(Record(l, stage, chunk), stage, want, got + chunk)
  {
    hide Userpass, Greeting, Host;
    var r := Record(l, stage, chunk);
    var n := |l.tail| - |got|;
    assert r.tail[..n] == l.tail[..n];
    assert r.tail[n..] == got + chunk;
  }

  lemma DeliverKeeps(l: Local, chunk: bytes)
    requires Inv(l) && Enabled(l, Deliver(chunk))
    ensures Inv(Step(l, Deliver(chunk)))
  {
    hide At;
    var Reading(stage, want, got) := l.io;
    RecordKeeps(l, stage, want, got, chunk);
    var r := Record(l, stage, chunk);
    if |got + chunk| == want {
      ResumeKeeps(r, stage, got + chunk);
    } else {
      AtIgnoresIo(r, stage, want, got + chunk, Reading(stage, want, got + chunk));
    }
  }

  lemma AtIgnoresIo(l: Local, stage: Stage, want: nat, got: bytes, io: Io)
    requires At(l, stage, want, got)
    ensures At(l.(io := io), stage, want, got)
  {}

  lemma NothingYet(user: Option<string>)
    ensures Login([]) == Dialogue([], 0, Starved(1, false))
    ensures Request([], user) == Dialogue([], 0, Starved(4, false))
  {}

  lemma PendingOver(l: Local)
    requires Inv(l) && l.io.Writing?
    ensures Over(l) && l.tx + l.io.left == Transcript(l.Rx(), l.hung, l.tor)
  {
    var Writing(left, next) := l.io;
    hide Session, Login, Request, Greeting, Userpass;
    NothingYet(l.user);
    if next == ToAuth {
      AuthSession(l);
      assert l.auth == [] && l.Rx() == l.hello;
    } else if next == ToRequest {
      WelcomedSession(l, l.tx + left);
      assert l.head + l.tail == [] && l.Rx() == l.hello + l.auth;
    }
    assert l.tx + left + [] == l.tx + left && l.tx <= l.tx + left;
  }

  /** What the invariant means for the transcript, wherever a handler is. */
  lemma InvOver(l: Local)
    requires Inv(l)
    ensures Over(l)
    ensures !l.io.Done? ==>
      l.tx + (if l.io.Writing? then l.io.left else []) == Transcript(l.Rx(), l.hung, l.tor)
  {
    assert l.tx + [] == l.tx;
    hide Session;
    match l.io {
      case Reading(stage, want, got) => ReadingSession(l, stage, want, got);
      case Writing(_, _) => PendingOver(l);
      case _ =>
    }
  }

  lemma HangupKeeps(l: Local)
    requires Inv(l) && l.io.Reading?
    ensures Inv(Step(l, Hangup))
  {
    ReadingSession(l, l.io.stage, l.io.want, l.io.got);
    assert Step(l, Hangup).Rx() == l.Rx();
  }

  lemma WrittenKeeps(l: Local, next: Sequel)
    requires Pending(l, l.tx, next)
    ensures Inv(Written(l, next))
  {
    match next {
      case ToAuth => AwaitKeeps(l, ReadAuthVersion, 1);
      case ToRequest => AwaitKeeps(l, ReadRequest, 4);
      case ToError => assert Written(l, next).Rx() == l.Rx();
      case ToSplice => assert Written(l, next).Rx() == l.Rx();
    }
  }

  lemma PendingKeeps(l: Local, said: bytes, next: Sequel, tx: bytes, io: Io)
    requires Pending(l, said, next)
    ensures Pending(l.(tx := tx, io := io), said, next)
  {
    assert l.(tx := tx, io := io).Rx() == l.Rx();
  }

  lemma AcceptKeeps(l: Local, n: nat)
    requires Inv(l) && Enabled(l, Accept(n))
    ensures Inv(Step(l, Accept(n)))
  {
    hide Pending;
    var Writing(left, next) := l.io;
    var tx := l.tx + left[..n];
    assert tx + left[n..] == l.tx + left;
    if n == |left| {
      assert tx == l.tx + left;
      PendingKeeps(l, tx, next, tx, l.io);
      WrittenKeeps(l.(tx := tx), next);
    } else {
      PendingKeeps(l, l.tx + left, next, tx, Writing(left[n..], next));
    }
  }

  lemma TorKeeps(l: Local, e: Event)
    requires Inv(l) && Enabled(l, e) && (e.TorUp? || e.TorDown?)
    ensures Inv(Step(l, e))
  {
    hide Session;
    var r := Step(l, e);
    assert r.Rx() == l.Rx();
    assert l.tx + [] == l.tx;
  }

  lemma EndKeeps(l: Local, e: Event)
    requires Inv(l) && Enabled(l, e) && (e.Jam? || e.Finish? || e.Drop?)
    ensures Inv(Step(l, e))
  {
    InvOver(l);
    assert Step(l, e).Rx() == l.Rx();
  }

  lemma StepKeeps(l: Local, e: Event)
    requires Inv(l) && Enabled(l, e)
    ensures Inv(Step(l, e))
  {
    match e {
      case Deliver(chunk) => DeliverKeeps(l, chunk);
      case Hangup => HangupKeeps(l);
      case Accept(n) => AcceptKeeps(l, n);
      case TorUp | TorDown => TorKeeps(l, e);
      case PayloadUp(_) | PayloadDown(_) => assert Step(l, e).Rx() == l.Rx();
      case Jam | Finish | Drop => EndKeeps(l, e);
    }
  }

  lemma {:induction false} RunKeeps(es: seq<Event>)
    ensures Inv(Run(es))
  {
    if es != [] {
      var l := Run(es[..|es| - 1]);
      RunKeeps(es[..|es| - 1]);
      if Enabled(l, es[|es| - 1]) { StepKeeps(l, es[|es| - 1]); }
    }
  }

  // ---- the theorems about one handler ----

  /** Refinement: after any events, in any chunks, with any partial writes and
      failures, a handler has read exactly the bytes its decision needs, has
      said a prefix of what the one-shot reader answers to them, waits for
      exactly the bytes that reader misses, asks Tor for a stream exactly when
      and exactly as that reader finds one, and relays payload only once Tor has
      accepted and the whole success reply is out. */
  lemma HandlerRefinesReader(es: seq<Event>)
    ensures var l := Run(es);
            var d := Session(l.Rx());
            var all := Transcript(l.Rx(), l.hung, l.tor);
            && d.used == |l.Rx()|
            && l.tx <= all
            && (!l.io.Done? && !l.io.Writing? ==> l.tx == all)
            && (l.io.Writing? ==> l.tx + l.io.left == all)
            && (l.io.Reading? ==> d == Dialogue(l.tx, |l.Rx()|, Starved(l.io.want - |l.io.got|, InTarget(l.io.stage))))
            && (l.dest.None? ==> !d.end.Connect?)
            && (l.dest.Some? ==> d.end == Connect(l.user, l.dest.value))
            && (l.tor.Some? ==> l.dest.Some?)
            && (l.up + l.down != [] ==> l.tor == Some(true) && l.tx == all)
  {
    var l := Run(es);
    RunKeeps(es);
    InvOver(l);
    assert l.tx + [] == l.tx;
    if l.io.Reading? {
      ReadingSession(l, l.io.stage, l.io.want, l.io.got);
    }
  }
}
