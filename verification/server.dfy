/** `SocksServer::handle` as it is written, for one client served alone: the
    statements of the source over the client's stream and the shared objects,
    proved against the one-shot reader. */
module Server {
  import opened Common
  import opened Address
  import opened Wire
  import opened Metering
  import opened Streams
  import opened Tor
  import Accounting
  import Arrival
  import Daemon
  import Handler
  import Solo
  import Splice
  import Utf8

  method SendReply(client: Client, rep: byte) returns (ok: bool)
    modifies client`accepts, client`written
    ensures ok <==> 10 <= old(client.Room())
    ensures client.written == old(client.written) + Cut(Reply(rep), old(client.Room()))
    ensures client.Room() == old(client.Room()) - Min(10, old(client.Room()))
  {
    ok := client.WriteAll([SOCKS5, rep, 0x00, ATYP_IPV4, 0, 0, 0, 0, 0, 0]);
  }

  /** The client's input where a message that starts `s` leaves it. */
  function Rest<T>(s: bytes, p: Parse<T>): bytes
    requires !p.Short? ==> p.used <= |s|
  {
    if p.Short? then [] else s[p.used..]
  }

  /** What a run of `read_exact` calls yields, and what it leaves unread. */
  datatype Read<+T> = Read(got: Option<T>, rest: bytes)

  function Outcome<T>(s: bytes, p: Parse<T>): Read<T>
    requires !p.Short? ==> p.used <= |s|
  {
    Read(if p.Got? then Some(p.value) else None, Rest(s, p))
  }

  lemma Slices(s: bytes, a: nat, n: nat)
    requires a + n <= |s|
    ensures s[a..][..n] == s[a..a + n] && s[a..][n..] == s[a + n..]
  {}

  /** The sub-negotiation as five reads cut it, field by field. */
  function UserpassReads(s: bytes): Read<string> {
    if |s| < 1 then Read(None, [])
    else if s[0] != AUTH_USERPASS_VER then Read(None, s[1..])
    else
      var t := s[1..];
      if |t| < 1 then Read(None, [])
      else
        var u, n := t[1..], t[0];
        if |u| < n then Read(None, [])
        else
          var v := u[n..];
          if |v| < 1 then Read(None, [])
          else
            var w, p := v[1..], v[0];
            if |w| < p then Read(None, []) else Read(Utf8.Decode(u[..n]), w[p..])
  }

  lemma UserpassReadsAll(s: bytes)
    ensures UserpassReads(s) == Outcome(s, Userpass(s))
  {
    hide Utf8.Decode;
    if |s| >= 2 && s[0] == AUTH_USERPASS_VER {
      Slices(s, 1, 1);
      var u := 2 + s[1] as nat;
      if |s| >= u {
        Slices(s, 2, s[1]);
        if |s| > u {
          Slices(s, u, 1);
          if |s| >= u + 1 + s[u] as nat { Slices(s, u + 1, s[u]); }
        }
      }
    }
  }

  method ReadUserpass(client: Client) returns (r: Option<string>)
    modifies client`deliveries
    ensures Read(r, client.Unread()) == Outcome(old(client.Unread()), Userpass(old(client.Unread())))
  {
    UserpassReadsAll(client.Unread());
    hide Utf8.Decode, Userpass, Outcome, Client.Unread;
    var ver := client.ReadExact(1);
    if ver == None { return None; }
    if ver.value[0] != AUTH_USERPASS_VER { return None; }
    var ulen := client.ReadExact(1);
    if ulen == None { return None; }
    var uname := client.ReadExact(ulen.value[0]);
    if uname == None { return None; }
    var plen := client.ReadExact(1);
    if plen == None { return None; }
    var passwd := client.ReadExact(plen.value[0]);
    if passwd == None { return None; }
    r := Utf8.Decode(uname.value);
  }

  /** The host of a target as `ReadTarget` reads it. */
  function HostReads(s: bytes, atyp: byte): Read<string> {
    if atyp == ATYP_IPV4 then
      if |s| < 4 then Read(None, []) else Read(Some(Ipv4Text(s[..4])), s[4..])
    else if atyp == ATYP_IPV6 then
      if |s| < 16 then Read(None, []) else Read(Some(Ipv6Text(s[..16])), s[16..])
    else if atyp == ATYP_DOMAIN then
      if |s| < 1 then Read(None, [])
      else
        var t, n := s[1..], s[0];
        if |t| < n then Read(None, []) else Read(Utf8.Decode(t[..n]), t[n..])
    else Read(None, s)
  }

  function TargetReads(s: bytes, atyp: byte): Read<Dest> {
    var h := HostReads(s, atyp);
    if h.got.None? then Read(None, h.rest)
    else if |h.rest| < 2 then Read(None, [])
    else Read(Some(Dest(h.got.value, BigEndian(h.rest[0], h.rest[1]))), h.rest[2..])
  }

  lemma HostReadsAll(s: bytes, atyp: byte)
    ensures HostReads(s, atyp) == Outcome(s, Host(s, atyp))
  {
    hide Utf8.Decode, Ipv4Text, Ipv6Text;
    if |s| >= 1 && |s| >= 1 + s[0] as nat { Slices(s, 1, s[0]); }
  }

  lemma TargetReadsAll(s: bytes, atyp: byte)
    ensures TargetReads(s, atyp) == Outcome(s, Target(s, atyp))
  {
    HostReadsAll(s, atyp);
    hide HostReads, Host;
    if Host(s, atyp).Got? {
      var n := Host(s, atyp).used;
      if |s| >= n + 2 { Slices(s, n, 2); }
    }
  }

  method ReadTarget(client: Client, atyp: byte) returns (r: Option<Dest>)
    modifies client`deliveries
    ensures Read(r, client.Unread()) == Outcome(old(client.Unread()), Target(old(client.Unread()), atyp))
  {
    TargetReadsAll(client.Unread(), atyp);
    hide Ipv4Text, Ipv6Text, Utf8.Decode, Target, Outcome, Client.Unread;
    var host;
    if atyp == ATYP_IPV4 {
      var a := client.ReadExact(4);
      if a == None { return None; }
      host := Ipv4Text(a.value);
    } else if atyp == ATYP_IPV6 {
      var a := client.ReadExact(16);
      if a == None { return None; }
      host := Ipv6Text(a.value);
    } else if atyp == ATYP_DOMAIN {
      var len := client.ReadExact(1);
      if len == None { return None; }
      var name := client.ReadExact(len.value[0]);
      if name == None { return None; }
      var text := Utf8.Decode(name.value);
      if text == None { return None; }
      host := text.value;
    } else {
      return None;
    }
    var port := client.ReadExact(2);
    if port == None { return None; }
    return Some(Dest(host, BigEndian(port.value[0], port.value[1])));
  }

  // ---- a session whose writes may fail ----

  /** What a handler has written, what it has left unread, and what it goes on
      with, after a part of the handshake served alone. */
  datatype Part<+T> = Part(out: bytes, rest: bytes, got: Option<T>)

  function Code(m: Method): byte {
    match m
    case UserPass => METHOD_USERPASS
    case NoAuth => METHOD_NOAUTH
    case Unacceptable => METHOD_NONE
  }

  /** The answer to the methods that a client offers, from the input `t` behind
      them, if the client takes `room` bytes. */
  function Answered(m: Method, t: bytes, room: nat): Part<Option<string>> {
    var choice := [SOCKS5, Code(m)];
    if room < 2 || m == Unacceptable then Part(Cut(choice, room), t, None)
    else if m == NoAuth then Part(choice, t, Some(None))
    else
      var p := Userpass(t);
      if !p.Got? then Part(choice, Rest(t, p), None)
      else Part(choice + Cut([AUTH_USERPASS_VER, REP_SUCCESS], room - 2), Rest(t, p),
                if room < 4 then None else Some(Some(p.value)))
  }

  /** The negotiation of a client that sends `s` and takes `room` bytes. */
  function Negotiated(s: bytes, room: nat): Part<Option<string>> {
    var g := Greeting(s);
    if !g.Got? then Part([], Rest(s, g), None) else Answered(g.value, Rest(s, g), room)
  }

  /** Likewise for the request, from the rest of the input. */
  function RequestedOf(s: bytes, room: nat): Part<Dest> {
    if |s| < 4 then Part([], [], None)
    else
      var t := s[4..];
      if s[0] != SOCKS5 then Part([], t, None)
      else if s[1] != CMD_CONNECT then Part(Cut(Reply(REP_CMD_NOT_SUPPORTED), room), t, None)
      else
        var p := Target(t, s[3]);
        if p.Got? then Part([], Rest(t, p), Some(p.value))
        else Part(Cut(Reply(REP_ATYP_NOT_SUPPORTED), room), Rest(t, p), None)
  }

  lemma GreetingSteps(s: bytes)
    ensures |s| < 2 ==> Greeting(s).Short?
    ensures |s| >= 2 && s[0] != SOCKS5 ==> Greeting(s) == Bad(2)
    ensures |s| >= 2 && s[0] == SOCKS5 ==>
      var n: nat := s[1];
      var t := s[2..];
      if |t| < n then Greeting(s).Short?
      else Greeting(s) == Got(Choose(t[..n]), 2 + n) && s[2 + n..] == t[n..]
  {
    if |s| >= 2 && s[0] == SOCKS5 && |s| >= 2 + s[1] as nat {
      assert s[2..][..s[1]] == s[2..2 + s[1]];
    }
  }

  /** The choice of a method, with the sub-negotiation if that is chosen. */
  method Answer(client: Client, methods: bytes) returns (r: Option<Option<string>>)
    modifies client
    ensures var p := Answered(Choose(methods), old(client.Unread()), old(client.Room()));
            && r == p.got
            && client.Unread() == p.rest
            && client.written == old(client.written) + p.out
            && client.Room() == old(client.Room()) - |p.out|
  {
    hide Userpass, Client.Unread, Client.Room;
    if METHOD_USERPASS in methods {
      var ok := client.WriteAll([SOCKS5, METHOD_USERPASS]);
      if !ok { return None; }
      var user := ReadUserpass(client);
      if user == None { return None; }
      ok := client.WriteAll([AUTH_USERPASS_VER, REP_SUCCESS]);
      if !ok { return None; }
      return Some(user);
    } else if METHOD_NOAUTH in methods {
      var ok := client.WriteAll([SOCKS5, METHOD_NOAUTH]);
      if !ok { return None; }
      return Some(None);
    } else {
      var ok := client.WriteAll([SOCKS5, METHOD_NONE]);
      return None;
    }
  }

  /** Method negotiation from the first byte. */
  method Negotiate(client: Client) returns (r: Option<Option<string>>)
    modifies client
    ensures var p := Negotiated(old(client.Unread()), old(client.Room()));
            && r == p.got
            && client.Unread() == p.rest
            && client.written == old(client.written) + p.out
            && client.Room() == old(client.Room()) - |p.out|
  {
    ghost var s := client.Unread();
    GreetingSteps(s);
    hide Greeting, Answered, Choose, Client.Unread, Client.Room;
    var greeting := client.ReadExact(2);
    if greeting == None { return None; }
    if greeting.value[0] != SOCKS5 { return None; }
    var methods := client.ReadExact(greeting.value[1]);
    if methods == None { return None; }
    r := Answer(client, methods.value);
  }

  /** The CONNECT request, refused with a reply if it is not one. */
  method ReadRequest(client: Client) returns (r: Option<Dest>)
    modifies client
    ensures var p := RequestedOf(old(client.Unread()), old(client.Room()));
            && r == p.got
            && client.Unread() == p.rest
            && client.written == old(client.written) + p.out
            && client.Room() == old(client.Room()) - |p.out|
  {
    hide Target, Client.Unread, Client.Room;
    var req := client.ReadExact(4);
    if req == None { return None; }
    if req.value[0] != SOCKS5 { return None; }
    if req.value[1] != CMD_CONNECT {
      var ok := SendReply(client, REP_CMD_NOT_SUPPORTED);
      return None;
    }
    r := ReadTarget(client, req.value[3]);
    if r == None {
      var ok := SendReply(client, REP_ATYP_NOT_SUPPORTED);
    }
  }

  // ---- the two parts together are the one-shot reader's session ----

  lemma CutMore(a: bytes, b: bytes, room: nat)
    requires |a| <= room
    ensures Cut(a + b, room) == a + Cut(b, room - |a|)
  {}

  /** What the request part says and leaves, against the one-shot reader. */
  lemma RequestedIsRequest(s: bytes, user: Option<string>, room: nat)
    ensures var d := Request(s, user);
            var p := RequestedOf(s, room);
            var refusal := if d.end.Starved? && d.end.inTarget then Reply(REP_ATYP_NOT_SUPPORTED) else [];
            && d.used <= |s|
            && p.out == Cut(d.sent + refusal, room)
            && (p.got.Some? <==> d.end.Connect?)
            && (p.got.Some? ==> d.end == Connect(user, p.got.value) && d.sent == p.out == [] && p.rest == s[d.used..])
  {
    hide Target;
    if |s| >= 4 && s[0] == SOCKS5 && s[1] == CMD_CONNECT {
      assert [] + Reply(REP_ATYP_NOT_SUPPORTED) == Reply(REP_ATYP_NOT_SUPPORTED);
      if Target(s[4..], s[3]).Got? {
        var n := Target(s[4..], s[3]).used;
        assert s[4..][n..] == s[4 + n..];
      }
    }
  }

  ghost function Served(s: bytes, room: nat): Part<Dest> {
    var h := Negotiated(s, room);
    if h.got.None? then Part(h.out, h.rest, None)
    else
      var q := RequestedOf(h.rest, room - Min(room, |h.out|));
      Part(h.out + q.out, q.rest, q.got)
  }

  /** How a session cut off after `room` bytes compares with the whole one. */
  ghost predicate ServedFits(s: bytes, room: nat) {
    var d := Session(s);
    var h := Negotiated(s, room);
    var p := Served(s, room);
    && |h.out| <= room
    && p.out == Cut(Transcript(s, true, None), room)
    && (p.got.Some? <==> d.end.Connect? && |d.sent| <= room)
    && (p.got.Some? ==>
        && h.got.Some? && d.end == Connect(h.got.value, p.got.value) && p.out == d.sent
        && d.used <= |s| && p.rest == s[d.used..])
  }

  /** A negotiation that agrees on `user` after `n` bytes, with `welcome` for an
      answer, and the request that follows it. */
  lemma ServedRequest(s: bytes, n: nat, user: Option<string>, welcome: bytes, room: nat)
    requires n <= |s| && Session(s) == Request(s[n..], user).After(welcome, n)
    requires |welcome| <= room ==> Negotiated(s, room) == Part(welcome, s[n..], Some(user))
    requires |welcome| > room ==> Negotiated(s, room).got == None && Negotiated(s, room).out == Cut(welcome, room)
    ensures ServedFits(s, room)
  {
    hide Request, RequestedOf, Session, Negotiated, Reply;
    var t := s[n..];
    var d := Request(t, user);
    var refusal := if d.end.Starved? && d.end.inTarget then Reply(REP_ATYP_NOT_SUPPORTED) else [];
    RequestedIsRequest(t, user, room - Min(room, |welcome|));
    assert Transcript(s, true, None) == welcome + (d.sent + refusal);
    if |welcome| <= room {
      CutMore(welcome, d.sent + refusal, room);
      hide Cut, Transcript;
      assert t[d.used..] == s[n + d.used..];
      assert welcome + [] == welcome;
    } else {
      assert Cut(welcome + (d.sent + refusal), room) == Cut(welcome, room);
    }
  }

  lemma ServedUserPass(s: bytes, room: nat)
    requires Greeting(s).Got? && Greeting(s).value == UserPass
    ensures ServedFits(s, room)
  {
    hide Request, RequestedOf, Greeting, Userpass;
    var n := Greeting(s).used;
    var t := s[n..];
    var choice, status := [SOCKS5, METHOD_USERPASS], [AUTH_USERPASS_VER, REP_SUCCESS];
    if Userpass(t).Got? {
      var j := Userpass(t).used;
      assert t[j..] == s[n + j..];
      assert choice + status == [SOCKS5, METHOD_USERPASS, AUTH_USERPASS_VER, REP_SUCCESS];
      var d := Request(t[j..], Some(Userpass(t).value));
      assert d.After(status, j).After(choice, n) == d.After(choice + status, n + j) by {
        assert choice + (status + d.sent) == choice + status + d.sent;
      }
      if room >= 2 { CutMore(choice, status, room); }
      ServedRequest(s, n + j, Some(Userpass(t).value), choice + status, room);
    } else {
      assert Transcript(s, true, None) == choice;
    }
  }

  /** A session whose client takes only `room` bytes is the one-shot reader's,
      cut off there: it comes to a CONNECT exactly when that reader finds one
      and all that precedes it can be said. */
  lemma ServedIsSession(s: bytes, room: nat)
    ensures ServedFits(s, room)
  {
    hide Request, RequestedOf, Userpass, Greeting;
    if Greeting(s).Got? {
      match Greeting(s).value {
        case Unacceptable => assert [SOCKS5, METHOD_NONE] + [] == [SOCKS5, METHOD_NONE];
        case NoAuth => ServedRequest(s, Greeting(s).used, None, [SOCKS5, METHOD_NOAUTH], room);
        case UserPass => ServedUserPass(s, room);
      }
    }
  }

  // ---- the whole handler ----

  lemma Associate(a: bytes, b: bytes, c: bytes)
    ensures a + b + c == a + (b + c)
  {}

  /** Everything before Tor is asked, step by step. */
  method Prepare(client: Client) returns (user: Option<string>, dest: Option<Dest>)
    modifies client
    ensures var s, room := old(client.Unread()), old(client.Room());
            && dest == Served(s, room).got
            && (dest.Some? ==> Some(user) == Negotiated(s, room).got)
            && client.written == old(client.written) + Served(s, room).out
            && client.Unread() == Served(s, room).rest
            && client.Room() == room - |Served(s, room).out|
  {
    ghost var s, room, w := client.Unread(), client.Room(), client.written;
    ghost var h := Negotiated(s, room);
    ghost var q := RequestedOf(h.rest, room - Min(room, |h.out|));
    Associate(w, h.out, q.out);
    hide Negotiated, RequestedOf, Client.Unread, Client.Room;
    var login := Negotiate(client);
    assert client.written == w + h.out;
    assert client.Unread() == h.rest && client.Room() == room - |h.out|;
    if login.None? { return None, None; }
    user := login.value;
    dest := ReadRequest(client);
    assert client.written == w + h.out + q.out;
  }

  /** What a handshake comes to, and where it leaves the client. */
  ghost predicate Shaken(s: bytes, room: nat, user: Option<string>, dest: Option<Dest>,
                         before: bytes, after: bytes, rest: bytes, left: nat)
  {
    var d := Session(s);
    && (dest.Some? <==> Connects(s, room))
    && (dest.None? ==> after == before + Cut(Transcript(s, true, None), room))
    && (dest.Some? ==>
        && d.end == Connect(user, dest.value) && d.used <= |s| && rest == s[d.used..]
        && after == before + d.sent && left == room - |d.sent|)
  }

  /** Everything before Tor is asked: the CONNECT of the one-shot reader, if all
      that precedes it can be said, with the rest of the input left unread. */
  method Handshake(client: Client) returns (user: Option<string>, dest: Option<Dest>)
    modifies client
    ensures Shaken(old(client.Unread()), old(client.Room()), user, dest,
                   old(client.written), client.written, client.Unread(), client.Room())
  {
    ServedIsSession(client.Unread(), client.Room());
    hide Session, Transcript, Cut, Served, Negotiated, Client.Unread, Client.Room;
    user, dest := Prepare(client);
  }

  /** What a client of limited room hears of a CONNECT, after having been told
      `w` before. */
  lemma ConnectTranscript(s: bytes, torUp: bool, room: nat, w: bytes)
    ensures Connects(s, room) ==>
            var sent := Session(s).sent;
            var said := Transcript(s, true, Some(torUp));
            && |said| == |sent| + 10
            && w + Cut(said, room)
               == w + sent + Cut(Reply(if torUp then REP_SUCCESS else REP_GENERAL_FAILURE), room - |sent|)
  {
    if Connects(s, room) {
      var sent, reply := Session(s).sent, Reply(if torUp then REP_SUCCESS else REP_GENERAL_FAILURE);
      hide Session;
      CutMore(sent, reply, room);
      Associate(w, sent, Cut(reply, room - |sent|));
    }
  }

  // ---- a handler's whole effect, in terms of a run ----

  /** What `Handle` does to a client: the words, and the split of its bytes. */
  ghost predicate ClientAfter(s: bytes, room: nat, torUp: bool, up: bytes, down: bytes,
                              before: bytes, after: bytes, rest: bytes)
  {
    && after == before + Cut(Heard(s, room, torUp), room) + down
    && (Connects(s, room) ==> Session(s).used <= |s| && s[Session(s).used..] == up + rest)
    && (!Succeeds(s, room, torUp) ==> up == down == [])
  }

  /** A client once Tor has answered: the reply, if it fits, and then the splice
      of the bytes that it has still to send, in the room that is left. */
  ghost predicate Relayed(turns: seq<Turn>, takes: seq<nat>, torUp: bool, ok: bool, up: bytes, down: bytes,
                           unread: bytes, room: nat, before: bytes, after: bytes, rest: bytes)
  {
    && (ok <==> torUp && 10 <= room)
    && (ok ==> Spliced(turns, takes, unread, room - 10, up, down))
    && (!ok ==> up == down == [])
    && after == before + Cut(Reply(if torUp then REP_SUCCESS else REP_GENERAL_FAILURE), room) + down
    && unread == up + rest
  }

  /** The splice of a client that was told success: from the first byte behind
      its handshake on, in the room that its transcript leaves. */
  ghost predicate Carried(turns: seq<Turn>, takes: seq<nat>, s: bytes, room: nat, torUp: bool, up: bytes, down: bytes) {
    Succeeds(s, room, torUp) ==>
      && Session(s).used <= |s|
      && Spliced(turns, takes, s[Session(s).used..], room - |Heard(s, room, torUp)|, up, down)
  }

  lemma ClientRefused(turns: seq<Turn>, s: bytes, room: nat, torUp: bool, user: Option<string>,
                      before: bytes, after: bytes, rest: bytes, left: nat)
    requires Shaken(s, room, user, None, before, after, rest, left)
    ensures !Connects(s, room) && !Succeeds(s, room, torUp)
    ensures ClientAfter(s, room, torUp, [], [], before, after, rest) && Carried(turns, [], s, room, torUp, [], [])
  {
    hide Session, Transcript, Cut, Spliced;
    assert after + [] == after;
  }

  lemma ClientConnected(turns: seq<Turn>, takes: seq<nat>, s: bytes, room: nat, torUp: bool, ok: bool,
                        up: bytes, down: bytes, user: Option<string>, dest: Dest,
                        before: bytes, mid: bytes, after: bytes, unread: bytes, left: nat, rest: bytes)
    requires Shaken(s, room, user, Some(dest), before, mid, unread, left)
    requires Relayed(turns, takes, torUp, ok, up, down, unread, left, mid, after, rest)
    ensures Connects(s, room) && Session(s).end == Connect(user, dest)
    ensures ClientAfter(s, room, torUp, up, down, before, after, rest)
    ensures Carried(turns, takes, s, room, torUp, up, down)
    ensures ok <==> Succeeds(s, room, torUp)
  {
    ConnectTranscript(s, torUp, room, before);
    hide Session, Transcript, Cut, Reply, Spliced;
  }

  lemma PayloadFits(s: bytes, room: nat, torUp: bool, up: bytes, down: bytes,
                    before: bytes, after: bytes, rest: bytes)
    requires ClientAfter(s, room, torUp, up, down, before, after, rest)
    ensures if Succeeds(s, room, torUp) then Session(s).used <= |s| && up <= s[Session(s).used..]
            else up == down == []
  {
    hide Session, Transcript;
  }

  lemma WordsAreSent(s: bytes, room: nat, torUp: bool, up: bytes, down: bytes,
                    before: bytes, after: bytes, rest: bytes, es: seq<Handler.Event>)
    requires ClientAfter(s, room, torUp, up, down, before, after, rest) && Solo.Serves(s, room, torUp, up, down, es)
    ensures after == before + Splice.Sent(es)
  {
    hide Session, Heard, Connects, Succeeds, Cut, Splice.Sent, Splice.Received;
    Associate(before, Cut(Heard(s, room, torUp), room), down);
  }

  /** The counters once Tor has answered and the splice, if any, is over. */
  function AfterAnswer(k: Counters, torUp: bool, ok: bool, up: nat, down: nat): Counters {
    k.(ok := if ok then FetchAdd(k.ok, 1) else k.ok,
       failed := if torUp then k.failed else FetchAdd(k.failed, 1),
       toUpstream := FetchAdd(k.toUpstream, up),
       toClient := FetchAdd(k.toClient, down))
  }

  /** What a CONNECT does to the shared objects, from registering to the end. */
  ghost predicate Connected(cfg: Daemon.Config, before: Arrival.Objects, after: Arrival.Objects,
                            user: Option<string>, torUp: bool, ok: bool, up: bytes, down: bytes)
  {
    var k := before.counters;
    var r := Resolve(cfg.policy, cfg.default, before.perUpstream, user, IsolationToken(before.serial));
    && after.counters == AfterAnswer(k.(total := FetchAdd(k.total, 1)), torUp, ok, |up|, |down|)
    && after.nextId == FetchAdd(before.nextId, 1) && after.live == before.live - {before.nextId}
    && after.perUpstream == r.perUpstream && after.serial == before.serial + if r.usedMinted then 1 else 0
  }

  /** What it has done to them by the time Tor is asked: it is counted, has a
      row under the next id, and its token. */
  ghost predicate Opened(cfg: Daemon.Config, before: Arrival.Objects, after: Arrival.Objects, user: Option<string>) {
    var r := Resolve(cfg.policy, cfg.default, before.perUpstream, user, IsolationToken(before.serial));
    && after.counters == before.counters.(total := FetchAdd(before.counters.total, 1))
    && after.nextId == FetchAdd(before.nextId, 1) && after.live == before.live + {before.nextId}
    && after.perUpstream == r.perUpstream && after.serial == before.serial + if r.usedMinted then 1 else 0
  }

  lemma ConnectedBy(cfg: Daemon.Config, before: Arrival.Objects, mid: Arrival.Objects, after: Arrival.Objects,
                    user: Option<string>, torUp: bool, ok: bool, up: bytes, down: bytes)
    requires Opened(cfg, before, mid, user)
    requires after == mid.(counters := AfterAnswer(mid.counters, torUp, ok, |up|, |down|),
                           live := mid.live - {before.nextId})
    ensures Connected(cfg, before, after, user, torUp, ok, up, down)
  {
    hide AfterAnswer, Resolve, FetchAdd;
    assert before.live + {before.nextId} - {before.nextId} == before.live - {before.nextId};
  }

  /** What `Handle` does to them: nothing, unless there is a CONNECT. */
  ghost predicate ObjectsAfter(cfg: Daemon.Config, before: Arrival.Objects, after: Arrival.Objects,
                               s: bytes, room: nat, torUp: bool, up: bytes, down: bytes)
  {
    if Connects(s, room)
    then Connected(cfg, before, after, Session(s).end.user, torUp, Succeeds(s, room, torUp), up, down)
    else after == before && up == down == []
  }

  /** The row and the token that a client has while it is served, if it has any. */
  ghost predicate Meanwhile(cfg: Daemon.Config, before: Arrival.Objects, s: bytes, room: nat, peer: Peer,
                            token: Option<IsolationToken>, row: Option<Entry>, up: nat, down: nat)
  {
    if Connects(s, room) then
      var end := Session(s).end;
      && token == Some(Resolve(cfg.policy, cfg.default, before.perUpstream, end.user,
                               IsolationToken(before.serial)).token)
      && row == Some(Entry(before.nextId, peer, Label(end.dest), end.user, FetchAdd(0, up), FetchAdd(0, down)))
    else
      token == None && row == None
  }

  lemma ConnectedMeanwhile(cfg: Daemon.Config, before: Arrival.Objects, s: bytes, room: nat, peer: Peer,
                           user: Option<string>, dest: Dest, token: IsolationToken, row: Entry, up: nat, down: nat)
    requires Connects(s, room) && Session(s).end == Connect(user, dest)
    requires token == Resolve(cfg.policy, cfg.default, before.perUpstream, user, IsolationToken(before.serial)).token
    requires row == Entry(before.nextId, peer, Label(dest), user, FetchAdd(0, up), FetchAdd(0, down))
    ensures Meanwhile(cfg, before, s, room, peer, Some(token), Some(row), up, down)
  {
    hide Session;
  }

  lemma ObjectsKept(cfg: Daemon.Config, before: Arrival.Objects, s: bytes, room: nat, torUp: bool)
    requires !Connects(s, room)
    ensures ObjectsAfter(cfg, before, before, s, room, torUp, [], [])
    ensures forall peer :: Meanwhile(cfg, before, s, room, peer, None, None, 0, 0)
  {}

  lemma ObjectsConnected(cfg: Daemon.Config, before: Arrival.Objects, after: Arrival.Objects,
                         s: bytes, room: nat, torUp: bool, ok: bool, up: bytes, down: bytes)
    requires Connects(s, room) && (ok <==> Succeeds(s, room, torUp))
    requires Session(s).end.Connect? && Connected(cfg, before, after, Session(s).end.user, torUp, ok, up, down)
    ensures ObjectsAfter(cfg, before, after, s, room, torUp, up, down)
  {
    hide Session, Succeeds;
  }

  lemma ServedAccount(s: bytes, room: nat, torUp: bool, up: bytes, down: bytes, es: seq<Handler.Event>)
    requires Solo.Serves(s, room, torUp, up, down, es)
    ensures Accounting.AccountOf(Handler.Run(es)) == Accounting.Counted(true) <==> Succeeds(s, room, torUp)
    ensures Accounting.AccountOf(Handler.Run(es)) == Accounting.Counted(false) <==> Connects(s, room) && !torUp
  {
    Accounting.RunFated(es);
    assert Succeeds(s, room, torUp) ==> Connects(s, room) && torUp;
    hide Handler.Run, Handler.CanRun, Session, Connects, Succeeds, Heard, Cut, Splice.Sent, Splice.Received;
  }

  lemma ServedObjects(cfg: Daemon.Config, before: Arrival.Objects, after: Arrival.Objects,
                      s: bytes, room: nat, torUp: bool, up: bytes, down: bytes, es: seq<Handler.Event>)
    requires ObjectsAfter(cfg, before, after, s, room, torUp, up, down)
    requires before.counters.toUpstream < U64 && before.counters.toClient < U64
    requires Solo.Serves(s, room, torUp, up, down, es)
    ensures after == Arrival.HeldWith(cfg, before, Handler.Run(es))
  {
    ServedAccount(s, room, torUp, up, down, es);
    NothingRelayed(before.counters.toUpstream, before.counters.toClient);
    hide Handler.Run, Handler.CanRun, Session, Connects, Succeeds, Heard, Cut, Splice.Sent, Splice.Received;
    hide FetchAdd, Resolve, Accounting.AccountOf;
  }

  lemma KeysWithout<V>(m: map<nat, V>, k: nat)
    ensures (m - {k}).Keys == m.Keys - {k}
  {}

  class SocksServer {
    const tor: TorManager
    const metrics: Metrics
    const streams: StreamRegistry

    constructor (tor: TorManager, metrics: Metrics, streams: StreamRegistry)
      ensures this.tor == tor && this.metrics == metrics && this.streams == streams
    {
      this.tor, this.metrics, this.streams := tor, metrics, streams;
    }

    ghost predicate Valid()
      reads this, metrics, streams, tor, tor.mint
    {
      && streams.Valid() && tor.Valid()
      && metrics.bytesToUpstream < U64 && metrics.bytesToClient < U64
    }

    /** Tells the client what Tor answered and, if that was yes, relays. */
    method Relay(client: Client, entry: StreamEntry, torUp: bool, turns: seq<Turn>)
      returns (ok: bool, up: bytes, down: bytes, ghost takes: seq<nat>)
      requires metrics.bytesToUpstream < U64 && metrics.bytesToClient < U64
      requires entry.toUpstream == entry.toClient == 0
      modifies client, entry, metrics`connectsOk, metrics`connectsFailed
      modifies metrics`bytesToUpstream, metrics`bytesToClient
      ensures metrics.State() == AfterAnswer(old(metrics.State()), torUp, ok, |up|, |down|)
      ensures Relayed(turns, takes, torUp, ok, up, down, old(client.Unread()), old(client.Room()),
                       old(client.written), client.written, client.Unread())
      ensures entry.toUpstream == FetchAdd(0, |up|) && entry.toClient == FetchAdd(0, |down|)
    {
      up, down, takes := [], [], [];
      NothingRelayed(metrics.bytesToUpstream, metrics.bytesToClient);
      if !torUp {
        metrics.connectsFailed := FetchAdd(metrics.connectsFailed, 1);
        var sent := SendReply(client, REP_GENERAL_FAILURE);
        return false, up, down, takes;
      }
      ok := SendReply(client, REP_SUCCESS);
      if !ok { return; }
      metrics.connectsOk := FetchAdd(metrics.connectsOk, 1);
      var metered := new Metered(client, metrics, entry);
      up, down, takes := CopyBidirectional(metered, turns);
    }

    /** Opens the stream, tells the client, and relays until the splice ends.
        The row is there from registering to returning, however that comes;
        `row` is what it says in the end. */
    method Proxy(client: Client, peer: Peer, user: Option<string>, dest: Dest, torUp: bool, turns: seq<Turn>)
      returns (ok: bool, token: IsolationToken, up: bytes, down: bytes, ghost row: Entry, ghost takes: seq<nat>)
      requires Valid()
      modifies client, metrics, streams, tor, tor.mint
      ensures Valid()
      ensures token == Resolve(Policy().policy, Policy().default, old(Held()).perUpstream, user,
                               IsolationToken(old(Held()).serial)).token
      ensures Connected(Policy(), old(Held()), Held(), user, torUp, ok, up, down)
      ensures streams.inner == old(streams.inner) - {old(streams.nextId)}
      ensures row == Entry(old(Held()).nextId, peer, Label(dest), user, FetchAdd(0, |up|), FetchAdd(0, |down|))
      ensures Relayed(turns, takes, torUp, ok, up, down, old(client.Unread()), old(client.Room()),
                       old(client.written), client.written, client.Unread())
    {
      ghost var before, rows, k := Held(), streams.inner, streams.nextId;
      hide FetchAdd, Resolve, Label, Relayed, AfterAnswer, Connected, Opened, Wrapped;
      hide TorManager.Valid, StreamRegistry.Valid, Client.Unread, Client.Room, StreamRegistry.Live;
      var entry;
      entry, token := Open(peer, Label(dest), user);
      ghost var mid := Held();
      AddThenRemove(rows, k, entry);
      KeysWithout(streams.inner, k);
      ok, up, down, takes := Relay(client, entry, torUp, turns);
      row := entry.State();
      streams.Unregister(entry);
      ConnectedBy(Policy(), before, mid, Held(), user, torUp, ok, up, down);
    }

    /** Counts the CONNECT, registers it and resolves its token. */
    method Open(peer: Peer, target: string, user: Option<string>)
      returns (entry: StreamEntry, token: IsolationToken)
      requires Valid()
      modifies metrics`connectsTotal, streams, tor, tor.mint
      ensures Valid() && fresh(entry) && entry.State() == Entry(old(streams.nextId), peer, target, user, 0, 0)
      ensures streams.inner == old(streams.inner)[old(streams.nextId) := entry]
      ensures token == Resolve(tor.isolation, tor.defaultToken, old(tor.perUpstream), user,
                               IsolationToken(old(tor.mint.next))).token
      ensures Opened(Policy(), old(Held()), Held(), user)
    {
      hide FetchAdd, Resolve;
      metrics.connectsTotal := FetchAdd(metrics.connectsTotal, 1);
      entry := streams.Register(peer, target, user);
      token := tor.IsolationTokenFor(user);
    }

    /** The shared objects, as values. */
    ghost function Held(): Arrival.Objects
      reads metrics, streams, tor, tor.mint
    {
      Arrival.Objects(metrics.State(), streams.nextId, streams.inner.Keys, tor.perUpstream, tor.mint.next)
    }

    ghost function Policy(): Daemon.Config {
      Daemon.Config(tor.isolation, tor.defaultToken)
    }

    /** Serves one client from its first byte to the end of its splice. `torUp`
        is what Tor answers, `turns` how the splice is scheduled; `up` and
        `down` are the payload relayed, `row` the last state of its row. */
    method Handle(client: Client, peer: Peer, torUp: bool, turns: seq<Turn>)
      returns (ok: bool, token: Option<IsolationToken>, up: bytes, down: bytes,
               ghost row: Option<Entry>, ghost takes: seq<nat>)
      requires Valid()
      modifies client, metrics, streams, tor, tor.mint
      ensures Valid()
      // the client: what it heard, and the split of its bytes
      ensures ClientAfter(old(client.Unread()), old(client.Room()), torUp, up, down,
                          old(client.written), client.written, client.Unread())
      ensures ok <==> Succeeds(old(client.Unread()), old(client.Room()), torUp)
      ensures Carried(turns, takes, old(client.Unread()), old(client.Room()), torUp, up, down)
      // the shared objects: touched only for a CONNECT, and never left with its row
      ensures ObjectsAfter(Policy(), old(Held()), Held(), old(client.Unread()), old(client.Room()), torUp, up, down)
      ensures var s, room := old(client.Unread()), old(client.Room());
              streams.inner == if Connects(s, room) then old(streams.inner) - {old(streams.nextId)} else old(streams.inner)
      // the row and the token that it had meanwhile
      ensures Meanwhile(Policy(), old(Held()), old(client.Unread()), old(client.Room()), peer, token, row, |up|, |down|)
    {
      ghost var s, room, w, before := client.Unread(), client.Room(), client.written, Held();
      hide *;
      ok, token, up, down, row, takes := false, None, [], [], None, [];
      var user, dest := Handshake(client);
      if dest.None? {
        ClientRefused(turns, s, room, torUp, user, w, client.written, client.Unread(), client.Room());
        ObjectsKept(Policy(), before, s, room, torUp);
        return;
      }
      ghost var rest, left, mid := client.Unread(), client.Room(), client.written;
      var t;
      ghost var last;
      ok, t, up, down, last, takes := Proxy(client, peer, user, dest.value, torUp, turns);
      token, row := Some(t), Some(last);
      ClientConnected(turns, takes, s, room, torUp, ok, up, down, user, dest.value,
                      w, mid, client.written, rest, left, client.Unread());
      ConnectedMeanwhile(Policy(), before, s, room, peer, user, dest.value, t, last, |up|, |down|);
      ObjectsConnected(Policy(), before, Held(), s, room, torUp, ok, up, down);
    }

    /** One accepted connection, whatever comes of it. If the objects are as some
        run `acts` of the daemon leaves them, they end as a longer run does, in
        which one handler more has heard, said and relayed what this one did. */
    method SpawnConnection(client: Client, peer: Peer, torUp: bool, turns: seq<Turn>, ghost acts: seq<Daemon.Action>)
      returns (up: bytes, down: bytes, ghost es: seq<Handler.Event>, ghost more: seq<Daemon.Action>,
               ghost takes: seq<nat>)
      requires Valid()
      requires Arrival.Mirrors(Held(), Daemon.Exec(Policy(), acts))
      modifies client, metrics, streams, tor, tor.mint
      ensures Valid()
      ensures Solo.Serves(old(client.Unread()), old(client.Room()), torUp, up, down, es)
      ensures Carried(turns, takes, old(client.Unread()), old(client.Room()), torUp, up, down)
      ensures client.written == old(client.written) + Splice.Sent(es)
      ensures Held() == Arrival.HeldWith(Policy(), old(Held()), Handler.Run(es))
      ensures acts <= more && Arrival.Mirrors(Held(), Daemon.Exec(Policy(), more))
      ensures Arrival.With(Policy(), Daemon.Exec(Policy(), acts), Daemon.Exec(Policy(), more), peer,
                           Handler.Run(es), IsolationToken(old(tor.mint.next)))
    {
      ghost var s, room, w, before := client.Unread(), client.Room(), client.written, Held();
      assert before.counters.toUpstream < U64 && before.counters.toClient < U64;
      hide *;
      ghost var ok, token, row;
      ok, token, up, down, row, takes := Handle(client, peer, torUp, turns);
      PayloadFits(s, room, torUp, up, down, w, client.written, client.Unread());
      es := Solo.SoloRun(s, room, torUp, up, down);
      ServedObjects(Policy(), before, Held(), s, room, torUp, up, down, es);
      WordsAreSent(s, room, torUp, up, down, w, client.written, client.Unread(), es);
      more := Arrival.ArriveAlone(Policy(), acts, before, peer, es);
    }
  }

  lemma NothingRelayed(x: nat, y: nat)
    requires x < U64 && y < U64
    ensures FetchAdd(x, 0) == x && FetchAdd(y, 0) == y
  {}
}
