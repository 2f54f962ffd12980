/** The protocol in the very octets that RFC 1928 and RFC 1929 print: what the
    reader, the encoder and the replies come to once no number has a name. */
module Octets {
  import opened Common
  import opened Address
  import opened Wire
  import opened Encoding
  import Utf8

  /** A ten-byte reply with an unspecified bound address of the IPv4 kind. */
  function Answer(code: byte): bytes {
    [5, code, 0, 1, 0, 0, 0, 0, 0, 0]
  }

  // ---- a client that wants a connection ----

  /** The head of a greeting, and the methods that decide whether to log in. */
  lemma GreetingOctets(c: Client)
    requires c.Valid()
    ensures c.EncodeGreeting() == [5, |c.methods|] + c.methods
    ensures if 2 in c.methods then c.login.Some? else c.login.None? && 0 in c.methods
  {}

  lemma LoginOctets(c: Client)
    requires c.Valid()
    ensures c.login.None? ==> c.EncodeLogin() == []
    ensures c.login.Some? ==>
              var u, p := Utf8.Encode(c.login.value.user), c.login.value.password;
              c.EncodeLogin() == [1, |u|] + u + [|p|] + p
  {}

  /** CONNECT is command 1; addresses are of kind 1, 3 or 4. */
  lemma RequestOctets(c: Client)
    requires c.Valid()
    ensures c.EncodeRequest() ==
              (match c.addr
               case V4(o) => [5, 1, c.rsv, 1] + o
               case Name(t) => [5, 1, c.rsv, 3, |Utf8.Encode(t)|] + Utf8.Encode(t)
               case V6(o) => [5, 1, c.rsv, 4] + o)
              + [c.port / 256, c.port % 256]
  {
    var port := [c.port / 256, c.port % 256];
    match c.addr {
      case V4(o) => assert [5, 1, c.rsv, 1] + (o + port) == [5, 1, c.rsv, 1] + o + port;
      case V6(o) => assert [5, 1, c.rsv, 4] + (o + port) == [5, 1, c.rsv, 4] + o + port;
      case Name(t) =>
        var e := Utf8.Encode(t);
        assert [5, 1, c.rsv, 3] + ([|e|] + e + port) == [5, 1, c.rsv, 3, |e|] + e + port;
    }
  }

  /** What any valid client hears, whatever it sends behind its request: the
      choice of method, the status of its login if it has one, and then code 0
      exactly when Tor accepted, code 1 when it declined. */
  lemma ClientHears(c: Client, rest: bytes, hung: bool, tor: Option<bool>)
    requires c.Valid()
    ensures Transcript(c.Encode() + rest, hung, tor) ==
              (if 2 in c.methods then [5, 2, 1, 0] else [5, 0])
              + match tor
                case None => []
                case Some(true) => [5, 0, 0, 1, 0, 0, 0, 0, 0, 0]
                case Some(false) => [5, 1, 0, 1, 0, 0, 0, 0, 0, 0]
  {
    SessionReadsClient(c, rest);
    hide Session, Client.Encode;
  }

  // ---- any input ----

  /** What is said of a request: the part of a transcript behind the greeting
      and the login. */
  function RequestSaid(t: bytes, user: Option<string>, hung: bool, tor: Option<bool>): bytes {
    Request(t, user).sent + AfterSession(Request(t, user).end, hung, tor)
  }

  /** The bytes of an address of kind `atyp` at the head of `t`, and its port. */
  function TargetSize(t: bytes, atyp: byte): nat {
    match atyp
    case 1 => 4 + 2
    case 4 => 16 + 2
    case _ => if t == [] then 1 else 1 + t[0] as nat + 2
  }

  /** Whether the domain name at the head of `t` is there and not UTF-8. */
  predicate BadName(t: bytes) {
    t != [] && 1 + t[0] as nat <= |t| && Utf8.Decode(t[1..1 + t[0] as nat]) == None
  }

  /** The answers to a request: code 7 for a command other than 1, code 8 for
      an address kind other than 1, 3 and 4, for a domain name that is not
      UTF-8 and for a target that never comes in full, and Tor's answer for one
      that does. */
  lemma RequestHears(t: bytes, user: Option<string>, hung: bool, tor: Option<bool>)
    ensures var said := RequestSaid(t, user, hung, tor);
            if |t| < 4 || t[0] != 5 then said == []
            else if t[1] != 1 then said == Answer(7)
            else if t[3] !in {1, 3, 4} || (t[3] == 3 && BadName(t[4..])) then said == Answer(8)
            else if |t| < 4 + TargetSize(t[4..], t[3]) then said == if hung then Answer(8) else []
            else
              && Request(t, user).end.Connect?
              && said == match tor case None => [] case Some(up) => if up then Answer(0) else Answer(1)
  {}

  lemma SaidAfter(d: Dialogue, said: bytes, n: nat, hung: bool, tor: Option<bool>)
    ensures d.After(said, n).sent + AfterSession(d.After(said, n).end, hung, tor)
         == said + (d.sent + AfterSession(d.end, hung, tor))
  {}

  lemma NothingSaidOfLogin(t: bytes, hung: bool, tor: Option<bool>)
    requires !Userpass(t).Got?
    ensures Login(t).sent + AfterSession(Login(t).end, hung, tor) == []
  {
    hide Userpass;
  }

  /** Of a login only its version, 1, and its username can be wrong. */
  lemma LoginHears(t: bytes, hung: bool, tor: Option<bool>)
    ensures var said := Login(t).sent + AfterSession(Login(t).end, hung, tor);
            if t == [] || t[0] != 1 || |t| < 2 || |t| <= 2 + t[1] as nat then said == []
            else
              var u := 2 + t[1] as nat;
              var p := u + 1 + t[u] as nat;
              if |t| < p then said == []
              else match Utf8.Decode(t[2..u])
                case None => said == []
                case Some(user) => said == [1, 0] + RequestSaid(t[p..], Some(user), hung, tor)
  {
    hide Request, AfterSession, Utf8.Decode;
    if Userpass(t).Got? {
      var p := Userpass(t).used;
      SaidAfter(Request(t[p..], Some(Userpass(t).value)), [1, 0], p, hung, tor);
    } else {
      NothingSaidOfLogin(t, hung, tor);
    }
  }

  lemma RefusalEndsIt(said: bytes, n: nat, hung: bool, tor: Option<bool>)
    ensures said + AfterSession(Dialogue(said, n, Refused).end, hung, tor) == said
  {}

  lemma NothingSaid(s: bytes, hung: bool, tor: Option<bool>)
    requires !Greeting(s).Got?
    ensures Transcript(s, hung, tor) == []
  {}

  /** Method 2 is chosen if it is offered, else method 0, else none, which is
      said with 255. */
  lemma GreetingHears(s: bytes, hung: bool, tor: Option<bool>)
    ensures var said := Transcript(s, hung, tor);
            if |s| < 2 || s[0] != 5 || |s| < 2 + s[1] as nat then said == []
            else
              var n := 2 + s[1] as nat;
              var methods, t := s[2..n], s[n..];
              if 2 in methods then said == [5, 2] + (Login(t).sent + AfterSession(Login(t).end, hung, tor))
              else if 0 in methods then said == [5, 0] + RequestSaid(t, None, hung, tor)
              else said == [5, 255]
  {
    hide Request, Login, AfterSession;
    if Greeting(s).Got? {
      var n := Greeting(s).used;
      match Greeting(s).value {
        case UserPass => SaidAfter(Login(s[n..]), [5, 2], n, hung, tor);
        case NoAuth => SaidAfter(Request(s[n..], None), [5, 0], n, hung, tor);
        case Unacceptable => RefusalEndsIt([5, 255], n, hung, tor);
      }
    } else {
      NothingSaid(s, hung, tor);
    }
  }

  /** The last ten octets of all that is said are the success reply exactly when
      a CONNECT was read and Tor accepted it. */
  lemma SuccessOctets(s: bytes, hung: bool, tor: Option<bool>)
    ensures var said := Transcript(s, hung, tor);
            (|said| >= 10 && said[|said| - 10..] == [5, 0, 0, 1, 0, 0, 0, 0, 0, 0])
            <==> Session(s).end.Connect? && tor == Some(true)
  {
    hide Session, Transcript;
    var w, q := TranscriptSays(s, hung, tor);
    var said := w + q;
    if q != [] {
      assert said[|said| - 10..] == q;
      assert q[1] == 0 <==> q == Reply(REP_SUCCESS);
    }
  }
}
