/** `SocksServer::handle` as the state machine its `async fn` compiles to: one
    state per point where it may be suspended. What runs between two such
    points is one atomic step, since every handler lives on the same thread. */
module Handler {
  import opened Common
  import opened Address
  import opened Wire
  import Utf8

  /** The `read_exact` a handler is suspended in. */
  datatype Stage =
    | ReadGreeting
    | ReadMethods
    | ReadAuthVersion
    | ReadUserLength
    | ReadUser
    | ReadPasswordLength(uname: bytes)
    | ReadPassword(uname: bytes)
    | ReadRequest
    | ReadIpv4
    | ReadIpv6
    | ReadNameLength
    | ReadName
    | ReadPort(host: string)

  /** What a handler does once a `write_all` is through. */
  datatype Sequel = ToAuth | ToRequest | ToError | ToSplice

  /** How far a handler that is gone had come. */
  datatype Fate =
    | Unconnected  // no stream was asked of Tor
    | TorFailed    // Tor declined
    | Abandoned    // gone before Tor answered, or before the success reply was out
    | Proxied      // the splice had begun

  datatype Io =
    | Reading(stage: Stage, want: nat, got: bytes)
    | Writing(left: bytes, next: Sequel)
    | Connecting
    | Splicing
    | Done(fate: Fate)

  /** A handler: where it is suspended, its locals `iso_user` and
      `(host, port)`, and a record of what it has done. */
  datatype Local = Local(
    io: Io,
    user: Option<string>,
    dest: Option<Dest>,
    hello: bytes,       // bytes read for the greeting,
    auth: bytes,        // for the sub-negotiation,
    head: bytes,        // for the request up to the address type,
    tail: bytes,        // and for the target
    tx: bytes,          // bytes written before the splice
    hung: bool,         // whether a read failed
    tor: Option<bool>,  // what Tor answered
    up: bytes,          // payload read from the client
    down: bytes)        // payload written to the client
  {
    /** Everything read before the splice. */
    function Rx(): bytes {
      hello + auth + (head + tail)
    }
  }

  const FRESH := Local(Reading(ReadGreeting, 2, []), None, None, [], [], [], [], [], false, None, [], [])

  /** What the outside world does to a suspended handler. */
  datatype Event =
    | Deliver(chunk: bytes)   // the client's bytes, as many as one poll yields
    | Hangup                  // end of file or an error instead of them
    | Accept(n: nat)          // the client takes `n` bytes of the pending write
    | Jam                     // or none ever again
    | TorUp
    | TorDown
    | PayloadUp(data: bytes)    // the splice reads `data` from the client
    | PayloadDown(data: bytes)  // or writes `data` to it
    | Finish                  // and ends, well or not
    | Drop                    // the task is dropped

  predicate InTarget(stage: Stage) {
    match stage
    case ReadIpv4 | ReadIpv6 | ReadNameLength | ReadName | ReadPort(_) => true
    case _ => false
  }

  /** The lengths a buffer may have when `stage` is complete. */
  predicate Fits(stage: Stage, n: nat) {
    match stage
    case ReadGreeting | ReadPort(_) => n == 2
    case ReadAuthVersion | ReadUserLength | ReadPasswordLength(_) | ReadNameLength => n == 1
    case ReadRequest | ReadIpv4 => n == 4
    case ReadIpv6 => n == 16
    case ReadMethods | ReadUser | ReadPassword(_) | ReadName => true
  }

  function Rank(stage: Stage): nat {
    match stage
    case ReadGreeting => 12
    case ReadMethods => 11
    case ReadAuthVersion => 10
    case ReadUserLength => 9
    case ReadUser => 8
    case ReadPasswordLength(_) => 7
    case ReadPassword(_) => 6
    case ReadRequest => 5
    case ReadIpv4 | ReadIpv6 | ReadNameLength => 4
    case ReadName => 3
    case ReadPort(_) => 2
  }

  // ---- the code between two suspension points ----

  /** Every buffer being filled is of its stage's length. */
  predicate Sized(l: Local) {
    l.io.Reading? ==> Fits(l.io.stage, l.io.want) && |l.io.got| < l.io.want
  }

  function Say(l: Local, data: bytes, next: Sequel): Local {
    l.(io := Writing(data, next))
  }

  /** Starts a `read_exact`; an empty buffer is full at once. */
  function Await(l: Local, stage: Stage, want: nat): (r: Local)
    requires Fits(stage, want)
    ensures Sized(r)
    decreases Rank(stage), 1
  {
    if want == 0 then Resume(l, stage, []) else l.(io := Reading(stage, want, []))
  }

  /** What runs when the `read_exact` of `stage` has filled `buf`. */
  function Resume(l: Local, stage: Stage, buf: bytes): (r: Local)
    requires Fits(stage, |buf|)
    ensures Sized(r)
    decreases Rank(stage), 0
  {
    match stage
    case ReadGreeting =>
      if buf[0] != SOCKS5 then l.(io := Done(Unconnected)) else Await(l, ReadMethods, buf[1])
    case ReadMethods =>
      if METHOD_USERPASS in buf then Say(l, [SOCKS5, METHOD_USERPASS], ToAuth)
      else if METHOD_NOAUTH in buf then Say(l, [SOCKS5, METHOD_NOAUTH], ToRequest)
      else Say(l, [SOCKS5, METHOD_NONE], ToError)
    case ReadAuthVersion =>
      if buf[0] != AUTH_USERPASS_VER then l.(io := Done(Unconnected)) else Await(l, ReadUserLength, 1)
    case ReadUserLength =>
      Await(l, ReadUser, buf[0])
    case ReadUser =>
      Await(l, ReadPasswordLength(buf), 1)
    case ReadPasswordLength(uname) =>
      Await(l, ReadPassword(uname), buf[0])
    case ReadPassword(uname) =>
      (match Utf8.Decode(uname)
       case None => l.(io := Done(Unconnected))
       case Some(name) => Say(l.(user := Some(name)), [AUTH_USERPASS_VER, REP_SUCCESS], ToRequest))
    case ReadRequest =>
      if buf[0] != SOCKS5 then l.(io := Done(Unconnected))
      else if buf[1] != CMD_CONNECT then Say(l, Reply(REP_CMD_NOT_SUPPORTED), ToError)
      else if buf[3] == ATYP_IPV4 then Await(l, ReadIpv4, 4)
      else if buf[3] == ATYP_IPV6 then Await(l, ReadIpv6, 16)
      else if buf[3] == ATYP_DOMAIN then Await(l, ReadNameLength, 1)
      else Say(l, Reply(REP_ATYP_NOT_SUPPORTED), ToError)
    case ReadIpv4 =>
      Await(l, ReadPort(Ipv4Text(buf)), 2)
    case ReadIpv6 =>
      Await(l, ReadPort(Ipv6Text(buf)), 2)
    case ReadNameLength =>
      Await(l, ReadName, buf[0])
    case ReadName =>
      (match Utf8.Decode(buf)
       case None => Say(l, Reply(REP_ATYP_NOT_SUPPORTED), ToError)
       case Some(host) => Await(l, ReadPort(host), 2))
    case ReadPort(host) =>
      l.(dest := Some(Dest(host, BigEndian(buf[0], buf[1]))), io := Connecting)
  }

  /** Records a delivery under the message it belongs to. */
  function Record(l: Local, stage: Stage, chunk: bytes): Local {
    match stage
    case ReadGreeting | ReadMethods => l.(hello := l.hello + chunk)
    case ReadRequest => l.(head := l.head + chunk)
    case ReadIpv4 | ReadIpv6 | ReadNameLength | ReadName | ReadPort(_) => l.(tail := l.tail + chunk)
    case _ => l.(auth := l.auth + chunk)
  }

  function Written(l: Local, next: Sequel): Local {
    match next
    case ToAuth => Await(l, ReadAuthVersion, 1)
    case ToRequest => Await(l, ReadRequest, 4)
    case ToError => l.(io := Done(if l.tor.Some? then TorFailed else Unconnected))
    case ToSplice => l.(io := Splicing)
  }

  /** How a handler that goes while suspended at `l.io` is remembered. */
  function FateOf(l: Local): Fate {
    match l.io
    case Done(fate) => fate
    case Splicing => Proxied
    case Connecting => Abandoned
    case Writing(_, ToSplice) => Abandoned
    case _ => if l.tor.Some? then TorFailed else Unconnected
  }

  // ---- one step of one handler ----

  predicate Enabled(l: Local, e: Event) {
    match e
    case Deliver(chunk) => l.io.Reading? && 1 <= |chunk| <= l.io.want - |l.io.got|
    case Hangup => l.io.Reading?
    case Accept(n) => l.io.Writing? && 1 <= n <= |l.io.left|
    case Jam => l.io.Writing?
    case TorUp | TorDown => l.io.Connecting?
    case PayloadUp(_) | PayloadDown(_) | Finish => l.io.Splicing?
    case Drop => !l.io.Done?
  }

  function Step(l: Local, e: Event): (r: Local)
    requires Sized(l) && Enabled(l, e)
    ensures Sized(r)
  {
    match e
    case Deliver(chunk) =>
      var Reading(stage, want, got) := l.io;
      var l' := Record(l, stage, chunk);
      if |got + chunk| == want then Resume(l', stage, got + chunk)
      else l'.(io := Reading(stage, want, got + chunk))
    case Hangup =>
      var l' := l.(hung := true);
      if InTarget(l.io.stage) then Say(l', Reply(REP_ATYP_NOT_SUPPORTED), ToError)
      else l'.(io := Done(Unconnected))
    case Accept(n) =>
      var Writing(left, next) := l.io;
      var l' := l.(tx := l.tx + left[..n]);
      if n == |left| then Written(l', next) else l'.(io := Writing(left[n..], next))
    case TorUp => Say(l.(tor := Some(true)), Reply(REP_SUCCESS), ToSplice)
    case TorDown => Say(l.(tor := Some(false)), Reply(REP_GENERAL_FAILURE), ToError)
    case PayloadUp(data) => l.(up := l.up + data)
    case PayloadDown(data) => l.(down := l.down + data)
    case Jam | Finish | Drop => l.(io := Done(FateOf(l)))
  }

  // ---- runs of one handler ----

  /** The state after those of `es` that can happen, in order. */
  function Run(es: seq<Event>): (r: Local)
    ensures Sized(r)
  {
    if es == [] then FRESH
    else
      var l := Run(es[..|es| - 1]);
      if Enabled(l, es[|es| - 1]) then Step(l, es[|es| - 1]) else l
  }

  /** Whether all of `es` can happen to a new handler, in order. */
  predicate CanRun(es: seq<Event>) {
    es == [] ||
    (CanRun(es[..|es| - 1]) && Enabled(Run(es[..|es| - 1]), es[|es| - 1]))
  }
}
