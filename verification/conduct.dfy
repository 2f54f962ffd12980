/** What a handler can and cannot do in any run: theorems that follow from its
    refinement of the one-shot reader. */
module Conduct {
  import opened Common
  import opened Wire
  import opened Handler
  import opened Fidelity

  // ---- chunks ----

  /** Chunking independence: a handler of a client that sends `s` decides, once
      it has stopped reading unhurt, what the one-shot reader decides on all of
      `s`, and has taken none of the bytes pipelined behind the decision; while
      it reads on, that decision is still ahead. Its destination and username are
      those of that decision. */
  lemma ChunkingIndependence(es: seq<Event>, s: bytes)
    requires Run(es).Rx() <= s
    ensures var l := Run(es);
            && (!Session(l.Rx()).end.Starved? ==> Session(l.Rx()) == Session(s) && |l.Rx()| == Session(s).used)
            && (Session(l.Rx()).end.Starved? && !Session(s).end.Starved? ==> |l.Rx()| < Session(s).used)
            && (l.dest.Some? ==> Session(s).end == Connect(l.user, l.dest.value) && |l.Rx()| == Session(s).used)
            && (Session(s).end.Connect? && |l.Rx()| >= Session(s).used ==> l.dest.Some?)
  {
    hide Run, Session;
    var l := Run(es);
    HandlerRefinesReader(es);
    var n := |l.Rx()|;
    assert s == l.Rx() + s[n..];
    if !Session(l.Rx()).end.Starved? {
      SessionStable(l.Rx(), s[n..]);
    } else if !Session(s).end.Starved? && Session(s).used <= n {
      SessionPrefix(s);
      var k := Session(s).used;
      assert l.Rx() == s[..k] + l.Rx()[k..];
      SessionStable(s[..k], l.Rx()[k..]);
      assert false;
    }
  }

  /** A handler that lives and has no write under way. */
  predicate SaidAll(l: Local) {
    !l.io.Writing? && !l.io.Done?
  }

  /** Two handlers that have read the same bytes, however cut, stand alike:
      same destination, same user, and same answers once both have written
      what they had to. */
  lemma SameBytesSameDecision(es: seq<Event>, fs: seq<Event>)
    requires Run(es).Rx() == Run(fs).Rx()
    ensures var l, k := Run(es), Run(fs);
            && l.dest == k.dest
            && (l.dest.Some? ==> l.user == k.user)
            && (SaidAll(l) && SaidAll(k) && l.hung == k.hung && l.tor == k.tor ==> l.tx == k.tx)
  {
    hide Run, Session, Transcript;
    HandlerRefinesReader(es);
    HandlerRefinesReader(fs);
  }

  // ---- transcripts ----

  /** Legal transcripts and failing closed: what a handler has written begins
      one of the finitely many legal transcripts; it has claimed success only
      if Tor accepted; it has relayed payload only if the claim was written in
      full. */
  lemma FailsClosed(es: seq<Event>)
    ensures var l := Run(es);
            && (exists t :: IsLegal(t) && l.tx <= t)
            && (ReplyCode(l.tx) == Some(REP_SUCCESS) ==> l.tor == Some(true))
            && (l.up + l.down != [] ==> IsLegal(l.tx) && ReplyCode(l.tx) == Some(REP_SUCCESS))
  {
    var l := Run(es);
    var t := Transcript(l.Rx(), l.hung, l.tor);
    HandlerRefinesReader(es);
    TranscriptsLegal(l.Rx(), l.hung, l.tor);
    assert IsLegal(t) && l.tx <= t;
    if ReplyCode(l.tx).Some? {
      assert ReplyCode(t) == ReplyCode(l.tx);
    }
  }

  /** A handshake reads at most 1032 bytes of its client and writes at most 14,
      or 12 when no username was asked for. */
  lemma HandshakeBounds(es: seq<Event>)
    ensures var l := Run(es);
            && |l.Rx()| <= 1032
            && |l.tx| <= 14
            && (|l.tx| > 12 ==> l.tx[1] == METHOD_USERPASS)
  {
    var l := Run(es);
    HandlerRefinesReader(es);
    SessionBounds(l.Rx());
    var w, r := SessionSays(l.Rx());
  }

  // ---- termination ----

  /** Bytes that may still be read once a `read_exact` is complete. */
  function ReadAfter(stage: Stage): nat {
    match stage
    case ReadGreeting => 1030
    case ReadMethods => 775
    case ReadAuthVersion => 774
    case ReadUserLength => 773
    case ReadUser => 518
    case ReadPasswordLength(_) => 517
    case ReadPassword(_) => 262
    case ReadRequest => 258
    case ReadIpv4 | ReadIpv6 | ReadName => 2
    case ReadNameLength => 257
    case ReadPort(_) => 0
  }

  /** Bytes that may still be written from then on. */
  function WriteAfter(stage: Stage): nat {
    match stage
    case ReadGreeting | ReadMethods => 14
    case ReadAuthVersion | ReadUserLength | ReadUser | ReadPasswordLength(_) | ReadPassword(_) => 12
    case _ => 10
  }

  /** A bound on the events that are left to a handler before and apart from
      the polls of its splice. */
  function Fuel(l: Local): nat
    requires Sized(l)
  {
    match l.io
    case Reading(stage, want, got) => want - |got| + ReadAfter(stage) + WriteAfter(stage) + 3
    case Writing(left, ToAuth) => |left| + 790
    case Writing(left, ToRequest) => |left| + 275
    case Writing(left, ToError) => |left| + 1
    case Writing(left, ToSplice) => |left| + 1
    case Connecting => 12
    case Splicing => 1
    case Done(_) => 0
  }

  lemma AwaitSpends(l: Local, stage: Stage, want: nat)
    requires Fits(stage, want) && (stage.ReadMethods? || stage.ReadUser? || stage.ReadPassword? || stage.ReadName? ==> want < 256)
    ensures Fuel(Await(l, stage, want)) <= want + ReadAfter(stage) + WriteAfter(stage) + 3
    decreases Rank(stage), 1
  {
    if want == 0 {
      ResumeSpends(l, stage, []);
    }
  }

  lemma ResumeSpends(l: Local, stage: Stage, buf: bytes)
    requires Fits(stage, |buf|) && (stage.ReadUser? ==> |buf| < 256)
    ensures Fuel(Resume(l, stage, buf)) <= ReadAfter(stage) + WriteAfter(stage) + 3
    decreases Rank(stage), 0
  {
    match stage {
      case ReadGreeting => if buf[0] == SOCKS5 { AwaitSpends(l, ReadMethods, buf[1]); }
      case ReadUserLength => AwaitSpends(l, ReadUser, buf[0]);
      case ReadUser => AwaitSpends(l, ReadPasswordLength(buf), 1);
      case ReadPasswordLength(uname) => AwaitSpends(l, ReadPassword(uname), buf[0]);
      case ReadNameLength => AwaitSpends(l, ReadName, buf[0]);
      case _ =>
    }
  }

  lemma DeliverSpends(l: Local, chunk: bytes)
    requires Inv(l) && Enabled(l, Deliver(chunk))
    ensures Fuel(Step(l, Deliver(chunk))) < Fuel(l)
  {
    var Reading(stage, want, got) := l.io;
    assert stage.ReadUser? ==> want < 256;
    hide Inv, Resume;
    if |got + chunk| == want {
      ResumeSpends(Record(l, stage, chunk), stage, got + chunk);
    }
  }

  lemma WrittenSpends(l: Local, next: Sequel)
    ensures Fuel(Written(l, next)) <= (match next case ToAuth => 790 case ToRequest => 275 case ToError => 0 case ToSplice => 1)
  {}

  lemma AcceptSpends(l: Local, n: nat)
    requires Sized(l) && Enabled(l, Accept(n))
    ensures Fuel(Step(l, Accept(n))) < Fuel(l)
  {
    hide Written;
    var Writing(left, next) := l.io;
    WrittenSpends(l.(tx := l.tx + left[..n]), next);
  }

  lemma OtherSpends(l: Local, e: Event)
    requires Sized(l) && Enabled(l, e)
    requires e.Hangup? || e.TorUp? || e.TorDown? || e.Jam? || e.Finish? || e.Drop?
    ensures Fuel(Step(l, e)) < Fuel(l)
  {}

  /** Every event but a poll of the splice brings a handler nearer its end. */
  lemma StepSpends(l: Local, e: Event)
    requires Inv(l) && Enabled(l, e) && !e.PayloadUp? && !e.PayloadDown?
    ensures Fuel(Step(l, e)) < Fuel(l)
  {
    assert Sized(l);
    hide Inv, Sized, Step, Fuel;
    match e {
      case Deliver(chunk) => DeliverSpends(l, chunk);
      case Accept(n) => AcceptSpends(l, n);
      case _ => OtherSpends(l, e);
    }
  }

  /** Events other than polls of the splice. */
  function Busy(es: seq<Event>): nat {
    if es == [] then 0
    else
      var e := es[|es| - 1];
      Busy(es[..|es| - 1]) + if e.PayloadUp? || e.PayloadDown? then 0 else 1
  }

  /** A handler undergoes at most 1049 events other than polls of its splice,
      whatever it relays, and the fewer the further it has come. */
  lemma {:induction false} HandshakeEnds(es: seq<Event>)
    requires CanRun(es)
    ensures Busy(es) + Fuel(Run(es)) <= 1049
  {
    if es != [] {
      var fs, e := es[..|es| - 1], es[|es| - 1];
      HandshakeEnds(fs);
      RunKeeps(fs);
      if e.PayloadUp? || e.PayloadDown? {
        assert Run(es).io.Splicing? && Run(fs).io.Splicing?;
      } else {
        StepSpends(Run(fs), e);
      }
    }
  }
}
