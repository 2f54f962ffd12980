/** The client's bytes over a whole run: none is lost, none overtakes another,
    and what is pipelined behind the handshake becomes payload. */
module Splice {
  import opened Common
  import opened Wire
  import opened Handler
  import opened Fidelity

  function BytesIn(e: Event): bytes {
    match e
    case Deliver(chunk) => chunk
    case PayloadUp(data) => data
    case _ => []
  }

  function BytesOut(l: Local, e: Event): bytes
    requires Enabled(l, e)
  {
    match e
    case Accept(n) => l.io.left[..n]
    case PayloadDown(data) => data
    case _ => []
  }

  /** Everything read from the client, in the order it came. */
  function Received(es: seq<Event>): bytes {
    if es == [] then []
    else
      var before, e := es[..|es| - 1], es[|es| - 1];
      Received(before) + if Enabled(Run(before), e) then BytesIn(e) else []
  }

  /** Everything the client took, in the order it was written. */
  function Sent(es: seq<Event>): bytes {
    if es == [] then []
    else
      var before, e := es[..|es| - 1], es[|es| - 1];
      Sent(before) + if Enabled(Run(before), e) then BytesOut(Run(before), e) else []
  }

  // ---- one step ----

  /** The code between two suspension points touches none of the records. */
  lemma ResumeRecords(l: Local, stage: Stage, buf: bytes)
    requires Fits(stage, |buf|)
    ensures var r := Resume(l, stage, buf); r == l.(io := r.io, user := r.user, dest := r.dest)
    decreases Rank(stage), 0
  {
    match stage {
      case ReadGreeting => if buf[0] == SOCKS5 { AwaitRecords(l, ReadMethods, buf[1]); }
      case ReadUserLength => AwaitRecords(l, ReadUser, buf[0]);
      case ReadPasswordLength(uname) => AwaitRecords(l, ReadPassword(uname), buf[0]);
      case ReadNameLength => AwaitRecords(l, ReadName, buf[0]);
      case _ =>
    }
  }

  lemma AwaitRecords(l: Local, stage: Stage, want: nat)
    requires Fits(stage, want)
    ensures var r := Await(l, stage, want); r == l.(io := r.io, user := r.user, dest := r.dest)
    decreases Rank(stage), 1
  {
    if want == 0 { ResumeRecords(l, stage, []); }
  }

  lemma RecordAppends(l: Local, stage: Stage, want: nat, got: bytes, chunk: bytes)
    requires At(l, stage, want, got)
    ensures var r := Record(l, stage, chunk);
            r.Rx() == l.Rx() + chunk && r.tx == l.tx && r.up == l.up && r.down == l.down
  {
    hide Greeting, Userpass, Host;
  }

  /** `e` adds what it brings to one record of `l`, and nothing to the others. */
  predicate Appends(l: Local, e: Event, r: Local)
    requires Enabled(l, e)
  {
    && r.Rx() + r.up == l.Rx() + l.up + BytesIn(e)
    && r.tx + r.down == l.tx + l.down + BytesOut(l, e)
  }

  lemma DeliverAppends(l: Local, chunk: bytes)
    requires Inv(l) && Enabled(l, Deliver(chunk))
    ensures Appends(l, Deliver(chunk), Step(l, Deliver(chunk)))
  {
    var Reading(stage, want, got) := l.io;
    assert l.up == l.down == [];
    RecordAppends(l, stage, want, got, chunk);
    hide At, Inv;
    var k := Record(l, stage, chunk);
    assert l.Rx() + [] == l.Rx() && k.Rx() + [] == k.Rx() && l.tx + [] + [] == l.tx + [];
    if |got + chunk| == want {
      ResumeRecords(k, stage, got + chunk);
    }
  }

  lemma AcceptAppends(l: Local, n: nat)
    requires Inv(l) && Enabled(l, Accept(n))
    ensures Appends(l, Accept(n), Step(l, Accept(n)))
  {
    assert l.up == l.down == [];
    hide Inv, At;
    var Writing(left, next) := l.io;
    var k := l.(tx := l.tx + left[..n]);
    assert l.tx + [] == l.tx && k.tx + [] == k.tx && l.Rx() + [] + [] == l.Rx() + [];
    if next == ToAuth { AwaitRecords(k, ReadAuthVersion, 1); }
    if next == ToRequest { AwaitRecords(k, ReadRequest, 4); }
  }

  lemma PayloadAppends(l: Local, e: Event)
    requires Sized(l) && Enabled(l, e) && (e.PayloadUp? || e.PayloadDown?)
    ensures Appends(l, e, Step(l, e))
  {
    var r := Step(l, e);
    assert r.Rx() == l.Rx();
    assert l.Rx() + l.up + BytesIn(e) == l.Rx() + (l.up + BytesIn(e));
    assert l.tx + l.down + BytesOut(l, e) == l.tx + (l.down + BytesOut(l, e));
  }

  lemma OtherAppends(l: Local, e: Event)
    requires Sized(l) && Enabled(l, e)
    requires !e.Deliver? && !e.Accept? && !e.PayloadUp? && !e.PayloadDown?
    ensures Appends(l, e, Step(l, e))
  {
    var r := Step(l, e);
    assert r.Rx() == l.Rx() && r.tx == l.tx && r.up == l.up && r.down == l.down;
    assert l.Rx() + l.up + [] == l.Rx() + l.up && l.tx + l.down + [] == l.tx + l.down;
  }

  lemma StepAppends(l: Local, e: Event)
    requires Inv(l) && Enabled(l, e)
    ensures Appends(l, e, Step(l, e))
  {
    assert Sized(l);
    hide Inv, Step, Sized, Appends;
    match e {
      case Deliver(chunk) => DeliverAppends(l, chunk);
      case Accept(n) => AcceptAppends(l, n);
      case PayloadUp(_) | PayloadDown(_) => PayloadAppends(l, e);
      case _ => OtherAppends(l, e);
    }
  }

  // ---- whole runs ----

  lemma {:induction false} RunAppends(es: seq<Event>)
    ensures Received(es) == Run(es).Rx() + Run(es).up
    ensures Sent(es) == Run(es).tx + Run(es).down
  {
    if es != [] {
      var before, e := es[..|es| - 1], es[|es| - 1];
      RunAppends(before);
      RunKeeps(before);
      if Enabled(Run(before), e) {
        StepAppends(Run(before), e);
        hide Inv, Step;
      }
    }
  }

  /** Pipelining, over all runs: of the bytes a client sent, in order, those up
      to its CONNECT are the handshake and all the others the payload; what it
      was sent is the transcript, or a part of it, and behind all of it the
      payload coming back. This is what `Server.SocksServer.Handle` promises of
      a client served alone, here of every handler at every moment. */
  lemma PayloadFollowsHandshake(es: seq<Event>)
    ensures var l := Run(es);
            var s := Received(es);
            && Sent(es) == l.tx + l.down
            && (l.dest.None? ==> !Session(s).end.Connect? && l.up == l.down == [])
            && (l.dest.Some? ==>
                && Session(s).end == Connect(l.user, l.dest.value)
                && Session(s).used <= |s| && l.up == s[Session(s).used..]
                && l.tx <= Transcript(s, true, l.tor)
                && (l.up + l.down != [] ==> Sent(es) == Transcript(s, true, Some(true)) + l.down))
  {
    var l := Run(es);
    RunAppends(es);
    HandlerRefinesReader(es);
    hide Run, Received, Sent;
    var s := l.Rx() + l.up;
    if l.dest.Some? {
      SessionStable(l.Rx(), l.up);
      assert s[|l.Rx()|..] == l.up;
    } else {
      assert s == l.Rx() + [];
      assert l.Rx() + [] == l.Rx();
    }
  }

  /** What goes beyond the first `n` of `m`. */
  function Beyond(m: nat, n: nat): nat {
    if m <= n then 0 else m - n
  }

  /** How much payload that is, each way. */
  lemma PayloadSizes(es: seq<Event>)
    requires Run(es).dest.Some?
    ensures var l := Run(es);
            var d := Session(Received(es));
            var said := |Transcript(Received(es), true, l.tor)|;
            && d.end.Connect?
            && |l.up| == Beyond(|Received(es)|, d.used)
            && |l.down| == Beyond(|Sent(es)|, said)
  {
    PayloadFollowsHandshake(es);
    HandlerRefinesReader(es);
    hide Run, Session, Transcript, Received, Sent;
    assert |Run(es).up + Run(es).down| == |Run(es).up| + |Run(es).down|;
  }
}
