/** A client served alone: the run of the machine that it leads to, whatever it
    sends, however much it takes, and whatever Tor answers. */
module Solo {
  import opened Common
  import opened Wire
  import opened Handler
  import opened Fidelity
  import opened Splice
  import opened Metering
  import Accounting
  import Conduct

  /** A run so far, what the client has yet to send, and what it will still take. */
  datatype Progress = Progress(es: seq<Event>, rest: bytes, room: nat)

  ghost predicate Follows(s: bytes, room: nat, torUp: bool, p: Progress) {
    && CanRun(p.es)
    && var l := Run(p.es);
    && l.Rx() + p.rest == s && |l.tx| + p.room == room
    && (l.hung ==> p.rest == [])
    && (l.tor.Some? ==> l.tor == Some(torUp))
    && (l.dest.Some? ==> |Session(l.Rx()).sent| <= |l.tx|)
    && l.up == l.down == []
  }

  predicate OnItsWay(l: Local) {
    !l.io.Done? && !l.io.Splicing?
  }

  /** The most that can happen next. */
  function Choice(l: Local, p: Progress, torUp: bool): (e: Event)
    requires Sized(l) && OnItsWay(l) && (l.io.Writing? ==> l.io.left != [])
    ensures Enabled(l, e)
  {
    match l.io
    case Reading(_, want, got) =>
      if p.rest == [] then Hangup else Deliver(p.rest[..Min(|p.rest|, want - |got|)])
    case Writing(left, _) =>
      if p.room == 0 then Jam else Accept(Min(|left|, p.room))
    case Connecting => if torUp then TorUp else TorDown
  }

  function Advance(l: Local, p: Progress, e: Event): Progress {
    Progress(p.es + [e],
             match e case Deliver(c) => if |c| <= |p.rest| then p.rest[|c|..] else [] case _ => p.rest,
             match e case Accept(n) => if n <= p.room then p.room - n else 0 case _ => p.room)
  }

  // ---- one step ----

  /** Gone after having relayed. */
  predicate Relayed(l: Local) {
    l.io.Done? && l.io.fate.Proxied?
  }

  lemma ResumeNotRelayed(l: Local, stage: Stage, buf: bytes)
    requires Fits(stage, |buf|)
    ensures !Relayed(Resume(l, stage, buf))
    decreases Rank(stage), 0
  {
    match stage {
      case ReadGreeting => if buf[0] == SOCKS5 { AwaitNotRelayed(l, ReadMethods, buf[1]); }
      case ReadUserLength => AwaitNotRelayed(l, ReadUser, buf[0]);
      case ReadPasswordLength(uname) => AwaitNotRelayed(l, ReadPassword(uname), buf[0]);
      case ReadNameLength => AwaitNotRelayed(l, ReadName, buf[0]);
      case _ =>
    }
  }

  lemma AwaitNotRelayed(l: Local, stage: Stage, want: nat)
    requires Fits(stage, want)
    ensures !Relayed(Await(l, stage, want))
    decreases Rank(stage), 1
  {
    if want == 0 { ResumeNotRelayed(l, stage, []); }
  }

  /** What an event before the splice leaves as it is. */
  lemma StepLeaves(l: Local, e: Event)
    requires Inv(l) && Enabled(l, e) && OnItsWay(l)
    ensures var r := Step(l, e);
            && r.up == l.up && r.down == l.down
            && (r.hung == (l.hung || e.Hangup?))
            && (r.tor == if e.TorUp? then Some(true) else if e.TorDown? then Some(false) else l.tor)
            && (!e.Deliver? ==> r.dest == l.dest && r.Rx() == l.Rx())
            && (!e.Accept? ==> r.tx == l.tx)
            && !Relayed(r)
  {
    match e {
      case Deliver(chunk) =>
        var Reading(stage, want, got) := l.io;
        hide Inv, At;
        var k := Record(l, stage, chunk);
        assert k.hung == l.hung && k.tor == l.tor && k.tx == l.tx;
        if |got + chunk| == want {
          ResumeRecords(k, stage, got + chunk);
          ResumeNotRelayed(k, stage, got + chunk);
        }
      case Accept(n) =>
        var Writing(left, next) := l.io;
        hide Inv, At;
        var k := l.(tx := l.tx + left[..n]);
        if next == ToAuth { AwaitKeepsDest(k, ReadAuthVersion, 1); }
        if next == ToRequest { AwaitKeepsDest(k, ReadRequest, 4); }
      case _ => hide Inv, At;
    }
  }

  lemma AwaitKeepsDest(l: Local, stage: Stage, want: nat)
    requires Fits(stage, want) && want > 0
    ensures Await(l, stage, want) == l.(io := Reading(stage, want, []))
  {}

  lemma CanRunMore(es: seq<Event>, e: Event)
    requires CanRun(es) && Enabled(Run(es), e)
    ensures CanRun(es + [e]) && Run(es + [e]) == Step(Run(es), e)
  {
    assert (es + [e])[..|es|] == es;
  }

  /** At the wait for Tor, all that the CONNECT calls for has been said. */
  lemma AskedAfterSaying(es: seq<Event>, e: Event)
    requires CanRun(es + [e]) && Run(es).dest.None?
    requires Run(es + [e]).dest.Some?
    ensures |Session(Run(es + [e]).Rx()).sent| <= |Run(es + [e]).tx|
  {
    assert (es + [e])[..|es|] == es;
    Accounting.RunFated(es);
    Accounting.StepFated(Run(es), e);
    HandlerRefinesReader(es + [e]);
  }

  /** The invariant holds on. */
  lemma AdvanceFollows(s: bytes, room: nat, torUp: bool, p: Progress) returns (q: Progress)
    requires Follows(s, room, torUp, p) && OnItsWay(Run(p.es))
    ensures Inv(Run(p.es))
    ensures var e := Choice(Run(p.es), p, torUp);
            && q == Advance(Run(p.es), p, e)
            && Run(q.es) == Step(Run(p.es), e) && !e.PayloadUp? && !e.PayloadDown?
    ensures Follows(s, room, torUp, q)
    ensures Conduct.Fuel(Run(q.es)) < Conduct.Fuel(Run(p.es))
  {
    var l := Run(p.es);
    RunKeeps(p.es);
    assert l.io.Writing? ==> l.io.left != [];
    var e := Choice(l, p, torUp);
    q := Advance(l, p, e);
    CanRunMore(p.es, e);
    StepAppends(l, e);
    StepLeaves(l, e);
    Conduct.StepSpends(l, e);
    if l.dest.None? && Run(q.es).dest.Some? {
      AskedAfterSaying(p.es, e);
    }
    FollowsOn(s, room, torUp, p, e, q);
  }

  /** No byte of the client is skipped, and none is written that it does not take. */
  lemma NothingSkipped(l: Local, r: Local, p: Progress, torUp: bool)
    requires Sized(l) && OnItsWay(l) && (l.io.Writing? ==> l.io.left != [])
    requires l.up == l.down == r.up == r.down == [] && Appends(l, Choice(l, p, torUp), r)
    ensures var q := Advance(l, p, Choice(l, p, torUp));
            r.Rx() + q.rest == l.Rx() + p.rest && |r.tx| + q.room == |l.tx| + p.room
  {
    var e := Choice(l, p, torUp);
    var q := Advance(l, p, e);
    assert r.Rx() == l.Rx() + BytesIn(e) && r.tx == l.tx + BytesOut(l, e) by {
      assert r.Rx() + [] == r.Rx() && l.Rx() + [] == l.Rx() && r.tx + [] == r.tx && l.tx + [] == l.tx;
    }
    var rx, tx := l.Rx(), l.tx;
    hide Appends;
    assert p.rest == BytesIn(e) + q.rest;
    Rejoined(rx, BytesIn(e), q.rest);
  }

  lemma Rejoined(a: bytes, b: bytes, c: bytes)
    ensures a + (b + c) == a + b + c
  {}

  lemma FollowsOn(s: bytes, room: nat, torUp: bool, p: Progress, e: Event, q: Progress)
    requires Follows(s, room, torUp, p) && OnItsWay(Run(p.es)) && Inv(Run(p.es))
    requires Run(p.es).io.Writing? ==> Run(p.es).io.left != []
    requires e == Choice(Run(p.es), p, torUp) && q == Advance(Run(p.es), p, e)
    requires CanRun(q.es) && Run(q.es) == Step(Run(p.es), e)
    requires Appends(Run(p.es), e, Run(q.es))
    requires var l, r := Run(p.es), Run(q.es);
             && r.up == l.up && r.down == l.down
             && (r.hung == (l.hung || e.Hangup?))
             && (r.tor == if e.TorUp? then Some(true) else if e.TorDown? then Some(false) else l.tor)
             && (!e.Deliver? ==> r.dest == l.dest && r.Rx() == l.Rx())
             && (!e.Accept? ==> r.tx == l.tx)
    requires Run(p.es).dest.None? && Run(q.es).dest.Some? ==> |Session(Run(q.es).Rx()).sent| <= |Run(q.es).tx|
    ensures Follows(s, room, torUp, q)
  {
    var l, r := Run(p.es), Run(q.es);
    assert l.io.Reading? ==> l.dest.None? && !l.hung;
    NothingSkipped(l, r, p, torUp);
    assert r.hung ==> q.rest == [];
    assert l.dest.Some? && e.Accept? ==> |r.tx| >= |l.tx| by {
      if e.Accept? { assert r.tx + [] == l.tx + [] + BytesOut(l, e); }
    }
    hide Run, Step, CanRun, Inv, Session, Appends;
  }

  // ---- where it ends ----

  /** The handler has asked Tor if it should, and has said what it should, as far
      as the client took it; it goes on only if that is all. */
  ghost predicate Finished(s: bytes, room: nat, torUp: bool, l: Local) {
    && l.tx == Cut(Heard(s, room, torUp), room)
    && (l.dest.Some? <==> Connects(s, room))
    && (l.dest.Some? ==> Session(s).end == Connect(l.user, l.dest.value))
    && (l.io.Splicing? <==> Succeeds(s, room, torUp))
    && (l.tor == if l.dest.Some? then Some(torUp) else None)
    && !Relayed(l)
  }

  /** It ends with everything said. */
  lemma FinishTold(s: bytes, room: nat, torUp: bool, l: Local)
    requires l.Rx() <= s && |l.tx| <= room
    requires l.tx == Transcript(l.Rx(), l.hung, l.tor)
    requires if l.hung then l.Rx() == s else !Session(l.Rx()).end.Starved?
    requires if l.dest.Some? then Session(l.Rx()).end == Connect(l.user, l.dest.value)
             else !Session(l.Rx()).end.Connect?
    requires l.dest.Some? ==> |Session(l.Rx()).sent| <= |l.tx|
    requires l.tor == if l.dest.Some? then Some(torUp) else None
    requires (l.io.Splicing? <==> l.tor == Some(true) && l.dest.Some?) && !Relayed(l)
    ensures Finished(s, room, torUp, l)
  {
    var rest := s[|l.Rx()|..];
    assert s == l.Rx() + rest;
    if !l.hung { SessionStable(l.Rx(), rest); }
    hide Session;
  }

  /** It ends because the client takes no more. */
  lemma FinishJammed(s: bytes, room: nat, torUp: bool, l: Local, left: bytes)
    requires l.Rx() <= s && |l.tx| == room && left != []
    requires l.tx + left == Transcript(l.Rx(), l.hung, l.tor)
    requires l.hung ==> l.Rx() == s
    requires if l.dest.Some? then Session(l.Rx()).end == Connect(l.user, l.dest.value)
             else !Session(l.Rx()).end.Connect?
    requires l.dest.Some? ==> |Session(l.Rx()).sent| <= |l.tx|
    requires l.tor.Some? ==> l.tor == Some(torUp) && l.dest.Some?
    requires !l.io.Splicing? && !Relayed(l)
    ensures Finished(s, room, torUp, l)
  {
    var all := l.tx + left;
    var rest := s[|l.Rx()|..];
    assert s == l.Rx() + rest;
    assert |all| > room && all[..room] == l.tx;
    if l.dest.Some? {
      SessionStable(l.Rx(), rest);
      hide Session;
      assert l.tor.Some?;
      assert Connects(s, room) && Heard(s, room, torUp) == all;
    } else if l.hung {
      hide Session;
      assert !Connects(s, room) && Heard(s, room, torUp) == all;
    } else {
      SentGrows(l.Rx(), rest);
      hide Session;
      assert all == Session(l.Rx()).sent;
      assert all <= Session(s).sent;
      assert !Connects(s, room) && all <= Heard(s, room, torUp);
    }
  }

  lemma DeliverRefuses(l: Local, chunk: bytes)
    requires Inv(l) && Enabled(l, Deliver(chunk)) && Step(l, Deliver(chunk)).io.Done?
    ensures Refuses(Step(l, Deliver(chunk))) && !l.hung
  {
    var Reading(stage, want, got) := l.io;
    RecordKeeps(l, stage, want, got, chunk);
    hide At, Refuses, Resume;
    ResumeRefuses(Record(l, stage, chunk), stage, got + chunk);
  }

  /** The step that ends it, case by case. */
  lemma LastDeliver(s: bytes, room: nat, torUp: bool, p: Progress, q: Progress)
    requires Follows(s, room, torUp, q) && Refuses(Run(q.es)) && !Run(q.es).hung && Run(q.es).io.Done?
    requires !Relayed(Run(q.es))
    ensures Finished(s, room, torUp, Run(q.es))
  {
    var r := Run(q.es);
    HandlerRefinesReader(q.es);
    hide Run, Session, Inv, CanRun;
    assert r.tx + [] == r.tx;
    FinishTold(s, room, torUp, r);
  }

  lemma LastHangup(s: bytes, room: nat, torUp: bool, p: Progress, q: Progress)
    requires Follows(s, room, torUp, p) && Follows(s, room, torUp, q)
    requires Run(p.es).io.Reading? && !InTarget(Run(p.es).io.stage) && p.rest == []
    requires var l, r := Run(p.es), Run(q.es);
             r.Rx() == l.Rx() && r.tx == l.tx && r.hung && r.tor == l.tor && r.dest == l.dest && r.io.Done? && !Relayed(r)
    ensures Finished(s, room, torUp, Run(q.es))
  {
    HandlerRefinesReader(p.es);
    HandlerRefinesReader(q.es);
    hide Run, Session, CanRun;
    var r := Run(q.es);
    assert r.tx + [] == r.tx && r.Rx() + [] == r.Rx();
    FinishTold(s, room, torUp, r);
  }

  lemma LastAccept(s: bytes, room: nat, torUp: bool, p: Progress, q: Progress)
    requires Follows(s, room, torUp, p) && Follows(s, room, torUp, q) && Inv(Run(p.es)) && Inv(Run(q.es))
    requires Run(p.es).io.Writing? && !OnItsWay(Run(q.es))
    requires var l, r := Run(p.es), Run(q.es);
             && r.Rx() == l.Rx() && r.tx == l.tx + l.io.left
             && r.hung == l.hung && r.tor == l.tor && r.dest == l.dest
             && (if r.io.Splicing? then l.io.next == ToSplice else l.io.next == ToError) && !Relayed(r)
    ensures Finished(s, room, torUp, Run(q.es))
  {
    var l, r := Run(p.es), Run(q.es);
    assert Pending(l, r.tx, l.io.next);
    Accounting.RunFated(p.es);
    Accounting.RunFated(q.es);
    HandlerRefinesReader(q.es);
    hide Run, Session, CanRun, Inv;
    FinishTold(s, room, torUp, r);
  }

  lemma LastJam(s: bytes, room: nat, torUp: bool, p: Progress, q: Progress)
    requires Follows(s, room, torUp, p) && Follows(s, room, torUp, q)
    requires Run(p.es).io.Writing? && Run(p.es).io.left != [] && p.room == 0 && Run(q.es).io.Done?
    requires var l, r := Run(p.es), Run(q.es);
             && r.Rx() == l.Rx() && r.tx == l.tx && r.hung == l.hung && r.tor == l.tor && r.dest == l.dest
             && !Relayed(r)
    ensures Finished(s, room, torUp, Run(q.es))
  {
    HandlerRefinesReader(p.es);
    HandlerRefinesReader(q.es);
    var left, r := Run(p.es).io.left, Run(q.es);
    hide Run, Session, CanRun;
    assert p.rest == [] ==> r.Rx() + [] == r.Rx();
    FinishJammed(s, room, torUp, r, left);
  }

  lemma LastStep(s: bytes, room: nat, torUp: bool, p: Progress, q: Progress)
    requires Follows(s, room, torUp, p) && Follows(s, room, torUp, q) && OnItsWay(Run(p.es)) && Inv(Run(p.es))
    requires Run(p.es).io.Writing? ==> Run(p.es).io.left != []
    requires var e := Choice(Run(p.es), p, torUp);
             q == Advance(Run(p.es), p, e) && Run(q.es) == Step(Run(p.es), e)
    requires !OnItsWay(Run(q.es))
    ensures Finished(s, room, torUp, Run(q.es))
  {
    var l, r := Run(p.es), Run(q.es);
    var e := Choice(l, p, torUp);
    StepLeaves(l, e);
    RunKeeps(q.es);
    match e {
      case Deliver(chunk) =>
        DeliverRefuses(l, chunk);
        hide Run, Inv, Follows, Finished, Refuses, Relayed;
        LastDeliver(s, room, torUp, p, q);
      case Hangup =>
        hide Run, Inv, Follows, Finished, Relayed;
        LastHangup(s, room, torUp, p, q);
      case Accept(n) =>
        AcceptEnds(l, n);
        hide Run, Inv, Follows, Finished, Step, Relayed;
        LastAccept(s, room, torUp, p, q);
      case Jam =>
        hide Run, Inv, Follows, Finished, Relayed;
        LastJam(s, room, torUp, p, q);
      case _ =>
    }
  }

  lemma AcceptEnds(l: Local, n: nat)
    requires Inv(l) && Enabled(l, Accept(n)) && !OnItsWay(Step(l, Accept(n)))
    ensures var r := Step(l, Accept(n));
            && r.tx == l.tx + l.io.left
            && (if r.io.Splicing? then l.io.next == ToSplice else l.io.next == ToError)
  {
    var Writing(left, next) := l.io;
    assert left[..|left|] == left;
    hide Inv;
    var k := l.(tx := l.tx + left[..n]);
    AwaitKeepsDest(k, ReadAuthVersion, 1);
    AwaitKeepsDest(k, ReadRequest, 4);
  }

  // ---- the whole run ----

  lemma Start(s: bytes, room: nat, torUp: bool)
    ensures Follows(s, room, torUp, Progress([], s, room)) && OnItsWay(Run([]))
  {
    assert FRESH.Rx() == [];
  }

  /** The run up to the wait for Tor, if it comes to that. */
  lemma DriveToTor(s: bytes, room: nat, torUp: bool, p: Progress) returns (q: Progress)
    requires Follows(s, room, torUp, p) && OnItsWay(Run(p.es)) && Run(p.es).dest.None?
    ensures Follows(s, room, torUp, q)
    ensures if Run(q.es).dest.Some? then Run(q.es).io.Connecting?
            else Run(q.es).io.Done? && Finished(s, room, torUp, Run(q.es))
    decreases Conduct.Fuel(Run(p.es))
  {
    var r := AdvanceFollows(s, room, torUp, p);
    var e := Choice(Run(p.es), p, torUp);
    RunKeeps(p.es);
    assert Run(p.es).io.Writing? ==> Run(p.es).io.left != [];
    Accounting.RunFated(p.es);
    Accounting.StepFated(Run(p.es), e);
    Accounting.RunFated(r.es);
    assert Run(r.es).io.Splicing? ==> Run(r.es).dest.Some?;
    assert Run(p.es).dest.None? && Run(r.es).dest.Some? ==> Run(r.es).io.Connecting?;
    hide Run, Follows, Finished, Step, Inv, Accounting.Fated, Conduct.Fuel;
    if Run(r.es).dest.Some? {
      q := r;
    } else if !OnItsWay(Run(r.es)) {
      LastStep(s, room, torUp, p, r);
      q := r;
    } else {
      q := DriveToTor(s, room, torUp, r);
    }
  }

  /** The run up to the splice or the end. */
  lemma Drive(s: bytes, room: nat, torUp: bool, p: Progress) returns (q: Progress)
    requires Follows(s, room, torUp, p) && OnItsWay(Run(p.es))
    ensures Follows(s, room, torUp, q) && !OnItsWay(Run(q.es)) && Finished(s, room, torUp, Run(q.es))
    decreases Conduct.Fuel(Run(p.es))
  {
    var r := AdvanceFollows(s, room, torUp, p);
    RunKeeps(p.es);
    assert Run(p.es).io.Writing? ==> Run(p.es).io.left != [];
    hide Run, Follows, Finished, Step, Inv, Conduct.Fuel;
    if !OnItsWay(Run(r.es)) {
      LastStep(s, room, torUp, p, r);
      q := r;
    } else {
      q := Drive(s, room, torUp, r);
    }
  }

  /** A client whose bytes make a CONNECT, and that takes what precedes it, can
      bring a handler to wait for Tor. */
  lemma ReachesTor(s: bytes, room: nat) returns (es: seq<Event>)
    requires Connects(s, room)
    ensures CanRun(es) && Run(es).io.Connecting? && Run(es).dest.Some?
    ensures Session(s).end == Connect(Run(es).user, Run(es).dest.value)
  {
    Start(s, room, true);
    var p := DriveToTor(s, room, true, Progress([], s, room));
    es := p.es;
    HandlerRefinesReader(es);
    var l := Run(es);
    assert l.dest.Some?;
    hide Run, Session, CanRun;
    SessionStable(l.Rx(), p.rest);
  }

  lemma ThenSplice(es: seq<Event>, up: bytes, down: bytes) returns (all: seq<Event>)
    requires CanRun(es) && Run(es).io.Splicing? && Run(es).up == Run(es).down == []
    ensures CanRun(all) && Run(all) == Run(es).(up := up, down := down, io := Done(Proxied))
  {
    var one := es + [PayloadUp(up)];
    var two := one + [PayloadDown(down)];
    all := two + [Finish];
    var l := Run(es);
    assert Step(l, PayloadUp(up)) == l.(up := up) by { assert [] + up == up; }
    hide Run, CanRun;
    CanRunMore(es, PayloadUp(up));
    assert Step(l.(up := up), PayloadDown(down)) == l.(up := up, down := down) by { assert [] + down == down; }
    CanRunMore(one, PayloadDown(down));
    CanRunMore(two, Finish);
  }

  /** What the outside sees of a client that is served alone to the end. */
  ghost predicate Serves(s: bytes, room: nat, torUp: bool, up: bytes, down: bytes, es: seq<Event>) {
    && CanRun(es) && Run(es).io.Done?
    && var l := Run(es);
    && Sent(es) == Cut(Heard(s, room, torUp), room) + down
    && Received(es) <= s && l.up == up && l.down == down
    && (l.dest.Some? <==> Connects(s, room))
    && (l.dest.Some? ==> Session(s).end == Connect(l.user, l.dest.value))
    && (l.tor == if Connects(s, room) then Some(torUp) else None)
    && (Relayed(l) <==> Succeeds(s, room, torUp))
  }

  /** Every way to serve a client alone is a run of the machine: whatever it
      sends, however much it takes, whatever Tor answers and whatever the splice
      relays, there is a run with the same words, the same CONNECT and the same
      payload. */
  lemma SoloRun(s: bytes, room: nat, torUp: bool, up: bytes, down: bytes) returns (es: seq<Event>)
    requires if Succeeds(s, room, torUp) then Session(s).used <= |s| && up <= s[Session(s).used..]
             else up == down == []
    ensures Serves(s, room, torUp, up, down, es)
  {
    Start(s, room, torUp);
    var p := Drive(s, room, torUp, Progress([], s, room));
    SoloReceived(s, room, torUp, p, up);
    RunDown(s, room, torUp, p);
    if Succeeds(s, room, torUp) {
      es := ThenSplice(p.es, up, down);
    } else {
      es := p.es;
    }
    RunAppends(es);
    SoloServes(s, room, torUp, up, down, p, es);
  }

  lemma SoloServes(s: bytes, room: nat, torUp: bool, up: bytes, down: bytes, p: Progress, es: seq<Event>)
    requires Finished(s, room, torUp, Run(p.es)) && Run(p.es).up == Run(p.es).down == []
    requires Run(p.es).Rx() + up <= s && CanRun(es)
    requires Run(p.es).io.Done? <==> !Succeeds(s, room, torUp)
    requires if Succeeds(s, room, torUp) then Run(es) == Run(p.es).(up := up, down := down, io := Done(Proxied))
             else Run(es) == Run(p.es) && up == down == []
    requires Received(es) == Run(es).Rx() + Run(es).up && Sent(es) == Run(es).tx + Run(es).down
    ensures Serves(s, room, torUp, up, down, es)
  {
    assert Run(es).Rx() == Run(p.es).Rx();
    hide Run, CanRun, Sent, Received, Session, Cut, Heard, Connects, Succeeds;
  }

  lemma RunDown(s: bytes, room: nat, torUp: bool, p: Progress)
    requires Follows(s, room, torUp, p) && Finished(s, room, torUp, Run(p.es)) && !OnItsWay(Run(p.es))
    ensures Run(p.es).io.Done? <==> !Succeeds(s, room, torUp)
    ensures Run(p.es).up == Run(p.es).down == [] && CanRun(p.es)
  {}

  lemma SoloReceived(s: bytes, room: nat, torUp: bool, p: Progress, up: bytes)
    requires Follows(s, room, torUp, p) && Finished(s, room, torUp, Run(p.es))
    requires if Succeeds(s, room, torUp) then Session(s).used <= |s| && up <= s[Session(s).used..] else up == []
    ensures Run(p.es).Rx() + up <= s
  {
    HandlerRefinesReader(p.es);
    var l := Run(p.es);
    hide Run, Session, CanRun;
    if Succeeds(s, room, torUp) {
      SessionStable(l.Rx(), p.rest);
      assert s[|l.Rx()|..] == p.rest;
    } else {
      assert l.Rx() + [] == l.Rx();
    }
  }
}
