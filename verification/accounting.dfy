/** Every CONNECT is accounted for, in every reachable state of the daemon. */
module Accounting {
  import opened Common
  import opened Handler
  import opened Daemon
  import opened Wire

  /** How a CONNECT stands. */
  datatype Account = NotAsked | Awaiting | Replying | Counted(ok: bool) | Lost

  function AccountOf(l: Local): Account {
    match l.io
    case Connecting => Awaiting
    case Writing(_, ToSplice) => Replying
    case Splicing | Done(Proxied) => Counted(true)
    case Done(Abandoned) => Lost
    case _ => if l.tor == Some(false) then Counted(false) else NotAsked
  }

  predicate Unasked(l: Local) {
    l.tor.None? && l.up == l.down == []
  }

  /** What Tor was asked and answered fits where the handler is. */
  predicate Fated(l: Local) {
    && (l.dest.None? ==> Unasked(l))
    && match l.io
       case Reading(_, _, _) => l.dest.None?
       case Writing(_, ToAuth) | Writing(_, ToRequest) => l.dest.None?
       case Writing(_, ToError) => if l.dest.None? then true else l.tor == Some(false)
       case Writing(_, ToSplice) => l.tor == Some(true)
       case Connecting => l.dest.Some? && l.tor.None?
       case Splicing => l.tor == Some(true)
       case Done(Unconnected) => l.dest.None?
       case Done(TorFailed) => l.tor == Some(false)
       case Done(Abandoned) => l.dest.Some? && l.tor != Some(false)
       case Done(Proxied) => l.tor == Some(true)
  }

  /** The code between two reads asks nothing of Tor before it has a target. */
  lemma ResumeFated(l: Local, stage: Stage, buf: bytes)
    requires Fits(stage, |buf|) && l.dest.None? && Unasked(l)
    ensures var r := Resume(l, stage, buf);
            && Unasked(r)
            && (r.dest.Some? <==> r.io.Connecting?)
            && Fated(r)
    decreases Rank(stage), 0
  {
    match stage {
      case ReadGreeting => if buf[0] == SOCKS5 { AwaitFated(l, ReadMethods, buf[1]); }
      case ReadUserLength => AwaitFated(l, ReadUser, buf[0]);
      case ReadPasswordLength(uname) => AwaitFated(l, ReadPassword(uname), buf[0]);
      case ReadNameLength => AwaitFated(l, ReadName, buf[0]);
      case _ =>
    }
  }

  lemma AwaitFated(l: Local, stage: Stage, want: nat)
    requires Fits(stage, want) && l.dest.None? && Unasked(l)
    ensures var r := Await(l, stage, want);
            && Unasked(r)
            && (r.dest.Some? <==> r.io.Connecting?)
            && Fated(r)
    decreases Rank(stage), 1
  {
    if want == 0 { ResumeFated(l, stage, []); }
  }

  /** How one event moves a CONNECT along. */
  lemma StepFated(l: Local, e: Event)
    requires Sized(l) && Fated(l) && Enabled(l, e)
    ensures var r := Step(l, e);
            && Fated(r)
            && (l.dest.Some? ==> r.dest == l.dest && r.user == l.user)
            && (l.dest.None? && r.dest.Some? ==> e.Deliver? && AccountOf(r) == Awaiting && Unasked(r))
            && (AccountOf(l) == AccountOf(r) || l.dest.None?
                || (if AccountOf(l) == Awaiting then
                      AccountOf(r) == (if e.TorUp? then Replying else if e.TorDown? then Counted(false) else Lost)
                    else
                      AccountOf(l) == Replying &&
                      AccountOf(r) == (if r.io.Splicing? then Counted(true) else Lost)))
  {
    if e.Deliver? {
      var Reading(stage, want, got) := l.io;
      if |got + e.chunk| == want {
        ResumeFated(Record(l, stage, e.chunk), stage, got + e.chunk);
      }
    } else if e.Accept? {
      var Writing(left, next) := l.io;
      var k := l.(tx := l.tx + left[..e.n]);
      if next == ToAuth { AwaitFated(k, ReadAuthVersion, 1); }
      if next == ToRequest { AwaitFated(k, ReadRequest, 4); }
    }
  }

  lemma {:induction false} RunFated(es: seq<Event>)
    ensures Fated(Run(es))
  {
    if es != [] {
      RunFated(es[..|es| - 1]);
      if Enabled(Run(es[..|es| - 1]), es[|es| - 1]) {
        StepFated(Run(es[..|es| - 1]), es[|es| - 1]);
      }
    }
  }

  // ---- the counters ----

  function One(b: bool): nat {
    if b then 1 else 0
  }

  function AskedIn(c: Conn): nat { One(c.local.dest.Some?) }
  function OkIn(c: Conn): nat { One(AccountOf(c.local) == Counted(true)) }
  function FailedIn(c: Conn): nat { One(AccountOf(c.local) == Counted(false)) }
  function AwaitingIn(c: Conn): nat { One(AccountOf(c.local) == Awaiting) }
  function ReplyingIn(c: Conn): nat { One(AccountOf(c.local) == Replying) }
  function LostIn(c: Conn): nat { One(AccountOf(c.local) == Lost) }

  /** The three CONNECT counters, each a count of handlers that wraps. */
  ghost predicate Accounted(s: State) {
    && s.counters.total == Total(AskedIn, s.conns) % U64
    && s.counters.ok == Total(OkIn, s.conns) % U64
    && s.counters.failed == Total(FailedIn, s.conns) % U64
  }

  ghost predicate AllFated(s: State) {
    forall c | 0 <= c < |s.conns| :: Fated(s.conns[c].local)
  }

  /** A step replaces one connection. */
  lemma NextConns(cfg: Config, s: State, a: Action)
    requires CanHappen(s, a) && a.Happens?
    ensures |Next(cfg, s, a).conns| == |s.conns|
    ensures Next(cfg, s, a).conns == s.conns[a.c := Next(cfg, s, a).conns[a.c]]
    ensures Next(cfg, s, a).conns[a.c].local == Step(s.conns[a.c].local, a.e)
  {}

  /** The step's effect on the counters of CONNECTs. */
  lemma NextCounters(cfg: Config, s: State, a: Action)
    requires CanHappen(s, a) && a.Happens? && Fated(s.conns[a.c].local)
    ensures var k, k' := s.counters, Next(cfg, s, a).counters;
            var l, l' := s.conns[a.c].local, Step(s.conns[a.c].local, a.e);
            && k'.total == (if l.dest.None? && l'.dest.Some? then FetchAdd(k.total, 1) else k.total)
            && k'.ok == (if l.dest.Some? && a.e.Accept? && l'.io.Splicing? then FetchAdd(k.ok, 1) else k.ok)
            && k'.failed == (if a.e.TorDown? then FetchAdd(k.failed, 1) else k.failed)
  {
    StepFated(s.conns[a.c].local, a.e);
  }

  /** What an event adds to the three counts. */
  lemma StepCounts(l: Local, e: Event)
    requires Sized(l) && Fated(l) && Enabled(l, e)
    ensures var r := Step(l, e);
            && One(r.dest.Some?) == One(l.dest.Some?) + One(l.dest.None? && r.dest.Some?)
            && One(AccountOf(r) == Counted(true))
               == One(AccountOf(l) == Counted(true)) + One(l.dest.Some? && e.Accept? && r.io.Splicing?)
            && One(AccountOf(r) == Counted(false)) == One(AccountOf(l) == Counted(false)) + One(e.TorDown?)
  {
    StepFated(l, e);
    if l.dest.None? {
      NoAccountYet(l);
    }
  }

  lemma NoAccountYet(l: Local)
    requires Fated(l)
    ensures l.dest.None? <==> AccountOf(l) == NotAsked
  {}

  /** A wrapping counter of `f` follows one connection's change. */
  lemma CountFollows(f: Conn -> nat, conns: seq<Conn>, c: nat, k: Conn, more: bool, before: nat, after: nat)
    requires c < |conns| && f(k) == f(conns[c]) + One(more)
    requires before == Total(f, conns) % U64
    requires after == if more then FetchAdd(before, 1) else before
    ensures after == Total(f, conns[c := k]) % U64
  {
    TotalUpdate(f, conns, c, k);
    FetchAddWraps(Total(f, conns), 1);
  }

  lemma AcceptedFated(cfg: Config, s: State, a: Action)
    requires a.Accepted? && AllFated(s)
    ensures AllFated(Next(cfg, s, a))
  {
    assert Fated(FRESH);
    hide Fated;
  }

  lemma AcceptedCounts(cfg: Config, s: State, a: Action) returns (k: Conn)
    requires a.Accepted?
    ensures Next(cfg, s, a) == s.(conns := s.conns + [k]) && AskedIn(k) == OkIn(k) == FailedIn(k) == 0
  {
    k := Conn(a.peer, FRESH, None, None);
  }

  lemma AcceptedAccounted(cfg: Config, s: State, a: Action)
    requires a.Accepted? && Accounted(s) && AllFated(s)
    ensures Accounted(Next(cfg, s, a)) && AllFated(Next(cfg, s, a))
  {
    AcceptedFated(cfg, s, a);
    var k := AcceptedCounts(cfg, s, a);
    hide Next, Total, AskedIn, OkIn, FailedIn, AllFated;
    NothingAdded(AskedIn, s.conns, k);
    NothingAdded(OkIn, s.conns, k);
    NothingAdded(FailedIn, s.conns, k);
  }

  lemma NothingAdded(f: Conn -> nat, conns: seq<Conn>, k: Conn)
    requires f(k) == 0
    ensures Total(f, conns + [k]) == Total(f, conns)
  {
    TotalAppend(f, conns, k);
  }

  lemma HappensAccounted(cfg: Config, s: State, a: Action)
    requires CanHappen(s, a) && a.Happens? && Accounted(s) && AllFated(s)
    ensures Accounted(Next(cfg, s, a)) && AllFated(Next(cfg, s, a))
  {
    hide Next, Step, Fated, AccountOf, Total;
    var t := Next(cfg, s, a);
    NextConns(cfg, s, a);
    var k, l := t.conns[a.c], s.conns[a.c].local;
    NextCounters(cfg, s, a);
    StepFated(l, a.e);
    StepCounts(l, a.e);
    CountFollows(AskedIn, s.conns, a.c, k, l.dest.None? && k.local.dest.Some?,
                 s.counters.total, t.counters.total);
    CountFollows(OkIn, s.conns, a.c, k, l.dest.Some? && a.e.Accept? && k.local.io.Splicing?,
                 s.counters.ok, t.counters.ok);
    CountFollows(FailedIn, s.conns, a.c, k, a.e.TorDown?, s.counters.failed, t.counters.failed);
  }

  lemma NextAccounted(cfg: Config, s: State, a: Action)
    requires CanHappen(s, a) && Accounted(s) && AllFated(s)
    ensures Accounted(Next(cfg, s, a)) && AllFated(Next(cfg, s, a))
  {
    if a.Accepted? { AcceptedAccounted(cfg, s, a); } else { HappensAccounted(cfg, s, a); }
  }

  lemma {:induction false} ExecAccounted(cfg: Config, acts: seq<Action>)
    ensures Accounted(Exec(cfg, acts)) && AllFated(Exec(cfg, acts))
  {
    if acts != [] {
      var n := |acts| - 1;
      ExecAccounted(cfg, acts[..n]);
      if CanHappen(Exec(cfg, acts[..n]), acts[n]) {
        NextAccounted(cfg, Exec(cfg, acts[..n]), acts[n]);
      }
    }
  }

  /** Every CONNECT has exactly one account. */
  lemma {:induction false} AccountsAddUp(conns: seq<Conn>)
    requires forall c | 0 <= c < |conns| :: Fated(conns[c].local)
    ensures Total(AskedIn, conns) == Total(OkIn, conns) + Total(FailedIn, conns)
          + Total(AwaitingIn, conns) + Total(ReplyingIn, conns) + Total(LostIn, conns)
    ensures Total(AskedIn, conns) <= |conns|
  {
    if conns != [] {
      AccountsAddUp(conns[..|conns| - 1]);
    }
  }

  /** In every reachable state, each CONNECT ever asked of Tor is counted as ok,
      counted as failed, waits for Tor, is being told of its success, or was
      lost in one of these two waits; none is in two of these. The counters say
      so exactly up to 2^64 connections, and modulo 2^64 ever after. */
  lemma ConnectsAddUp(cfg: Config, acts: seq<Action>)
    ensures var s := Exec(cfg, acts);
            var waiting := Total(AwaitingIn, s.conns) + Total(ReplyingIn, s.conns) + Total(LostIn, s.conns);
            && s.counters.ok == Total(OkIn, s.conns) % U64
            && s.counters.failed == Total(FailedIn, s.conns) % U64
            && s.counters.total == (Total(OkIn, s.conns) + Total(FailedIn, s.conns) + waiting) % U64
            && (|s.conns| < U64 ==> s.counters.total == s.counters.ok + s.counters.failed + waiting)
  {
    hide Exec, Total, Fated;
    ExecAccounted(cfg, acts);
    AccountsAddUp(Exec(cfg, acts).conns);
  }
}
