/** One connection more: any run of a handler can be added to any run of the
    daemon, and what that does to the shared state. */
module Arrival {
  import opened Common
  import opened Wire
  import opened Handler
  import opened Daemon
  import opened Accounting
  import opened Rows
  import opened Traffic
  import opened Streams
  import opened Tor
  import Address
  import Fidelity
  import Solo

  // ---- tokens never run out ----

  lemma SerialsBounded(tokens: set<IsolationToken>) returns (bound: nat)
    ensures forall t | t in tokens :: t.serial < bound
    decreases |tokens|
  {
    if tokens == {} {
      bound := 0;
    } else {
      var t :| t in tokens;
      var b := SerialsBounded(tokens - {t});
      bound := if t.serial < b then b else t.serial + 1;
    }
  }

  lemma FreshToken(tokens: set<IsolationToken>) returns (t: IsolationToken)
    ensures t !in tokens
  {
    var bound := SerialsBounded(tokens);
    t := IsolationToken(bound);
  }

  // ---- what a connection leaves behind ----

  /** The counters once a handler has come to `l`, from what they were. */
  function CountersWith(k: Counters, l: Local): Counters {
    Counters(if l.dest.Some? then FetchAdd(k.total, 1) else k.total,
             if AccountOf(l) == Counted(true) then FetchAdd(k.ok, 1) else k.ok,
             if AccountOf(l) == Counted(false) then FetchAdd(k.failed, 1) else k.failed,
             FetchAdd(k.toUpstream, |l.up|),
             FetchAdd(k.toClient, |l.down|))
  }

  function ResolvedFor(cfg: Config, s: State, l: Local, minted: IsolationToken): Resolved {
    Resolve(cfg.policy, cfg.default, s.perUpstream, l.user, minted)
  }

  /** `t` is `s` with one connection more, whose handler has come to `l`. */
  ghost predicate With(cfg: Config, s: State, t: State, peer: Peer, l: Local, minted: IsolationToken) {
    var n := |s.conns|;
    && |t.conns| == n + 1 && t.conns[..n] == s.conns
    && t.conns[n].local == l && t.conns[n].peer == peer
    && (if l.dest.None? then
          && t.conns[n].entry.None?
          && t.entries == s.entries && t.live == s.live && t.nextId == s.nextId
          && t.perUpstream == s.perUpstream && t.issued == s.issued
        else
          && t.conns[n].entry == Some(|s.entries|)
          && t.conns[n].token == Some(ResolvedFor(cfg, s, l, minted).token)
          && t.nextId == FetchAdd(s.nextId, 1)
          && t.live == (if l.io.Done? then s.live - {s.nextId} else s.live[s.nextId := |s.entries|])
          && t.perUpstream == ResolvedFor(cfg, s, l, minted).perUpstream
          && t.issued == if ResolvedFor(cfg, s, l, minted).usedMinted then s.issued + {minted} else s.issued)
  }

  lemma WithNew(cfg: Config, s: State, peer: Peer, minted: IsolationToken)
    ensures With(cfg, s, Next(cfg, s, Accepted(peer)), peer, FRESH, minted)
  {}

  lemma WithOpens(cfg: Config, s: State, t: State, peer: Peer, l: Local, minted: IsolationToken, e: Event)
    requires With(cfg, s, t, peer, l, minted) && AllFated(t)
    requires CanHappen(t, Happens(|s.conns|, e, minted)) && Opens(t, Happens(|s.conns|, e, minted))
    ensures With(cfg, s, Next(cfg, t, Happens(|s.conns|, e, minted)), peer, Step(l, e), minted)
  {
    var a := Happens(|s.conns|, e, minted);
    StepFated(l, e);
    NextOpens(cfg, t, a);
    hide Next, Step, Fated, Opens, FetchAdd, Resolve, Address.Label;
    assert Next(cfg, t, a).conns[..|s.conns|] == s.conns;
  }

  lemma WithElse(cfg: Config, s: State, t: State, peer: Peer, l: Local, minted: IsolationToken, e: Event, m: IsolationToken)
    requires With(cfg, s, t, peer, l, minted) && AllFated(t) && Owned(s) && Described(t)
    requires CanHappen(t, Happens(|s.conns|, e, m)) && !Opens(t, Happens(|s.conns|, e, m))
    ensures With(cfg, s, Next(cfg, t, Happens(|s.conns|, e, m)), peer, Step(l, e), minted)
  {
    var a := Happens(|s.conns|, e, m);
    StepFated(l, e);
    NextElse(cfg, t, a);
    ElseUnregisters(cfg, t, a);
    assert s.nextId == IdOf(|s.entries|);
    assert l.dest.None? ==> Step(l, e).dest.None?;
    assert !l.io.Done?;
    if l.dest.None? { EntryNotRelaying(l, e); }
    AddThenRemove(s.live, s.nextId, |s.entries|);
    hide Next, Step, Fated, Opens, FetchAdd, Resolve, IdOf, Described, Owned, AllFated;
    assert Next(cfg, t, a).conns[..|s.conns|] == s.conns;
  }

  lemma EntryNotRelaying(l: Local, e: Event)
    requires Sized(l) && Fated(l) && Enabled(l, e) && l.dest.None?
    ensures !e.PayloadUp? && !e.PayloadDown?
  {}

  /** Any run of a handler can follow any run of the daemon. */
  lemma {:induction false} Arrive(cfg: Config, acts: seq<Action>, peer: Peer, es: seq<Event>, minted: IsolationToken)
    returns (more: seq<Action>)
    requires CanRun(es) && minted !in Exec(cfg, acts).issued
    ensures acts <= more && With(cfg, Exec(cfg, acts), Exec(cfg, more), peer, Run(es), minted)
    decreases |es|
  {
    var s := Exec(cfg, acts);
    if es == [] {
      more := acts + [Accepted(peer)];
      assert more[..|acts|] == acts;
      ExecStep(cfg, more);
      WithNew(cfg, s, peer, minted);
    } else {
      var fs, e := es[..|es| - 1], es[|es| - 1];
      var before := Arrive(cfg, acts, peer, fs, minted);
      var t := Exec(cfg, before);
      ExecKeeps(cfg, acts);
      ExecKeeps(cfg, before);
      var m := FreshToken(t.issued);
      var a := Happens(|s.conns|, e, if Run(fs).dest.None? then minted else m);
      more := before + [a];
      assert more[..|before|] == before;
      ExecStep(cfg, more);
      assert Run(es) == Step(Run(fs), e);
      assert CanHappen(t, a);
      hide Exec, Run, CanRun, Conserved, RowsRun, RowsComplete, NeverReuses;
      if Opens(t, a) {
        WithOpens(cfg, s, t, peer, Run(fs), minted, e);
      } else {
        WithElse(cfg, s, t, peer, Run(fs), minted, e, a.minted);
      }
    }
  }

  /** The counters in terms of all handlers. */
  lemma CountersOf(cfg: Config, acts: seq<Action>)
    ensures var k, conns := Exec(cfg, acts).counters, Exec(cfg, acts).conns;
            && k.total == Total(AskedIn, conns) % U64
            && k.ok == Total(OkIn, conns) % U64 && k.failed == Total(FailedIn, conns) % U64
            && k.toUpstream == Total(UpIn, conns) % U64 && k.toClient == Total(DownIn, conns) % U64
  {
    ExecAccounted(cfg, acts);
    BytesConserved(cfg, acts);
    hide Exec, Total;
  }

  lemma CountsOf(k: Conn)
    ensures AskedIn(k) == One(k.local.dest.Some?)
    ensures OkIn(k) == One(AccountOf(k.local) == Counted(true))
    ensures FailedIn(k) == One(AccountOf(k.local) == Counted(false))
    ensures UpIn(k) == |k.local.up| && DownIn(k) == |k.local.down|
    ensures One(true) == 1 && One(false) == 0
  {}

  lemma WithOneMore(cfg: Config, s: State, t: State, peer: Peer, l: Local, minted: IsolationToken) returns (k: Conn)
    requires With(cfg, s, t, peer, l, minted)
    ensures t.conns == s.conns + [k] && k.local == l
  {
    k := t.conns[|s.conns|];
  }

  /** What it adds to the counters. */
  lemma ArrivedCounters(cfg: Config, acts: seq<Action>, more: seq<Action>, peer: Peer, l: Local, minted: IsolationToken)
    requires With(cfg, Exec(cfg, acts), Exec(cfg, more), peer, l, minted)
    ensures Exec(cfg, more).counters == CountersWith(Exec(cfg, acts).counters, l)
  {
    hide Exec, Total, AccountOf, With, One, AskedIn, OkIn, FailedIn, UpIn, DownIn, FetchAdd;
    var s, t := Exec(cfg, acts), Exec(cfg, more);
    var k := WithOneMore(cfg, s, t, peer, l, minted);
    CountersOf(cfg, acts);
    CountersOf(cfg, more);
    CountsOf(k);
    CountOneMore(AskedIn, s.conns, k, s.counters.total);
    CountOneMore(OkIn, s.conns, k, s.counters.ok);
    CountOneMore(FailedIn, s.conns, k, s.counters.failed);
    CountOneMore(UpIn, s.conns, k, s.counters.toUpstream);
    CountOneMore(DownIn, s.conns, k, s.counters.toClient);
  }

  lemma CountOneMore(f: Conn -> nat, conns: seq<Conn>, k: Conn, before: nat)
    requires before == Total(f, conns) % U64
    ensures Total(f, conns + [k]) % U64 == FetchAdd(before, f(k))
    ensures f(k) == 0 ==> Total(f, conns + [k]) % U64 == before
  {
    TotalAppend(f, conns, k);
    FetchAddWraps(Total(f, conns), f(k));
  }

  // ---- the shared objects, as values ----

  /** What the handlers share: counters, ids, live rows, map and tokens so far. */
  datatype Objects = Objects(
    counters: Counters, nextId: nat, live: set<nat>, perUpstream: map<string, IsolationToken>, serial: nat)

  /** The daemon's state, as its objects hold it. */
  ghost predicate Mirrors(held: Objects, s: State) {
    && held.counters == s.counters && held.nextId == s.nextId && held.live == s.live.Keys
    && held.perUpstream == s.perUpstream
    && forall t | t in s.issued :: t.serial < held.serial
  }

  lemma MirrorsAtStart(cfg: Config)
    ensures Mirrors(Objects(Counters(0, 0, 0, 0, 0), 0, {}, map[], cfg.default.serial + 1), Exec(cfg, []))
  {}

  /** What a handler that ends as `l` leaves of them. */
  function HeldWith(cfg: Config, held: Objects, l: Local): Objects {
    var r := Resolve(cfg.policy, cfg.default, held.perUpstream, l.user, IsolationToken(held.serial));
    if l.dest.None? then held.(counters := CountersWith(held.counters, l))
    else
      Objects(CountersWith(held.counters, l), FetchAdd(held.nextId, 1), held.live - {held.nextId},
             r.perUpstream, held.serial + if r.usedMinted then 1 else 0)
  }

  lemma MirrorsWith(cfg: Config, held: Objects, s: State, t: State, peer: Peer, l: Local)
    requires Mirrors(held, s) && With(cfg, s, t, peer, l, IsolationToken(held.serial)) && l.io.Done?
    requires t.counters == CountersWith(s.counters, l)
    ensures Mirrors(HeldWith(cfg, held, l), t)
  {
    hide CountersWith;
    assert (s.live - {s.nextId}).Keys == s.live.Keys - {s.nextId};
  }

  /** A handler that runs alone to its end, after any run of the daemon. */
  lemma ArriveAlone(cfg: Config, acts: seq<Action>, held: Objects, peer: Peer, es: seq<Event>) returns (more: seq<Action>)
    requires Mirrors(held, Exec(cfg, acts)) && CanRun(es) && Run(es).io.Done?
    ensures acts <= more && Mirrors(HeldWith(cfg, held, Run(es)), Exec(cfg, more))
    ensures With(cfg, Exec(cfg, acts), Exec(cfg, more), peer, Run(es), IsolationToken(held.serial))
  {
    var minted := IsolationToken(held.serial);
    assert minted !in Exec(cfg, acts).issued;
    more := Arrive(cfg, acts, peer, es, minted);
    hide *;
    ArrivedCounters(cfg, acts, more, peer, Run(es), minted);
    MirrorsWith(cfg, held, Exec(cfg, acts), Exec(cfg, more), peer, Run(es));
  }
}
