/** That ids can be reused while live: a run of the daemon in which a handler
    loses its row. */
module Crowd {
  import opened Common
  import opened Wire
  import opened Handler
  import opened Daemon
  import opened Accounting
  import opened Rows
  import opened Traffic
  import opened Streams
  import opened Tor
  import Arrival
  import Encoding
  import Solo

  ghost predicate AllWaiting(s: State, n: nat) {
    |s.conns| == n && forall c | 0 <= c < n :: s.conns[c].local.io.Connecting? && s.conns[c].local.dest.Some?
  }

  lemma AnyHandlerToTor() returns (es: seq<Event>)
    ensures CanRun(es) && Run(es).io.Connecting? && Run(es).dest.Some?
  {
    var c := Encoding.LongestHandshake();
    SessionBounds(c.Encode());
    es := Solo.ReachesTor(c.Encode(), 4);
  }

  /** Any number of handlers may wait for Tor together. */
  lemma {:induction false} Waiting(cfg: Config, n: nat) returns (acts: seq<Action>)
    ensures AllWaiting(Exec(cfg, acts), n)
  {
    if n == 0 {
      acts := [];
    } else {
      var before := Waiting(cfg, n - 1);
      var es := AnyHandlerToTor();
      var minted := Arrival.FreshToken(Exec(cfg, before).issued);
      acts := Arrival.Arrive(cfg, before, Peer(true, ""), es, minted);
      hide *;
      OneMoreWaits(cfg, Exec(cfg, before), Exec(cfg, acts), n - 1, Peer(true, ""), Run(es), minted);
    }
  }

  lemma OneMoreWaits(cfg: Config, s: State, t: State, n: nat, peer: Peer, l: Local, minted: IsolationToken)
    requires AllWaiting(s, n) && Arrival.With(cfg, s, t, peer, l, minted) && l.io.Connecting? && l.dest.Some?
    ensures AllWaiting(t, n + 1)
  {
    forall c | 0 <= c < n + 1 ensures t.conns[c].local.io.Connecting? && t.conns[c].local.dest.Some? {
      if c < n { assert t.conns[c] == t.conns[..n][c] == s.conns[c]; }
    }
  }

  lemma {:induction false} AllAsked(conns: seq<Conn>)
    requires forall c | 0 <= c < |conns| :: conns[c].local.dest.Some?
    ensures Total(AskedIn, conns) == |conns|
  {
    if conns != [] { AllAsked(conns[..|conns| - 1]); }
  }

  /** After 2^64 registrations the next id is 0 again, and entry 0 has its owner. */
  lemma FirstOfMany(cfg: Config, acts: seq<Action>) returns (c: nat)
    requires AllWaiting(Exec(cfg, acts), U64)
    ensures var s := Exec(cfg, acts);
            s.nextId == 0 && c < |s.conns| && s.conns[c].entry == Some(0) && |s.entries| > 0
  {
    ExecKeeps(cfg, acts);
    ExecAccounted(cfg, acts);
    var s := Exec(cfg, acts);
    hide Exec, AllFated, Conserved, EntryOf, RowsRun, RowsComplete;
    AllAsked(s.conns);
    hide Total;
    assert s.nextId == 0;
    assert s.conns[0].entry.Some? && s.conns[0].entry.value < |s.entries|;
    c := s.owner[0];
  }

  /** A registration under id 0, while the handler of entry 0 still runs. */
  lemma RowTaken(cfg: Config, s: State, t: State, c: nat, peer: Peer, l: Local, minted: IsolationToken)
    requires s.nextId == 0 && c < |s.conns| && s.conns[c].entry == Some(0) && |s.entries| > 0
    requires Arrival.With(cfg, s, t, peer, l, minted) && l.dest.Some? && l.io.Connecting?
    ensures c < |t.conns| && t.conns[c] == s.conns[c] && !HasRow(t, t.conns[c])
  {
    assert t.conns[c] == t.conns[..|s.conns|][c] == s.conns[c];
    assert t.live[0] == |s.entries| && IdOf(0) == 0;
  }

  lemma WaitsStill(s: State, n: nat, c: nat)
    requires AllWaiting(s, n) && c < n
    ensures s.conns[c].local.dest.Some? && !s.conns[c].local.io.Done?
  {}

  /** Ids do get reused while live, and rows do get lost: with 2^64 handlers
      waiting for Tor, the next to register takes the row of the first. */
  lemma RowsCanBeLost(cfg: Config) returns (acts: seq<Action>, c: nat)
    ensures var s := Exec(cfg, acts);
            && c < |s.conns| && s.conns[c].local.dest.Some? && !s.conns[c].local.io.Done?
            && !HasRow(s, s.conns[c])
    ensures !NeverReuses(cfg, acts)
  {
    var before := Waiting(cfg, U64);
    var es := AnyHandlerToTor();
    var minted := Arrival.FreshToken(Exec(cfg, before).issued);
    acts := Arrival.Arrive(cfg, before, Peer(true, ""), es, minted);
    c := FirstOfMany(cfg, before);
    WaitsStill(Exec(cfg, before), U64, c);
    RowsMatchHandlers(cfg, acts);
    hide *;
    RowTaken(cfg, Exec(cfg, before), Exec(cfg, acts), c, Peer(true, ""), Run(es), minted);
  }
}
