/** Which streams may share circuits: the isolation tokens of all CONNECTs of a
    run, as an exact relation. */
module IsolationRuns {
  import opened Common
  import opened Wire
  import opened Handler
  import opened Daemon
  import opened Accounting
  import opened Rows
  import opened Tor
  import History
  import Fidelity
  import Address

  /** The map holds issued tokens, no two alike and none the default one. */
  ghost predicate MapFits(cfg: Config, s: State) {
    && cfg.default in s.issued
    && (forall u | u in s.perUpstream :: s.perUpstream[u] in s.issued && s.perUpstream[u] != cfg.default)
    && (forall u, v | u in s.perUpstream && v in s.perUpstream && s.perUpstream[u] == s.perUpstream[v] :: u == v)
  }

  /** Every handler that asked for a stream has the token its policy says. */
  ghost predicate TokensFit(cfg: Config, s: State) {
    && (forall c | 0 <= c < |s.conns| :: s.conns[c].token.Some? <==> s.conns[c].local.dest.Some?)
    && (forall c | 0 <= c < |s.conns| && s.conns[c].token.Some? :: TokenFits(cfg, s, s.conns[c]))
    && (cfg.policy == PerQuery ==>
          forall c, d | 0 <= c < d < |s.conns| && s.conns[c].token.Some? && s.conns[d].token.Some? ::
            s.conns[c].token != s.conns[d].token)
  }

  ghost predicate TokenFits(cfg: Config, s: State, conn: Conn)
    requires conn.token.Some?
  {
    var t := conn.token.value;
    match cfg.policy
    case Shared => t == cfg.default
    case PerQuery => t in s.issued && t != cfg.default
    case PerUpstream =>
      match conn.local.user
      case None => t == cfg.default
      case Some(u) => u in s.perUpstream && s.perUpstream[u] == t
  }

  lemma OpensTokens(cfg: Config, s: State, a: Action)
    requires CanHappen(s, a) && AllFated(s) && Opens(s, a)
    requires MapFits(cfg, s) && TokensFit(cfg, s)
    ensures MapFits(cfg, Next(cfg, s, a)) && TokensFit(cfg, Next(cfg, s, a))
  {
    StepFated(s.conns[a.c].local, a.e);
    NextOpens(cfg, s, a);
    hide Next, Step, Fated, Opens, Address.Label, FetchAdd;
  }

  lemma NextTokens(cfg: Config, s: State, a: Action)
    requires CanHappen(s, a) && AllFated(s)
    requires MapFits(cfg, s) && TokensFit(cfg, s)
    ensures MapFits(cfg, Next(cfg, s, a)) && TokensFit(cfg, Next(cfg, s, a))
  {
    if a.Happens? {
      if Opens(s, a) {
        OpensTokens(cfg, s, a);
      } else {
        StepFated(s.conns[a.c].local, a.e);
        NextElse(cfg, s, a);
        hide Next, Step, Fated, Opens;
      }
    }
  }

  lemma {:induction false} ExecTokens(cfg: Config, acts: seq<Action>)
    ensures MapFits(cfg, Exec(cfg, acts)) && TokensFit(cfg, Exec(cfg, acts))
  {
    if acts != [] {
      var n := |acts| - 1;
      ExecTokens(cfg, acts[..n]);
      ExecAccounted(cfg, acts[..n]);
      if CanHappen(Exec(cfg, acts[..n]), acts[n]) {
        NextTokens(cfg, Exec(cfg, acts[..n]), acts[n]);
      }
    }
  }

  /** The username in what a handler has read from its client. */
  function WireUser(rx: bytes): Option<string>
    requires Session(rx).end.Connect?
  {
    Session(rx).end.user
  }

  /** Isolation over whole runs: of any two CONNECTs, under `Shared` both have
      the default token; under `PerQuery` they have different tokens, neither
      of them the default one; under `PerUpstream` they have the same token
      exactly when their clients sent the same username or both sent none, and
      the default one exactly when none was sent. An empty username is a
      username like any other. */
  lemma IsolationExact(cfg: Config, acts: seq<Action>, c: nat, d: nat)
    requires var s := Exec(cfg, acts);
             && c < |s.conns| && d < |s.conns| && c != d
             && s.conns[c].local.dest.Some? && s.conns[d].local.dest.Some?
    ensures var s := Exec(cfg, acts);
            && s.conns[c].token.Some? && s.conns[d].token.Some?
            && Session(s.conns[c].local.Rx()).end.Connect? && Session(s.conns[d].local.Rx()).end.Connect?
            && var t, u := s.conns[c].token.value, s.conns[d].token.value;
               var tUser, uUser := WireUser(s.conns[c].local.Rx()), WireUser(s.conns[d].local.Rx());
               match cfg.policy
               case Shared => t == u == cfg.default
               case PerQuery => t != u && t != cfg.default && u != cfg.default
               case PerUpstream => (t == u <==> tUser == uUser) && (t == cfg.default <==> tUser.None?)
  {
    var s := Exec(cfg, acts);
    ExecTokens(cfg, acts);
    Projection(cfg, acts, c);
    Projection(cfg, acts, d);
    Fidelity.HandlerRefinesReader(EventsOf(cfg, acts, c));
    Fidelity.HandlerRefinesReader(EventsOf(cfg, acts, d));
    hide Exec, Session, Run;
    assert TokenFits(cfg, s, s.conns[c]) && TokenFits(cfg, s, s.conns[d]);
    if cfg.policy == PerQuery {
      if c < d {
        assert s.conns[c].token != s.conns[d].token;
      } else {
        assert s.conns[d].token != s.conns[c].token;
      }
    }
  }

  /** A username keeps its token for the life of the daemon, and a CONNECT the
      one it was given. */
  lemma TokensLast(cfg: Config, acts: seq<Action>, k: nat)
    requires k <= |acts|
    ensures var s, t := Exec(cfg, acts[..k]), Exec(cfg, acts);
            && (forall u | u in s.perUpstream :: u in t.perUpstream && t.perUpstream[u] == s.perUpstream[u])
            && |s.conns| <= |t.conns|
            && (forall c | 0 <= c < |s.conns| && s.conns[c].token.Some? :: t.conns[c].token == s.conns[c].token)
  {
    ExecTokens(cfg, acts[..k]);
    History.ExecExtends(cfg, acts, k);
    var s, t := Exec(cfg, acts[..k]), Exec(cfg, acts);
    forall c | 0 <= c < |s.conns| && s.conns[c].token.Some? ensures t.conns[c].token == s.conns[c].token {
      assert History.ConnExtends(s.conns[c], t.conns[c]);
    }
  }
}
