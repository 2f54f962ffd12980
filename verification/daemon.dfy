/** The daemon: any number of handlers, stepping in any order over the shared
    counters, stream registry and isolation map. */
module Daemon {
  import opened Common
  import opened Address
  import opened Handler
  import opened Streams
  import opened Tor

  type Task = l: Local | Sized(l) witness FRESH

  /** One accepted connection: its handler, and what the shared state gave it
      when it asked Tor for a stream. Handlers that are gone are kept. */
  datatype Conn = Conn(peer: Peer, local: Task, entry: Option<nat>, token: Option<IsolationToken>)

  datatype Config = Config(policy: Isolation, default: IsolationToken)

  datatype State = State(
    conns: seq<Conn>,        // in the order they were accepted
    counters: Counters,
    entries: seq<Entry>,     // every entry ever allocated, shared by reference
    owner: seq<nat>,         // whose handler each of them is
    live: map<nat, nat>,     // the registry: from ids to entries
    nextId: nat,
    perUpstream: map<string, IsolationToken>,
    issued: set<IsolationToken>)

  function Initial(cfg: Config): State {
    State([], Counters(0, 0, 0, 0, 0), [], [], map[], 0, map[], {cfg.default})
  }

  /** A connection is accepted, or something happens to one; `minted` is the
      token that `IsolationToken::new` would return now. */
  datatype Action = Accepted(peer: Peer) | Happens(c: nat, e: Event, minted: IsolationToken)

  predicate CanHappen(s: State, a: Action) {
    match a
    case Accepted(_) => true
    case Happens(c, e, minted) =>
      c < |s.conns| && Enabled(s.conns[c].local, e) && minted !in s.issued
  }

  // ---- what a step does to the shared state ----

  function SetLocal(s: State, c: nat, l: Task): State
    requires c < |s.conns|
  {
    s.(conns := s.conns[c := s.conns[c].(local := l)])
  }

  /** A handler that has its destination counts its CONNECT, registers its
      stream and resolves its token, all before it first waits for Tor. */
  function Open(cfg: Config, s: State, c: nat, minted: IsolationToken): State
    requires c < |s.conns| && s.conns[c].local.dest.Some?
  {
    var conn := s.conns[c];
    var r := Resolve(cfg.policy, cfg.default, s.perUpstream, conn.local.user, minted);
    var e := Entry(s.nextId, conn.peer, Label(conn.local.dest.value), conn.local.user, 0, 0);
    s.(counters := s.counters.(total := FetchAdd(s.counters.total, 1)),
       entries := s.entries + [e],
       owner := s.owner + [c],
       live := s.live[s.nextId := |s.entries|],
       nextId := FetchAdd(s.nextId, 1),
       perUpstream := r.perUpstream,
       issued := if r.usedMinted then s.issued + {minted} else s.issued,
       conns := s.conns[c := conn.(entry := Some(|s.entries|), token := Some(r.token))])
  }

  /** `Metered` counts `n` bytes twice over. */
  function RelayUp(s: State, i: nat, n: nat): State
    requires i < |s.entries|
  {
    var e := s.entries[i];
    s.(counters := s.counters.(toUpstream := FetchAdd(s.counters.toUpstream, n)),
       entries := s.entries[i := e.(toUpstream := FetchAdd(e.toUpstream, n))])
  }

  function RelayDown(s: State, i: nat, n: nat): State
    requires i < |s.entries|
  {
    var e := s.entries[i];
    s.(counters := s.counters.(toClient := FetchAdd(s.counters.toClient, n)),
       entries := s.entries[i := e.(toClient := FetchAdd(e.toClient, n))])
  }

  /** Dropping the stream handle removes the row with its entry's id. */
  function Release(s: State, i: nat): State
    requires i < |s.entries|
  {
    s.(live := s.live - {s.entries[i].id})
  }

  /** The shared state after `conns[c]` went from `l` to where it is now. */
  function Effect(cfg: Config, s: State, c: nat, l: Task, e: Event, minted: IsolationToken): State
    requires c < |s.conns|
  {
    var conn := s.conns[c];
    if l.dest.None? && conn.local.dest.Some? then Open(cfg, s, c, minted)
    else if e.TorDown? then s.(counters := s.counters.(failed := FetchAdd(s.counters.failed, 1)))
    else if !l.io.Splicing? && conn.local.io.Splicing? then
      s.(counters := s.counters.(ok := FetchAdd(s.counters.ok, 1)))
    else if conn.entry.Some? && conn.entry.value < |s.entries| then
      if e.PayloadUp? then RelayUp(s, conn.entry.value, |e.data|)
      else if e.PayloadDown? then RelayDown(s, conn.entry.value, |e.data|)
      else if conn.local.io.Done? then Release(s, conn.entry.value)
      else s
    else s
  }

  function Next(cfg: Config, s: State, a: Action): State
    requires CanHappen(s, a)
  {
    match a
    case Accepted(peer) => s.(conns := s.conns + [Conn(peer, FRESH, None, None)])
    case Happens(c, e, minted) =>
      var l := s.conns[c].local;
      Effect(cfg, SetLocal(s, c, Step(l, e)), c, l, e, minted)
  }

  /** The daemon after those of `acts` that could happen, in order. */
  function Exec(cfg: Config, acts: seq<Action>): State {
    if acts == [] then Initial(cfg)
    else
      var s := Exec(cfg, acts[..|acts| - 1]);
      if CanHappen(s, acts[|acts| - 1]) then Next(cfg, s, acts[|acts| - 1]) else s
  }

  lemma ExecStep(cfg: Config, acts: seq<Action>)
    requires acts != []
    ensures var s, a := Exec(cfg, acts[..|acts| - 1]), acts[|acts| - 1];
            Exec(cfg, acts) == if CanHappen(s, a) then Next(cfg, s, a) else s
  {}

  // ---- noninterference ----

  /** What has happened to connection `c` itself. */
  function EventsOf(cfg: Config, acts: seq<Action>, c: nat): seq<Event> {
    if acts == [] then []
    else
      var before := EventsOf(cfg, acts[..|acts| - 1], c);
      var a := acts[|acts| - 1];
      if a.Happens? && a.c == c && CanHappen(Exec(cfg, acts[..|acts| - 1]), a) then before + [a.e] else before
  }

  lemma EventsStep(cfg: Config, acts: seq<Action>, c: nat)
    requires acts != []
    ensures var n := |acts| - 1;
            var before, a := EventsOf(cfg, acts[..n], c), acts[n];
            EventsOf(cfg, acts, c)
            == if a.Happens? && a.c == c && CanHappen(Exec(cfg, acts[..n]), a) then before + [a.e] else before
  {}

  /** A step touches the handler it happens to, and no other. */
  lemma NextLocals(cfg: Config, s: State, a: Action)
    requires CanHappen(s, a)
    ensures var t := Next(cfg, s, a);
            && |t.conns| == |s.conns| + (if a.Accepted? then 1 else 0)
            && (forall c | 0 <= c < |s.conns| && !(a.Happens? && a.c == c) :: t.conns[c] == s.conns[c])
            && (a.Happens? ==> t.conns[a.c].local == Step(s.conns[a.c].local, a.e))
            && (a.Happens? ==> t.conns[a.c].peer == s.conns[a.c].peer)
            && (a.Accepted? ==> t.conns[|s.conns|] == Conn(a.peer, FRESH, None, None))
  {}

  /** Refinement under interleaving: whatever the schedule, a handler is where
      its own events alone bring a handler that runs by itself. */
  lemma {:induction false} Projection(cfg: Config, acts: seq<Action>, c: nat)
    ensures CanRun(EventsOf(cfg, acts, c))
    ensures c < |Exec(cfg, acts).conns| ==>
            Exec(cfg, acts).conns[c].local == Run(EventsOf(cfg, acts, c))
    ensures c >= |Exec(cfg, acts).conns| ==> EventsOf(cfg, acts, c) == []
  {
    if acts != [] {
      var n := |acts| - 1;
      var s, a, es := Exec(cfg, acts[..n]), acts[n], EventsOf(cfg, acts[..n], c);
      Projection(cfg, acts[..n], c);
      ExecStep(cfg, acts);
      EventsStep(cfg, acts, c);
      if CanHappen(s, a) {
        NextLocals(cfg, s, a);
        hide Exec, EventsOf, Next;
        if a.Happens? && a.c == c {
          assert (es + [a.e])[..|es|] == es;
          assert CanRun(es + [a.e]) && Run(es + [a.e]) == Step(Run(es), a.e);
        }
      }
    }
  }

  /** No handler learns anything of the others: two runs of the daemon, under
      any policies and schedules, in which the same things happen to connection
      `c` leave it in the same state. */
  lemma Noninterference(cfg: Config, acts: seq<Action>, cfg': Config, acts': seq<Action>, c: nat)
    requires c < |Exec(cfg, acts).conns| && c < |Exec(cfg', acts').conns|
    requires EventsOf(cfg, acts, c) == EventsOf(cfg', acts', c)
    ensures Exec(cfg, acts).conns[c].local == Exec(cfg', acts').conns[c].local
  {
    Projection(cfg, acts, c);
    Projection(cfg', acts', c);
  }

  /** Nor does the shared state ever hold a handler up: whatever can happen to
      a handler alone can happen to it in the daemon. */
  lemma NeverBlocked(cfg: Config, acts: seq<Action>, c: nat, e: Event, minted: IsolationToken)
    requires c < |Exec(cfg, acts).conns| && minted !in Exec(cfg, acts).issued
    ensures CanHappen(Exec(cfg, acts), Happens(c, e, minted)) <==> CanRun(EventsOf(cfg, acts, c) + [e])
  {
    Projection(cfg, acts, c);
    var es := EventsOf(cfg, acts, c);
    assert (es + [e])[..|es|] == es;
  }
}
