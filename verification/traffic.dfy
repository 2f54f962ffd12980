/** Every relayed byte is counted twice over and never lost: conservation
    between the process totals, the stream entries and the handlers. */
module Traffic {
  import opened Common
  import opened Handler
  import opened Daemon
  import opened Accounting
  import opened Rows
  import opened Streams
  import opened Wire
  import Address
  import Fidelity

  function UpOf(e: Entry): nat { e.toUpstream }
  function DownOf(e: Entry): nat { e.toClient }
  function UpIn(c: Conn): nat { |c.local.up| }
  function DownIn(c: Conn): nat { |c.local.down| }

  /** A wrapping total counts what all entries ever allocated count, and what
      all handlers ever accepted relayed, in one direction. */
  ghost predicate Agree(total: nat, f: Entry -> nat, entries: seq<Entry>, g: Conn -> nat, conns: seq<Conn>) {
    && total == Total(f, entries) % U64 == Total(g, conns) % U64
    && Total(f, entries) <= Total(g, conns)
  }

  ghost predicate Conserved(s: State) {
    && Agree(s.counters.toUpstream, UpOf, s.entries, UpIn, s.conns)
    && Agree(s.counters.toClient, DownOf, s.entries, DownIn, s.conns)
  }

  /** Wrapping one summand wraps the sum. */
  lemma WrappedSummand(total: nat, x: nat, n: nat, total': nat)
    requires total' + x == total + FetchAdd(x, n)
    ensures total' % U64 == (total + n) % U64 == FetchAdd(total % U64, n)
    ensures total' <= total + n
  {
    var k := (x + n) / U64;
    assert total' == total + n - k * U64;
    ModShift(total + n, k);
    FetchAddWraps(total, n);
  }

  lemma ModShift(a: nat, k: nat)
    requires k * U64 <= a
    ensures (a - k * U64) % U64 == a % U64
  {}

  /** `n` bytes counted for entry `i`, handler `c` and in total. */
  lemma AgreeRelayed(total: nat, f: Entry -> nat, entries: seq<Entry>, g: Conn -> nat, conns: seq<Conn>,
                     i: nat, e: Entry, c: nat, k: Conn, n: nat)
    requires Agree(total, f, entries, g, conns) && i < |entries| && c < |conns|
    requires f(e) == FetchAdd(f(entries[i]), n) && g(k) == g(conns[c]) + n
    ensures Agree(FetchAdd(total, n), f, entries[i := e], g, conns[c := k])
  {
    TotalUpdate(f, entries, i, e);
    TotalUpdate(g, conns, c, k);
    WrappedSummand(Total(f, entries), f(entries[i]), n, Total(f, entries[i := e]));
    FetchAddWraps(Total(g, conns), n);
  }

  /** Nothing counted in this direction. */
  lemma AgreeStill(total: nat, f: Entry -> nat, entries: seq<Entry>, g: Conn -> nat, conns: seq<Conn>,
                   entries': seq<Entry>, c: nat, k: Conn)
    requires Agree(total, f, entries, g, conns) && c < |conns| && g(k) == g(conns[c])
    requires Total(f, entries') == Total(f, entries)
    ensures Agree(total, f, entries', g, conns[c := k])
  {
    TotalUpdate(g, conns, c, k);
  }

  /** What a registration leaves of the byte counts, and the entry it adds. */
  lemma OpensCounts(cfg: Config, s: State, a: Action) returns (e: Entry, k: Conn)
    requires CanHappen(s, a) && AllFated(s) && Opens(s, a)
    ensures var t := Next(cfg, s, a);
            && t.entries == s.entries + [e] && UpOf(e) == DownOf(e) == 0
            && t.conns == s.conns[a.c := k] && UpIn(k) == UpIn(s.conns[a.c]) && DownIn(k) == DownIn(s.conns[a.c])
            && t.counters.toUpstream == s.counters.toUpstream && t.counters.toClient == s.counters.toClient
  {
    StepFated(s.conns[a.c].local, a.e);
    NextOpens(cfg, s, a);
    assert Fated(s.conns[a.c].local);
    hide Next, Step, Fated, Address.Label;
    var t := Next(cfg, s, a);
    e, k := t.entries[|s.entries|], t.conns[a.c];
  }

  lemma OpensConserved(cfg: Config, s: State, a: Action)
    requires CanHappen(s, a) && AllFated(s) && Conserved(s) && Opens(s, a)
    ensures Conserved(Next(cfg, s, a))
  {
    var e, k := OpensCounts(cfg, s, a);
    hide Next, Step, Agree, Total, AllFated, CanHappen, Opens;
    var t := Next(cfg, s, a);
    TotalAppend(UpOf, s.entries, e);
    TotalAppend(DownOf, s.entries, e);
    AgreeStill(s.counters.toUpstream, UpOf, s.entries, UpIn, s.conns, t.entries, a.c, k);
    AgreeStill(s.counters.toClient, DownOf, s.entries, DownIn, s.conns, t.entries, a.c, k);
  }

  lemma ElseConserved(cfg: Config, s: State, a: Action)
    requires CanHappen(s, a) && AllFated(s) && Owned(s) && Conserved(s) && a.Happens? && !Opens(s, a)
    ensures Conserved(Next(cfg, s, a))
  {
    var conn := s.conns[a.c];
    NextElse(cfg, s, a);
    StepRelays(conn.local, a.e);
    assert a.e.PayloadUp? || a.e.PayloadDown? ==> conn.entry.Some? by { assert Fated(conn.local); }
    var t := Next(cfg, s, a);
    var k := t.conns[a.c];
    hide Next, Step, Fated, Agree;
    var (up, down) := (s.counters.toUpstream, s.counters.toClient);
    if a.e.PayloadUp? {
      var i := conn.entry.value;
      TotalUpdate(DownOf, s.entries, i, t.entries[i]);
      AgreeRelayed(up, UpOf, s.entries, UpIn, s.conns, i, t.entries[i], a.c, k, |a.e.data|);
      AgreeStill(down, DownOf, s.entries, DownIn, s.conns, t.entries, a.c, k);
    } else if a.e.PayloadDown? {
      var i := conn.entry.value;
      TotalUpdate(UpOf, s.entries, i, t.entries[i]);
      AgreeStill(up, UpOf, s.entries, UpIn, s.conns, t.entries, a.c, k);
      AgreeRelayed(down, DownOf, s.entries, DownIn, s.conns, i, t.entries[i], a.c, k, |a.e.data|);
    } else {
      AgreeStill(up, UpOf, s.entries, UpIn, s.conns, t.entries, a.c, k);
      AgreeStill(down, DownOf, s.entries, DownIn, s.conns, t.entries, a.c, k);
    }
  }

  lemma NextConserved(cfg: Config, s: State, a: Action)
    requires CanHappen(s, a) && AllFated(s) && Owned(s) && Conserved(s)
    ensures Conserved(Next(cfg, s, a))
  {
    if a.Accepted? {
      TotalAppend(UpIn, s.conns, Conn(a.peer, FRESH, None, None));
      TotalAppend(DownIn, s.conns, Conn(a.peer, FRESH, None, None));
    } else if Opens(s, a) {
      OpensConserved(cfg, s, a);
    } else {
      ElseConserved(cfg, s, a);
    }
  }

  // ---- the theorems about rows and bytes ----

  /** No step of a run registers a stream under an id that is still live. */
  predicate NeverReuses(cfg: Config, acts: seq<Action>) {
    acts == [] ||
    (NeverReuses(cfg, acts[..|acts| - 1]) && !Reuses(Exec(cfg, acts[..|acts| - 1]), acts[|acts| - 1]))
  }

  /** What every reachable state of the daemon keeps. */
  lemma {:induction false} ExecKeeps(cfg: Config, acts: seq<Action>)
    ensures var s := Exec(cfg, acts);
            && AllFated(s) && Described(s) && Conserved(s) && RowsRun(s)
            && (NeverReuses(cfg, acts) ==> RowsComplete(s))
  {
    if acts != [] {
      var n := |acts| - 1;
      var s := Exec(cfg, acts[..n]);
      ExecKeeps(cfg, acts[..n]);
      ExecAccounted(cfg, acts);
      assert Owned(s);
      hide Next, CanHappen, AllFated, Owned, Described, Conserved, RowsRun, RowsComplete, Reuses;
      if CanHappen(s, acts[n]) {
        NextRows(cfg, s, acts[n]);
        NextConserved(cfg, s, acts[n]);
      }
    }
  }

  lemma EntriesGrow(cfg: Config, s: State, a: Action)
    requires CanHappen(s, a) && AllFated(s)
    ensures |s.entries| <= |Next(cfg, s, a).entries|
  {
    if a.Happens? {
      if Opens(s, a) { NextOpens(cfg, s, a); } else { NextElse(cfg, s, a); }
    }
  }

  /** Conservation: at any time, each total equals the sum over every entry ever
      registered, live or gone, and the sum over every handler of what its
      splice relayed, modulo 2^64 throughout; while fewer than 2^64 bytes have
      been relayed, all three are the same number. */
  lemma BytesConserved(cfg: Config, acts: seq<Action>)
    ensures var s := Exec(cfg, acts);
            && s.counters.toUpstream == Total(UpOf, s.entries) % U64 == Total(UpIn, s.conns) % U64
            && s.counters.toClient == Total(DownOf, s.entries) % U64 == Total(DownIn, s.conns) % U64
            && (Total(UpIn, s.conns) < U64 ==>
                s.counters.toUpstream == Total(UpOf, s.entries) == Total(UpIn, s.conns))
            && (Total(DownIn, s.conns) < U64 ==>
                s.counters.toClient == Total(DownOf, s.entries) == Total(DownIn, s.conns))
  {
    hide Exec, Total, AllFated, Described;
    ExecKeeps(cfg, acts);
  }

  /** Whether the stream of `conn` is in the registry. */
  predicate HasRow(s: State, conn: Conn) {
    conn.entry.Some? && IdOf(conn.entry.value) in s.live && s.live[IdOf(conn.entry.value)] == conn.entry.value
  }

  /** Registry and handlers correspond: ids are handed out in order, as many as
      CONNECTs were counted, and every entry says what its handler is doing. A
      row is always that of a handler between registering and returning, under
      its own id; and every such handler has its row if no id was reused while
      live, as none is among the first 2^64. */
  lemma RowsMatchHandlers(cfg: Config, acts: seq<Action>)
    ensures var s := Exec(cfg, acts);
            && s.nextId == s.counters.total == |s.entries| % U64
            && |s.owner| == |s.entries|
            && (forall c | 0 <= c < |s.conns| && s.conns[c].local.dest.Some? ::
                  var conn := s.conns[c];
                  && conn.entry.Some? && conn.entry.value < |s.entries|
                  && s.owner[conn.entry.value] == c
                  && s.entries[conn.entry.value] == EntryOf(conn, conn.entry.value)
                  && (HasRow(s, conn) ==> !conn.local.io.Done?)
                  && (NeverReuses(cfg, acts) ==> (HasRow(s, conn) <==> !conn.local.io.Done?)))
            && (forall id | id in s.live ::
                  && s.live[id] < |s.entries| && s.entries[s.live[id]].id == id
                  && s.owner[s.live[id]] < |s.conns| && HasRow(s, s.conns[s.owner[s.live[id]]]))
            && (|s.entries| <= U64 ==> NeverReuses(cfg, acts))
  {
    ExecKeeps(cfg, acts);
    FewNeverReuse(cfg, acts);
    hide Exec, AllFated, Conserved, NeverReuses;
    var s := Exec(cfg, acts);
    forall c | 0 <= c < |s.conns| && s.conns[c].local.dest.Some?
      ensures s.conns[c].entry.Some? && s.owner[s.conns[c].entry.value] == c
      ensures Runs(s, s.conns[c].entry.value) == !s.conns[c].local.io.Done?
    {
      assert s.conns[c].entry.Some?;
    }
    hide Address.Label;
  }

  /** The first 2^64 registrations reuse no id. */
  lemma {:induction false} FewNeverReuse(cfg: Config, acts: seq<Action>)
    ensures |Exec(cfg, acts).entries| <= U64 ==> NeverReuses(cfg, acts)
  {
    if acts != [] && |Exec(cfg, acts).entries| <= U64 {
      var n := |acts| - 1;
      var s := Exec(cfg, acts[..n]);
      ExecKeeps(cfg, acts[..n]);
      if CanHappen(s, acts[n]) { EntriesGrow(cfg, s, acts[n]); }
      FewNeverReuse(cfg, acts[..n]);
      if CanHappen(s, acts[n]) && Opens(s, acts[n]) {
        OpensRegisters(cfg, s, acts[n]);
        NextIdUnused(s);
      }
    }
  }

  lemma NextIdUnused(s: State)
    requires Owned(s) && RowsRun(s) && RowsComplete(s) && |s.entries| < U64
    ensures s.nextId !in s.live
  {
    SmallIds(s);
    assert s.nextId == |s.entries|;
  }

  lemma {:induction false} NeverReusesBefore(cfg: Config, acts: seq<Action>, k: nat)
    requires k <= |acts| && NeverReuses(cfg, acts)
    ensures NeverReuses(cfg, acts[..k])
  {
    if k < |acts| {
      NeverReusesBefore(cfg, acts[..|acts| - 1], k);
      assert acts[..|acts| - 1][..k] == acts[..k];
    } else {
      assert acts[..k] == acts;
    }
  }

  /** Every running handler that has registered has its row. */
  ghost predicate NoRowLost(s: State) {
    Owned(s) && RowsComplete(s)
  }

  /** Exactly: no handler is ever without its row in a run if and only if no
      registration of the run finds its next id still live. */
  lemma {:induction false} RowsKeptExactly(cfg: Config, acts: seq<Action>)
    ensures NeverReuses(cfg, acts) <==> forall k | 0 <= k <= |acts| :: NoRowLost(Exec(cfg, acts[..k]))
  {
    if NeverReuses(cfg, acts) {
      forall k | 0 <= k <= |acts| ensures NoRowLost(Exec(cfg, acts[..k])) {
        NeverReusesBefore(cfg, acts, k);
        ExecKeeps(cfg, acts[..k]);
      }
    }
    if acts != [] && forall k | 0 <= k <= |acts| :: NoRowLost(Exec(cfg, acts[..k])) {
      var n := |acts| - 1;
      forall k | 0 <= k <= n ensures NoRowLost(Exec(cfg, acts[..n][..k])) {
        assert acts[..n][..k] == acts[..k];
      }
      RowsKeptExactly(cfg, acts[..n]);
      LastKeepsRows(cfg, acts);
    }
  }

  lemma LastKeepsRows(cfg: Config, acts: seq<Action>)
    requires acts != [] && NoRowLost(Exec(cfg, acts[..|acts| - 1])) && NoRowLost(Exec(cfg, acts[..|acts|]))
    ensures !Reuses(Exec(cfg, acts[..|acts| - 1]), acts[|acts| - 1])
  {
    var n := |acts| - 1;
    assert acts[..|acts|] == acts;
    var s := Exec(cfg, acts[..n]);
    ExecKeeps(cfg, acts[..n]);
    if CanHappen(s, acts[n]) {
      hide Next, Opens, AllFated, Described, RowsRun, RowsComplete, Conserved, Owned;
      NextRows(cfg, s, acts[n]);
    }
  }

  /** Once no handler remains, the registry is empty, whatever ids were reused. */
  lemma NoHandlersNoRows(cfg: Config, acts: seq<Action>)
    requires forall c | 0 <= c < |Exec(cfg, acts).conns| :: Exec(cfg, acts).conns[c].local.io.Done?
    ensures Exec(cfg, acts).live == map[]
  {
    ExecKeeps(cfg, acts);
    var s := Exec(cfg, acts);
    hide Exec, AllFated, Conserved;
    assert forall e | 0 <= e < |s.entries| :: !Runs(s, e);
    assert s.live.Keys == {};
  }

  /** A byte is only ever relayed, and so counted, when Tor has accepted and the
      client has been told so in full; and while its handler's row is in the
      registry, unless that row was lost to a reused id. */
  lemma CountedWhileRegistered(cfg: Config, acts: seq<Action>, a: Action)
    requires CanHappen(Exec(cfg, acts), a) && a.Happens? && (a.e.PayloadUp? || a.e.PayloadDown?)
    ensures var s := Exec(cfg, acts);
            var conn := s.conns[a.c];
            && conn.local.tor == Some(true)
            && IsLegal(conn.local.tx) && ReplyCode(conn.local.tx) == Some(REP_SUCCESS)
            && (NeverReuses(cfg, acts) ==> HasRow(s, conn))
  {
    var s := Exec(cfg, acts);
    ExecAccounted(cfg, acts);
    assert Fated(s.conns[a.c].local);
    assert s.conns[a.c].local.io.Splicing? && s.conns[a.c].local.tor == Some(true);
    RowsMatchHandlers(cfg, acts);
    Projection(cfg, acts, a.c);
    hide *;
    SplicingIsTold(EventsOf(cfg, acts, a.c));
  }

  lemma SplicingIsTold(es: seq<Event>)
    requires Run(es).io.Splicing? && Run(es).tor == Some(true)
    ensures IsLegal(Run(es).tx) && ReplyCode(Run(es).tx) == Some(REP_SUCCESS)
    ensures Run(es).dest.Some?
  {
    Fidelity.HandlerRefinesReader(es);
    hide Run, Session, Transcript, IsLegal, ReplyCode;
    var l := Run(es);
    TranscriptsLegal(l.Rx(), l.hung, l.tor);
  }
}
