/** The stream registry over all runs: whose rows it holds, what they say, and
    where every relayed byte is counted. */
module Rows {
  import opened Common
  import opened Address
  import opened Handler
  import opened Daemon
  import opened Accounting
  import opened Streams
  import Tor

  // ---- what a step does to the shared state, case by case ----

  predicate Opens(s: State, a: Action)
    requires CanHappen(s, a)
  {
    a.Happens? && s.conns[a.c].local.dest.None? && Step(s.conns[a.c].local, a.e).dest.Some?
  }

  /** Entries stand still unless the splice of their handler is polled. */
  ghost predicate EntriesFollow(s: State, t: State, c: nat, e: Event)
    requires c < |s.conns|
  {
    var i := s.conns[c].entry;
    if e.PayloadUp? && i.Some? && i.value < |s.entries| then
      && t.entries == RelayUp(s, i.value, |e.data|).entries
      && t.counters == RelayUp(s, i.value, |e.data|).counters
    else if e.PayloadDown? && i.Some? && i.value < |s.entries| then
      && t.entries == RelayDown(s, i.value, |e.data|).entries
      && t.counters == RelayDown(s, i.value, |e.data|).counters
    else
      && t.entries == s.entries
      && t.counters.toUpstream == s.counters.toUpstream && t.counters.toClient == s.counters.toClient
  }

  lemma NextOpens(cfg: Config, s: State, a: Action)
    requires CanHappen(s, a) && Opens(s, a)
    ensures Next(cfg, s, a)
         == Open(cfg, SetLocal(s, a.c, Step(s.conns[a.c].local, a.e)), a.c, a.minted)
  {}

  lemma NextElse(cfg: Config, s: State, a: Action)
    requires CanHappen(s, a) && a.Happens? && !Opens(s, a) && Fated(s.conns[a.c].local)
    ensures var t := Next(cfg, s, a);
            var conn := s.conns[a.c];
            var r := Step(conn.local, a.e);
            && t.conns == s.conns[a.c := conn.(local := r)]
            && t.owner == s.owner && t.nextId == s.nextId && t.counters.total == s.counters.total
            && t.perUpstream == s.perUpstream && t.issued == s.issued
            && EntriesFollow(s, t, a.c, a.e)
            && t.live == (if conn.entry.Some? && conn.entry.value < |s.entries| && r.io.Done?
                          then s.live - {s.entries[conn.entry.value].id} else s.live)
  {
    StepFated(s.conns[a.c].local, a.e);
  }

  // ---- entries and their handlers ----

  /** Entries are numbered in the order of registration, each belongs to one
      handler, and every handler with a destination has one. */
  ghost predicate Owned(s: State) {
    && |s.owner| == |s.entries|
    && (forall e | 0 <= e < |s.entries| :: s.owner[e] < |s.conns| && s.conns[s.owner[e]].entry == Some(e))
    && (forall c | 0 <= c < |s.conns| :: s.conns[c].entry.Some? <==> s.conns[c].local.dest.Some?)
    && (forall c | 0 <= c < |s.conns| && s.conns[c].entry.Some? ::
          s.conns[c].entry.value < |s.entries| && s.owner[s.conns[c].entry.value] == c)
    && s.nextId == |s.entries| % U64
    && s.counters.total == s.nextId
  }

  /** What the entry of a handler with `n` registrations before it says. */
  function EntryOf(conn: Conn, n: nat): Entry
    requires conn.local.dest.Some?
  {
    var l := conn.local;
    Entry(n % U64, conn.peer, Label(l.dest.value), l.user, |l.up| % U64, |l.down| % U64)
  }

  /** Every entry says what its handler is doing. */
  ghost predicate Described(s: State) {
    && Owned(s)
    && forall e | 0 <= e < |s.entries| :: s.entries[e] == EntryOf(s.conns[s.owner[e]], e)
  }

  lemma OpensOwned(cfg: Config, s: State, a: Action)
    requires CanHappen(s, a) && AllFated(s) && Owned(s) && Opens(s, a)
    ensures Owned(Next(cfg, s, a))
  {
    NextOpens(cfg, s, a);
    hide Next, Step, Fated, Label;
    FetchAddWraps(|s.entries|, 1);
    var t := Next(cfg, s, a);
    forall e | 0 <= e < |t.entries|
      ensures t.owner[e] < |t.conns| && t.conns[t.owner[e]].entry == Some(e)
    {
      assert e < |s.entries| ==> t.owner[e] == s.owner[e];
    }
  }

  lemma OpensDescribed(cfg: Config, s: State, a: Action)
    requires CanHappen(s, a) && AllFated(s) && Described(s) && Opens(s, a)
    ensures Described(Next(cfg, s, a))
  {
    OpensOwned(cfg, s, a);
    StepFated(s.conns[a.c].local, a.e);
    NextOpens(cfg, s, a);
    hide Next, Step, Fated, Label;
    var t := Next(cfg, s, a);
    forall e | 0 <= e < |t.entries| ensures t.entries[e] == EntryOf(t.conns[t.owner[e]], e) {
      if e < |s.entries| {
        assert t.owner[e] == s.owner[e] != a.c;
      }
    }
  }

  lemma ElseOwned(cfg: Config, s: State, a: Action)
    requires CanHappen(s, a) && AllFated(s) && Owned(s) && a.Happens? && !Opens(s, a)
    ensures Owned(Next(cfg, s, a))
  {
    NextElse(cfg, s, a);
    StepFated(s.conns[a.c].local, a.e);
    hide Next, Step, Fated;
    var t := Next(cfg, s, a);
    forall e | 0 <= e < |t.entries|
      ensures t.owner[e] < |t.conns| && t.conns[t.owner[e]].entry == Some(e)
    {
      assert t.owner[e] == s.owner[e];
    }
  }

  /** Only polls of the splice relay bytes. */
  lemma StepRelays(l: Local, e: Event)
    requires Sized(l) && Fated(l) && Enabled(l, e)
    ensures var r := Step(l, e);
            && r.up == l.up + (if e.PayloadUp? then e.data else [])
            && r.down == l.down + (if e.PayloadDown? then e.data else [])
  {
    StepFated(l, e);
    if l.dest.None? && Step(l, e).dest.None? {
      assert Fated(Step(l, e));
    }
  }

  lemma ElseDescribed(cfg: Config, s: State, a: Action)
    requires CanHappen(s, a) && AllFated(s) && Described(s) && a.Happens? && !Opens(s, a)
    ensures Described(Next(cfg, s, a))
  {
    ElseOwned(cfg, s, a);
    NextElse(cfg, s, a);
    var l := s.conns[a.c].local;
    StepFated(l, a.e);
    hide Next, Step, Label;
    StepRelays(l, a.e);
    if l.dest.Some? {
      if a.e.PayloadUp? { FetchAddWraps(|l.up|, |a.e.data|); }
      if a.e.PayloadDown? { FetchAddWraps(|l.down|, |a.e.data|); }
    }
    hide Fated, FetchAdd;
    var t := Next(cfg, s, a);
    forall e | 0 <= e < |t.entries| ensures t.entries[e] == EntryOf(t.conns[t.owner[e]], e) {
      assert t.owner[e] == s.owner[e];
    }
  }

  lemma NextDescribed(cfg: Config, s: State, a: Action)
    requires CanHappen(s, a) && AllFated(s) && Described(s)
    ensures Described(Next(cfg, s, a))
  {
    if a.Happens? {
      if Opens(s, a) { OpensDescribed(cfg, s, a); } else { ElseDescribed(cfg, s, a); }
    }
  }

  // ---- the registry ----

  /** Whether the handler of entry `e` still runs. */
  predicate Runs(s: State, e: nat)
    requires e < |s.owner| && s.owner[e] < |s.conns|
  {
    !s.conns[s.owner[e]].local.io.Done?
  }

  /** The id of the `e`-th registration. */
  function IdOf(e: nat): nat {
    e % U64
  }

  /** Every row is that of a handler that still runs, under its own id. */
  ghost predicate RowsRun(s: State)
    requires Owned(s)
  {
    forall id | id in s.live :: s.live[id] < |s.entries| && Runs(s, s.live[id]) && IdOf(s.live[id]) == id
  }

  /** Every handler between registering and returning has its row. */
  ghost predicate RowsComplete(s: State)
    requires Owned(s)
  {
    forall e | 0 <= e < |s.entries| && Runs(s, e) :: IdOf(e) in s.live && s.live[IdOf(e)] == e
  }

  /** A handler that asks for a stream ends nobody's run. */
  lemma RunsAfterOpening(cfg: Config, s: State, a: Action, e: nat)
    requires CanHappen(s, a) && AllFated(s) && Owned(s) && Opens(s, a) && e <= |s.entries|
    ensures Owned(Next(cfg, s, a))
    ensures Runs(Next(cfg, s, a), e) == if e == |s.entries| then true else Runs(s, e)
  {
    OpensOwned(cfg, s, a);
    StepFated(s.conns[a.c].local, a.e);
    NextOpens(cfg, s, a);
    hide Next, Step, Fated, Label;
    assert e < |s.entries| ==> s.conns[s.owner[e]].entry == Some(e);
  }

  /** Any other event ends the run of at most its own entry's handler. */
  lemma RunsAfterElse(cfg: Config, s: State, a: Action, e: nat)
    requires CanHappen(s, a) && AllFated(s) && Owned(s) && a.Happens? && !Opens(s, a) && e < |s.entries|
    ensures Owned(Next(cfg, s, a))
    ensures Runs(Next(cfg, s, a), e)
         == (Runs(s, e) && !(s.conns[a.c].entry == Some(e) && Step(s.conns[a.c].local, a.e).io.Done?))
  {
    ElseOwned(cfg, s, a);
    NextElse(cfg, s, a);
    assert !s.conns[a.c].local.io.Done?;
    hide Next, Step, Fated;
    assert s.conns[s.owner[e]].entry == Some(e);
  }

  lemma RunsAfterOpen(cfg: Config, s: State, a: Action)
    requires CanHappen(s, a) && AllFated(s) && Owned(s) && Opens(s, a)
    ensures Owned(Next(cfg, s, a))
    ensures forall e | 0 <= e <= |s.entries| ::
              Runs(Next(cfg, s, a), e) == if e == |s.entries| then true else Runs(s, e)
  {
    OpensOwned(cfg, s, a);
    NextOpens(cfg, s, a);
    hide Next, Step, Fated, Opens;
    forall e | 0 <= e <= |s.entries|
      ensures Runs(Next(cfg, s, a), e) == if e == |s.entries| then true else Runs(s, e)
    {
      RunsAfterOpening(cfg, s, a, e);
    }
  }

  lemma OpensRegisters(cfg: Config, s: State, a: Action)
    requires CanHappen(s, a) && Owned(s) && Opens(s, a)
    ensures var t := Next(cfg, s, a);
            t.live == s.live[IdOf(|s.entries|) := |s.entries|] && |t.entries| == |s.entries| + 1
  {
    NextOpens(cfg, s, a);
    hide Next, Step, Label, Tor.Resolve, FetchAdd, Opens;
  }

  lemma OpensRowsRun(cfg: Config, s: State, a: Action)
    requires CanHappen(s, a) && AllFated(s) && Owned(s) && Opens(s, a) && RowsRun(s)
    ensures Owned(Next(cfg, s, a)) && RowsRun(Next(cfg, s, a))
  {
    RunsAfterOpen(cfg, s, a);
    OpensRegisters(cfg, s, a);
    hide Next, Owned, Runs, Opens, AllFated, CanHappen, IdOf;
    assert Runs(Next(cfg, s, a), |s.entries|);
  }

  /** A registration adds a row to those of running handlers; all of these keep
      theirs exactly if the next id is not live. */
  lemma OpensRows(cfg: Config, s: State, a: Action)
    requires CanHappen(s, a) && AllFated(s) && Owned(s) && Opens(s, a) && RowsRun(s)
    ensures Owned(Next(cfg, s, a)) && RowsRun(Next(cfg, s, a))
    ensures RowsComplete(s) ==> (RowsComplete(Next(cfg, s, a)) <==> s.nextId !in s.live)
  {
    OpensRowsRun(cfg, s, a);
    RunsAfterOpen(cfg, s, a);
    OpensRegisters(cfg, s, a);
    var t, n := Next(cfg, s, a), |s.entries|;
    assert s.nextId == IdOf(n);
    assert IdOf(n) in s.live ==> s.live[IdOf(n)] < |s.entries| && Runs(s, s.live[IdOf(n)]);
    hide Next, Owned, Runs, Opens, AllFated, CanHappen, IdOf, RowsRun;
    assert Runs(t, n);
    if IdOf(n) in s.live {
      assert Runs(t, s.live[IdOf(n)]);
    }
  }

  lemma ElseUnregisters(cfg: Config, s: State, a: Action)
    requires CanHappen(s, a) && AllFated(s) && Described(s) && a.Happens? && !Opens(s, a)
    ensures var t, i := Next(cfg, s, a), s.conns[a.c].entry;
            && |t.entries| == |s.entries|
            && (i.Some? ==> i.value < |s.entries| && Runs(s, i.value))
            && t.live == (if i.Some? && Step(s.conns[a.c].local, a.e).io.Done?
                          then s.live - {IdOf(i.value)} else s.live)
  {
    NextElse(cfg, s, a);
    assert !s.conns[a.c].local.io.Done?;
    hide Next, Opens, Step, Fated, Label;
    var i := s.conns[a.c].entry;
    if i.Some? {
      assert s.owner[i.value] == a.c;
      assert s.entries[i.value] == EntryOf(s.conns[a.c], i.value);
    }
  }

  lemma ElseRows(cfg: Config, s: State, a: Action)
    requires CanHappen(s, a) && AllFated(s) && Described(s) && a.Happens? && !Opens(s, a) && RowsRun(s)
    ensures Owned(Next(cfg, s, a)) && RowsRun(Next(cfg, s, a))
    ensures RowsComplete(s) ==> RowsComplete(Next(cfg, s, a))
  {
    ElseOwned(cfg, s, a);
    ElseUnregisters(cfg, s, a);
    var t := Next(cfg, s, a);
    var i := s.conns[a.c].entry;
    var over := i.Some? && Step(s.conns[a.c].local, a.e).io.Done?;
    hide Next, Opens, Step, Fated, Described, EntryOf;
    forall e | 0 <= e < |s.entries| ensures Runs(t, e) == (Runs(s, e) && !(over && i.value == e)) {
      RunsAfterElse(cfg, s, a, e);
    }
    hide Owned, Runs, AllFated, CanHappen, IdOf;
  }

  lemma AcceptedRows(cfg: Config, s: State, a: Action)
    requires a.Accepted? && Owned(s) && RowsRun(s)
    ensures Owned(Next(cfg, s, a)) && RowsRun(Next(cfg, s, a))
    ensures RowsComplete(s) ==> RowsComplete(Next(cfg, s, a))
  {
    var t := Next(cfg, s, a);
    hide IdOf;
    forall e | 0 <= e < |s.entries| ensures Runs(t, e) == Runs(s, e) {
      assert t.owner[e] == s.owner[e];
    }
  }

  /** Whether `a` registers a stream under an id that is still live. */
  predicate Reuses(s: State, a: Action) {
    CanHappen(s, a) && Opens(s, a) && s.nextId in s.live
  }

  /** Rows only ever belong to running handlers, and a step costs a running
      handler its row exactly when it registers under an id that is live. */
  lemma NextRows(cfg: Config, s: State, a: Action)
    requires CanHappen(s, a) && AllFated(s) && Described(s) && RowsRun(s)
    ensures Described(Next(cfg, s, a)) && RowsRun(Next(cfg, s, a))
    ensures RowsComplete(s) ==> (RowsComplete(Next(cfg, s, a)) <==> !Reuses(s, a))
  {
    NextDescribed(cfg, s, a);
    hide Next, CanHappen, Opens, AllFated, Described, RowsRun, RowsComplete;
    if a.Accepted? {
      AcceptedRows(cfg, s, a);
    } else if Opens(s, a) {
      OpensRows(cfg, s, a);
    } else {
      ElseRows(cfg, s, a);
    }
  }

  /** Among the first 2^64 registrations, ids are the entries' numbers. */
  lemma SmallIds(s: State)
    requires Owned(s) && RowsRun(s) && RowsComplete(s) && |s.entries| <= U64
    ensures forall id | 0 <= id < |s.entries| :: id in s.live <==> Runs(s, id)
    ensures forall id | id in s.live :: id < |s.entries| && s.live[id] == id
  {
    hide Runs;
    assert forall e | 0 <= e < |s.entries| :: IdOf(e) == e;
  }
}
