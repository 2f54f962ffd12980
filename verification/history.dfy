/** What the daemon shows of its streams over time. */
module History {
  import opened Common
  import opened Handler
  import opened Daemon
  import opened Accounting
  import opened Rows
  import opened Traffic
  import opened Streams
  import opened Tor

  // ---- snapshots ----

  /** The live entries by id, as the registry's snapshot reads them. */
  ghost function LiveEntries(s: State): map<nat, Entry> {
    map id | id in s.live && s.live[id] < |s.entries| :: s.entries[s.live[id]]
  }

  function RowUp(r: Row): nat { r.bytesToUpstream }
  function RowDown(r: Row): nat { r.bytesToClient }

  /** Rows at different places of the entries. */
  ghost predicate Placed(rows: seq<Row>, at: seq<nat>, f: Row -> nat, entries: seq<Entry>, g: Entry -> nat, k: nat) {
    && |at| == |rows| && k <= |entries|
    && (forall i | 0 <= i < |rows| :: at[i] < k && f(rows[i]) == g(entries[at[i]]))
    && (forall i, j | 0 <= i < j < |rows| :: at[i] != at[j])
  }

  /** Rows of different entries add up to at most those entries. */
  lemma {:induction false} RowsWithin(rows: seq<Row>, at: seq<nat>, f: Row -> nat, entries: seq<Entry>, g: Entry -> nat, k: nat)
    requires Placed(rows, at, f, entries, g, k)
    ensures Total(f, rows) <= Total(g, entries[..k])
    decreases k
  {
    if rows != [] {
      assert at[0] < k;
      assert entries[..k][..k - 1] == entries[..k - 1];
      if j :| 0 <= j < |at| && at[j] == k - 1 {
        RowsWithin(rows[..j] + rows[j + 1..], at[..j] + at[j + 1..], f, entries, g, k - 1);
        TotalWithout(f, rows, j);
      } else {
        RowsWithin(rows, at, f, entries, g, k - 1);
      }
    }
  }

  lemma SnapshotPlaced(s: State, rows: seq<Row>, f: Row -> nat, g: Entry -> nat)
    requires Owned(s) && RowsRun(s) && IsSnapshot(rows, LiveEntries(s))
    requires forall e: Entry :: f(View(e)) == g(e)
    ensures Total(f, rows) <= Total(g, s.entries)
  {
    var at := seq(|rows|, i requires 0 <= i < |rows| => s.live[rows[i].id]);
    hide IdOf, Runs;
    forall i, j | 0 <= i < j < |rows| ensures at[i] != at[j] {
      assert IdOf(at[i]) == rows[i].id < rows[j].id == IdOf(at[j]);
    }
    RowsWithin(rows, at, f, s.entries, g, |s.entries|);
    assert s.entries[..|s.entries|] == s.entries;
  }

  /** The rows of any snapshot add up to at most the totals shown beside it,
      while fewer than 2^64 bytes have been relayed. */
  lemma SnapshotWithinTotals(cfg: Config, acts: seq<Action>, rows: seq<Row>)
    requires IsSnapshot(rows, LiveEntries(Exec(cfg, acts)))
    ensures var s := Exec(cfg, acts);
            && (Total(UpIn, s.conns) < U64 ==> Total(RowUp, rows) <= s.counters.toUpstream)
            && (Total(DownIn, s.conns) < U64 ==> Total(RowDown, rows) <= s.counters.toClient)
  {
    hide Exec, Total, AllFated, Conserved;
    var s := Exec(cfg, acts);
    ExecKeeps(cfg, acts);
    BytesConserved(cfg, acts);
    SnapshotPlaced(s, rows, RowUp, UpOf);
    SnapshotPlaced(s, rows, RowDown, DownOf);
  }

  // ---- one state and a later one ----

  /** What never changes, and what only grows. */
  ghost predicate Extends(s: State, t: State) {
    && |s.conns| <= |t.conns| && |s.entries| <= |t.entries|
    && |s.owner| == |s.entries| && |t.owner| == |t.entries|
    && s.owner <= t.owner
    && (forall c | 0 <= c < |s.conns| :: ConnExtends(s.conns[c], t.conns[c]))
    && (forall u | u in s.perUpstream :: u in t.perUpstream && t.perUpstream[u] == s.perUpstream[u])
    && s.issued <= t.issued
  }

  predicate ConnExtends(a: Conn, b: Conn) {
    && a.peer == b.peer
    && (a.local.dest.Some? ==> a.local.dest == b.local.dest && a.local.user == b.local.user
                               && a.entry == b.entry && a.token == b.token)
    && (a.local.io.Done? ==> a == b)
    && a.local.up <= b.local.up && a.local.down <= b.local.down
  }

  lemma StepExtends(cfg: Config, s: State, a: Action)
    requires CanHappen(s, a) && AllFated(s) && Owned(s) && a.Happens?
    ensures ConnExtends(s.conns[a.c], Next(cfg, s, a).conns[a.c])
  {
    StepFated(s.conns[a.c].local, a.e);
    StepRelays(s.conns[a.c].local, a.e);
    if Opens(s, a) { NextOpens(cfg, s, a); } else { NextElse(cfg, s, a); }
    assert !s.conns[a.c].local.io.Done?;
    hide Step, Fated, Owned;
  }

  lemma NextExtends(cfg: Config, s: State, a: Action)
    requires CanHappen(s, a) && AllFated(s) && Owned(s)
    ensures Extends(s, Next(cfg, s, a))
  {
    if a.Happens? {
      StepExtends(cfg, s, a);
      NextLocals(cfg, s, a);
      if Opens(s, a) {
        NextOpens(cfg, s, a);
      } else {
        NextElse(cfg, s, a);
      }
      hide Next, Step, Fated, Opens, ConnExtends;
      var t := Next(cfg, s, a);
      forall c | 0 <= c < |s.conns| ensures ConnExtends(s.conns[c], t.conns[c]) {
        if c != a.c { SameExtends(s.conns[c]); }
      }
    }
  }

  lemma SameExtends(c: Conn)
    ensures ConnExtends(c, c)
  {}

  lemma ExtendsItself(s: State)
    requires Owned(s)
    ensures Extends(s, s)
  {
    forall c | 0 <= c < |s.conns| ensures ConnExtends(s.conns[c], s.conns[c]) { SameExtends(s.conns[c]); }
  }

  lemma ExtendsTransitive(r: State, s: State, t: State)
    requires Extends(r, s) && Extends(s, t)
    ensures Extends(r, t)
  {
    forall c | 0 <= c < |r.conns| ensures ConnExtends(r.conns[c], t.conns[c]) {
      assert ConnExtends(r.conns[c], s.conns[c]) && ConnExtends(s.conns[c], t.conns[c]);
    }
  }

  lemma {:induction false} ExecExtends(cfg: Config, acts: seq<Action>, k: nat)
    requires k <= |acts|
    ensures Extends(Exec(cfg, acts[..k]), Exec(cfg, acts))
  {
    if k == |acts| {
      assert acts[..k] == acts;
      ExecKeeps(cfg, acts);
      ExtendsItself(Exec(cfg, acts));
    } else {
      var n := |acts| - 1;
      var s := Exec(cfg, acts[..n]);
      assert acts[..n][..k] == acts[..k];
      ExecExtends(cfg, acts[..n], k);
      ExecKeeps(cfg, acts[..n]);
      ExecStep(cfg, acts);
      assert Owned(s);
      hide *;
      if CanHappen(s, acts[n]) {
        NextExtends(cfg, s, acts[n]);
        ExtendsTransitive(Exec(cfg, acts[..k]), s, Next(cfg, s, acts[n]));
      }
    }
  }

  lemma EntryHistory(s: State, t: State, id: nat)
    requires Described(s) && Described(t) && Extends(s, t) && id < |s.entries|
    ensures var c := s.owner[id];
            && c < |s.conns| && c < |t.conns| && t.owner[id] == c
            && ConnExtends(s.conns[c], t.conns[c]) && s.conns[c].local.dest.Some?
            && s.entries[id] == EntryOf(s.conns[c], id)
            && t.entries[id] == EntryOf(t.conns[c], id)
  {
    hide EntryOf, ConnExtends;
    assert t.owner[id] == s.owner[id];
  }

  lemma LiveHistory(s: State, t: State, id: nat)
    requires Described(s) && Described(t) && Extends(s, t) && id < |s.entries| && |t.entries| <= U64
    requires RowsRun(s) && RowsComplete(s) && RowsRun(t) && RowsComplete(t)
    ensures id !in s.live ==> id !in t.live
    ensures id in s.live && id in t.live ==> s.live[id] == t.live[id] == id
  {
    EntryHistory(s, t, id);
    hide EntryOf, Described;
    assert Runs(t, id) ==> Runs(s, id);
    hide Runs, Extends, RowsRun, RowsComplete;
    SmallIds(s);
    SmallIds(t);
  }

  /** Row history: up to 2^64 registrations, an id that has left the registry
      never comes back, an id that stays keeps its peer, target and username,
      and its byte counts only rise while fewer than 2^64 bytes were relayed. */
  lemma RowHistory(cfg: Config, acts: seq<Action>, k: nat, id: nat)
    requires k <= |acts| && |Exec(cfg, acts).entries| <= U64
    requires id < |Exec(cfg, acts[..k]).entries|
    ensures var s, t := Exec(cfg, acts[..k]), Exec(cfg, acts);
            && id < |t.entries|
            && (id !in s.live ==> id !in t.live)
            && (id in s.live && id in t.live ==> s.live[id] == t.live[id] == id)
            && s.entries[id].id == t.entries[id].id == id
            && s.entries[id].peer == t.entries[id].peer
            && s.entries[id].target == t.entries[id].target
            && s.entries[id].isolation == t.entries[id].isolation
            && (Total(UpIn, t.conns) < U64 ==> s.entries[id].toUpstream <= t.entries[id].toUpstream)
            && (Total(DownIn, t.conns) < U64 ==> s.entries[id].toClient <= t.entries[id].toClient)
  {
    hide Exec, Total, AllFated, Conserved, Described, RowsRun, RowsComplete, NeverReuses;
    var s, t := Exec(cfg, acts[..k]), Exec(cfg, acts);
    ExecKeeps(cfg, acts[..k]);
    ExecKeeps(cfg, acts);
    FewNeverReuse(cfg, acts);
    NeverReusesBefore(cfg, acts, k);
    ExecExtends(cfg, acts, k);
    EntryHistory(s, t, id);
    LiveHistory(s, t, id);
    TotalBoundsPart(UpIn, t.conns, s.owner[id]);
    TotalBoundsPart(DownIn, t.conns, s.owner[id]);
  }

  /** What a reused id does: registering disturbs another row exactly when the
      next id is still live. `Traffic.RowsKeptExactly` says so of whole runs. */
  lemma OpenKeepsRows(cfg: Config, s: State, c: nat, minted: IsolationToken)
    requires c < |s.conns| && s.conns[c].local.dest.Some?
    requires forall id | id in s.live :: s.live[id] < |s.entries|
    ensures var t := Open(cfg, s, c, minted);
            (forall id | id in s.live :: id in t.live && t.live[id] == s.live[id]) <==> s.nextId !in s.live
  {
    var t := Open(cfg, s, c, minted);
    assert t.live[s.nextId] == |s.entries|;
  }
}
