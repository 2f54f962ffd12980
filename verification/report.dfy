/** From the wire to the terminal: what `tord query streams` prints of a client. */
module Report {
  import opened Common
  import opened Address
  import opened Wire
  import opened Handler
  import opened Daemon
  import opened Json
  import opened Text
  import opened Table
  import Arrival
  import Decimal
  import Encoding
  import Fidelity
  import History
  import Rows
  import Scaling
  import Service
  import Solo
  import Streams
  import Tor
  import Traffic
  import Utf8

  function NumberOf(n: nat): Value {
    Number(Decimal.Show(n), Some(n))
  }

  /** A row of a snapshot as the control socket sends it: a map sorted by key. */
  function RowJson(r: Streams.Row, age: nat): Value {
    Object([
      Field("age_secs", NumberOf(age)),
      Field("bytes_to_client", NumberOf(r.bytesToClient)),
      Field("bytes_to_upstream", NumberOf(r.bytesToUpstream)),
      Field("id", NumberOf(r.id)),
      Field("isolation", match r.isolation case None => Null case Some(u) => Str(u)),
      Field("peer", Str(r.peer)),
      Field("target", Str(r.target))])
  }

  lemma {:induction false} LookupAt(fields: seq<Field>, i: nat)
    requires i < |fields| && forall j | 0 <= j < i :: fields[j].key != fields[i].key
    ensures Lookup(fields, fields[i].key) == Some(fields[i].value)
  {
    if i > 0 {
      assert fields[1..][i - 1] == fields[i];
      forall j | 0 <= j < i - 1 ensures fields[1..][j].key != fields[1..][i - 1].key {
        assert fields[1..][j] == fields[j + 1];
      }
      LookupAt(fields[1..], i - 1);
    }
  }

  lemma RowJsonFields(r: Streams.Row, age: nat)
    ensures var v := RowJson(r, age);
            && Get(v, "age_secs") == Some(NumberOf(age))
            && Get(v, "bytes_to_client") == Some(NumberOf(r.bytesToClient))
            && Get(v, "bytes_to_upstream") == Some(NumberOf(r.bytesToUpstream))
            && Get(v, "id") == Some(NumberOf(r.id))
            && Get(v, "isolation") == Some(match r.isolation case None => Null case Some(u) => Str(u))
            && Get(v, "peer") == Some(Str(r.peer))
            && Get(v, "target") == Some(Str(r.target))
  {
    var fields := RowJson(r, age).fields;
    hide Lookup, NumberOf;
    LookupAt(fields, 0);
    LookupAt(fields, 1);
    LookupAt(fields, 2);
    LookupAt(fields, 3);
    LookupAt(fields, 4);
    LookupAt(fields, 5);
    LookupAt(fields, 6);
  }

  /** A snapshot row, printed: each column shows its field. */
  lemma RowShown(r: Streams.Row, age: nat)
    ensures CellsOf(RowJson(r, age))
         == [Decimal.Show(r.id), r.peer, r.target, if r.isolation.Some? then r.isolation.value else "-",
             Scaling.Age(age), Scaling.Human(r.bytesToUpstream), Scaling.Human(r.bytesToClient)]
  {
    RowJsonFields(r, age);
    hide RowJson, Get, Scaling.Age, Scaling.Human, Decimal.Show;
  }

  /** The row of connection `c`, `age` seconds old, in a reply. */
  function RowOf(s: State, c: nat, age: nat): Value
    requires c < |s.conns| && s.conns[c].entry.Some? && s.conns[c].entry.value < |s.entries|
  {
    RowJson(Streams.View(s.entries[s.conns[c].entry.value]), age)
  }

  /** A row that says of a connection what its own bytes say: peer, destination
      and username, and the payload that it has relayed, modulo 2^64. */
  ghost predicate Tells(row: Streams.Row, conn: Conn) {
    var l := conn.local;
    var end := Session(l.Rx()).end;
    && conn.entry.Some? && row.id == conn.entry.value % U64
    && row.peer == (if conn.peer.unspecified then "local" else conn.peer.text)
    && end.Connect? && Unlabel(row.target) == Some(end.dest) && row.isolation == end.user
    && row.bytesToUpstream == |l.up| % U64 && row.bytesToClient == |l.down| % U64
  }

  lemma EntryTells(cfg: Config, acts: seq<Action>, c: nat)
    requires c < |Exec(cfg, acts).conns| && Exec(cfg, acts).conns[c].entry.Some?
    ensures var s := Exec(cfg, acts);
            && s.conns[c].entry.value < |s.entries|
            && Tells(Streams.View(s.entries[s.conns[c].entry.value]), s.conns[c])
  {
    Service.EveryClientServed(cfg, acts, c);
    Service.EntryOfConn(cfg, acts, c);
    Traffic.RowsMatchHandlers(cfg, acts);
    hide Exec, Session, Unlabel, Address.Label, Traffic.HasRow, Traffic.NeverReuses;
  }

  /** What a snapshot says, in every run: each row is that of a running handler
      and tells of its connection, and every connection whose stream is in the
      registry has such a row. */
  lemma SnapshotTells(cfg: Config, acts: seq<Action>, rows: seq<Streams.Row>)
    requires Streams.IsSnapshot(rows, History.LiveEntries(Exec(cfg, acts)))
    ensures var s := Exec(cfg, acts);
            && (forall i | 0 <= i < |rows| :: RowOfSome(s, rows[i]))
            && (forall c | 0 <= c < |s.conns| && Traffic.HasRow(s, s.conns[c]) :: ToldBySome(rows, s.conns[c]))
  {
    Traffic.RowsMatchHandlers(cfg, acts);
    hide Exec, Tells, Streams.View, Traffic.NeverReuses;
    var s := Exec(cfg, acts);
    forall i | 0 <= i < |rows| ensures RowOfSome(s, rows[i]) {
      RowIsSome(cfg, acts, rows, i);
    }
    forall c | 0 <= c < |s.conns| && Traffic.HasRow(s, s.conns[c]) ensures ToldBySome(rows, s.conns[c]) {
      SomeIsRow(cfg, acts, rows, c);
    }
  }

  ghost predicate RowOfSome(s: State, row: Streams.Row) {
    exists c | 0 <= c < |s.conns| ::
      Traffic.HasRow(s, s.conns[c]) && !s.conns[c].local.io.Done? && Tells(row, s.conns[c])
  }

  ghost predicate ToldBySome(rows: seq<Streams.Row>, conn: Conn) {
    exists i | 0 <= i < |rows| :: Tells(rows[i], conn)
  }

  lemma RowIsSome(cfg: Config, acts: seq<Action>, rows: seq<Streams.Row>, i: nat)
    requires Streams.IsSnapshot(rows, History.LiveEntries(Exec(cfg, acts))) && i < |rows|
    ensures RowOfSome(Exec(cfg, acts), rows[i])
  {
    Traffic.RowsMatchHandlers(cfg, acts);
    Traffic.ExecKeeps(cfg, acts);
    hide Exec, Tells, Streams.View, Traffic.NeverReuses, Traffic.Conserved, Rows.EntryOf;
    var s := Exec(cfg, acts);
    var e := s.live[rows[i].id];
    var c := s.owner[e];
    assert Rows.Runs(s, e) && s.conns[c].entry == Some(e);
    EntryTells(cfg, acts, c);
  }

  lemma SomeIsRow(cfg: Config, acts: seq<Action>, rows: seq<Streams.Row>, c: nat)
    requires Streams.IsSnapshot(rows, History.LiveEntries(Exec(cfg, acts)))
    requires c < |Exec(cfg, acts).conns| && Traffic.HasRow(Exec(cfg, acts), Exec(cfg, acts).conns[c])
    ensures ToldBySome(rows, Exec(cfg, acts).conns[c])
  {
    EntryTells(cfg, acts, c);
    hide Exec, Tells, Streams.View;
    var s := Exec(cfg, acts);
    var id := Rows.IdOf(s.conns[c].entry.value);
    assert Streams.HasId(rows, id);
    var i :| 0 <= i < |rows| && rows[i].id == id;
    assert Tells(rows[i], s.conns[c]);
  }

  /** The printed cells of such a row: they read back as the numbers that the
      row has, the byte counts as `human_bytes` rounds them. */
  ghost predicate Displays(cells: seq<string>, conn: Conn, age: nat) {
    var l := conn.local;
    var end := Session(l.Rx()).end;
    && |cells| == 7 && conn.entry.Some? && end.Connect?
    && Decimal.ReadNumber(cells[0]) == (conn.entry.value % U64, "")
    && cells[1] == (if conn.peer.unspecified then "local" else conn.peer.text)
    && Unlabel(cells[2]) == Some(end.dest)
    && cells[3] == (if end.user.Some? then end.user.value else "-")
    && Scaling.Seconds(cells[4]) == (if age < 3600 then age else age / 60 * 60)
    && Scaling.Denoted(cells[5]) == Some(Scaling.Printed(|l.up| % U64))
    && Scaling.Denoted(cells[6]) == Some(Scaling.Printed(|l.down| % U64))
  }

  lemma NumberRead(n: nat)
    ensures Decimal.ReadNumber(Decimal.Show(n)) == (n, "")
  {
    assert Decimal.Show(n) + "" == Decimal.Show(n);
    Decimal.ReadShow(n, "");
  }

  /** Cells that read back as the fields of a row. */
  predicate Read(cells: seq<string>, row: Streams.Row, age: nat) {
    && |cells| == 7
    && Decimal.ReadNumber(cells[0]) == (row.id, "")
    && cells[1] == row.peer && cells[2] == row.target
    && cells[3] == (if row.isolation.Some? then row.isolation.value else "-")
    && Scaling.Seconds(cells[4]) == (if age < 3600 then age else age / 60 * 60)
    && Scaling.Denoted(cells[5]) == Some(Scaling.Printed(row.bytesToUpstream))
    && Scaling.Denoted(cells[6]) == Some(Scaling.Printed(row.bytesToClient))
  }

  lemma CellsRead(row: Streams.Row, age: nat)
    ensures Read(CellsOf(RowJson(row, age)), row, age)
  {
    RowShown(row, age);
    hide RowJson, CellsOf, Decimal.ReadNumber, Decimal.Show, Scaling.Age, Scaling.Human;
    hide Scaling.Seconds, Scaling.Denoted, Scaling.Printed;
    NumberRead(row.id);
    Scaling.AgeDenotes(age);
    Scaling.HumanDenotes(row.bytesToUpstream);
    Scaling.HumanDenotes(row.bytesToClient);
  }

  lemma TellingPrints(cells: seq<string>, row: Streams.Row, conn: Conn, age: nat)
    requires Tells(row, conn) && Read(cells, row, age)
    ensures Displays(cells, conn, age)
  {
    hide Session, Unlabel, Decimal.ReadNumber, Scaling.Seconds, Scaling.Denoted, Scaling.Printed;
  }

  /** From the wire to the terminal, in every run: the printed row of a client
      shows the host, port and username that its own bytes say, an unnamed
      client by a dash, and what it has relayed each way. */
  lemma ClientShown(cfg: Config, acts: seq<Action>, c: nat, age: nat)
    requires c < |Exec(cfg, acts).conns| && Exec(cfg, acts).conns[c].entry.Some?
    ensures var s := Exec(cfg, acts);
            && s.conns[c].entry.value < |s.entries|
            && Displays(CellsOf(RowOf(s, c, age)), s.conns[c], age)
  {
    EntryTells(cfg, acts, c);
    hide Exec, Tells, Displays, Read, CellsOf, RowJson, Streams.View;
    var s := Exec(cfg, acts);
    var row := Streams.View(s.entries[s.conns[c].entry.value]);
    CellsRead(row, age);
    TellingPrints(CellsOf(RowJson(row, age)), row, s.conns[c], age);
  }

  /** So it is for every row of every snapshot, whichever connection it is of. */
  lemma SnapshotPrinted(cfg: Config, acts: seq<Action>, rows: seq<Streams.Row>, i: nat, age: nat) returns (c: nat)
    requires Streams.IsSnapshot(rows, History.LiveEntries(Exec(cfg, acts))) && i < |rows|
    ensures var s := Exec(cfg, acts);
            && c < |s.conns| && Traffic.HasRow(s, s.conns[c]) && !s.conns[c].local.io.Done?
            && Displays(CellsOf(RowJson(rows[i], age)), s.conns[c], age)
  {
    RowIsSome(cfg, acts, rows, i);
    hide Exec, Tells, Displays, Read, CellsOf, RowJson, Traffic.HasRow, Streams.IsSnapshot;
    var s := Exec(cfg, acts);
    c :| 0 <= c < |s.conns| && Traffic.HasRow(s, s.conns[c])
         && !s.conns[c].local.io.Done? && Tells(rows[i], s.conns[c]);
    CellsRead(rows[i], age);
    TellingPrints(CellsOf(RowJson(rows[i], age)), rows[i], s.conns[c], age);
  }

  lemma TableRow(rows: seq<Value>, k: nat)
    requires k < |rows|
    ensures TableOf(rows)[k + 1] == CellsOf(rows[k])
  {
    hide CellsOf;
  }

  /** Of any reply with the row of a client whose username holds a line break,
      more lines are printed than there are rows. */
  lemma UsernameBreaksLine(cfg: Config, acts: seq<Action>, c: nat, age: nat, rows: seq<Value>, k: nat)
    requires c < |Exec(cfg, acts).conns| && Exec(cfg, acts).conns[c].entry.Some?
    requires var end := Session(Exec(cfg, acts).conns[c].local.Rx()).end;
             end.Connect? && end.user.Some? && '\n' in end.user.value
    requires Exec(cfg, acts).conns[c].entry.value < |Exec(cfg, acts).entries|
    requires k < |rows| && rows[k] == RowOf(Exec(cfg, acts), c, age)
    ensures |Split(StreamsText(rows), '\n')| > |rows| + 1
  {
    hide *;
    ClientShown(cfg, acts, c, age);
    BrokenCell(rows, k, Exec(cfg, acts).conns[c], age);
  }

  lemma BrokenCell(rows: seq<Value>, k: nat, conn: Conn, age: nat)
    requires k < |rows| && Displays(CellsOf(rows[k]), conn, age)
    requires var end := Session(conn.local.Rx()).end;
             end.Connect? && end.user.Some? && '\n' in end.user.value
    ensures |Split(StreamsText(rows), '\n')| > |rows| + 1
  {
    assert HasBreak(CellsOf(rows[k])) by {
      hide CellsOf, Session;
      assert CellsOf(rows[k])[3] == Session(conn.local.Rx()).end.user.value;
    }
    hide *;
    TableRow(rows, k);
    BrokenTable(rows, k + 1);
  }

  lemma BrokenTable(rows: seq<Value>, k: nat)
    requires k < |TableOf(rows)| && HasBreak(TableOf(rows)[k])
    ensures |Split(StreamsText(rows), '\n')| > |rows| + 1
  {
    TableLines(rows);
    hide TableOf, StreamsText, Split, LinesOf, Widths, HasBreak;
  }

  const BREAKING: string := "a\nb"

  lemma BreakingClient() returns (c: Encoding.Client)
    ensures c.Valid() && c.User() == Some(BREAKING) && |c.Welcome()| == 4
  {
    assert BREAKING[1..] == "\nb" && BREAKING[1..][1..] == "b" && BREAKING[1..][1..][1..] == "";
    assert |Utf8.Encode(BREAKING)| == 3;
    c := Encoding.Client([METHOD_USERPASS], Some(Encoding.Credentials(BREAKING, [])), 0, Encoding.V4([127, 0, 0, 1]), 443);
  }

  /** And there are such clients in runs of the daemon, with rows in its
      registry. */
  lemma BreakingClientServed(cfg: Config) returns (acts: seq<Action>)
    ensures var s := Exec(cfg, acts);
            && |s.conns| == 1 && Traffic.HasRow(s, s.conns[0])
            && Session(s.conns[0].local.Rx()).end.Connect?
            && Session(s.conns[0].local.Rx()).end.user == Some(BREAKING)
    ensures '\n' in BREAKING
  {
    assert BREAKING[1] == '\n';
    var c := BreakingClient();
    hide *;
    Encoding.SessionReadsClient(c, []);
    assert c.Encode() + [] == c.Encode();
    Wire.ConnectsIf(c.Encode(), 4);
    var es := Solo.ReachesTor(c.Encode(), 4);
    var peer := Streams.Peer(true, "");
    NothingYet(cfg);
    var minted := Arrival.FreshToken(Exec(cfg, []).issued);
    acts := Arrival.Arrive(cfg, [], peer, es, minted);
    OneWaiting(cfg, acts, Run(es), peer, minted);
    Service.EveryClientServed(cfg, acts, 0);
    Fidelity.HandlerRefinesReader(es);
  }

  lemma NothingYet(cfg: Config)
    ensures Exec(cfg, []).conns == []
  {}

  lemma OneWaiting(cfg: Config, acts: seq<Action>, l: Local, peer: Streams.Peer, minted: Tor.IsolationToken)
    requires Arrival.With(cfg, Exec(cfg, []), Exec(cfg, acts), peer, l, minted)
    requires l.io.Connecting? && l.dest.Some?
    ensures |Exec(cfg, acts).conns| == 1 && Exec(cfg, acts).conns[0].local == l
    ensures Traffic.HasRow(Exec(cfg, acts), Exec(cfg, acts).conns[0])
  {
    assert Exec(cfg, []).nextId == 0 && Rows.IdOf(0) == 0;
  }
}
