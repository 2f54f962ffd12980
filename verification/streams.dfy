/** The live registry of proxied connections, and the process-wide counters. */
module Streams {
  import opened Common

  /** A client's address; the unspecified one stands for a client on the host. */
  datatype Peer = Peer(unspecified: bool, text: string)

  /** The contents of a `StreamEntry`. */
  datatype Entry = Entry(
    id: nat, peer: Peer, target: string, isolation: Option<string>,
    toUpstream: nat, toClient: nat)

  /** The contents of the `Metrics`. */
  datatype Counters = Counters(total: nat, ok: nat, failed: nat, toUpstream: nat, toClient: nat)

  /** One row of a snapshot. */
  datatype Row = Row(
    id: nat, peer: string, target: string, isolation: Option<string>,
    bytesToUpstream: nat, bytesToClient: nat)

  function View(e: Entry): Row {
    Row(e.id, if e.peer.unspecified then "local" else e.peer.text, e.target, e.isolation,
        e.toUpstream, e.toClient)
  }

  // ---- snapshots ----

  predicate Increasing(rows: seq<Row>) {
    forall i, j | 0 <= i < j < |rows| :: rows[i].id < rows[j].id
  }

  ghost predicate HasId(rows: seq<Row>, id: nat) {
    exists i | 0 <= i < |rows| :: rows[i].id == id
  }

  /** The rows of `live`, each once, ordered by id. */
  ghost predicate IsSnapshot(rows: seq<Row>, live: map<nat, Entry>) {
    && Increasing(rows)
    && (forall i | 0 <= i < |rows| :: rows[i].id in live && rows[i] == View(live[rows[i].id]))
    && (forall id | id in live :: HasId(rows, id))
  }

  /** Without its last row, a snapshot shows all but that row's entry. */
  lemma SnapshotButLast(rows: seq<Row>, live: map<nat, Entry>)
    requires IsSnapshot(rows, live) && rows != []
    ensures IsSnapshot(rows[..|rows| - 1], live - {rows[|rows| - 1].id})
  {
    var n := |rows| - 1;
    forall id | id in live - {rows[n].id} ensures HasId(rows[..n], id) {
      var i :| 0 <= i < |rows| && rows[i].id == id;
      assert rows[..n][i].id == id;
    }
  }

  lemma SameLast(a: seq<Row>, b: seq<Row>, live: map<nat, Entry>)
    requires IsSnapshot(a, live) && IsSnapshot(b, live) && a != []
    ensures b != [] && a[|a| - 1] == b[|b| - 1]
  {
    var m := |a| - 1;
    var j :| 0 <= j < |b| && b[j].id == a[m].id by { assert HasId(b, a[m].id); }
    var n := |b| - 1;
    var i :| 0 <= i < |a| && a[i].id == b[n].id by { assert HasId(a, b[n].id); }
  }

  /** A snapshot is determined by the live map, whatever order the hash map
      yields its values in. */
  lemma {:induction false} SnapshotUnique(a: seq<Row>, b: seq<Row>, live: map<nat, Entry>)
    requires IsSnapshot(a, live) && IsSnapshot(b, live)
    ensures a == b
  {
    if a == [] {
      if b != [] { SameLast(b, a, live); }
    } else {
      SameLast(a, b, live);
      var m, n := |a| - 1, |b| - 1;
      SnapshotButLast(a, live);
      SnapshotButLast(b, live);
      hide *;
      SnapshotUnique(a[..m], b[..n], live - {a[m].id});
      SameButLast(a, b);
    }
  }

  lemma SameButLast(a: seq<Row>, b: seq<Row>)
    requires a != [] && b != [] && a[|a| - 1] == b[|b| - 1] && a[..|a| - 1] == b[..|b| - 1]
    ensures a == b
  {
    assert a == a[..|a| - 1] + [a[|a| - 1]] && b == b[..|b| - 1] + [b[|b| - 1]];
  }

  // ---- the objects ----

  /** Per-connection state; the byte counters are bumped in place. */
  class StreamEntry {
    const id: nat
    const peer: Peer
    const target: string
    const isolation: Option<string>
    var toUpstream: nat
    var toClient: nat

    ghost function State(): Entry
      reads this
    {
      Entry(id, peer, target, isolation, toUpstream, toClient)
    }

    constructor (id: nat, peer: Peer, target: string, isolation: Option<string>)
      ensures State() == Entry(id, peer, target, isolation, 0, 0)
    {
      this.id := id;
      this.peer := peer;
      this.target := target;
      this.isolation := isolation;
      this.toUpstream := 0;
      this.toClient := 0;
    }
  }

  class Metrics {
    var connectsTotal: nat
    var connectsOk: nat
    var connectsFailed: nat
    var bytesToUpstream: nat
    var bytesToClient: nat

    ghost function State(): Counters
      reads this
    {
      Counters(connectsTotal, connectsOk, connectsFailed, bytesToUpstream, bytesToClient)
    }

    constructor ()
      ensures State() == Counters(0, 0, 0, 0, 0)
    {
      connectsTotal, connectsOk, connectsFailed, bytesToUpstream, bytesToClient := 0, 0, 0, 0, 0;
    }
  }

  class StreamRegistry {
    var inner: map<nat, StreamEntry>
    var nextId: nat

    ghost predicate Valid()
      reads this
    {
      nextId < U64 && forall id | id in inner :: inner[id].id == id
    }

    /** The registered entries, as values. */
    ghost function Live(): map<nat, Entry>
      reads this, inner.Values
    {
      map id | id in inner :: inner[id].State()
    }

    constructor ()
      ensures Valid() && inner == map[] && nextId == 0
    {
      inner, nextId := map[], 0;
    }

    /** Adds a row under the next id. Another row is lost exactly when that id
        is still live, which takes 2^64 registrations. */
    method Register(peer: Peer, target: string, isolation: Option<string>) returns (entry: StreamEntry)
      requires Valid()
      modifies this
      ensures Valid() && fresh(entry)
      ensures entry.State() == Entry(old(nextId), peer, target, isolation, 0, 0)
      ensures inner == old(inner)[entry.id := entry]
      ensures Live() == old(Live())[entry.id := entry.State()]
      ensures nextId == FetchAdd(old(nextId), 1)
    {
      var id := nextId;
      nextId := (nextId + 1) % U64;
      entry := new StreamEntry(id, peer, target, isolation);
      inner := inner[id := entry];
    }

    /** `StreamHandle::drop`: removes this entry's row and no other. */
    method Unregister(entry: StreamEntry)
      requires Valid()
      modifies this
      ensures Valid() && nextId == old(nextId)
      ensures inner == old(inner) - {entry.id}
      ensures Live() == old(Live()) - {entry.id}
    {
      inner := inner - {entry.id};
    }

    method Len() returns (n: nat)
      requires Valid()
      ensures n == |Live()|
    {
      n := |inner|;
      assert Live().Keys == inner.Keys;
    }

    /** Every live connection once, ordered by id. The values are visited in no
        particular order, as a hash map yields them. */
    method Snapshot() returns (rows: seq<Row>)
      requires Valid()
      ensures IsSnapshot(rows, Live())
    {
      var todo := inner.Keys;
      rows := [];
      while todo != {}
        invariant todo <= inner.Keys
        invariant Distinct(rows)
        invariant ShowsAll(rows, inner.Keys - todo)
        decreases todo
      {
        var id :| id in todo;
        var e := inner[id];
        var row := Row(e.id, if e.peer.unspecified then "local" else e.peer.text,
                       e.target, e.isolation, e.toUpstream, e.toClient);
        ghost var shown := inner.Keys - todo;
        ShowsOneMore(rows, shown, row);
        rows := rows + [row];
        todo := todo - {id};
        assert inner.Keys - todo == shown + {id};
      }
      ghost var visited := rows;
      rows := SortById(rows);
      ReorderedShowsAll(visited, rows, inner.Keys);
    }

    /** The entries of `ids`, and only they, are shown, in any order. */
    ghost predicate ShowsAll(rows: seq<Row>, ids: set<nat>)
      reads this, inner.Values
    {
      && (forall i | 0 <= i < |rows| ::
            rows[i].id in ids && rows[i].id in inner && rows[i] == View(inner[rows[i].id].State()))
      && (forall id | id in ids :: HasId(rows, id))
    }

    lemma ShowsOneMore(rows: seq<Row>, ids: set<nat>, row: Row)
      requires Valid() && ShowsAll(rows, ids)
      requires row.id in inner && row == View(inner[row.id].State())
      ensures ShowsAll(rows + [row], ids + {row.id})
    {
      forall id | id in ids + {row.id} ensures HasId(rows + [row], id) {
        if id == row.id {
          assert (rows + [row])[|rows|].id == id;
        } else {
          var i :| 0 <= i < |rows| && rows[i].id == id;
          assert (rows + [row])[i].id == id;
        }
      }
    }

    lemma ReorderedShowsAll(a: seq<Row>, b: seq<Row>, ids: set<nat>)
      requires ShowsAll(a, ids) && forall x :: x in b <==> x in a
      ensures ShowsAll(b, ids)
    {
      forall i | 0 <= i < |b|
        ensures b[i].id in ids && b[i].id in inner && b[i] == View(inner[b[i].id].State())
      {
        assert b[i] in a;
      }
      forall id | id in ids ensures HasId(b, id) {
        var i :| 0 <= i < |a| && a[i].id == id;
        assert a[i] in b;
      }
    }
  }

  // ---- `sort_by_key(|r| r.id)` ----

  predicate Distinct(rows: seq<Row>) {
    forall i, j | 0 <= i < j < |rows| :: rows[i].id != rows[j].id
  }

  lemma InsertedIncreasing(s: seq<Row>, i: nat, r: Row)
    requires i <= |s| && Increasing(s)
    requires (i > 0 ==> s[i - 1].id < r.id) && (i < |s| ==> r.id < s[i].id)
    ensures Increasing(s[..i] + [r] + s[i..])
  {
    var out := s[..i] + [r] + s[i..];
    forall j, k | 0 <= j < k < |out| ensures out[j].id < out[k].id {
      InsertedBetween(s, i, r, j, k);
    }
  }

  lemma InsertedBetween(s: seq<Row>, i: nat, r: Row, j: nat, k: nat)
    requires i <= |s| && Increasing(s) && j < k <= |s|
    requires (i > 0 ==> s[i - 1].id < r.id) && (i < |s| ==> r.id < s[i].id)
    ensures var out := s[..i] + [r] + s[i..]; out[j].id < out[k].id
  {
    var out := s[..i] + [r] + s[i..];
    assert out[j] == if j < i then s[j] else if j == i then r else s[j - 1];
    assert out[k] == if k < i then s[k] else if k == i then r else s[k - 1];
    assert j < i ==> s[j].id <= s[i - 1].id;
    assert k > i ==> s[i].id <= s[k - 1].id;
  }

  lemma InsertedMembers(s: seq<Row>, i: nat, r: Row)
    requires i <= |s|
    ensures forall x :: x in s[..i] + [r] + s[i..] <==> x in s || x == r
  {
    assert s == s[..i] + s[i..];
  }

  method Insert(sorted: seq<Row>, r: Row) returns (out: seq<Row>)
    requires Increasing(sorted) && forall i | 0 <= i < |sorted| :: sorted[i].id != r.id
    ensures Increasing(out) && forall x :: x in out <==> x in sorted || x == r
  {
    var i := |sorted|;
    while i > 0 && r.id < sorted[i - 1].id
      invariant 0 <= i <= |sorted|
      invariant i < |sorted| ==> r.id < sorted[i].id
    {
      i := i - 1;
    }
    InsertedIncreasing(sorted, i, r);
    InsertedMembers(sorted, i, r);
    out := sorted[..i] + [r] + sorted[i..];
  }

  method SortById(rows: seq<Row>) returns (out: seq<Row>)
    requires Distinct(rows)
    ensures Increasing(out) && forall x :: x in out <==> x in rows
  {
    out := [];
    var i := 0;
    while i < |rows|
      invariant i <= |rows|
      invariant Increasing(out) && forall x :: x in out <==> x in rows[..i]
    {
      forall k | 0 <= k < |out| ensures out[k].id != rows[i].id {
        assert out[k] in rows[..i];
      }
      out := Insert(out, rows[i]);
      assert rows[..i + 1] == rows[..i] + [rows[i]];
      i := i + 1;
    }
    assert rows[..|rows|] == rows;
  }
}
