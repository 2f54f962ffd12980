/** The client's byte stream as the server polls it, tokio's helpers over it,
    and the adapter that counts what flows. */
module Metering {
  import opened Common
  import opened Streams

  /** The bytes that reads can still get: an empty delivery is the end of file
      or an error, for good. */
  ghost function Unbroken(deliveries: seq<bytes>): bytes {
    if deliveries == [] || deliveries[0] == [] then [] else deliveries[0] + Unbroken(deliveries[1..])
  }

  /** The bytes that writes can still place: a write that takes nothing is an
      error, for good. */
  ghost function Capacity(accepts: seq<nat>): nat {
    if accepts == [] || accepts[0] == 0 then 0 else accepts[0] + Capacity(accepts[1..])
  }

  function Min(a: nat, b: nat): nat {
    if a < b then a else b
  }

  /** The part of `data` that a stream with `room` takes before it fails. */
  function Cut(data: bytes, room: nat): bytes {
    data[..Min(|data|, room)]
  }

  class Client {
    var deliveries: seq<bytes>
    var accepts: seq<nat>
    var written: bytes

    ghost function Unread(): bytes
      reads this`deliveries
    {
      Unbroken(deliveries)
    }

    ghost function Room(): nat
      reads this`accepts
    {
      Capacity(accepts)
    }

    constructor (deliveries: seq<bytes>, accepts: seq<nat>)
      ensures this.deliveries == deliveries && this.accepts == accepts && written == []
    {
      this.deliveries, this.accepts, this.written := deliveries, accepts, [];
    }

    /** One poll with room for `cap` bytes; `None` is end of file or an error. */
    method PollRead(cap: nat) returns (r: Option<bytes>)
      modifies this`deliveries
      ensures match r
              case None => cap > 0 && Unread() == old(Unread()) == []
              case Some(b) => (cap > 0 ==> b != []) && |b| <= cap && old(Unread()) == b + Unread()
    {
      if cap == 0 { return Some([]); }
      if deliveries == [] || deliveries[0] == [] {
        return None;
      }
      var head, rest := deliveries[0], deliveries[1..];
      var n := Min(cap, |head|);
      r := Some(head[..n]);
      if n < |head| {
        deliveries := [head[n..]] + rest;
        assert deliveries[1..] == rest;
        assert head == head[..n] + head[n..];
      } else {
        deliveries := rest;
        assert head[..n] == head;
      }
    }

    /** One poll to write `data`; `None` is an error. */
    method PollWrite(data: bytes) returns (r: Option<nat>)
      modifies this`accepts, this`written
      ensures match r
              case None => data != [] && Room() == old(Room()) == 0 && written == old(written)
              case Some(n) =>
                && (data != [] ==> n > 0) && n <= |data| && n <= old(Room()) && Room() == old(Room()) - n
                && written == old(written) + data[..n]
    {
      if data == [] { return Some(0); }
      if accepts == [] || accepts[0] == 0 {
        return None;
      }
      var head, rest := accepts[0], accepts[1..];
      var n := Min(|data|, head);
      r := Some(n);
      written := written + data[..n];
      if n < head {
        accepts := [head - n] + rest;
        assert accepts[1..] == rest;
      } else {
        accepts := rest;
      }
    }

    /** `AsyncReadExt::read_exact`: all of `n` bytes, however they arrive, and
        nothing beyond them; or failure, if they never do. */
    method ReadExact(n: nat) returns (r: Option<bytes>)
      modifies this`deliveries
      ensures var s := old(Unread());
              if n <= |s| then r == Some(s[..n]) && Unread() == s[n..]
              else r == None && Unread() == []
    {
      var got: bytes := [];
      while |got| < n
        invariant |got| <= n
        invariant old(Unread()) == got + Unread()
      {
        var p := PollRead(n - |got|);
        if p == None {
          return None;
        }
        ghost var before := got;
        got := got + p.value;
        assert before + (p.value + Unread()) == got + Unread();
      }
      return Some(got);
    }

    /** `AsyncWriteExt::write_all`: all of `data`, or a prefix and failure. */
    method WriteAll(data: bytes) returns (ok: bool)
      modifies this`accepts, this`written
      ensures ok <==> |data| <= old(Room())
      ensures written == old(written) + Cut(data, old(Room()))
      ensures Room() == old(Room()) - Min(|data|, old(Room()))
    {
      var i := 0;
      while i < |data|
        invariant i <= |data| && i <= old(Room())
        invariant written == old(written) + data[..i]
        invariant Room() == old(Room()) - i
      {
        var p := PollWrite(data[i..]);
        if p == None {
          return false;
        }
        assert data[..i] + data[i..][..p.value] == data[..i + p.value];
        i := i + p.value;
      }
      return true;
    }
  }

  /** Counting two amounts in turn is counting their sum; a counter that wraps
      stays below 2^64. */
  lemma FetchAddTwice(x: nat, m: nat, n: nat)
    ensures FetchAdd(FetchAdd(x, m), n) == FetchAdd(x, m + n)
  {}

  /** The four counters that a splice bumps. */
  datatype Tally = Tally(totalUp: nat, totalDown: nat, entryUp: nat, entryDown: nat)

  function Tallied(t: Tally, up: nat, down: nat): Tally {
    Tally(FetchAdd(t.totalUp, up), FetchAdd(t.totalDown, down), FetchAdd(t.entryUp, up), FetchAdd(t.entryDown, down))
  }

  ghost predicate Wrapped(t: Tally) {
    t.totalUp < U64 && t.totalDown < U64 && t.entryUp < U64 && t.entryDown < U64
  }

  lemma TalliedTwice(t: Tally, u: nat, d: nat, m: nat, n: nat)
    ensures Tallied(Tallied(t, u, d), m, n) == Tallied(t, u + m, d + n)
  {
    FetchAddTwice(t.totalUp, u, m);
    FetchAddTwice(t.totalDown, d, n);
    FetchAddTwice(t.entryUp, u, m);
    FetchAddTwice(t.entryDown, d, n);
  }

  lemma TalliedNothing(t: Tally)
    requires Wrapped(t)
    ensures Tallied(t, 0, 0) == t
    ensures forall n: nat ::
              Tallied(t, n, 0) == t.(totalUp := FetchAdd(t.totalUp, n), entryUp := FetchAdd(t.entryUp, n))
    ensures forall n: nat ::
              Tallied(t, 0, n) == t.(totalDown := FetchAdd(t.totalDown, n), entryDown := FetchAdd(t.entryDown, n))
  {}

  /** Counts reads as bytes for the upstream, writes as bytes for the client,
      each in the totals and in the stream's own entry. */
  class Metered {
    const inner: Client
    const metrics: Metrics
    const entry: StreamEntry

    constructor (inner: Client, metrics: Metrics, entry: StreamEntry)
      ensures this.inner == inner && this.metrics == metrics && this.entry == entry
    {
      this.inner, this.metrics, this.entry := inner, metrics, entry;
    }

    ghost function Counts(): Tally
      reads metrics`bytesToUpstream, metrics`bytesToClient, entry`toUpstream, entry`toClient
    {
      Tally(metrics.bytesToUpstream, metrics.bytesToClient, entry.toUpstream, entry.toClient)
    }

    method PollRead(cap: nat) returns (r: Option<bytes>)
      modifies inner`deliveries, metrics`bytesToUpstream, entry`toUpstream
      ensures r.None? ==> cap > 0 && old(inner.Unread()) == []
      ensures r.Some? && cap > 0 ==> r.value != []
      ensures var n := if r.Some? then |r.value| else 0;
              && old(inner.Unread()) == (if r.Some? then r.value else []) + inner.Unread()
              && n <= cap
              && (n > 0 ==> metrics.bytesToUpstream == FetchAdd(old(metrics.bytesToUpstream), n))
              && (n > 0 ==> entry.toUpstream == FetchAdd(old(entry.toUpstream), n))
              && (n == 0 ==> metrics.bytesToUpstream == old(metrics.bytesToUpstream))
              && (n == 0 ==> entry.toUpstream == old(entry.toUpstream))
    {
      r := inner.PollRead(cap);
      if r.Some? && |r.value| > 0 {
        metrics.bytesToUpstream := FetchAdd(metrics.bytesToUpstream, |r.value|);
        entry.toUpstream := FetchAdd(entry.toUpstream, |r.value|);
      }
    }

    method PollWrite(data: bytes) returns (r: Option<nat>)
      modifies inner`accepts, inner`written, metrics`bytesToClient, entry`toClient
      ensures match r
              case None =>
                && data != [] && inner.written == old(inner.written) && inner.Room() == old(inner.Room()) == 0
                && metrics.bytesToClient == old(metrics.bytesToClient)
                && entry.toClient == old(entry.toClient)
              case Some(n) =>
                && (data != [] ==> n > 0) && n <= |data|
                && n <= old(inner.Room()) && inner.Room() == old(inner.Room()) - n
                && inner.written == old(inner.written) + data[..n]
                && metrics.bytesToClient == FetchAdd(old(metrics.bytesToClient), n)
                && entry.toClient == FetchAdd(old(entry.toClient), n)
    {
      r := inner.PollWrite(data);
      if r.Some? {
        metrics.bytesToClient := FetchAdd(metrics.bytesToClient, r.value);
        entry.toClient := FetchAdd(entry.toClient, r.value);
      }
    }
  }

  /** One poll of the splice, as the copying loop happens to schedule it. */
  datatype Turn = Upward(cap: nat) | Downward(data: bytes)

  // ---- what the turns of a splice move ----

  /** Bytes read from the client, if turn `i` moves `takes[i]` bytes. */
  ghost function UpCount(turns: seq<Turn>, takes: seq<nat>): nat
    requires |takes| == |turns|
  {
    if turns == [] then 0
    else
      var n := |turns| - 1;
      UpCount(turns[..n], takes[..n]) + if turns[n].Upward? then takes[n] else 0
  }

  /** Bytes written to it: the head of what each turn brings down, in order. */
  ghost function DownData(turns: seq<Turn>, takes: seq<nat>): bytes
    requires |takes| == |turns|
  {
    if turns == [] then []
    else
      var n := |turns| - 1;
      var before := DownData(turns[..n], takes[..n]);
      if turns[n].Downward? && takes[n] <= |turns[n].data| then before + turns[n].data[..takes[n]] else before
  }

  /** A turn moves no more than it may, and something if there is anything to
      move: bytes unread by the client's end, room left at it. */
  ghost predicate Moves(turn: Turn, take: nat, unread: nat, room: nat) {
    match turn
    case Upward(cap) => take <= cap && take <= unread && (cap > 0 && unread > 0 ==> take > 0)
    case Downward(data) => take <= |data| && take <= room && (data != [] && room > 0 ==> take > 0)
  }

  /** The splice of a client with `unread` bytes to come and room for `room`:
      every turn moves what it can, up goes what the client sent, down goes what
      the turns brought, all in order. */
  ghost predicate Spliced(turns: seq<Turn>, takes: seq<nat>, unread: bytes, room: nat, up: bytes, down: bytes) {
    && |takes| == |turns|
    && UpCount(turns, takes) <= |unread| && up == unread[..UpCount(turns, takes)]
    && down == DownData(turns, takes) && |down| <= room
    && forall i | 0 <= i < |turns| :: MovesAt(turns, takes, |unread|, room, i)
  }

  /** What one turn moves: the next bytes unread, or the head of its data. */
  ghost function MovedUp(turn: Turn, take: nat, unread: bytes): bytes {
    if turn.Upward? && take <= |unread| then unread[..take] else []
  }

  ghost function MovedDown(turn: Turn, take: nat): bytes {
    if turn.Downward? && take <= |turn.data| then turn.data[..take] else []
  }

  lemma CountsMore(turns: seq<Turn>, takes: seq<nat>, turn: Turn, take: nat)
    requires |takes| == |turns|
    ensures UpCount(turns + [turn], takes + [take]) == UpCount(turns, takes) + if turn.Upward? then take else 0
    ensures DownData(turns + [turn], takes + [take]) == DownData(turns, takes) + MovedDown(turn, take)
  {
    assert (turns + [turn])[..|turns|] == turns && (takes + [take])[..|turns|] == takes;
    assert DownData(turns, takes) + [] == DownData(turns, takes);
  }

  lemma UpMore(unread: bytes, n: nat, take: nat)
    requires n + take <= |unread|
    ensures unread[..n] + unread[n..][..take] == unread[..n + take]
  {}

  /** `turns[i]` moves what it can, after those before it. */
  ghost predicate MovesAt(turns: seq<Turn>, takes: seq<nat>, unread: nat, room: nat, i: nat)
    requires i < |turns| == |takes|
  {
    Moves(turns[i], takes[i], unread - Min(unread, UpCount(turns[..i], takes[..i])),
          room - Min(room, |DownData(turns[..i], takes[..i])|))
  }

  lemma MovesMore(turns: seq<Turn>, takes: seq<nat>, unread: nat, room: nat, turn: Turn, take: nat)
    requires |takes| == |turns| && UpCount(turns, takes) <= unread && |DownData(turns, takes)| <= room
    requires forall i | 0 <= i < |turns| :: MovesAt(turns, takes, unread, room, i)
    requires Moves(turn, take, unread - UpCount(turns, takes), room - |DownData(turns, takes)|)
    ensures forall i | 0 <= i < |turns + [turn]| :: MovesAt(turns + [turn], takes + [take], unread, room, i)
  {
    var ts, ks := turns + [turn], takes + [take];
    hide Moves, UpCount, DownData;
    forall i | 0 <= i < |ts| ensures MovesAt(ts, ks, unread, room, i) {
      if i < |turns| {
        assert MovesAt(turns, takes, unread, room, i);
        assert ts[..i] == turns[..i] && ks[..i] == takes[..i];
      } else {
        assert ts[..i] == turns && ks[..i] == takes;
      }
    }
  }

  lemma SplicedMore(turns: seq<Turn>, takes: seq<nat>, unread: bytes, room: nat, up: bytes, down: bytes,
                    turn: Turn, take: nat)
    requires Spliced(turns, takes, unread, room, up, down)
    requires Moves(turn, take, |unread| - |up|, room - |down|)
    ensures Spliced(turns + [turn], takes + [take], unread, room,
                    up + MovedUp(turn, take, unread[|up|..]), down + MovedDown(turn, take))
  {
    CountsMore(turns, takes, turn, take);
    MovesMore(turns, takes, |unread|, room, turn, take);
    if turn.Upward? { UpMore(unread, |up|, take); }
    hide UpCount, DownData, MovesAt;
    assert up + [] == up;
  }

  lemma Associate(a: bytes, b: bytes, c: bytes)
    ensures a + b + c == a + (b + c)
  {}

  /** What a turn adds to the splice so far. */
  lemma TurnAdds(turns: seq<Turn>, i: nat, takes: seq<nat>, unread: bytes, room: nat, up: bytes, down: bytes,
                 take: nat, left: bytes, u: bytes, d: bytes, rest: bytes, written: bytes)
    requires i < |turns| && Spliced(turns[..i], takes, unread, room, up, down) && |down| <= room
    requires unread == up + left && left == u + rest
    requires Moves(turns[i], take, |left|, room - |down|)
    requires u == MovedUp(turns[i], take, left) && d == MovedDown(turns[i], take)
    ensures Spliced(turns[..i + 1], takes + [take], unread, room, up + u, down + d)
    ensures unread == up + u + rest && |down + d| <= room
    ensures written + down + d == written + (down + d)
  {
    Associate(up, u, rest);
    Associate(written, down, d);
    assert unread[|up|..] == left;
    assert turns[..i + 1] == turns[..i] + [turns[i]];
    assert |d| <= room - |down|;
    hide Spliced, Moves, MovedUp, MovedDown;
    SplicedMore(turns[..i], takes, unread, room, up, down, turns[i], take);
  }

  /** A splice in values: the client's ends and the counters. */
  datatype Stand = Stand(unread: bytes, room: nat, written: bytes, tally: Tally)

  ghost function StandOf(client: Metered): Stand
    reads client.inner, client.metrics`bytesToUpstream, client.metrics`bytesToClient
    reads client.entry`toUpstream, client.entry`toClient
  {
    Stand(client.inner.Unread(), client.inner.Room(), client.inner.written, client.Counts())
  }

  /** From `a` to `b` by moving `up` and `down`. */
  ghost predicate Moved(a: Stand, b: Stand, up: bytes, down: bytes) {
    && a.unread == up + b.unread && b.written == a.written + down
    && |down| <= a.room && b.room == a.room - |down|
    && b.tally == Tallied(a.tally, |up|, |down|)
  }

  /** After the first turns. */
  ghost predicate Underway(turns: seq<Turn>, takes: seq<nat>, a: Stand, b: Stand, up: bytes, down: bytes) {
    Spliced(turns, takes, a.unread, a.room, up, down) && Moved(a, b, up, down)
  }

  lemma UnderwayAtFirst(a: Stand)
    requires Wrapped(a.tally)
    ensures Underway([], [], a, a, [], [])
  {
    TalliedNothing(a.tally);
    assert a.unread[..0] == [] && [] + a.unread == a.unread && a.written + [] == a.written;
  }

  lemma UnderwayMore(turns: seq<Turn>, i: nat, takes: seq<nat>, a: Stand, b: Stand, c: Stand, up: bytes, down: bytes,
                     take: nat, u: bytes, d: bytes)
    requires i < |turns| && Underway(turns[..i], takes, a, b, up, down) && Moved(b, c, u, d)
    requires Moves(turns[i], take, |b.unread|, b.room)
    requires u == MovedUp(turns[i], take, b.unread) && d == MovedDown(turns[i], take)
    ensures Underway(turns[..i + 1], takes + [take], a, c, up + u, down + d) && Wrapped(c.tally)
  {
    TurnAdds(turns, i, takes, a.unread, a.room, up, down, take, b.unread, u, d, c.unread, a.written);
    TalliedTwice(a.tally, |up|, |down|, |u|, |d|);
    TalliedWraps(c.tally, b.tally, |u|, |d|);
    hide Spliced, Tallied, Wrapped, Moves, MovedUp, MovedDown;
  }

  /** One turn of the splice. */
  method TakeTurn(client: Metered, turn: Turn) returns (up: bytes, down: bytes, ghost take: nat)
    requires Wrapped(StandOf(client).tally)
    modifies client.inner, client.metrics`bytesToUpstream, client.metrics`bytesToClient
    modifies client.entry`toUpstream, client.entry`toClient
    ensures Moves(turn, take, |old(StandOf(client)).unread|, old(StandOf(client)).room)
    ensures up == MovedUp(turn, take, old(StandOf(client)).unread) && down == MovedDown(turn, take)
    ensures Moved(old(StandOf(client)), StandOf(client), up, down)
  {
    up, down, take := [], [], 0;
    ghost var a := StandOf(client);
    TalliedNothing(a.tally);
    assert [] + a.unread == a.unread && a.written + [] == a.written;
    hide Wrapped, Tallied, FetchAdd, Client.Unread, Client.Room;
    match turn {
      case Upward(cap) =>
        var r := client.PollRead(cap);
        if r.Some? {
          up, take := r.value, |r.value|;
          assert a.unread[..take] == up;
        }
      case Downward(data) =>
        var r := client.PollWrite(data);
        if r.Some? {
          down, take := data[..r.value], r.value;
        }
    }
  }

  /** `tokio::io::copy_bidirectional` under any schedule of polls, until it ends
      in whatever way: `takes` says how much each turn moved. What went up is what
      was next to be read from the client, what went down is what the turns
      brought, both in order, and every byte is counted twice over. */
  method CopyBidirectional(client: Metered, turns: seq<Turn>)
    returns (up: bytes, down: bytes, ghost takes: seq<nat>)
    requires Wrapped(client.Counts())
    modifies client.inner, client.metrics`bytesToUpstream, client.metrics`bytesToClient
    modifies client.entry`toUpstream, client.entry`toClient
    ensures Spliced(turns, takes, old(client.inner.Unread()), old(client.inner.Room()), up, down)
    ensures old(client.inner.Unread()) == up + client.inner.Unread()
    ensures client.inner.written == old(client.inner.written) + down
    ensures client.inner.Room() == old(client.inner.Room()) - |down|
    ensures client.Counts() == Tallied(old(client.Counts()), |up|, |down|)
  {
    up, down, takes := [], [], [];
    ghost var a := StandOf(client);
    UnderwayAtFirst(a);
    assert turns[..0] == [] && a.tally == client.Counts();
    var i := 0;
    while i < |turns|
      invariant i <= |turns| && Underway(turns[..i], takes, a, StandOf(client), up, down)
      invariant Wrapped(StandOf(client).tally)
    {
      hide *;
      ghost var b := StandOf(client);
      var u, d;
      ghost var take;
      u, d, take := TakeTurn(client, turns[i]);
      UnderwayMore(turns, i, takes, a, b, StandOf(client), up, down, take, u, d);
      up, down, takes := up + u, down + d, takes + [take];
      i := i + 1;
    }
    assert turns[..i] == turns;
  }

  lemma TalliedWraps(t: Tally, counts: Tally, up: nat, down: nat)
    requires t == Tallied(counts, up, down)
    ensures Wrapped(t)
  {}
}
