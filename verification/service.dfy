/** The daemon against the one-shot reader: what clients sent, what they were
    told, and what the registry shows of them. */
module Service {
  import opened Common
  import opened Address
  import opened Wire
  import opened Handler
  import opened Daemon
  import Traffic
  import Fidelity
  import Conduct
  import Splice

  /** Connection `c` has an entry of its own, which names its client, its
      username and, in `host:port` form, its destination. */
  predicate RowShows(s: State, c: nat, user: Option<string>, dest: Dest)
    requires c < |s.conns|
  {
    && s.conns[c].entry.Some?
    && var e := s.conns[c].entry.value;
    && e < |s.entries| && e < |s.owner| && s.owner[e] == c
    && s.entries[e].peer == s.conns[c].peer
    && s.entries[e].isolation == user
    && Unlabel(s.entries[e].target) == Some(dest)
  }

  /** In every run of the daemon, under every schedule, each handler has a
      stream for the destination and username that its client's own bytes say,
      once they say so in full and never before; it has told its client a part
      of the answer that goes with them; its entry shows them; and that entry is
      a row of the registry exactly until the handler is gone, if no id was
      reused while live. */
  lemma EveryClientServed(cfg: Config, acts: seq<Action>, c: nat)
    requires c < |Exec(cfg, acts).conns|
    ensures var s := Exec(cfg, acts);
            var l := s.conns[c].local;
            var d := Session(l.Rx());
            && d.used == |l.Rx()|
            && l.tx <= Transcript(l.Rx(), l.hung, l.tor)
            && (d.end.Connect? <==> s.conns[c].entry.Some?)
            && (d.end.Connect? ==> RowShows(s, c, d.end.user, d.end.dest))
            && (Traffic.HasRow(s, s.conns[c]) ==> d.end.Connect? && !l.io.Done?)
            && (Traffic.NeverReuses(cfg, acts) ==>
                (Traffic.HasRow(s, s.conns[c]) <==> d.end.Connect? && !l.io.Done?))
  {
    var es := EventsOf(cfg, acts, c);
    Projection(cfg, acts, c);
    Fidelity.HandlerRefinesReader(es);
    Traffic.RowsMatchHandlers(cfg, acts);
    Traffic.ExecKeeps(cfg, acts);
    hide Exec, Session, Run, Transcript, Label, Unlabel, Traffic.Conserved, Traffic.NeverReuses;
    var conn := Exec(cfg, acts).conns[c];
    if conn.local.dest.Some? {
      UnlabelLabel(conn.local.dest.value);
    }
  }

  /** Nothing is relayed on any connection unless Tor accepted it and its client
      has been told so by a complete legal transcript; and no client is ever told
      anything but the beginning of a legal one. */
  lemma EveryHandlerFailsClosed(cfg: Config, acts: seq<Action>, c: nat)
    requires c < |Exec(cfg, acts).conns|
    ensures var l := Exec(cfg, acts).conns[c].local;
            && (exists t :: IsLegal(t) && l.tx <= t)
            && (ReplyCode(l.tx) == Some(REP_SUCCESS) ==> l.tor == Some(true))
            && (l.up + l.down != [] ==> IsLegal(l.tx) && ReplyCode(l.tx) == Some(REP_SUCCESS))
            && |l.Rx()| <= 1032 && |l.tx| <= 14
  {
    var es := EventsOf(cfg, acts, c);
    Projection(cfg, acts, c);
    Conduct.FailsClosed(es);
    Conduct.HandshakeBounds(es);
  }

  /** What a row counts, modulo 2^64: the bytes that its client sent behind its
      handshake, and what the client was sent behind the transcript. */
  lemma EveryRowCountsPayload(cfg: Config, acts: seq<Action>, c: nat)
    requires c < |Exec(cfg, acts).conns| && Exec(cfg, acts).conns[c].entry.Some?
    ensures var s := Exec(cfg, acts);
            var i := s.conns[c].entry.value;
            var rx := Splice.Received(EventsOf(cfg, acts, c));
            var tx := Splice.Sent(EventsOf(cfg, acts, c));
            var said := Transcript(rx, true, s.conns[c].local.tor);
            && i < |s.entries|
            && Session(rx).end.Connect?
            && s.entries[i].toUpstream == Splice.Beyond(|rx|, Session(rx).used) % U64
            && s.entries[i].toClient == Splice.Beyond(|tx|, |said|) % U64
  {
    var es := EventsOf(cfg, acts, c);
    Projection(cfg, acts, c);
    EntryOfConn(cfg, acts, c);
    hide *;
    Splice.PayloadSizes(es);
  }

  lemma EntryOfConn(cfg: Config, acts: seq<Action>, c: nat)
    requires c < |Exec(cfg, acts).conns| && Exec(cfg, acts).conns[c].entry.Some?
    ensures var s := Exec(cfg, acts);
            var l, i := s.conns[c].local, s.conns[c].entry.value;
            && l.dest.Some? && i < |s.entries|
            && s.entries[i].toUpstream == |l.up| % U64 && s.entries[i].toClient == |l.down| % U64
  {
    Traffic.ExecKeeps(cfg, acts);
    hide Exec, Label, Traffic.Conserved, Traffic.NeverReuses;
    assert Exec(cfg, acts).conns[c].local.dest.Some?;
  }
}
