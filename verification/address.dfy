/** The text of network addresses, as Rust's standard library displays them,
    and the `host:port` label of a stream. */
module Address {
  import opened Common
  import Decimal

  /** `Ipv4Addr::to_string`: dotted decimal. */
  function Ipv4Text(o: bytes): string
    requires |o| == 4
  {
    Decimal.Show(o[0]) + "." + Decimal.Show(o[1]) + "." + Decimal.Show(o[2]) + "." + Decimal.Show(o[3])
  }

  function HexDigit(d: nat): char
    requires d < 16
  {
    if d < 10 then (48 + d) as char else (87 + d) as char
  }

  function Hex(n: nat): string {
    if n < 16 then [HexDigit(n)] else Hex(n / 16) + [HexDigit(n % 16)]
  }

  /** `u16::from_be_bytes`. */
  function BigEndian(high: byte, low: byte): (n: nat)
    ensures n < 0x10000
  {
    var h: int := high;
    256 * h + low
  }

  function Segments(o: bytes): (s: seq<nat>)
    requires |o| == 16
    ensures |s| == 8
  {
    seq(8, i requires 0 <= i < 8 => BigEndian(o[2 * i], o[2 * i + 1]))
  }

  /** A run of zero segments. */
  datatype Span = Span(start: nat, len: nat)

  /** The first of the longest runs of zeros in `s[i..]`, given the run that
      ends at `i` and the longest one so far. */
  function LongestZeros(s: seq<nat>, i: nat, current: Span, longest: Span): (r: Span)
    requires i <= |s|
    requires (current.len == 0 || current.start + current.len == i) && longest.start + longest.len <= i
    ensures r.start + r.len <= |s|
    decreases |s| - i
  {
    if i == |s| then longest
    else if s[i] != 0 then LongestZeros(s, i + 1, Span(0, 0), longest)
    else
      var run := if current.len == 0 then Span(i, 1) else Span(current.start, current.len + 1);
      LongestZeros(s, i + 1, run, if run.len > longest.len then run else longest)
  }

  function Colons(s: seq<nat>): string {
    if s == [] then ""
    else if |s| == 1 then Hex(s[0])
    else Hex(s[0]) + ":" + Colons(s[1..])
  }

  /** `Ipv6Addr::to_string`: an IPv4-mapped address keeps its dotted part, and
      the first longest run of at least two zero segments becomes `::`. */
  function Ipv6Text(o: bytes): string
    requires |o| == 16
  {
    if (forall i :: 0 <= i < 10 ==> o[i] == 0) && o[10] == 0xff && o[11] == 0xff then
      "::ffff:" + Ipv4Text(o[12..])
    else
      var s := Segments(o);
      var z := LongestZeros(s, 0, Span(0, 0), Span(0, 0));
      if z.len > 1
      then Colons(s[..z.start]) + "::" + Colons(s[z.start + z.len..])
      else Colons(s)
  }

  /** A CONNECT destination: the host text handed to Tor, and the port. */
  datatype Dest = Dest(host: string, port: nat)

  /** The registry label of a destination. */
  function Label(d: Dest): string {
    d.host + ":" + Decimal.Show(d.port)
  }

  /** Reads a label back: the port is what follows the last colon. */
  function Unlabel(s: string): Option<Dest> {
    var i := Decimal.AfterLast(s, ':');
    if i == 0 || i == |s| || exists k :: i <= k < |s| && !Decimal.IsDigit(s[k]) then None
    else Some(Dest(s[..i - 1], Decimal.Value(s[i..])))
  }

  /** A label determines host text and port, whatever the host contains. */
  lemma UnlabelLabel(d: Dest)
    ensures Unlabel(Label(d)) == Some(d)
  {
    var p := Decimal.Show(d.port);
    var s := Label(d);
    assert ':' !in p by {
      assert !Decimal.IsDigit(':');
    }
    Decimal.AfterLastOf(d.host, ':', p);
    var i := |d.host| + 1;
    assert s == d.host + [':'] + p;
    assert s[i..] == p && s[..i - 1] == d.host;
    forall k | i <= k < |s| ensures Decimal.IsDigit(s[k]) {
      assert s[k] == p[k - i];
    }
    Decimal.ValueShow(d.port);
  }

  /** Two CONNECTs show the same label exactly when they name the same host
      text and the same port. */
  lemma LabelInjective(d: Dest, e: Dest)
    ensures Label(d) == Label(e) <==> d == e
  {
    UnlabelLabel(d);
    UnlabelLabel(e);
  }
}
