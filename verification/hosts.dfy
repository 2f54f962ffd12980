/** Reading host texts back into the octets of an address, as RFC 4291 and
    RFC 5952 write them, whatever way they were printed. */
module Hosts {
  import opened Common
  import opened Address
  import opened Wire
  import Decimal
  import Text
  import Utf8

  // ---- four octets ----

  /** A decimal number below 256, without leading zeros. */
  predicate IsOctet(p: string) {
    && 0 < |p| <= 3 && (forall i | 0 <= i < |p| :: '0' <= p[i] <= '9')
    && Decimal.Value(p) < 256 && (|p| > 1 ==> p[0] != '0')
  }

  /** Four decimal numbers between dots. */
  function ReadIpv4(s: string): Option<bytes> {
    var p := Text.Split(s, '.');
    if |p| == 4 && IsOctet(p[0]) && IsOctet(p[1]) && IsOctet(p[2]) && IsOctet(p[3])
    then Some([Decimal.Value(p[0]), Decimal.Value(p[1]), Decimal.Value(p[2]), Decimal.Value(p[3])])
    else None
  }

  lemma ShowIsOctet(n: byte)
    ensures IsOctet(Decimal.Show(n)) && Decimal.Value(Decimal.Show(n)) == n
    ensures '.' !in Decimal.Show(n) && ':' !in Decimal.Show(n)
  {
    Decimal.ValueShow(n);
    assert n >= 10 ==> Decimal.Show(n) == Decimal.Show(n / 10) + [Decimal.Digit(n % 10)];
    assert !Decimal.IsDigit('.') && !Decimal.IsDigit(':');
  }

  lemma SplitFour(a: string, b: string, c: string, d: string, x: char)
    requires x !in a && x !in b && x !in c && x !in d
    ensures Text.Split(a + [x] + b + [x] + c + [x] + d, x) == [a, b, c, d]
  {
    hide Text.Split;
    Text.SplitWhole(a, x);
    Text.SplitWhole(b, x);
    Text.SplitWhole(c, x);
    Text.SplitWhole(d, x);
    Text.SplitAround(a, x, b);
    Text.SplitAround(a + [x] + b, x, c);
    Text.SplitAround(a + [x] + b + [x] + c, x, d);
  }

  /** Dotted decimal: the four octets, in order. */
  lemma Ipv4ReadsBack(o: bytes)
    requires |o| == 4
    ensures ReadIpv4(Ipv4Text(o)) == Some(o)
  {
    ShowIsOctet(o[0]);
    ShowIsOctet(o[1]);
    ShowIsOctet(o[2]);
    ShowIsOctet(o[3]);
    assert Ipv4Text(o) == Decimal.Show(o[0]) + ['.'] + Decimal.Show(o[1]) + ['.'] + Decimal.Show(o[2]) + ['.']
                          + Decimal.Show(o[3]);
    hide Decimal.Show, Decimal.Value, IsOctet, Text.Split, Ipv4Text;
    assert o == [o[0], o[1], o[2], o[3]];
    SplitFour(Decimal.Show(o[0]), Decimal.Show(o[1]), Decimal.Show(o[2]), Decimal.Show(o[3]), '.');
  }

  lemma Ipv4NoColon(o: bytes)
    requires |o| == 4
    ensures ':' !in Ipv4Text(o) && '.' in Ipv4Text(o)
  {
    ShowIsOctet(o[0]);
    ShowIsOctet(o[1]);
    ShowIsOctet(o[2]);
    ShowIsOctet(o[3]);
    assert Ipv4Text(o)[|Decimal.Show(o[0])|] == '.';
  }

  // ---- groups of hexadecimal digits ----

  predicate IsHex(c: char) {
    '0' <= c <= '9' || 'a' <= c <= 'f'
  }

  function HexDigitValue(c: char): nat
    requires IsHex(c)
  {
    if c <= '9' then c as nat - '0' as nat else 10 + c as nat - 'a' as nat
  }

  function HexValue(s: string): nat
    requires forall i | 0 <= i < |s| :: IsHex(s[i])
  {
    if s == "" then 0 else 16 * HexValue(s[..|s| - 1]) + HexDigitValue(s[|s| - 1])
  }

  /** One to four digits, without leading zeros. */
  predicate IsGroup(p: string) {
    && 0 < |p| <= 4 && (forall i | 0 <= i < |p| :: IsHex(p[i]))
    && HexValue(p) < 0x10000 && (|p| > 1 ==> p[0] != '0')
  }

  function GroupOctets(p: string): bytes
    requires IsGroup(p)
  {
    [HexValue(p) / 256, HexValue(p) % 256]
  }

  lemma {:induction false} HexReadsBack(n: nat)
    ensures forall i | 0 <= i < |Hex(n)| :: IsHex(Hex(n)[i])
    ensures HexValue(Hex(n)) == n && Hex(n) != "" && (n > 0 ==> Hex(n)[0] != '0')
    ensures n < 16 ==> |Hex(n)| == 1
  {
    if n >= 16 {
      HexReadsBack(n / 16);
      assert Hex(n)[..|Hex(n)| - 1] == Hex(n / 16);
    }
  }

  lemma {:induction false} HexLength(n: nat, k: nat)
    requires k > 0 && n < Power16(k)
    ensures |Hex(n)| <= k
  {
    if n >= 16 { HexLength(n / 16, k - 1); }
  }

  function Power16(k: nat): nat {
    if k == 0 then 1 else 16 * Power16(k - 1)
  }

  lemma HexIsGroup(n: nat)
    requires n < 0x10000
    ensures IsGroup(Hex(n)) && GroupOctets(Hex(n)) == [n / 256, n % 256]
    ensures ':' !in Hex(n) && '.' !in Hex(n)
  {
    HexReadsBack(n);
    assert Power16(4) == 16 * Power16(3) == 0x10000;
    HexLength(n, 4);
    assert !IsHex(':') && !IsHex('.');
  }

  // ---- sixteen octets ----

  /** Groups, the last of which may be four octets in dotted decimal. */
  function ReadParts(p: seq<string>): Option<bytes> {
    if p == [] then Some([])
    else if |p| == 1 && '.' in p[0] then ReadIpv4(p[0])
    else if !IsGroup(p[0]) then None
    else match ReadParts(p[1..])
      case None => None
      case Some(rest) => Some(GroupOctets(p[0]) + rest)
  }

  function ReadGroups(s: string): Option<bytes> {
    if s == "" then Some([]) else ReadParts(Text.Split(s, ':'))
  }

  predicate DoubleAt(s: string, i: nat) {
    i + 1 < |s| && s[i] == ':' && s[i + 1] == ':'
  }

  /** Where the first `::` is, from `i` on. */
  function FindDouble(s: string, i: nat): (r: Option<nat>)
    requires i <= |s|
    ensures r.Some? ==> DoubleAt(s, r.value)
    decreases |s| - i
  {
    if i == |s| then None else if DoubleAt(s, i) then Some(i) else FindDouble(s, i + 1)
  }

  function Zeros(n: nat): bytes {
    seq(n, _ => 0)
  }

  /** Sixteen octets, if zeros fill what is missing between `a` and `b`. */
  function Filled(a: bytes, b: bytes): bytes
    requires |a| + |b| <= 16
  {
    a + Zeros(16 - |a| - |b|) + b
  }

  /** Groups between colons; a `::` stands for as many zeros as are missing. */
  function ReadIpv6(s: string): Option<bytes> {
    match FindDouble(s, 0)
    case None =>
      (match ReadGroups(s)
       case None => None
       case Some(o) => if |o| == 16 then Some(o) else None)
    case Some(i) =>
      match (ReadGroups(s[..i]), ReadGroups(s[i + 2..]))
      case (Some(a), Some(b)) => if |a| + |b| <= 14 then Some(Filled(a, b)) else None
      case _ => None
  }

  predicate Segmental(s: seq<nat>) {
    forall i | 0 <= i < |s| :: s[i] < 0x10000
  }

  lemma SegmentalConcat(a: seq<nat>, b: seq<nat>)
    requires Segmental(a) && Segmental(b)
    ensures Segmental(a + b)
  {}

  /** The octets of 16-bit segments, in network order. */
  function Octets(s: seq<nat>): (o: bytes)
    requires Segmental(s)
    ensures |o| == 2 * |s|
  {
    if s == [] then [] else [s[0] / 256, s[0] % 256] + Octets(s[1..])
  }

  lemma {:induction false} OctetsAt(s: seq<nat>, i: nat)
    requires Segmental(s) && i < |s|
    ensures Octets(s)[2 * i] == s[i] / 256 && Octets(s)[2 * i + 1] == s[i] % 256
  {
    if i > 0 { OctetsAt(s[1..], i - 1); }
  }

  lemma BigEndianOctets(high: byte, low: byte)
    ensures BigEndian(high, low) / 256 == high && BigEndian(high, low) % 256 == low
  {}

  lemma OctetOfSegment(o: bytes, i: nat)
    requires |o| == 16 && i < 8
    ensures Segmental(Segments(o))
    ensures Octets(Segments(o))[2 * i] == o[2 * i] && Octets(Segments(o))[2 * i + 1] == o[2 * i + 1]
  {
    OctetsAt(Segments(o), i);
    BigEndianOctets(o[2 * i], o[2 * i + 1]);
    hide Octets;
  }

  lemma OctetsOfSegments(o: bytes)
    requires |o| == 16
    ensures Segmental(Segments(o)) && Octets(Segments(o)) == o
  {
    forall k | 0 <= k < 16 ensures Octets(Segments(o))[k] == o[k] {
      OctetOfSegment(o, k / 2);
      assert k == 2 * (k / 2) || k == 2 * (k / 2) + 1;
    }
  }

  lemma {:induction false} OctetsConcat(a: seq<nat>, b: seq<nat>)
    requires Segmental(a)
    requires Segmental(b)
    ensures Octets(a + b) == Octets(a) + Octets(b)
  {
    if a == [] {
      assert a + b == b;
    } else {
      assert (a + b)[1..] == a[1..] + b;
      OctetsConcat(a[1..], b);
    }
  }

  lemma {:induction false} OctetsOfZeros(s: seq<nat>)
    requires forall i | 0 <= i < |s| :: s[i] == 0
    ensures Octets(s) == Zeros(2 * |s|)
  {
    if s != [] { OctetsOfZeros(s[1..]); }
  }

  /** Segments between colons read back, whatever their number. */
  lemma {:induction false} ColonsReadBack(s: seq<nat>)
    requires Segmental(s)
    ensures ReadGroups(Colons(s)) == Some(Octets(s))
    ensures s != [] ==> Colons(s) != "" && ReadParts(Text.Split(Colons(s), ':')) == Some(Octets(s))
  {
    if s != [] {
      var h := Hex(s[0]);
      HexIsGroup(s[0]);
      hide Hex, IsGroup, Text.Split;
      Text.SplitWhole(h, ':');
      if |s| > 1 {
        ColonsReadBack(s[1..]);
        Text.SplitAround(h, ':', Colons(s[1..]));
        assert ReadParts([h] + Text.Split(Colons(s[1..]), ':')) == Some(GroupOctets(h) + Octets(s[1..]));
      } else {
        assert ReadParts([]) == Some([]);
        assert [h][1..] == [] && s[1..] == [];
        assert ReadParts([h]) == Some(GroupOctets(h) + []);
      }
    }
  }

  /** No `::`, and no colon at either end. */
  ghost predicate Single(s: string) {
    && (forall i: nat :: !DoubleAt(s, i))
    && (s != "" ==> s[0] != ':' && s[|s| - 1] != ':')
  }

  lemma SingleWithout(h: string)
    requires ':' !in h
    ensures Single(h)
  {}

  lemma SingleJoined(h: string, c: string)
    requires ':' !in h && h != "" && Single(c) && c != ""
    ensures Single(h + ":" + c)
  {
    var t := h + ":" + c;
    forall i: nat ensures !DoubleAt(t, i) {
      if i > |h| { assert !DoubleAt(c, i - |h| - 1); }
    }
  }

  lemma {:induction false} ColonsSingle(s: seq<nat>)
    requires Segmental(s)
    ensures Single(Colons(s)) && (s == [] <==> Colons(s) == "")
  {
    if s != [] {
      var h := Hex(s[0]);
      HexIsGroup(s[0]);
      HexReadsBack(s[0]);
      hide Hex, Single;
      if |s| > 1 {
        ColonsSingle(s[1..]);
        SingleJoined(h, Colons(s[1..]));
      } else {
        SingleWithout(h);
      }
    } else {
      SingleWithout("");
    }
  }

  lemma {:induction false} FindsNone(s: string, i: nat)
    requires i <= |s| && forall k: nat :: !DoubleAt(s, k)
    ensures FindDouble(s, i) == None
    decreases |s| - i
  {
    if i < |s| { FindsNone(s, i + 1); }
  }

  lemma {:induction false} FindsFirst(s: string, i: nat, at: nat)
    requires i <= at && DoubleAt(s, at) && forall k: nat | k < at :: !DoubleAt(s, k)
    ensures FindDouble(s, i) == Some(at)
    decreases at - i
  {
    if i < at { FindsFirst(s, i + 1, at); }
  }

  lemma DoubleBetween(a: string, b: string)
    requires Single(a)
    ensures FindDouble(a + "::" + b, 0) == Some(|a|)
    ensures (a + "::" + b)[..|a|] == a && (a + "::" + b)[|a| + 2..] == b
  {
    var s := a + "::" + b;
    forall k: nat | k < |a| ensures !DoubleAt(s, k) {
      assert !DoubleAt(a, k);
    }
    FindsFirst(s, 0, |a|);
  }

  /** What `LongestZeros` returns is a run of zeros. */
  lemma {:induction false} LongestAreZeros(s: seq<nat>, i: nat, current: Span, longest: Span)
    requires i <= |s|
    requires (current.len == 0 || current.start + current.len == i) && longest.start + longest.len <= i
    requires forall k | current.start <= k < current.start + current.len :: s[k] == 0
    requires forall k | longest.start <= k < longest.start + longest.len :: s[k] == 0
    ensures var z := LongestZeros(s, i, current, longest);
            forall k | z.start <= k < z.start + z.len :: s[k] == 0
    decreases |s| - i
  {
    if i < |s| {
      if s[i] != 0 {
        LongestAreZeros(s, i + 1, Span(0, 0), longest);
      } else {
        var run := if current.len == 0 then Span(i, 1) else Span(current.start, current.len + 1);
        LongestAreZeros(s, i + 1, run, if run.len > longest.len then run else longest);
      }
    }
  }

  /** Nothing but zeros from `j` up to `k`. */
  predicate ZerosIn(s: seq<nat>, j: nat, k: nat) {
    j <= k <= |s| && forall m | j <= m < k :: s[m] == 0
  }

  /** No run up to `end` is longer than `z`, and none as long starts before it. */
  ghost predicate FirstLongest(s: seq<nat>, z: Span, end: nat) {
    forall j: nat, k: nat | j < k <= end && ZerosIn(s, j, k) :: k - j < z.len || (k - j == z.len && z.start <= j)
  }

  /** The whole run of zeros that ends at `i`. */
  predicate EndsAt(s: seq<nat>, current: Span, i: nat)
    requires i <= |s|
  {
    if current.len == 0 then i == 0 || s[i - 1] != 0
    else
      && current.start + current.len == i && ZerosIn(s, current.start, i)
      && (current.start == 0 || s[current.start - 1] != 0)
  }

  lemma RunStartsAtLatest(s: seq<nat>, i: nat, run: Span, j: nat)
    requires j < i <= |s| && EndsAt(s, run, i) && ZerosIn(s, j, i)
    ensures run.len > 0 && run.start <= j
  {
    assert s[i - 1] == 0;
    assert run.len > 0 && run.start > 0 ==> s[run.start - 1] != 0;
  }

  lemma LongestStep(s: seq<nat>, i: nat, run: Span, longest: Span)
    requires i < |s| && EndsAt(s, run, i + 1)
    requires FirstLongest(s, longest, i) && longest.start + longest.len <= i
    ensures FirstLongest(s, if run.len > longest.len then run else longest, i + 1)
  {
    var z := if run.len > longest.len then run else longest;
    forall j: nat, k: nat | j < k <= i + 1 && ZerosIn(s, j, k)
      ensures k - j < z.len || (k - j == z.len && z.start <= j)
    {
      if k == i + 1 { RunStartsAtLatest(s, i + 1, run, j); }
    }
  }

  /** It is the first of the longest. */
  lemma {:induction false} LongestIsFirst(s: seq<nat>, i: nat, current: Span, longest: Span)
    requires i <= |s|
    requires (current.len == 0 || current.start + current.len == i) && longest.start + longest.len <= i
    requires EndsAt(s, current, i) && FirstLongest(s, longest, i)
    ensures FirstLongest(s, LongestZeros(s, i, current, longest), |s|)
    decreases |s| - i
  {
    if i < |s| {
      var run := if s[i] != 0 then Span(0, 0)
                 else if current.len == 0 then Span(i, 1) else Span(current.start, current.len + 1);
      LongestStep(s, i, run, longest);
      LongestIsFirst(s, i + 1, run, if run.len > longest.len then run else longest);
    }
  }

  /** The zeros that an address text leaves out: the first longest run of
      segments, if it has two or more. */
  lemma LongestOf(s: seq<nat>) returns (z: Span)
    ensures z == LongestZeros(s, 0, Span(0, 0), Span(0, 0))
    ensures FirstLongest(s, z, |s|) && ZerosIn(s, z.start, z.start + z.len)
  {
    z := LongestZeros(s, 0, Span(0, 0), Span(0, 0));
    LongestAreZeros(s, 0, Span(0, 0), Span(0, 0));
    LongestIsFirst(s, 0, Span(0, 0), Span(0, 0));
  }

  predicate IsMapped(o: bytes)
    requires |o| == 16
  {
    (forall i | 0 <= i < 10 :: o[i] == 0) && o[10] == 0xff && o[11] == 0xff
  }

  function SegmentsText(s: seq<nat>): string {
    var z := LongestZeros(s, 0, Span(0, 0), Span(0, 0));
    if z.len > 1 then Colons(s[..z.start]) + "::" + Colons(s[z.start + z.len..]) else Colons(s)
  }

  lemma Ffff()
    ensures IsGroup("ffff") && GroupOctets("ffff") == [0xff, 0xff]
  {
    assert "ffff"[..3] == "fff" && "fff"[..2] == "ff" && "ff"[..1] == "f" && "f"[..0] == "";
  }

  lemma PartsTwo(a: string, d: string, o: bytes)
    requires IsGroup(a) && '.' in d && ReadIpv4(d) == Some(o)
    ensures ReadParts([a, d]) == Some(GroupOctets(a) + o)
  {
    hide ReadIpv4, IsGroup, GroupOctets;
    assert [a, d][1..] == [d];
  }

  lemma SplitTwo(a: string, d: string, x: char)
    requires x !in a && x !in d
    ensures Text.Split(a + [x] + d, x) == [a, d]
  {
    hide Text.Split;
    Text.SplitWhole(a, x);
    Text.SplitWhole(d, x);
    Text.SplitAround(a, x, d);
  }

  lemma MappedPartsReadBack(d: string, o: bytes)
    requires ':' !in d && '.' in d && ReadIpv4(d) == Some(o)
    ensures ReadGroups("ffff:" + d) == Some([0xff, 0xff] + o)
  {
    var t := "ffff:" + d;
    assert t == "ffff" + [':'] + d && t != "";
    hide ReadIpv4, IsGroup, GroupOctets, Text.Split, ReadParts;
    Ffff();
    PartsTwo("ffff", d, o);
    SplitTwo("ffff", d, ':');
  }

  lemma MappedOctets(o: bytes)
    requires |o| == 16 && IsMapped(o)
    ensures var tail := [0xff, 0xff] + o[12..];
            |tail| == 6 && o == Zeros(10) + tail
  {}

  lemma MappedText(o: bytes)
    requires |o| == 16 && IsMapped(o)
    ensures Ipv6Text(o)[..7] == "::ffff:" && Ipv6Text(o)[7..] == Ipv4Text(o[12..])
    ensures Ipv6Text(o) == "::" + ("ffff:" + Ipv4Text(o[12..]))
  {
    hide Ipv4Text;
  }

  /** An IPv4-mapped address keeps its dotted part. */
  lemma MappedReadsBack(o: bytes)
    requires |o| == 16 && IsMapped(o)
    ensures Ipv6Text(o)[..7] == "::ffff:" && ReadIpv4(Ipv6Text(o)[7..]) == Some(o[12..])
    ensures ReadIpv6(Ipv6Text(o)) == Some(o)
  {
    var d := Ipv4Text(o[12..]);
    MappedText(o);
    Ipv4ReadsBack(o[12..]);
    MappedOctets(o);
    hide *;
    Ipv4NoColon(o[12..]);
    MappedPartsReadBack(d, o[12..]);
    ReadBehind("ffff:" + d, [0xff, 0xff] + o[12..]);
  }

  /** A text that starts with `::`. */
  lemma ReadBehind(t: string, b: bytes)
    requires ReadGroups(t) == Some(b) && |b| <= 12
    ensures ReadIpv6("::" + t) == Some(Zeros(16 - |b|) + b)
  {
    var none: bytes := [];
    assert "" + "::" + t == "::" + t;
    assert Around("", t) == "::" + t;
    assert Single("") && ReadGroups("") == Some(none);
    hide ReadGroups, FindDouble, Zeros, ReadIpv6, Around;
    ReadAround("", t, none, b);
    assert none + Zeros(16 - |b|) == Zeros(16 - |b|);
  }

  /** A text with `::` in it, and what stands on either side. */
  predicate Halves(t: string, a: bytes, b: bytes) {
    match FindDouble(t, 0)
    case None => false
    case Some(i) =>
      && ReadGroups(t[..i]) == Some(a) && ReadGroups(t[i + 2..]) == Some(b)
      && |a| + |b| <= 12 && ReadIpv6(t) == Some(Filled(a, b))
  }

  function Around(x: string, y: string): string {
    x + "::" + y
  }

  lemma ReadAround(x: string, y: string, a: bytes, b: bytes)
    requires Single(x) && |a| + |b| <= 12 && ReadGroups(x) == Some(a) && ReadGroups(y) == Some(b)
    ensures Halves(Around(x, y), a, b) && ReadIpv6(Around(x, y)) == Some(Filled(a, b))
  {
    DoubleBetween(x, y);
    hide ReadGroups, FindDouble, Filled, Single;
  }

  /** Any other is read back from its segments; those left out are the first
      longest run of zeros. */
  lemma SegmentsReadBack(s: seq<nat>) returns (z: Span)
    requires |s| == 8 && Segmental(s)
    ensures ReadIpv6(SegmentsText(s)) == Some(Octets(s))
    ensures FirstLongest(s, z, 8) && ZerosIn(s, z.start, z.start + z.len)
    ensures if z.len <= 1 then FindDouble(SegmentsText(s), 0) == None
            else Halves(SegmentsText(s), Octets(s[..z.start]), Octets(s[z.start + z.len..]))
  {
    z := LongestOf(s);
    if z.len > 1 {
      CutAround(s, z);
      hide *;
      ShortenedReadsBack(s[..z.start], s[z.start..z.start + z.len], s[z.start + z.len..]);
    } else {
      WholeReadsBack(s, z);
    }
  }

  lemma CutAround(s: seq<nat>, z: Span)
    requires z == LongestZeros(s, 0, Span(0, 0), Span(0, 0)) && z.len > 1
    requires Segmental(s) && ZerosIn(s, z.start, z.start + z.len)
    ensures var a, m, b := s[..z.start], s[z.start..z.start + z.len], s[z.start + z.len..];
            && s == a + m + b && SegmentsText(s) == Around(Colons(a), Colons(b))
            && Segmental(a) && Segmental(m) && Segmental(b) && |m| > 1 && forall i | 0 <= i < |m| :: m[i] == 0
  {
    hide LongestZeros, Colons;
  }

  lemma WholeReadsBack(s: seq<nat>, z: Span)
    requires z == LongestZeros(s, 0, Span(0, 0), Span(0, 0)) && z.len <= 1
    requires |s| == 8 && Segmental(s)
    ensures ReadIpv6(SegmentsText(s)) == Some(Octets(s)) && FindDouble(SegmentsText(s), 0) == None
  {
    assert SegmentsText(s) == Colons(s);
    hide LongestZeros, Colons, ReadGroups, FirstLongest, SegmentsText;
    ColonsReadBack(s);
    ColonsSingle(s);
    FindsNone(Colons(s), 0);
  }

  lemma ShortenedReadsBack(a: seq<nat>, m: seq<nat>, b: seq<nat>)
    requires |a| + |m| + |b| == 8 && |m| > 1 && forall i | 0 <= i < |m| :: m[i] == 0
    requires Segmental(a) && Segmental(m) && Segmental(b)
    ensures Segmental(a + m + b)
    ensures Halves(Around(Colons(a), Colons(b)), Octets(a), Octets(b))
    ensures ReadIpv6(Around(Colons(a), Colons(b))) == Some(Octets(a + m + b))
  {
    ZerosPutBack(a, m, b);
    hide *;
    assert |Octets(a)| + |Octets(b)| <= 12;
    ColonsReadBack(a);
    ColonsReadBack(b);
    ColonsSingle(a);
    ReadAround(Colons(a), Colons(b), Octets(a), Octets(b));
  }

  lemma ZerosPutBack(a: seq<nat>, m: seq<nat>, b: seq<nat>)
    requires |a| + |m| + |b| == 8 && forall i | 0 <= i < |m| :: m[i] == 0
    requires Segmental(a) && Segmental(m) && Segmental(b)
    ensures Segmental(a + m + b) && Octets(a + m + b) == Filled(Octets(a), Octets(b))
  {
    SegmentalConcat(a, m);
    SegmentalConcat(a + m, b);
    OctetsOfZeros(m);
    assert Filled(Octets(a), Octets(b)) == Octets(a) + Octets(m) + Octets(b) by {
      assert 16 - |Octets(a)| - |Octets(b)| == 2 * |m|;
      hide Octets, Zeros;
    }
    hide *;
    OctetsConcat(a, m);
    OctetsConcat(a + m, b);
  }

  /** Sixteen octets, whichever way their text was shortened. */
  lemma Ipv6ReadsBack(o: bytes)
    requires |o| == 16
    ensures ReadIpv6(Ipv6Text(o)) == Some(o)
  {
    if IsMapped(o) {
      MappedReadsBack(o);
    } else {
      assert Ipv6Text(o) == SegmentsText(Segments(o));
      OctetsOfSegments(o);
      hide Ipv6Text, SegmentsText, ReadIpv6;
      var z := SegmentsReadBack(Segments(o));
    }
  }

  /** What a target comes to for any input: the host text reads back as the
      octets on the wire, a domain name is the text that they encode, and the
      port is in network order. */
  lemma TargetTells(s: bytes, atyp: byte)
    requires Target(s, atyp).Got?
    ensures atyp in {1, 3, 4}
    ensures var d, n := Target(s, atyp).value, Target(s, atyp).used;
            && n <= |s|
            && (atyp == 1 ==> n == 6 && ReadIpv4(d.host) == Some(s[..4]))
            && (atyp == 4 ==> n == 18 && ReadIpv6(d.host) == Some(s[..16]))
            && (atyp == 3 ==> n == 1 + s[0] as nat + 2 && Utf8.Encode(d.host) == s[1..n - 2])
            && d.port == 256 * s[n - 2] as nat + s[n - 1] as nat
  {
    hide Ipv4Text, Ipv6Text, ReadIpv4, ReadIpv6, Utf8.Decode, Utf8.Encode;
    if atyp == 1 {
      Ipv4ReadsBack(s[..4]);
    } else if atyp == 4 {
      Ipv6ReadsBack(s[..16]);
    } else {
      Utf8.EncodeDecode(s[1..1 + s[0] as nat]);
    }
  }
}
