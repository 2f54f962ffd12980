/** The few string operations of the renderer. Lengths and offsets count chars
    unless they are said to count bytes. */
module Text {
  import Utf8

  function Spaces(n: nat): (s: string)
    ensures |s| == n && forall i | 0 <= i < n :: s[i] == ' '
  {
    seq(n, _ => ' ')
  }

  /** Unicode's `White_Space`. */
  predicate IsWhitespace(c: char) {
    var n := c as int;
    || 9 <= n <= 13 || n == 0x20 || n == 0x85 || n == 0xa0 || n == 0x1680
    || 0x2000 <= n <= 0x200a || n == 0x2028 || n == 0x2029 || n == 0x202f || n == 0x205f || n == 0x3000
  }

  /** `str::trim_end`. */
  function TrimEnd(s: string): (t: string)
    ensures t <= s
  {
    if s != [] && IsWhitespace(s[|s| - 1]) then TrimEnd(s[..|s| - 1]) else s
  }

  /** Ends in something that `trim_end` leaves alone. */
  predicate EndsSolid(s: string) {
    s != [] && !IsWhitespace(s[|s| - 1])
  }

  /** Trimming a solid text with blanks behind it takes away the blanks. */
  lemma {:induction false} TrimBlanks(s: string, blanks: string)
    requires EndsSolid(s) && forall i | 0 <= i < |blanks| :: IsWhitespace(blanks[i])
    ensures TrimEnd(s + blanks) == s
  {
    var n := |blanks|;
    if n == 0 {
      assert s + blanks == s;
    } else {
      assert (s + blanks)[..|s + blanks| - 1] == s + blanks[..n - 1];
      TrimBlanks(s, blanks[..n - 1]);
    }
  }

  /** `format!("{s:<width$}")`: blanks up to `width` chars. */
  function Pad(s: string, width: nat): string {
    s + Spaces(if |s| < width then width - |s| else 0)
  }

  /** `str::len` of a text. */
  function ByteLen(s: string): nat {
    |Utf8.Encode(s)|
  }

  /** A column as wide in chars as its widest cell in bytes holds every cell. */
  lemma PadFits(s: string, width: nat)
    requires ByteLen(s) <= width
    ensures |Pad(s, width)| == width && Pad(s, width) == s + Spaces(width - |s|)
  {
    Utf8.CharsWithinBytes(s);
  }

  /** `[..].join(sep)`. */
  function Join(parts: seq<string>, sep: string): string {
    if parts == [] then ""
    else if |parts| == 1 then parts[0]
    else Join(parts[..|parts| - 1], sep) + sep + parts[|parts| - 1]
  }

  /** One more char: behind a separator, a new part begins. */
  function Put(parts: seq<string>, x: char, c: char): (more: seq<string>)
    requires parts != []
    ensures more != []
  {
    var n := |parts| - 1;
    if x == c then parts + [""] else parts[..n] + [parts[n] + [x]]
  }

  /** The parts of `s` between the occurrences of `c`. */
  function Split(s: string, c: char): (parts: seq<string>)
    ensures parts != []
  {
    if s == "" then [""] else Put(Split(s[..|s| - 1], c), s[|s| - 1], c)
  }

  lemma PutLater(a: seq<string>, b: seq<string>, x: char, c: char)
    requires b != []
    ensures Put(a + b, x, c) == a + Put(b, x, c)
  {}

  lemma {:induction false} SplitWhole(s: string, c: char)
    ensures c !in s ==> Split(s, c) == [s]
    ensures c in s ==> |Split(s, c)| > 1
  {
    if s != "" {
      var n := |s| - 1;
      SplitWhole(s[..n], c);
      assert s == s[..n] + [s[n]];
    }
  }

  lemma SplitStep(s: string, x: char, c: char)
    ensures Split(s + [x], c) == Put(Split(s, c), x, c)
  {
    assert (s + [x])[..|s|] == s;
  }

  lemma {:induction false} SplitAround(a: string, c: char, b: string)
    ensures Split(a + [c] + b, c) == Split(a, c) + Split(b, c)
  {
    if b == "" {
      SplitStep(a, c, c);
      assert a + [c] + b == a + [c];
    } else {
      var init, x := b[..|b| - 1], b[|b| - 1];
      assert b == init + [x] && a + [c] + b == a + [c] + init + [x];
      hide Put, Split;
      SplitAround(a, c, init);
      SplitStep(a + [c] + init, x, c);
      SplitStep(init, x, c);
      PutLater(Split(a, c), Split(init, c), x, c);
    }
  }

  /** Splitting and joining. */
  lemma {:induction false} JoinSplit(s: string, c: char)
    ensures Join(Split(s, c), [c]) == s
  {
    if s != "" {
      var init, x := s[..|s| - 1], s[|s| - 1];
      assert s == init + [x];
      JoinSplit(init, c);
      JoinPut(Split(init, c), x, c);
    }
  }

  lemma JoinPut(parts: seq<string>, x: char, c: char)
    requires parts != []
    ensures Join(Put(parts, x, c), [c]) == Join(parts, [c]) + [x]
  {
    var n := |parts| - 1;
    if x == c {
      assert (parts + [""])[..n + 1] == parts;
      assert Join(parts, [c]) + [c] + "" == Join(parts, [c]) + [x];
    } else {
      var more := parts[..n] + [parts[n] + [x]];
      assert more[..n] == parts[..n];
      assert Join(parts[..n], [c]) + [c] + (parts[n] + [x]) == Join(parts[..n], [c]) + [c] + parts[n] + [x];
    }
  }

  /** Joining and splitting: the parts come back, and as many of them, exactly
      if none holds the separator. */
  lemma {:induction false} SplitJoin(parts: seq<string>, c: char)
    requires parts != []
    ensures |Split(Join(parts, [c]), c)| >= |parts|
    ensures |Split(Join(parts, [c]), c)| == |parts| <==> forall i | 0 <= i < |parts| :: c !in parts[i]
    ensures Split(Join(parts, [c]), c) == parts <==> forall i | 0 <= i < |parts| :: c !in parts[i]
  {
    var n := |parts| - 1;
    var init, last := parts[..n], parts[n];
    SplitWhole(last, c);
    assert parts == init + [last];
    if n > 0 {
      SplitJoin(init, c);
      SplitAround(Join(init, [c]), c, last);
    }
  }
}
