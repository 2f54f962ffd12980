/** UTF-8, as `String::from_utf8` accepts it and `str::len` counts it. */
module Utf8 {
  import opened Common

  /** The value of a scalar and how many bytes its encoding takes. */
  datatype Scalar = Scalar(c: char, len: nat)

  predicate IsScalar(n: int) {
    0 <= n < 0xD800 || 0xE000 <= n < 0x110000
  }

  function EncodeScalar(n: int): (b: bytes)
    requires 0 <= n < 0x110000
    ensures 1 <= |b| <= 4
  {
    var low := n % 64;
    var mid := n / 64 % 64;
    var high := n / 64 / 64 % 64;
    if n < 0x80 then [n]
    else if n < 0x800 then [0xC0 + n / 64, 0x80 + low]
    else if n < 0x10000 then [0xE0 + n / 64 / 64, 0x80 + mid, 0x80 + low]
    else [0xF0 + n / 64 / 64 / 64, 0x80 + high, 0x80 + mid, 0x80 + low]
  }

  function EncodeChar(c: char): (b: bytes)
    ensures 1 <= |b| <= 4
  {
    EncodeScalar(c as int)
  }

  function Encode(s: string): bytes {
    if s == [] then [] else EncodeChar(s[0]) + Encode(s[1..])
  }

  predicate Continues(b: bytes, i: nat) {
    i < |b| && 0x80 <= b[i] < 0xC0
  }

  /** The scalar values that a two-, three- and four-byte form stand for. */
  function Join2(a: int, b: int): int {
    (a - 0xC0) * 64 + (b - 0x80)
  }

  function Join3(a: int, b: int, c: int): int {
    ((a - 0xE0) * 64 + (b - 0x80)) * 64 + (c - 0x80)
  }

  function Join4(a: int, b: int, c: int, d: int): int {
    (((a - 0xF0) * 64 + (b - 0x80)) * 64 + (c - 0x80)) * 64 + (d - 0x80)
  }

  lemma Split2(a: byte, b: byte)
    requires 0xC2 <= a < 0xE0 && 0x80 <= b < 0xC0
    ensures 0x80 <= Join2(a, b) < 0x800 && EncodeScalar(Join2(a, b)) == [a, b]
  {}

  lemma Split3(a: byte, b: byte, c: byte)
    requires 0xE0 <= a < 0xF0 && 0x80 <= b < 0xC0 && 0x80 <= c < 0xC0
    requires 0x800 <= Join3(a, b, c)
    ensures Join3(a, b, c) < 0x10000 && EncodeScalar(Join3(a, b, c)) == [a, b, c]
  {
    var n := Join3(a, b, c);
    assert n / 64 == (a - 0xE0) * 64 + (b - 0x80);
  }

  lemma Split4(a: byte, b: byte, c: byte, d: byte)
    requires 0xF0 <= a < 0xF8 && 0x80 <= b < 0xC0 && 0x80 <= c < 0xC0 && 0x80 <= d < 0xC0
    requires 0x10000 <= Join4(a, b, c, d) < 0x110000
    ensures EncodeScalar(Join4(a, b, c, d)) == [a, b, c, d]
  {
    var n := Join4(a, b, c, d);
    assert n / 64 == ((a - 0xF0) * 64 + (b - 0x80)) * 64 + (c - 0x80);
    assert n / 64 / 64 == (a - 0xF0) * 64 + (b - 0x80);
  }

  /** The scalar value that the head of `b` encodes; overlong forms, surrogates
      and stray bytes are refused. */
  function DecodeChar(b: bytes): (r: Option<Scalar>)
    requires b != []
    ensures r.Some? ==> 1 <= r.value.len <= |b|
  {
    if b[0] < 0x80 then
      Some(Scalar(b[0] as char, 1))
    else if 0xC2 <= b[0] < 0xE0 && Continues(b, 1) then
      Some(Scalar(Join2(b[0], b[1]) as char, 2))
    else if 0xE0 <= b[0] < 0xF0 && Continues(b, 1) && Continues(b, 2) then
      var n := Join3(b[0], b[1], b[2]);
      if n >= 0x800 && IsScalar(n) then Some(Scalar(n as char, 3)) else None
    else if 0xF0 <= b[0] < 0xF8 && Continues(b, 1) && Continues(b, 2) && Continues(b, 3) then
      var n := Join4(b[0], b[1], b[2], b[3]);
      if n >= 0x10000 && IsScalar(n) then Some(Scalar(n as char, 4)) else None
    else
      None
  }

  lemma EncodeDecodedChar(b: bytes)
    requires b != [] && DecodeChar(b).Some?
    ensures EncodeChar(DecodeChar(b).value.c) == b[..DecodeChar(b).value.len]
  {
    if b[0] < 0x80 {
    } else if b[0] < 0xE0 {
      Split2(b[0], b[1]);
    } else if b[0] < 0xF0 {
      Split3(b[0], b[1], b[2]);
    } else {
      Split4(b[0], b[1], b[2], b[3]);
    }
  }

  lemma DecodeEncodedChar(c: char, rest: bytes)
    ensures DecodeChar(EncodeChar(c) + rest) == Some(Scalar(c, |EncodeChar(c)|))
  {
    var n := c as int;
    var e := EncodeChar(c);
    var b := e + rest;
    assert IsScalar(n);
    assert forall i :: 0 <= i < |e| ==> b[i] == e[i];
    if n < 0x80 {
    } else if n < 0x800 {
      assert Join2(e[0], e[1]) == n;
    } else if n < 0x10000 {
      assert Join3(e[0], e[1], e[2]) == n;
    } else {
      assert Join4(e[0], e[1], e[2], e[3]) == n;
    }
  }

  /** `String::from_utf8`. */
  function Decode(b: bytes): Option<string> {
    if b == [] then Some("")
    else match DecodeChar(b)
      case None => None
      case Some(x) =>
        match Decode(b[x.len..])
        case None => None
        case Some(rest) => Some([x.c] + rest)
  }

  lemma EncodeCons(c: char, rest: string)
    ensures Encode([c] + rest) == EncodeChar(c) + Encode(rest)
  {
    assert ([c] + rest)[1..] == rest;
  }

  lemma DecodeStep(b: bytes)
    requires b != [] && Decode(b).Some?
    ensures DecodeChar(b).Some?
    ensures var x := DecodeChar(b).value;
            Decode(b[x.len..]).Some? && Decode(b).value == [x.c] + Decode(b[x.len..]).value
  {
    hide DecodeChar;
  }

  lemma EncodeStep(b: bytes, x: Scalar, rest: string)
    requires x.len <= |b| && EncodeChar(x.c) == b[..x.len] && Encode(rest) == b[x.len..]
    ensures Encode([x.c] + rest) == b
  {
    hide Encode, EncodeChar;
    EncodeCons(x.c, rest);
    assert b == b[..x.len] + b[x.len..];
  }

  /** Accepted bytes are the encoding of the text they decode to. */
  lemma {:induction false} EncodeDecode(b: bytes)
    requires Decode(b).Some?
    ensures Encode(Decode(b).value) == b
  {
    if b != [] {
      DecodeStep(b);
      EncodeDecodedChar(b);
      hide *;
      var x := DecodeChar(b).value;
      EncodeDecode(b[x.len..]);
      EncodeStep(b, x, Decode(b[x.len..]).value);
    } else {
      assert Decode(b).value == "";
    }
  }

  /** Every text survives encoding and decoding. */
  lemma {:induction false} DecodeEncode(s: string)
    ensures Decode(Encode(s)) == Some(s)
  {
    if s != [] {
      DecodeEncodedChar(s[0], Encode(s[1..]));
      assert Encode(s) == EncodeChar(s[0]) + Encode(s[1..]);
      assert Encode(s)[|EncodeChar(s[0])|..] == Encode(s[1..]);
      DecodeEncode(s[1..]);
      assert [s[0]] + s[1..] == s;
    }
  }

  /** Decoding is a partial injection: two byte strings that are both UTF-8
      denote the same text exactly when they are the same bytes. */
  lemma DecodeInjective(a: bytes, b: bytes)
    requires Decode(a).Some? && Decode(b).Some?
    ensures Decode(a) == Decode(b) <==> a == b
  {
    EncodeDecode(a);
    EncodeDecode(b);
  }

  /** `str::len` counts bytes, so it is never below the number of chars. */
  lemma {:induction false} CharsWithinBytes(s: string)
    ensures |s| <= |Encode(s)|
  {
    if s != [] {
      CharsWithinBytes(s[1..]);
    }
  }

  /** ASCII text is its own encoding. */
  lemma {:induction false} AsciiAsItIs(s: string)
    requires forall i | 0 <= i < |s| :: s[i] as int < 128
    ensures |Encode(s)| == |s| && forall i | 0 <= i < |s| :: Encode(s)[i] == s[i] as int
  {
    if s != [] { AsciiAsItIs(s[1..]); }
  }

  // ---- the order of encodings ----

  /** Lexicographic order of bytes. */
  predicate BytesBefore(a: bytes, b: bytes) {
    b != [] && (a == [] || a[0] < b[0] || (a[0] == b[0] && BytesBefore(a[1..], b[1..])))
  }

  lemma {:induction false} CommonHead(p: bytes, a: bytes, b: bytes)
    ensures BytesBefore(p + a, p + b) <==> BytesBefore(a, b)
  {
    if p == [] {
      assert p + a == a && p + b == b;
    } else {
      assert (p + a)[1..] == p[1..] + a && (p + b)[1..] == p[1..] + b;
      CommonHead(p[1..], a, b);
    }
  }

  /** Where the encodings of two chars part, the greater char has the greater
      byte. */
  lemma CharsPart(c: char, d: char) returns (k: nat)
    requires c < d
    ensures var x, y := EncodeChar(c), EncodeChar(d);
            k < |x| && k < |y| && x[..k] == y[..k] && x[k] < y[k]
  {
    var x, y := EncodeChar(c), EncodeChar(d);
    ScalarJoins(c as int);
    ScalarJoins(d as int);
    hide EncodeChar, EncodeScalar;
    k := if x[0] != y[0] then 0 else if x[1] != y[1] then 1 else if x[2] != y[2] then 2 else 3;
  }

  /** The scalar value back from its bytes. */
  lemma ScalarJoins(n: int)
    requires IsScalar(n)
    ensures var e := EncodeScalar(n);
            match |e|
            case 1 => n == e[0] < 0x80
            case 2 => 0xC0 <= e[0] < 0xE0 && Continues(e, 1) && n == Join2(e[0], e[1])
            case 3 => 0xE0 <= e[0] < 0xF0 && Continues(e, 1) && Continues(e, 2) && n == Join3(e[0], e[1], e[2])
            case _ =>
              && |e| == 4 && 0xF0 <= e[0] && Continues(e, 1) && Continues(e, 2) && Continues(e, 3)
              && n == Join4(e[0], e[1], e[2], e[3])
  {}

  lemma PartedBefore(x: bytes, y: bytes, k: nat, a: bytes, b: bytes)
    requires k < |x| && k < |y| && x[..k] == y[..k] && x[k] < y[k]
    ensures BytesBefore(x + a, y + b) && !BytesBefore(y + b, x + a)
  {
    var p := x[..k];
    var s, t := x[k..] + a, y[k..] + b;
    assert x + a == p + s && y + b == p + t;
    CommonHead(p, s, t);
    CommonHead(p, t, s);
  }
}
