/** Parsed JSON, and its compact text. */
module Json {
  import opened Common
  import Address
  import Utf8

  /** A number keeps the text it prints as, and its value if it is a `u64`. */
  datatype Value =
    | Null
    | Bool(b: bool)
    | Number(text: string, u64: Option<nat>)
    | Str(s: string)
    | Array(items: seq<Value>)
    | Object(fields: seq<Field>)   // as the map iterates

  datatype Field = Field(key: string, value: Value)

  // ---- the order of keys ----

  /** `str`'s order: by bytes, which in UTF-8 is by chars. */
  predicate Before(a: string, b: string) {
    b != [] && (a == [] || a[0] < b[0] || (a[0] == b[0] && Before(a[1..], b[1..])))
  }

  /** By bytes or by chars is the same. */
  lemma {:induction false} BeforeByBytes(a: string, b: string)
    ensures Before(a, b) <==> Utf8.BytesBefore(Utf8.Encode(a), Utf8.Encode(b))
  {
    if a != [] && b != [] {
      var x, y := Utf8.EncodeChar(a[0]), Utf8.EncodeChar(b[0]);
      var s, t := Utf8.Encode(a[1..]), Utf8.Encode(b[1..]);
      assert Utf8.Encode(a) == x + s && Utf8.Encode(b) == y + t;
      hide Utf8.Encode, Utf8.EncodeChar, Utf8.BytesBefore;
      if a[0] == b[0] {
        BeforeByBytes(a[1..], b[1..]);
        Utf8.CommonHead(x, s, t);
      } else if a[0] < b[0] {
        var k := Utf8.CharsPart(a[0], b[0]);
        Utf8.PartedBefore(x, y, k, s, t);
      } else {
        var k := Utf8.CharsPart(b[0], a[0]);
        Utf8.PartedBefore(y, x, k, t, s);
      }
    }
  }

  /** Objects are maps sorted by key: every parsed value has its keys in
      strictly increasing order, at all levels. */
  predicate Valid(v: Value)
    decreases v, 1
  {
    match v
    case Array(items) => forall i | 0 <= i < |items| :: Valid(items[i])
    case Object(fields) => ValidFields(fields)
    case _ => true
  }

  predicate ValidFields(fields: seq<Field>)
    decreases fields, 0
  {
    && (forall i, j | 0 <= i < j < |fields| :: Before(fields[i].key, fields[j].key))
    && (forall i | 0 <= i < |fields| :: Valid(fields[i].value))
  }

  /** Two different keys come in one order or the other. */
  lemma {:induction false} BeforeTotal(a: string, b: string)
    ensures a == b || Before(a, b) || Before(b, a)
  {
    if a != [] && b != [] && a[0] == b[0] {
      BeforeTotal(a[1..], b[1..]);
      assert a == [a[0]] + a[1..] && b == [b[0]] + b[1..];
    }
  }

  lemma {:induction false} BeforeLonger(a: string, b: string, more: string)
    requires Before(a, b)
    ensures Before(a, b + more)
  {
    if a != [] && a[0] == b[0] {
      BeforeLonger(a[1..], b[1..], more);
      assert (b + more)[1..] == b[1..] + more;
    }
  }

  lemma {:induction false} PrefixBefore(a: string, more: string)
    requires more != []
    ensures Before(a, a + more)
  {
    if a != [] {
      PrefixBefore(a[1..], more);
      assert (a + more)[1..] == a[1..] + more;
    }
  }

  /** `Value::get`. */
  function Get(v: Value, key: string): Option<Value> {
    if v.Object? then Lookup(v.fields, key) else None
  }

  function Lookup(fields: seq<Field>, key: string): Option<Value> {
    if fields == [] then None
    else if fields[0].key == key then Some(fields[0].value)
    else Lookup(fields[1..], key)
  }

  function Escape(c: char): string {
    if c == '\"' then "\\\"" else if c == '\\' then "\\\\"
    else if c == '\n' then "\\n" else if c == '\r' then "\\r" else if c == '\t' then "\\t"
    else if c as int == 8 then "\\b" else if c as int == 12 then "\\f"
    else if c as int < 32 then "\\u00" + [Address.HexDigit(c as int / 16), Address.HexDigit(c as int % 16)]
    else [c]
  }

  function Escaped(s: string): string {
    if s == [] then "" else Escape(s[0]) + Escaped(s[1..])
  }

  function Quoted(s: string): string {
    "\"" + Escaped(s) + "\""
  }

  /** `Value::to_string`. */
  function Compact(v: Value): string
    decreases v, 1
  {
    match v
    case Null => "null"
    case Bool(b) => if b then "true" else "false"
    case Number(text, _) => text
    case Str(s) => Quoted(s)
    case Array(items) => "[" + CompactItems(items) + "]"
    case Object(fields) => "{" + CompactFields(fields) + "}"
  }

  function CompactItems(items: seq<Value>): string
    decreases items, 0
  {
    if items == [] then ""
    else if |items| == 1 then Compact(items[0])
    else Compact(items[0]) + "," + CompactItems(items[1..])
  }

  function CompactFields(fields: seq<Field>): string
    decreases fields, 0
  {
    if fields == [] then ""
    else
      var first := Quoted(fields[0].key) + ":" + Compact(fields[0].value);
      if |fields| == 1 then first else first + "," + CompactFields(fields[1..])
  }

  /** `scalar`: no JSON quoting, and `-` for null. */
  function Scalar(v: Value): string {
    match v
    case Str(s) => s
    case Null => "-"
    case _ => Compact(v)
  }
}
