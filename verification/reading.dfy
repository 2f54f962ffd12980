/** A reader of JSON text, after RFC 8259, and what the texts of `Json` come to
    in it. */
module Reading {
  import opened Common
  import opened Json
  import Address
  import Decimal
  import Hosts

  // ---- numbers ----

  predicate IsNumeric(c: char) {
    '0' <= c <= '9' || c in {'-', '+', '.', 'e', 'E'}
  }

  /** The texts that numbers are printed as, among others. */
  predicate IsNumber(t: string) {
    && t != "" && (t[0] == '-' || '0' <= t[0] <= '9') && '0' <= t[|t| - 1] <= '9'
    && forall i | 0 <= i < |t| :: IsNumeric(t[i])
  }

  /** The number as a `u64`, if it is one. */
  function Unsigned(t: string): Option<nat> {
    if t != "" && (forall i | 0 <= i < |t| :: Decimal.IsDigit(t[i])) && Decimal.Value(t) < U64
    then Some(Decimal.Value(t)) else None
  }

  /** How many chars of a number `s` begins with. */
  function Numeric(s: string): (n: nat)
    ensures n <= |s|
  {
    if s != "" && IsNumeric(s[0]) then 1 + Numeric(s[1..]) else 0
  }

  // ---- strings ----

  function CharOf(code: nat): Option<char> {
    if code < 0xd800 || 0xe000 <= code < 0x10000 then Some(code as char) else None
  }

  /** The char that an escape stands for, and what follows it. */
  function ReadEscape(s: string): (r: Option<(char, string)>)
    ensures r.Some? ==> |r.value.1| < |s|
  {
    if s == "" then None
    else if s[0] in {'\"', '\\', '/'} then Some((s[0], s[1..]))
    else if s[0] == 'b' then Some((8 as char, s[1..]))
    else if s[0] == 't' then Some((9 as char, s[1..]))
    else if s[0] == 'n' then Some((10 as char, s[1..]))
    else if s[0] == 'f' then Some((12 as char, s[1..]))
    else if s[0] == 'r' then Some((13 as char, s[1..]))
    else if s[0] == 'u' && |s| >= 5 && forall i | 1 <= i < 5 :: Hosts.IsHex(s[i]) then
      match CharOf(Hosts.HexValue(s[1..5]))
      case None => None
      case Some(c) => Some((c, s[5..]))
    else None
  }

  /** A string behind its opening quote, and what follows the closing one. */
  function ReadString(s: string): (r: Option<(string, string)>)
    ensures r.Some? ==> |r.value.1| < |s|
    decreases |s|
  {
    if s == "" || s[0] as int < 32 then None
    else if s[0] == '\"' then Some(("", s[1..]))
    else
      var head := if s[0] == '\\' then ReadEscape(s[1..]) else Some((s[0], s[1..]));
      match head
      case None => None
      case Some((c, rest)) =>
        match ReadString(rest)
        case None => None
        case Some((more, end)) => Some(([c] + more, end))
  }

  // ---- values ----

  /** The value that `s` begins with, and what follows it. */
  function ReadValue(s: string): (r: Option<(Value, string)>)
    ensures r.Some? ==> |r.value.1| < |s|
    decreases |s|, 0
  {
    if s == "" then None
    else if s[0] == 'n' then ReadWord(s, "null", Null)
    else if s[0] == 't' then ReadWord(s, "true", Bool(true))
    else if s[0] == 'f' then ReadWord(s, "false", Bool(false))
    else if s[0] == '\"' then
      match ReadString(s[1..])
      case None => None
      case Some((t, rest)) => Some((Str(t), rest))
    else if s[0] == '[' then ReadArray(s[1..])
    else if s[0] == '{' then ReadObject(s[1..])
    else
      var n := Numeric(s);
      if n > 0 && IsNumber(s[..n]) then Some((Number(s[..n], Unsigned(s[..n])), s[n..])) else None
  }

  function ReadWord(s: string, word: string, v: Value): (r: Option<(Value, string)>)
    requires word != ""
    ensures r.Some? ==> |r.value.1| < |s|
  {
    if word <= s then Some((v, s[|word|..])) else None
  }

  /** An array behind its opening bracket. */
  function ReadArray(s: string): (r: Option<(Value, string)>)
    ensures r.Some? ==> |r.value.1| < |s|
    decreases |s|, 3
  {
    if s != "" && s[0] == ']' then Some((Array([]), s[1..]))
    else match ReadItems(s)
      case None => None
      case Some((items, rest)) => Some((Array(items), rest))
  }

  /** An object behind its opening brace. */
  function ReadObject(s: string): (r: Option<(Value, string)>)
    ensures r.Some? ==> |r.value.1| < |s|
    decreases |s|, 3
  {
    if s != "" && s[0] == '}' then Some((Object([]), s[1..]))
    else match ReadFields(s)
      case None => None
      case Some((fields, rest)) => Some((Object(fields), rest))
  }

  /** Items between commas, up to the closing bracket. */
  function ReadItems(s: string): (r: Option<(seq<Value>, string)>)
    ensures r.Some? ==> |r.value.1| < |s|
    decreases |s|, 1
  {
    match ReadValue(s)
    case None => None
    case Some((v, rest)) =>
      if rest == "" then None
      else if rest[0] == ']' then Some(([v], rest[1..]))
      else if rest[0] != ',' then None
      else match ReadItems(rest[1..])
        case None => None
        case Some((more, end)) => Some(([v] + more, end))
  }

  /** A key, a colon and a value. */
  function ReadField(s: string): (r: Option<(Field, string)>)
    ensures r.Some? ==> |r.value.1| < |s|
    decreases |s|, 1
  {
    if s == "" || s[0] != '\"' then None
    else match ReadString(s[1..])
      case None => None
      case Some((key, rest)) =>
        if rest == "" || rest[0] != ':' then None
        else match ReadValue(rest[1..])
          case None => None
          case Some((v, end)) => Some((Field(key, v), end))
  }

  /** Fields between commas, up to the closing brace. */
  function ReadFields(s: string): (r: Option<(seq<Field>, string)>)
    ensures r.Some? ==> |r.value.1| < |s|
    decreases |s|, 2
  {
    match ReadField(s)
    case None => None
    case Some((f, rest)) =>
      if rest == "" then None
      else if rest[0] == '}' then Some(([f], rest[1..]))
      else if rest[0] != ',' then None
      else match ReadFields(rest[1..])
        case None => None
        case Some((more, end)) => Some(([f] + more, end))
  }

  // ---- reading what `Json` writes ----

  /** A parsed value: its numbers print as numbers do and are `u64`s if they
      can be. */
  predicate Parsed(v: Value)
    decreases v
  {
    match v
    case Number(text, u64) => IsNumber(text) && u64 == Unsigned(text)
    case Array(items) => forall i | 0 <= i < |items| :: Parsed(items[i])
    case Object(fields) => forall i | 0 <= i < |fields| :: Parsed(fields[i].value)
    case _ => true
  }

  lemma HexDigitReads(d: nat)
    requires d < 16
    ensures Hosts.IsHex(Address.HexDigit(d)) && Hosts.HexDigitValue(Address.HexDigit(d)) == d
  {}

  lemma HexPair(n: nat)
    requires n < 32
    ensures var t := ['0', '0', Address.HexDigit(n / 16), Address.HexDigit(n % 16)];
            && (forall i | 0 <= i < 4 :: Hosts.IsHex(t[i]))
            && Hosts.HexValue(t) == n
  {
    var a, b := Address.HexDigit(n / 16), Address.HexDigit(n % 16);
    HexDigitReads(n / 16);
    HexDigitReads(n % 16);
    assert Hosts.HexValue(['0']) == 0 by { assert ['0'][..0] == ""; }
    assert Hosts.HexValue(['0', '0']) == 0 by { assert ['0', '0'][..1] == ['0']; }
    assert Hosts.HexValue(['0', '0', a]) == n / 16 by { assert ['0', '0', a][..2] == ['0', '0']; }
    assert ['0', '0', a, b][..3] == ['0', '0', a];
  }

  /** One char, escaped or not. */
  lemma CharReadsBack(c: char, more: string)
    ensures var s := Escape(c) + more;
            ReadString(s) == match ReadString(more) case None => None case Some((t, end)) => Some(([c] + t, end))
  {
    var e := Escape(c);
    var s := e + more;
    assert s[0] == e[0];
    if |e| == 1 {
      assert s[1..] == more;
    } else {
      assert s[1..] == e[1..] + more;
      EscapeReadsBack(c, more);
    }
  }

  lemma EscapeReadsBack(c: char, more: string)
    requires |Escape(c)| > 1
    ensures Escape(c)[0] == '\\' && ReadEscape(Escape(c)[1..] + more) == Some((c, more))
  {
    var n := c as int;
    var t := Escape(c)[1..];
    var s := t + more;
    if |t| == 1 {
      assert s[1..] == more;
    } else {
      HexPair(n);
      var hex := ['0', '0', Address.HexDigit(n / 16), Address.HexDigit(n % 16)];
      assert t == ['u'] + hex;
      assert s[1..5] == hex && s[5..] == more;
      assert forall i | 1 <= i < 5 :: s[i] == hex[i - 1];
    }
  }

  lemma {:induction false} StringReadsBack(s: string, rest: string)
    ensures ReadString(Escaped(s) + "\"" + rest) == Some((s, rest))
  {
    if s == "" {
      assert Escaped(s) + "\"" + rest == "\"" + rest;
    } else {
      var more := Escaped(s[1..]) + "\"" + rest;
      assert Escaped(s) + "\"" + rest == Escape(s[0]) + more;
      hide Escape, Escaped, ReadString;
      CharReadsBack(s[0], more);
      StringReadsBack(s[1..], rest);
      assert [s[0]] + s[1..] == s;
    }
  }

  lemma QuotedReadsBack(s: string, rest: string)
    ensures (Quoted(s) + rest)[0] == '\"' && ReadString((Quoted(s) + rest)[1..]) == Some((s, rest))
  {
    assert (Quoted(s) + rest)[1..] == Escaped(s) + "\"" + rest;
    StringReadsBack(s, rest);
  }

  lemma {:induction false} NumericOf(t: string, rest: string)
    requires forall i | 0 <= i < |t| :: IsNumeric(t[i])
    requires rest == "" || !IsNumeric(rest[0])
    ensures Numeric(t + rest) == |t|
  {
    if t == "" {
      assert t + rest == rest;
    } else {
      assert (t + rest)[1..] == t[1..] + rest;
      NumericOf(t[1..], rest);
    }
  }

  lemma NumberReadsBack(t: string, rest: string)
    requires IsNumber(t) && (rest == "" || !IsNumeric(rest[0]))
    ensures ReadValue(t + rest) == Some((Number(t, Unsigned(t)), rest))
  {
    NumericOf(t, rest);
    assert (t + rest)[..|t|] == t && (t + rest)[|t|..] == rest && (t + rest)[0] == t[0];
    hide Unsigned;
  }

  lemma WordReadsBack(word: string, v: Value, rest: string)
    requires word != ""
    ensures ReadWord(word + rest, word, v) == Some((v, rest)) && (word + rest)[0] == word[0]
  {}

  lemma StartOf(v: Value)
    requires Parsed(v)
    ensures Compact(v) != "" && Compact(v)[0] !in {']', '}', ',', ':'}
  {}

  lemma ValueOpens(inner: string)
    ensures ReadValue("[" + inner) == ReadArray(inner) && ReadValue("{" + inner) == ReadObject(inner)
  {
    assert ("[" + inner)[1..] == inner && ("{" + inner)[1..] == inner;
    hide ReadArray, ReadObject;
  }

  lemma ArrayRead(inner: string, items: seq<Value>, rest: string)
    requires ReadItems(inner) == Some((items, rest)) && inner != "" && inner[0] != ']'
    ensures ReadValue("[" + inner) == Some((Array(items), rest))
  {
    ValueOpens(inner);
    hide ReadItems, ReadValue;
  }

  lemma ObjectRead(inner: string, fields: seq<Field>, rest: string)
    requires ReadFields(inner) == Some((fields, rest)) && inner != "" && inner[0] == '\"'
    ensures ReadValue("{" + inner) == Some((Object(fields), rest))
  {
    ValueOpens(inner);
    hide ReadFields, ReadValue;
  }

  lemma EmptyRead(rest: string)
    ensures ReadValue("[]" + rest) == Some((Array([]), rest)) && ReadValue("{}" + rest) == Some((Object([]), rest))
  {
    assert "[]" + rest == "[" + ("]" + rest) && "{}" + rest == "{" + ("}" + rest);
    ValueOpens("]" + rest);
    ValueOpens("}" + rest);
    hide ReadValue;
    assert ("]" + rest)[1..] == rest && ("}" + rest)[1..] == rest;
  }

  lemma CompactArray(items: seq<Value>, rest: string)
    ensures Compact(Array(items)) + rest
         == if items == [] then "[]" + rest else "[" + (CompactItems(items) + "]" + rest)
  {
    var inner := CompactItems(items);
    assert Compact(Array(items)) == "[" + inner + "]";
    hide CompactItems, Compact;
    assert "[" + inner + "]" + rest == "[" + (inner + "]" + rest);
    if items == [] { EmptyCompact(); }
  }

  lemma CompactObject(fields: seq<Field>, rest: string)
    ensures Compact(Object(fields)) + rest
         == if fields == [] then "{}" + rest else "{" + (CompactFields(fields) + "}" + rest)
  {
    var inner := CompactFields(fields);
    assert Compact(Object(fields)) == "{" + inner + "}";
    hide CompactFields, Compact;
    assert "{" + inner + "}" + rest == "{" + (inner + "}" + rest);
    if fields == [] { EmptyCompact(); }
  }

  lemma EmptyCompact()
    ensures CompactItems([]) == "" && CompactFields([]) == ""
  {}

  lemma AtomReadsBack(v: Value, rest: string)
    requires Parsed(v) && !v.Array? && !v.Object? && (rest == "" || !IsNumeric(rest[0]))
    ensures ReadValue(Compact(v) + rest) == Some((v, rest))
  {
    match v {
      case Null => WordReadsBack("null", v, rest);
      case Bool(b) => WordReadsBack(if b then "true" else "false", v, rest);
      case Number(text, _) => NumberReadsBack(text, rest);
      case Str(t) => QuotedReadsBack(t, rest);
    }
  }

  /** Compact text reads back as the value that it was made of. */
  lemma {:induction false} CompactReadsBack(v: Value, rest: string)
    requires Parsed(v) && (rest == "" || !IsNumeric(rest[0]))
    ensures ReadValue(Compact(v) + rest) == Some((v, rest))
    decreases v, 1
  {
    match v {
      case Array(items) =>
        assert forall i | 0 <= i < |items| :: Parsed(items[i]);
        hide *;
        CompactArray(items, rest);
        if items == [] {
          EmptyRead(rest);
        } else {
          ItemsReadBack(items, rest);
          ArrayRead(CompactItems(items) + "]" + rest, items, rest);
        }
      case Object(fields) =>
        assert forall i | 0 <= i < |fields| :: Parsed(fields[i].value);
        hide *;
        CompactObject(fields, rest);
        if fields == [] {
          EmptyRead(rest);
        } else {
          FieldsReadBack(fields, rest);
          ObjectRead(CompactFields(fields) + "}" + rest, fields, rest);
        }
      case _ =>
        hide ReadValue, Compact, IsNumeric;
        AtomReadsBack(v, rest);
    }
  }

  lemma {:induction false} ItemsReadBack(items: seq<Value>, rest: string)
    requires items != [] && forall i | 0 <= i < |items| :: Parsed(items[i])
    ensures ReadItems(CompactItems(items) + "]" + rest) == Some((items, rest))
    ensures (CompactItems(items) + "]" + rest)[0] != ']'
    decreases items, 0
  {
    var v := items[0];
    if |items| == 1 {
      LastItem(items, rest);
      hide *;
      assert !IsNumeric(']') by { NotNumeric(); }
      CompactReadsBack(v, "]" + rest);
      LastItemRead(v, rest);
      assert items == [v];
    } else {
      var later := CompactItems(items[1..]) + "]" + rest;
      MoreItems(items, rest);
      hide *;
      assert !IsNumeric(',') by { NotNumeric(); }
      CompactReadsBack(v, "," + later);
      ItemsReadBack(items[1..], rest);
      MoreItemsRead(v, items[1..], later, rest);
      assert items == [v] + items[1..];
    }
  }

  lemma LastItem(items: seq<Value>, rest: string)
    requires |items| == 1 && Parsed(items[0])
    ensures CompactItems(items) + "]" + rest == Compact(items[0]) + ("]" + rest)
    ensures (CompactItems(items) + "]" + rest)[0] != ']'
  {
    StartOf(items[0]);
  }

  lemma MoreItems(items: seq<Value>, rest: string)
    requires |items| > 1 && Parsed(items[0])
    ensures CompactItems(items) + "]" + rest == Compact(items[0]) + ("," + (CompactItems(items[1..]) + "]" + rest))
    ensures (CompactItems(items) + "]" + rest)[0] != ']'
  {
    var first, more := Compact(items[0]), CompactItems(items[1..]);
    StartOf(items[0]);
    assert CompactItems(items) == first + "," + more;
    hide *;
    Regroup(first, ",", more, "]", rest);
  }

  lemma LastItemRead(v: Value, rest: string)
    requires ReadValue(Compact(v) + ("]" + rest)) == Some((v, "]" + rest))
    ensures ReadItems(Compact(v) + ("]" + rest)) == Some(([v], rest))
  {
    hide ReadValue, Compact;
    assert ("]" + rest)[1..] == rest;
  }

  lemma MoreItemsRead(v: Value, more: seq<Value>, later: string, rest: string)
    requires ReadValue(Compact(v) + ("," + later)) == Some((v, "," + later))
    requires ReadItems(later) == Some((more, rest))
    ensures ReadItems(Compact(v) + ("," + later)) == Some(([v] + more, rest))
  {
    hide ReadValue, Compact;
    assert ("," + later)[1..] == later;
  }

  lemma {:induction false} FieldReadsBack(f: Field, rest: string)
    requires Parsed(f.value) && (rest == "" || !IsNumeric(rest[0]))
    ensures ReadField(FieldText(f) + rest) == Some((f, rest))
    decreases f, 2
  {
    var s := FieldText(f) + rest;
    var later := ":" + (Compact(f.value) + rest);
    assert s == Quoted(f.key) + later && later[1..] == Compact(f.value) + rest;
    hide Compact, ReadValue, Quoted, FieldText;
    QuotedReadsBack(f.key, later);
    CompactReadsBack(f.value, rest);
  }

  lemma {:induction false} FieldsReadBack(fields: seq<Field>, rest: string)
    requires fields != [] && forall i | 0 <= i < |fields| :: Parsed(fields[i].value)
    ensures ReadFields(CompactFields(fields) + "}" + rest) == Some((fields, rest))
    ensures (CompactFields(fields) + "}" + rest)[0] == '\"'
    decreases fields, 0
  {
    var f := fields[0];
    if |fields| == 1 {
      LastField(fields, rest);
      hide *;
      assert !IsNumeric('}') by { NotNumeric(); }
      FieldReadsBack(f, "}" + rest);
      LastFieldRead(f, rest);
      assert fields == [f];
    } else {
      var later := CompactFields(fields[1..]) + "}" + rest;
      MoreFields(fields, rest);
      hide *;
      assert !IsNumeric(',') by { NotNumeric(); }
      FieldReadsBack(f, "," + later);
      FieldsReadBack(fields[1..], rest);
      MoreFieldsRead(f, fields[1..], later, rest);
      assert fields == [f] + fields[1..];
    }
  }

  /** A field and what stands before the next. */
  function FieldText(f: Field): string {
    Quoted(f.key) + ":" + Compact(f.value)
  }

  lemma NotNumeric()
    ensures !IsNumeric(',') && !IsNumeric(']') && !IsNumeric('}')
  {}

  lemma LastField(fields: seq<Field>, rest: string)
    requires |fields| == 1
    ensures CompactFields(fields) + "}" + rest == FieldText(fields[0]) + ("}" + rest)
    ensures (CompactFields(fields) + "}" + rest)[0] == '\"'
  {}

  lemma MoreFields(fields: seq<Field>, rest: string)
    requires |fields| > 1
    ensures CompactFields(fields) + "}" + rest
         == FieldText(fields[0]) + ("," + (CompactFields(fields[1..]) + "}" + rest))
    ensures (CompactFields(fields) + "}" + rest)[0] == '\"'
  {
    var first, more := FieldText(fields[0]), CompactFields(fields[1..]);
    assert CompactFields(fields) == first + "," + more && first != "" && first[0] == '\"';
    hide *;
    Regroup(first, ",", more, "}", rest);
  }

  lemma Regroup(a: string, b: string, c: string, d: string, e: string)
    ensures a + b + c + d + e == a + (b + (c + d + e))
    ensures a != "" ==> (a + b + c + d + e)[0] == a[0]
  {}

  lemma LastFieldRead(f: Field, rest: string)
    requires ReadField(FieldText(f) + ("}" + rest)) == Some((f, "}" + rest))
    ensures ReadFields(FieldText(f) + ("}" + rest)) == Some(([f], rest))
  {
    hide ReadField, FieldText;
    assert ("}" + rest)[1..] == rest;
  }

  lemma MoreFieldsRead(f: Field, more: seq<Field>, later: string, rest: string)
    requires ReadField(FieldText(f) + ("," + later)) == Some((f, "," + later))
    requires ReadFields(later) == Some((more, rest))
    ensures ReadFields(FieldText(f) + ("," + later)) == Some(([f] + more, rest))
  {
    hide ReadField, FieldText;
    assert ("," + later)[1..] == later;
  }

  // ---- scalars ----

  /** What the text of a field says of its value. */
  predicate Denotes(text: string, v: Value) {
    match v
    case Str(s) => text == s
    case Null => text == "-"
    case _ => ReadValue(text) == Some((v, "")) && text != "-"
  }

  /** A scalar is the string itself for a string; anything else is JSON that
      reads back as the value, but for null, which alone is a dash. */
  lemma ScalarDenotes(v: Value)
    requires Parsed(v)
    ensures Denotes(Scalar(v), v)
  {
    if !v.Str? && !v.Null? {
      CompactReadsBack(v, "");
      assert Compact(v) + "" == Compact(v);
      StartOf(v);
      assert Compact(v) != "-" by {
        if v.Number? { assert IsNumber(v.text) && !IsNumber("-"); }
      }
    }
  }
}
