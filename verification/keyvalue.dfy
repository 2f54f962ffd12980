/** The key/value view of an object reply: a tree flattened into lines, and the
    proof of when and how the tree can be told from them. */
module KeyValue {
  import opened Common
  import opened Json
  import opened Text
  import Reading

  /** A display key, and a value unless it heads a nested object. */
  datatype Line = Line(key: string, value: Option<string>)

  // ---- flattening ----

  predicate IsFraming(key: string, indent: nat) {
    indent == 0 && key == "status"
  }

  function FlattenField(f: Field, indent: nat): seq<Line>
    decreases f, 1
  {
    var key := Spaces(2 * indent) + f.key;
    if IsFraming(f.key, indent) then []
    else if f.value.Object? then [Line(key, None)] + Flatten(f.value.fields, indent + 1)
    else [Line(key, Some(Scalar(f.value)))]
  }

  function Flatten(fields: seq<Field>, indent: nat): seq<Line>
    decreases fields, 0
  {
    if fields == [] then []
    else FlattenField(fields[0], indent) + Flatten(fields[1..], indent)
  }

  lemma {:induction false} FlattenAppend(fields: seq<Field>, f: Field, indent: nat)
    ensures Flatten(fields + [f], indent) == Flatten(fields, indent) + FlattenField(f, indent)
  {
    if fields == [] {
      assert Flatten([f], indent) == FlattenField(f, indent) + Flatten([f][1..], indent);
    } else {
      assert (fields + [f])[1..] == fields[1..] + [f];
      FlattenAppend(fields[1..], f, indent);
    }
  }

  /** The vector that `CollectKv` pushes lines onto. */
  class Lines {
    var items: seq<Line>

    constructor ()
      ensures items == []
    {
      items := [];
    }

    method Push(key: string, value: Option<string>)
      modifies this
      ensures items == old(items) + [Line(key, value)]
    {
      items := items + [Line(key, value)];
    }
  }

  lemma Extend(a: seq<Line>, b: seq<Line>, c: seq<Line>)
    ensures a + (b + c) == a + b + c && a + [] == a
  {}

  method CollectKv(v: Value, indent: nat, out: Lines)
    modifies out
    ensures out.items == old(out.items) + if v.Object? then Flatten(v.fields, indent) else []
    decreases v
  {
    if !v.Object? { return; }
    var i := 0;
    while i < |v.fields|
      invariant i <= |v.fields|
      invariant out.items == old(out.items) + Flatten(v.fields[..i], indent)
    {
      var f := v.fields[i];
      assert v.fields[..i + 1] == v.fields[..i] + [f];
      FlattenAppend(v.fields[..i], f, indent);
      i := i + 1;
      ghost var before := out.items;
      Extend(old(out.items), Flatten(v.fields[..i - 1], indent), FlattenField(f, indent));
      if IsFraming(f.key, indent) { continue; }
      var key := Spaces(2 * indent) + f.key;
      if f.value.Object? {
        out.Push(key, None);
        CollectKv(f.value, indent + 1, out);
        Extend(before, [Line(key, None)], Flatten(f.value.fields, indent + 1));
      } else {
        out.Push(key, Some(Scalar(f.value)));
      }
      assert out.items == before + FlattenField(f, indent);
    }
    assert v.fields[..|v.fields|] == v.fields;
  }

  // ---- what the lines keep of the tree ----

  /** A reply with its scalars replaced by their text. */
  datatype Tree = Leaf(text: string) | Node(children: seq<Named>)
  datatype Named = Named(key: string, tree: Tree)

  function EraseField(f: Field, indent: nat): Named
    decreases f, 1
  {
    Named(f.key, if f.value.Object? then Node(Erase(f.value.fields, indent + 1)) else Leaf(Scalar(f.value)))
  }

  /** What is displayed: all but the framing field at the top. */
  function Erase(fields: seq<Field>, indent: nat): seq<Named>
    decreases fields, 0
  {
    if fields == [] then []
    else (if IsFraming(fields[0].key, indent) then [] else [EraseField(fields[0], indent)]) + Erase(fields[1..], indent)
  }

  function KeysOf(fields: seq<Field>): seq<string> {
    seq(|fields|, i requires 0 <= i < |fields| => fields[i].key)
  }

  function NamesOf(children: seq<Named>): seq<string> {
    seq(|children|, i requires 0 <= i < |children| => children[i].key)
  }

  /** `keys` without `key`. */
  function Except(keys: seq<string>, key: string): seq<string> {
    if keys == [] then []
    else (if keys[0] == key then [] else [keys[0]]) + Except(keys[1..], key)
  }

  /** The names displayed: at the top all keys but `status`, deeper all keys. */
  lemma {:induction false} NamesDisplayed(fields: seq<Field>, indent: nat)
    ensures NamesOf(Erase(fields, indent)) == if indent == 0 then Except(KeysOf(fields), "status") else KeysOf(fields)
  {
    if fields != [] {
      NamesDisplayed(fields[1..], indent);
      assert KeysOf(fields) == [fields[0].key] + KeysOf(fields[1..]);
      var first := if IsFraming(fields[0].key, indent) then [] else [EraseField(fields[0], indent)];
      assert NamesOf(Erase(fields, indent)) == NamesOf(first) + NamesOf(Erase(fields[1..], indent));
    }
  }

  // ---- the lines of a tree ----

  function PrintNamed(n: Named, depth: nat): seq<Line>
    decreases n, 1
  {
    var key := Spaces(2 * depth) + n.key;
    match n.tree
    case Leaf(text) => [Line(key, Some(text))]
    case Node(children) => [Line(key, None)] + Print(children, depth + 1)
  }

  function Print(children: seq<Named>, depth: nat): seq<Line>
    decreases children, 0
  {
    if children == [] then [] else PrintNamed(children[0], depth) + Print(children[1..], depth)
  }

  /** The lines show what is displayed of the reply, and nothing else of it. */
  lemma {:induction false} FlattenPrints(fields: seq<Field>, indent: nat)
    ensures Flatten(fields, indent) == Print(Erase(fields, indent), indent)
    decreases fields
  {
    if fields != [] {
      var f := fields[0];
      FlattenPrints(fields[1..], indent);
      if IsFraming(f.key, indent) {
        assert Erase(fields, indent) == Erase(fields[1..], indent);
      } else {
        if f.value.Object? { FlattenPrints(f.value.fields, indent + 1); }
        assert Erase(fields, indent)[1..] == Erase(fields[1..], indent);
      }
    }
  }

  // ---- reading the lines back ----

  predicate IndentedBy(key: string, depth: nat) {
    Spaces(2 * depth) <= key
  }

  /** Children read, and the lines that are left. */
  datatype Built = Built(children: seq<Named>, rest: seq<Line>)

  /** The children at `depth` that the lines begin with: behind a header, all
      lines that are indented far enough belong to it. */
  function Build(lines: seq<Line>, depth: nat): (b: Built)
    ensures |b.rest| <= |lines|
    decreases |lines|
  {
    if lines == [] || !IndentedBy(lines[0].key, depth) then Built([], lines)
    else
      var inner :=
        if lines[0].value.Some? then Built([], lines[1..]) else Build(lines[1..], depth + 1);
      var tree := if lines[0].value.Some? then Leaf(lines[0].value.value) else Node(inner.children);
      var later := Build(inner.rest, depth);
      Built([Named(lines[0].key[2 * depth..], tree)] + later.children, later.rest)
  }

  function Unflatten(lines: seq<Line>): seq<Named> {
    Build(lines, 0).children
  }

  /** No header is followed by a sibling that is indented like its children. */
  predicate Tidy(children: seq<Named>)
    decreases children
  {
    children == [] ||
    (&& (children[0].tree.Node? ==> Tidy(children[0].tree.children))
     && (children[0].tree.Node? && |children| > 1 ==> !IndentedBy(children[1].key, 1))
     && Tidy(children[1..]))
  }

  predicate Ends(rest: seq<Line>, depth: nat) {
    rest == [] || !IndentedBy(rest[0].key, depth)
  }

  /** Indentation adds up. */
  lemma IndentMore(key: string, depth: nat)
    ensures IndentedBy(Spaces(2 * depth) + key, depth)
    ensures IndentedBy(Spaces(2 * depth) + key, depth + 1) <==> IndentedBy(key, 1)
    ensures (Spaces(2 * depth) + key)[2 * depth..] == key
  {
    var s := Spaces(2 * depth) + key;
    assert s[..2 * depth] == Spaces(2 * depth);
    assert Spaces(2 * (depth + 1)) == Spaces(2 * depth) + Spaces(2);
    if |key| >= 2 {
      assert s[..2 * depth + 2] == Spaces(2 * depth) + key[..2];
    }
  }

  lemma EndsDeeper(rest: seq<Line>, depth: nat)
    requires Ends(rest, depth)
    ensures Ends(rest, depth + 1)
  {}

  /** The first line of children. */
  lemma PrintStarts(children: seq<Named>, depth: nat, rest: seq<Line>)
    requires children != []
    ensures var lines := Print(children, depth) + rest;
            && lines != [] && lines[0].key == Spaces(2 * depth) + children[0].key
            && (lines[0].value.None? <==> children[0].tree.Node?)
            && (children[0].tree.Leaf? ==> lines[0].value == Some(children[0].tree.text))
            && lines[1..] == (if children[0].tree.Node? then Print(children[0].tree.children, depth + 1) else [])
                             + (Print(children[1..], depth) + rest)
  {
    var first := PrintNamed(children[0], depth);
    assert Print(children, depth) + rest == first + (Print(children[1..], depth) + rest);
    assert (first + (Print(children[1..], depth) + rest))[1..] == first[1..] + (Print(children[1..], depth) + rest);
  }

  /** What follows the children of a header is not taken for more of them. */
  lemma LaterEnds(children: seq<Named>, depth: nat, rest: seq<Line>)
    requires Ends(rest, depth)
    requires children != [] ==> !IndentedBy(children[0].key, 1)
    ensures Ends(Print(children, depth) + rest, depth + 1)
  {
    if children == [] {
      assert Print(children, depth) + rest == rest;
      EndsDeeper(rest, depth);
    } else {
      PrintStarts(children, depth, rest);
      IndentMore(children[0].key, depth);
    }
  }

  lemma BuildLeaf(lines: seq<Line>, depth: nat)
    requires lines != [] && IndentedBy(lines[0].key, depth) && lines[0].value.Some?
    ensures var later := Build(lines[1..], depth);
            Build(lines, depth)
            == Built([Named(lines[0].key[2 * depth..], Leaf(lines[0].value.value))] + later.children, later.rest)
  {}

  lemma BuildNode(lines: seq<Line>, depth: nat)
    requires lines != [] && IndentedBy(lines[0].key, depth) && lines[0].value.None?
    ensures var inner := Build(lines[1..], depth + 1);
            var later := Build(inner.rest, depth);
            Build(lines, depth)
            == Built([Named(lines[0].key[2 * depth..], Node(inner.children))] + later.children, later.rest)
  {}

  /** One more name in front of children that read back. */
  lemma BuildFirst(children: seq<Named>, depth: nat, rest: seq<Line>)
    requires children != [] && Build(Print(children[1..], depth) + rest, depth) == Built(children[1..], rest)
    requires children[0].tree.Node? ==>
               var later := Print(children[1..], depth) + rest;
               Build(Print(children[0].tree.children, depth + 1) + later, depth + 1)
               == Built(children[0].tree.children, later)
    ensures Build(Print(children, depth) + rest, depth) == Built(children, rest)
  {
    var c, later := children[0], Print(children[1..], depth) + rest;
    PrintStarts(children, depth, rest);
    IndentMore(c.key, depth);
    assert children == [c] + children[1..];
    assert [] + later == later;
    hide Print, IndentedBy, Build;
    if c.tree.Node? {
      BuildNode(Print(children, depth) + rest, depth);
    } else {
      BuildLeaf(Print(children, depth) + rest, depth);
    }
  }

  /** Reading the lines of a tidy tree rebuilds it and stops behind it. */
  lemma {:induction false} BuildPrint(children: seq<Named>, depth: nat, rest: seq<Line>)
    requires Tidy(children) && Ends(rest, depth)
    ensures Build(Print(children, depth) + rest, depth) == Built(children, rest)
    decreases children
  {
    if children == [] {
      assert Print(children, depth) + rest == rest;
    } else {
      var c, later := children[0], Print(children[1..], depth) + rest;
      if c.tree.Node? { LaterEnds(children[1..], depth, rest); }
      hide Print, IndentedBy, Ends, Build;
      BuildPrint(children[1..], depth, rest);
      if c.tree.Node? { BuildPrint(c.tree.children, depth + 1, later); }
      BuildFirst(children, depth, rest);
    }
  }

  lemma {:induction false} BuildEnds(lines: seq<Line>, depth: nat)
    ensures Ends(Build(lines, depth).rest, depth)
    decreases |lines|
  {
    if lines != [] && IndentedBy(lines[0].key, depth) {
      var inner := if lines[0].value.Some? then Built([], lines[1..]) else Build(lines[1..], depth + 1);
      BuildEnds(inner.rest, depth);
    }
  }

  /** Whatever the lines, what is read from them is tidy. */
  lemma {:induction false} BuildIsTidy(lines: seq<Line>, depth: nat)
    ensures Tidy(Build(lines, depth).children)
    decreases |lines|
  {
    if lines != [] && IndentedBy(lines[0].key, depth) {
      var inner := if lines[0].value.Some? then Built([], lines[1..]) else Build(lines[1..], depth + 1);
      var all := Build(lines, depth).children;
      BuildIsTidy(inner.rest, depth);
      assert all[1..] == Build(inner.rest, depth).children;
      if lines[0].value.None? {
        BuildIsTidy(lines[1..], depth + 1);
        BuildEnds(lines[1..], depth + 1);
        if |all| > 1 {
          var key := inner.rest[0].key;
          assert all[1].key == key[2 * depth..];
          assert key == Spaces(2 * depth) + all[1].key;
          IndentMore(all[1].key, depth);
        }
      }
    }
  }

  /** Round trip, exactly: reading indentation and header marks rebuilds the
      displayed tree from its lines if and only if no header is followed by a
      sibling whose key starts with two spaces, the step of indentation. */
  lemma FlattenRoundTrip(fields: seq<Field>)
    ensures Unflatten(Flatten(fields, 0)) == Erase(fields, 0) <==> Tidy(Erase(fields, 0))
  {
    var lines := Flatten(fields, 0);
    FlattenPrints(fields, 0);
    if Tidy(Erase(fields, 0)) {
      BuildPrint(Erase(fields, 0), 0, []);
      assert lines + [] == lines;
    }
    BuildIsTidy(lines, 0);
  }

  // ---- when the lines tell the reply ----

  /** Sorts behind every key that starts with two spaces. */
  predicate SafeHead(key: string) {
    Before(Spaces(2), key) && !IndentedBy(key, 1)
  }

  /** A safe key sorts behind all keys that are indented, and no other does. */
  lemma SafeHeadMeans(key: string)
    ensures SafeHead(key) <==> forall rest: string :: Before(Spaces(2) + rest, key)
  {
    assert Spaces(2) + [] == Spaces(2);
    if SafeHead(key) {
      forall rest: string ensures Before(Spaces(2) + rest, key) {
        SafeIsBehind(key, Spaces(2) + rest);
      }
    } else if IndentedBy(key, 1) {
      var rest := key[2..] + " ";
      assert Spaces(2) + rest == key + " ";
      PrefixBefore(key, " ");
      BeforeAsymmetric(key, key + " ");
    }
  }

  lemma {:induction false} BeforeAsymmetric(a: string, b: string)
    requires Before(a, b)
    ensures !Before(b, a) && a != b
  {
    if a != [] && a[0] == b[0] { BeforeAsymmetric(a[1..], b[1..]); }
  }

  lemma SafeIsBehind(key: string, other: string)
    requires SafeHead(key) && IndentedBy(other, 1)
    ensures Before(other, key) && !Before(key, other)
  {
    var two := Spaces(2);
    assert two[1..] == Spaces(1) && two[1..][1..] == [];
    assert other[..2] == two && other[0] == other[1] == ' ';
    assert key != [] && key[0] >= ' ';
    if key[0] == ' ' {
      assert Before(Spaces(1), key[1..]);
      assert key[1] >= ' ';
      assert key[1] != ' ';
      assert Before(other[1..], key[1..]);
    }
    BeforeAsymmetric(other, key);
  }

  /** Keys in order, at all levels. */
  predicate Ordered(children: seq<Named>)
    decreases children
  {
    children == [] ||
    (&& (children[0].tree.Node? ==> Ordered(children[0].tree.children))
     && (forall n | n in children[1..] :: Before(children[0].key, n.key))
     && Ordered(children[1..]))
  }

  /** All keys of objects, at all levels, are among those of `heads`. */
  predicate HeadsIn(children: seq<Named>, heads: string -> bool)
    decreases children
  {
    children == [] ||
    (&& (children[0].tree.Node? ==> heads(children[0].key) && HeadsIn(children[0].tree.children, heads))
     && HeadsIn(children[1..], heads))
  }

  lemma {:induction false} EraseKeys(fields: seq<Field>, indent: nat, n: Named)
    requires n in Erase(fields, indent)
    ensures exists i | 0 <= i < |fields| :: fields[i].key == n.key
  {
    if n in Erase(fields[1..], indent) {
      EraseKeys(fields[1..], indent, n);
      var i :| 0 <= i < |fields[1..]| && fields[1..][i].key == n.key;
      assert fields[i + 1].key == n.key;
    } else {
      assert fields[0].key == n.key;
    }
  }

  lemma {:induction false} EraseOrdered(fields: seq<Field>, indent: nat)
    requires ValidFields(fields)
    ensures Ordered(Erase(fields, indent))
    decreases fields
  {
    if fields != [] {
      var f := fields[0];
      assert Valid(f.value) && (f.value.Object? ==> ValidFields(f.value.fields));
      ValidRest(fields);
      EraseStep(fields, indent);
      if !IsFraming(f.key, indent) { EraseBehind(fields, indent); }
      hide Before, Erase, ValidFields, Valid;
      EraseOrdered(fields[1..], indent);
      if f.value.Object? { EraseOrdered(f.value.fields, indent + 1); }
    }
  }

  lemma ValidRest(fields: seq<Field>)
    requires fields != [] && ValidFields(fields)
    ensures ValidFields(fields[1..])
  {
    hide Before, Valid;
  }

  lemma EraseStep(fields: seq<Field>, indent: nat)
    requires fields != []
    ensures var f, all, later := fields[0], Erase(fields, indent), Erase(fields[1..], indent);
            if IsFraming(f.key, indent) then all == later
            else
              && all != [] && all[0].key == f.key && all[1..] == later
              && (all[0].tree.Node? <==> f.value.Object?)
              && (f.value.Object? ==> all[0].tree == Node(Erase(f.value.fields, indent + 1)))
  {}

  lemma EraseBehind(fields: seq<Field>, indent: nat)
    requires fields != [] && ValidFields(fields)
    ensures forall n | n in Erase(fields[1..], indent) :: Before(fields[0].key, n.key)
  {
    hide Before, Erase, Valid;
    forall n | n in Erase(fields[1..], indent) ensures Before(fields[0].key, n.key) {
      EraseKeys(fields[1..], indent, n);
      var i :| 0 <= i < |fields[1..]| && fields[1..][i].key == n.key;
      assert fields[i + 1].key == n.key;
    }
  }

  /** In order, nothing indented follows a safe key. */
  lemma SafeThenPlain(children: seq<Named>)
    requires Ordered(children) && children != [] && SafeHead(children[0].key)
    ensures |children| > 1 ==> !IndentedBy(children[1].key, 1)
  {
    if |children| > 1 && IndentedBy(children[1].key, 1) {
      assert children[1] in children[1..];
      SafeIsBehind(children[0].key, children[1].key);
    }
  }

  /** Lines that begin with a tree, against lines that begin with another. */
  lemma SameFirst(s: seq<Named>, t: seq<Named>, depth: nat, sRest: seq<Line>, tRest: seq<Line>)
    requires Ends(sRest, depth) && Ends(tRest, depth)
    requires Print(s, depth) + sRest == Print(t, depth) + tRest
    ensures s == [] <==> t == []
    ensures s == [] ==> sRest == tRest
    ensures s != [] && t != [] ==>
      && s[0].key == t[0].key && (s[0].tree.Node? <==> t[0].tree.Node?)
      && var sLater, tLater := Print(s[1..], depth) + sRest, Print(t[1..], depth) + tRest;
         if s[0].tree.Leaf? then s[0].tree == t[0].tree && sLater == tLater
         else Print(s[0].tree.children, depth + 1) + sLater == Print(t[0].tree.children, depth + 1) + tLater
  {
    if s != [] { PrintStarts(s, depth, sRest); IndentMore(s[0].key, depth); }
    if t != [] { PrintStarts(t, depth, tRest); IndentMore(t[0].key, depth); }
    assert s == [] ==> Print(s, depth) + sRest == sRest;
    assert t == [] ==> Print(t, depth) + tRest == tRest;
    hide Print, IndentedBy;
    if s != [] && t != [] {
      var sLater, tLater := Print(s[1..], depth) + sRest, Print(t[1..], depth) + tRest;
      assert [] + sLater == sLater && [] + tLater == tLater;
    }
  }

  /** Two ordered trees with the same lines are the same, if the keys of the
      objects of one of them are safe. */
  lemma {:induction false} SameLines(s: seq<Named>, t: seq<Named>, depth: nat, sRest: seq<Line>, tRest: seq<Line>)
    requires Ordered(s) && Ordered(t) && HeadsIn(s, SafeHead)
    requires Ends(sRest, depth) && Ends(tRest, depth)
    requires Print(s, depth) + sRest == Print(t, depth) + tRest
    ensures s == t && sRest == tRest
    decreases s
  {
    SameFirst(s, t, depth, sRest, tRest);
    if s != [] {
      var sLater, tLater := Print(s[1..], depth) + sRest, Print(t[1..], depth) + tRest;
      if s[0].tree.Node? {
        SafeThenPlain(s);
        SafeThenPlain(t);
        LaterEnds(s[1..], depth, sRest);
        LaterEnds(t[1..], depth, tRest);
      }
      assert s == [s[0]] + s[1..] && t == [t[0]] + t[1..];
      hide Print, IndentedBy, Ends, SafeHead;
      if s[0].tree.Node? {
        SameLines(s[0].tree.children, t[0].tree.children, depth + 1, sLater, tLater);
      }
      SameLines(s[1..], t[1..], depth, sRest, tRest);
    }
  }

  lemma {:induction false} SafeIsTidy(children: seq<Named>)
    requires Ordered(children) && HeadsIn(children, SafeHead)
    ensures Tidy(children)
    decreases children
  {
    if children != [] {
      if children[0].tree.Node? {
        SafeIsTidy(children[0].tree.children);
        SafeThenPlain(children);
      }
      SafeIsTidy(children[1..]);
    }
  }

  /** No other reply has the same lines but shows something else. */
  ghost predicate ToldApart(a: seq<Field>) {
    forall b: seq<Field> | ValidFields(b) && Flatten(b, 0) == Flatten(a, 0) :: Erase(b, 0) == Erase(a, 0)
  }

  /** The lines of a reply tell it from all other replies, and read back as what
      it shows, if the keys of its objects are safe: non-empty and starting above
      the space, say. */
  lemma LinesTellReply(a: seq<Field>)
    requires ValidFields(a) && HeadsIn(Erase(a, 0), SafeHead)
    ensures ToldApart(a) && Unflatten(Flatten(a, 0)) == Erase(a, 0)
  {
    FlattenPrints(a, 0);
    EraseOrdered(a, 0);
    SafeIsTidy(Erase(a, 0));
    FlattenRoundTrip(a);
    forall b: seq<Field> | ValidFields(b) && Flatten(b, 0) == Flatten(a, 0) ensures Erase(b, 0) == Erase(a, 0) {
      FlattenPrints(b, 0);
      EraseOrdered(b, 0);
      SameLines(Erase(a, 0), Erase(b, 0), 0, [], []);
    }
  }

  lemma PlainIsSafe(key: string)
    requires key != [] && key[0] > ' '
    ensures SafeHead(key)
  {
    assert Spaces(2)[0] == ' ';
  }

  lemma OneField(f: Field, indent: nat)
    requires !IsFraming(f.key, indent)
    ensures Erase([f], indent) == [EraseField(f, indent)] && Flatten([f], indent) == FlattenField(f, indent)
  {
    assert [f][1..] == [];
  }

  lemma TwoFields(f: Field, g: Field, indent: nat)
    requires !IsFraming(f.key, indent) && !IsFraming(g.key, indent)
    ensures Erase([f, g], indent) == [EraseField(f, indent), EraseField(g, indent)]
    ensures Flatten([f, g], indent) == FlattenField(f, indent) + FlattenField(g, indent)
  {
    assert [f, g][1..] == [g];
    OneField(g, indent);
  }

  /** An indented key that sorts behind `head`, without its indentation. */
  function IndentedAfter(head: string): string {
    if IndentedBy(head, 1) then head[2..] + "x" else "x"
  }

  lemma IndentedAfterIsBehind(head: string)
    requires !SafeHead(head)
    ensures Before(head, Spaces(2) + IndentedAfter(head))
  {
    if IndentedBy(head, 1) {
      assert Spaces(2) + IndentedAfter(head) == head + "x";
      PrefixBefore(head, "x");
    } else {
      BeforeTotal(head, Spaces(2));
      assert head != Spaces(2);
      BeforeLonger(head, Spaces(2), "x");
    }
  }

  lemma StatusIsSafe()
    ensures SafeHead("status")
  {
    PlainIsSafe("status");
  }

  /** Whether all keys of objects are `head`. */
  predicate HeadsAre(children: seq<Named>, head: string) {
    HeadsIn(children, k => k == head)
  }

  /** A key that is not safe does make different replies look the same: an
      object under it that holds `x`, and an empty one followed by `  x`. With
      the empty key that is `{"": {"x": null}}` and `{"": {}, "  x": null}`. */
  lemma IndentedKeysCollide(head: string) returns (a: seq<Field>, b: seq<Field>)
    requires !SafeHead(head)
    ensures ValidFields(a) && ValidFields(b)
    ensures HeadsAre(Erase(a, 0), head) && HeadsAre(Erase(b, 0), head)
    ensures Flatten(a, 0) == Flatten(b, 0) && Erase(a, 0) != Erase(b, 0)
  {
    var x := IndentedAfter(head);
    var key := Spaces(2) + x;
    var full, empty := Field(head, Object([Field(x, Null)])), Field(head, Object([]));
    a, b := [full], [empty, Field(key, Null)];
    StatusIsSafe();
    IndentedAfterIsBehind(head);
    assert Spaces(0) + key == key && key[0] == ' ';
    OneField(full, 0);
    OneField(Field(x, Null), 1);
    TwoFields(empty, Field(key, Null), 0);
    assert Valid(Null) && ValidFields([Field(x, Null)]) && ValidFields([]);
    assert Valid(full.value) && Valid(empty.value);
    CollidingHeads(full, empty, key, x);
  }

  lemma CollidingHeads(full: Field, empty: Field, key: string, x: string)
    requires full.value == Object([Field(x, Null)]) && empty == Field(full.key, Object([]))
    ensures HeadsAre([EraseField(full, 0)], full.key)
    ensures HeadsAre([EraseField(empty, 0), EraseField(Field(key, Null), 0)], full.key)
  {
    OneField(Field(x, Null), 1);
    var leaf := [EraseField(Field(x, Null), 1)];
    assert HeadsAre(leaf, full.key) by { assert leaf[1..] == []; }
    assert [EraseField(full, 0)][1..] == [];
    var two := [EraseField(empty, 0), EraseField(Field(key, Null), 0)];
    assert two[1..] == [EraseField(Field(key, Null), 0)];
    assert two[1..][1..] == [];
    assert HeadsAre(two[1..], full.key);
  }

  lemma {:induction false} HeadsWithin(children: seq<Named>, heads: string -> bool, more: string -> bool)
    requires HeadsIn(children, heads) && forall k | heads(k) :: more(k)
    ensures HeadsIn(children, more)
    decreases children
  {
    if children != [] {
      if children[0].tree.Node? { HeadsWithin(children[0].tree.children, heads, more); }
      HeadsWithin(children[1..], heads, more);
    }
  }

  /** The exact condition, for any choice of keys for the objects in replies:
      the lines tell each such reply from all others if and only if all these
      keys are safe. */
  lemma HeadsExactly(heads: string -> bool)
    ensures (forall k | heads(k) :: SafeHead(k))
       <==> (forall a | ValidFields(a) && HeadsIn(Erase(a, 0), heads) :: ToldApart(a))
  {
    if forall k | heads(k) :: SafeHead(k) {
      forall a | ValidFields(a) && HeadsIn(Erase(a, 0), heads) ensures ToldApart(a) {
        HeadsWithin(Erase(a, 0), heads, SafeHead);
        LinesTellReply(a);
      }
    } else {
      var k :| heads(k) && !SafeHead(k);
      var a, b := IndentedKeysCollide(k);
      HeadsWithin(Erase(a, 0), h => h == k, heads);
      assert !ToldApart(a);
    }
  }

  /** A single reply may be told from all others although the key of an object
      in it is not safe, as `{"": {}}` is: the condition is on choices of keys. */
  lemma UnsafeMayBeTold()
    ensures !SafeHead("") && ToldApart([Field("", Object([]))])
  {
    var f := Field("", Object([]));
    OneField(f, 0);
    assert Spaces(0) + "" == "";
    var s := [EraseField(f, 0)];
    assert s[0].tree == Node([]) && s[1..] == [];
    FlattenPrints([f], 0);
    forall b: seq<Field> | ValidFields(b) && Flatten(b, 0) == Flatten([f], 0) ensures Erase(b, 0) == Erase([f], 0) {
      FlattenPrints(b, 0);
      OnlyEmptyHead(s, Erase(b, 0));
    }
  }

  lemma OnlyEmptyHead(s: seq<Named>, t: seq<Named>)
    requires |s| == 1 && s[0].tree == Node([]) && Print(s, 0) == Print(t, 0)
    ensures s == t
  {
    SameFirst(s, t, 0, [], []);
    assert s[1..] == [] && Print(s[1..], 0) + [] == [];
    assert t == [t[0]] + t[1..];
  }

  /** The number of names in a tree. */
  function Names(children: seq<Named>): nat
    decreases children
  {
    if children == [] then 0
    else
      1 + (if children[0].tree.Node? then Names(children[0].tree.children) else 0) + Names(children[1..])
  }

  /** One line for each displayed name, at any depth. */
  lemma {:induction false} OneLinePerName(fields: seq<Field>, indent: nat)
    ensures |Flatten(fields, indent)| == Names(Erase(fields, indent))
    decreases fields
  {
    if fields != [] {
      OneLinePerName(fields[1..], indent);
      var f := fields[0];
      if !IsFraming(f.key, indent) {
        assert Erase(fields, indent)[1..] == Erase(fields[1..], indent);
        if f.value.Object? {
          OneLinePerName(f.value.fields, indent + 1);
        }
      } else {
        assert Erase(fields, indent) == Erase(fields[1..], indent);
      }
    }
  }

  // ---- rendering ----

  /** The widest key, in bytes, of the lines with a value. */
  function KeyWidth(lines: seq<Line>): nat {
    if lines == [] then 0
    else
      var l := lines[|lines| - 1];
      var w := KeyWidth(lines[..|lines| - 1]);
      if l.value.Some? && ByteLen(l.key) > w then ByteLen(l.key) else w
  }

  function RenderLine(l: Line, width: nat): string {
    match l.value
    case Some(s) => Pad(l.key, width) + "   " + s + "\n"
    case None => l.key + ":" + "\n"
  }

  function RenderLines(lines: seq<Line>, width: nat): string {
    if lines == [] then ""
    else RenderLines(lines[..|lines| - 1], width) + RenderLine(lines[|lines| - 1], width)
  }

  method MeasureKeys(lines: seq<Line>) returns (width: nat)
    ensures width == KeyWidth(lines)
  {
    width := 0;
    var i := 0;
    while i < |lines|
      invariant i <= |lines| && width == KeyWidth(lines[..i])
    {
      assert lines[..i + 1][..i] == lines[..i];
      if lines[i].value.Some? && ByteLen(lines[i].key) > width {
        width := ByteLen(lines[i].key);
      }
      i := i + 1;
    }
    assert lines[..i] == lines;
  }

  method WriteLines(lines: seq<Line>, width: nat) returns (out: string)
    ensures out == RenderLines(lines, width)
  {
    out := "";
    var i := 0;
    while i < |lines|
      invariant i <= |lines| && out == RenderLines(lines[..i], width)
    {
      assert lines[..i + 1][..i] == lines[..i];
      var text;
      match lines[i].value {
        case Some(s) => text := Pad(lines[i].key, width) + "   " + s + "\n";
        case None => text := lines[i].key + ":" + "\n";
      }
      out := out + text;
      i := i + 1;
    }
    assert lines[..i] == lines;
  }

  /** The whole view: the lines of the reply, or a word if it has none. */
  function KvText(command: string, v: Value): string {
    var lines := if v.Object? then Flatten(v.fields, 0) else [];
    if lines == [] then command + ": ok" else TrimEnd(RenderLines(lines, KeyWidth(lines)))
  }

  method RenderKv(command: string, v: Value) returns (out: string)
    ensures out == KvText(command, v)
  {
    ghost var all := if v.Object? then Flatten(v.fields, 0) else [];
    assert [] + all == all;
    var lines := new Lines();
    CollectKv(v, 0, lines);
    assert lines.items == all;
    hide Flatten, RenderLines, KeyWidth, TrimEnd;
    if lines.items == [] {
      return command + ": ok";
    }
    var width := MeasureKeys(lines.items);
    out := WriteLines(lines.items, width);
    out := TrimEnd(out);
  }

  /** The width is no more than some key with a value takes, if there is one. */
  lemma {:induction false} KeyWidthAttained(lines: seq<Line>)
    ensures KeyWidth(lines) == 0
         || exists i | 0 <= i < |lines| :: lines[i].value.Some? && ByteLen(lines[i].key) == KeyWidth(lines)
  {
    if lines != [] {
      var n := |lines| - 1;
      KeyWidthAttained(lines[..n]);
      if KeyWidth(lines) == KeyWidth(lines[..n]) > 0 {
        var i :| 0 <= i < n && lines[..n][i].value.Some? && ByteLen(lines[..n][i].key) == KeyWidth(lines);
        assert lines[i] == lines[..n][i];
      } else if KeyWidth(lines) > 0 {
        assert lines[n].value.Some? && ByteLen(lines[n].key) == KeyWidth(lines);
      }
    }
  }

  lemma {:induction false} KeyWidthBounds(lines: seq<Line>, i: nat)
    requires i < |lines| && lines[i].value.Some?
    ensures ByteLen(lines[i].key) <= KeyWidth(lines)
  {
    if i < |lines| - 1 {
      KeyWidthBounds(lines[..|lines| - 1], i);
    }
  }

  /** The values of all lines start in one column, at the byte length of the
      longest key plus three, although padding counts chars: a key is followed by
      as many blanks as that takes. */
  lemma ValuesAligned(lines: seq<Line>, i: nat)
    requires i < |lines| && lines[i].value.Some?
    ensures var w := KeyWidth(lines);
            var text := RenderLine(lines[i], w);
            var s := lines[i].value.value;
            && |text| == w + 3 + |s| + 1
            && text[..|lines[i].key|] == lines[i].key
            && text[|lines[i].key|..w + 3] == Spaces(w + 3 - |lines[i].key|)
            && text[w + 3..w + 3 + |s|] == s
  {
    var w := KeyWidth(lines);
    KeyWidthBounds(lines, i);
    PadFits(lines[i].key, w);
  }

  /** What a line shows, without its line break. */
  function LineText(l: Line, width: nat): string {
    match l.value
    case Some(s) => Pad(l.key, width) + "   " + s
    case None => l.key + ":"
  }

  lemma LineEndsSolid(l: Line, width: nat)
    ensures LineText(l, width) != ""
    ensures EndsSolid(LineText(l, width)) <==> l.value.None? || EndsSolid(l.value.value)
  {
    var text := LineText(l, width);
    if l.value.Some? {
      var s := l.value.value;
      assert text == Pad(l.key, width) + "   " + s;
      assert text[|text| - 1] == if s == "" then ' ' else s[|s| - 1];
    } else {
      assert text[|text| - 1] == ':';
    }
  }

  lemma TrimBreak(all: string)
    requires all != ""
    ensures TrimEnd(all + "\n") == all <==> EndsSolid(all)
  {
    if EndsSolid(all) {
      TrimBlanks(all, "\n");
    } else {
      assert (all + "\n")[..|all|] == all;
      assert TrimEnd(all + "\n") == TrimEnd(all) <= all[..|all| - 1];
    }
  }

  /** The final `trim_end` takes the last line break and no more, if and only if
      the last line is a header or has a value that ends in no blank. */
  lemma TrimTakesOneBreak(lines: seq<Line>, width: nat)
    requires lines != []
    ensures var all := RenderLines(lines, width);
            var last := lines[|lines| - 1].value;
            TrimEnd(all) + "\n" == all <==> last.None? || EndsSolid(last.value)
  {
    var last := lines[|lines| - 1];
    var text := LineText(last, width);
    var all := RenderLines(lines[..|lines| - 1], width) + text;
    assert RenderLines(lines, width) == all + "\n";
    LineEndsSolid(last, width);
    assert all[|all| - 1] == text[|text| - 1];
    TrimBreak(all);
    hide RenderLines, LineText, TrimEnd;
    assert TrimEnd(all + "\n") + "\n" == all + "\n" ==> (TrimEnd(all + "\n") + "\n")[..|all|] == (all + "\n")[..|all|];
  }

  // ---- the printed lines ----

  function LineTexts(lines: seq<Line>, width: nat): (texts: seq<string>)
    ensures |texts| == |lines|
  {
    seq(|lines|, i requires 0 <= i < |lines| => LineText(lines[i], width))
  }

  lemma {:induction false} RenderedJoins(lines: seq<Line>, width: nat)
    requires lines != []
    ensures RenderLines(lines, width) == Join(LineTexts(lines, width), "\n") + "\n"
  {
    var n := |lines| - 1;
    assert LineTexts(lines, width)[..n] == LineTexts(lines[..n], width);
    var text := LineText(lines[n], width);
    assert RenderLine(lines[n], width) == text + "\n";
    if n > 0 {
      RenderedJoins(lines[..n], width);
      var before := Join(LineTexts(lines[..n], width), "\n");
      assert before + "\n" + (text + "\n") == before + "\n" + text + "\n";
    } else {
      assert RenderLines(lines[..n], width) == "";
    }
  }

  /** Whether the key or the value holds a line break. */
  predicate HasBreak(l: Line) {
    '\n' in l.key || (l.value.Some? && '\n' in l.value.value)
  }

  lemma LineTextBreaks(l: Line, width: nat)
    ensures '\n' in LineText(l, width) <==> HasBreak(l)
  {
    match l.value {
      case Some(s) =>
        var blanks := Spaces(if |l.key| < width then width - |l.key| else 0);
        assert LineText(l, width) == l.key + blanks + "   " + s;
      case None => assert LineText(l, width) == l.key + ":";
    }
  }

  /** Split at its line breaks, the printed view is the flattened lines, in
      order, if and only if no key or value holds a line break and the last line
      is a header or has a value that ends in no blank. */
  lemma PrintedLines(lines: seq<Line>, width: nat)
    requires lines != []
    ensures var last := lines[|lines| - 1].value;
            Split(TrimEnd(RenderLines(lines, width)), '\n') == LineTexts(lines, width)
            <==> (last.None? || EndsSolid(last.value)) && forall i | 0 <= i < |lines| :: !HasBreak(lines[i])
  {
    var texts := LineTexts(lines, width);
    var all, out := RenderLines(lines, width), TrimEnd(RenderLines(lines, width));
    RenderedJoins(lines, width);
    TrimTakesOneBreak(lines, width);
    hide *;
    SplitJoin(texts, '\n');
    JoinSplit(out, '\n');
    assert out + "\n" == all ==> out == Join(texts, "\n") by {
      if out + "\n" == all { assert (out + "\n")[..|out|] == out; }
    }
    forall i | 0 <= i < |lines| ensures '\n' in texts[i] <==> HasBreak(lines[i]) {
      LineTextBreaks(lines[i], width);
    }
  }

  /** The condition on the last value does fail: a reply with an empty text
      under an empty key prints nothing at all. */
  lemma EmptyTextPrintsNothing()
    ensures var lines := Flatten([Field("", Str(""))], 0);
            lines == [Line("", Some(""))] && TrimEnd(RenderLines(lines, KeyWidth(lines))) == ""
  {
    var l := Line("", Some(""));
    OneField(Field("", Str("")), 0);
    assert Spaces(0) + "" == "";
    assert [l][..0] == [] && KeyWidth([l]) == 0;
    assert RenderLine(l, 0) == "   \n" && RenderLines([l], 0) == "   \n";
    assert "   \n"[..3] == "   " && "   "[..2] == "  " && "  "[..1] == " " && " "[..0] == "";
  }

  // ---- what the view says of a reply ----

  /** Every field that is displayed has its line. */
  lemma {:induction false} FieldLine(fields: seq<Field>, i: nat, indent: nat) returns (k: nat)
    requires i < |fields| && !IsFraming(fields[i].key, indent)
    ensures k < |Flatten(fields, indent)| && Flatten(fields, indent)[k] == FlattenField(fields[i], indent)[0]
  {
    if i == 0 {
      k := 0;
    } else {
      k := FieldLine(fields[1..], i - 1, indent);
      k := k + |FlattenField(fields[0], indent)|;
    }
  }

  /** The value column of a field of any reply, behind the width of the keys:
      the text itself, `-` for null, and otherwise JSON that reads back as the
      value. */
  lemma FieldShown(fields: seq<Field>, i: nat) returns (k: nat)
    requires i < |fields| && fields[i].key != "status" && !fields[i].value.Object? && Reading.Parsed(fields[i].value)
    ensures var lines := Flatten(fields, 0);
            var w := KeyWidth(lines);
            && k < |lines|
            && var text := LineTexts(lines, w)[k];
               && |text| >= w + 3 && fields[i].key <= text
               && Reading.Denotes(text[w + 3..], fields[i].value)
  {
    var f, lines := fields[i], Flatten(fields, 0);
    k := FieldLine(fields, i, 0);
    Reading.ScalarDenotes(f.value);
    assert Spaces(0) + f.key == f.key;
    assert lines[k] == Line(f.key, Some(Scalar(f.value)));
    hide Flatten, FlattenField, KeyWidth, Scalar, Reading.Denotes;
    ValuesAligned(lines, k);
  }

  /** A nested object, even an empty one, has its key and a colon for a header. */
  lemma HeaderShown(fields: seq<Field>, i: nat) returns (k: nat)
    requires i < |fields| && fields[i].key != "status" && fields[i].value.Object?
    ensures var lines := Flatten(fields, 0);
            k < |lines| && LineTexts(lines, KeyWidth(lines))[k] == fields[i].key + ":"
  {
    k := FieldLine(fields, i, 0);
    assert Spaces(0) + fields[i].key == fields[i].key;
    hide Flatten, KeyWidth;
  }

  /** `ok` is all that is printed if and only if there is no line: of what is no
      object, and of an object with no key but `status`. */
  lemma NothingDisplayed(v: Value)
    ensures (v.Object? && Flatten(v.fields, 0) != [])
       <==> exists i | v.Object? && 0 <= i < |v.fields| :: v.fields[i].key != "status"
    ensures (forall i | v.Object? && 0 <= i < |v.fields| :: v.fields[i].key == "status")
            ==> forall command: string :: KvText(command, v) == command + ": ok"
  {
    if v.Object? {
      if i :| 0 <= i < |v.fields| && v.fields[i].key != "status" {
        var k := FieldLine(v.fields, i, 0);
      } else {
        AllFraming(v.fields);
      }
    }
  }

  lemma {:induction false} AllFraming(fields: seq<Field>)
    requires forall i | 0 <= i < |fields| :: fields[i].key == "status"
    ensures Flatten(fields, 0) == []
  {
    if fields != [] { AllFraming(fields[1..]); }
  }

  lemma OneLineView(l: Line)
    requires l.value.Some? && EndsSolid(l.value.value)
    ensures TrimEnd(RenderLines([l], KeyWidth([l]))) == LineText(l, ByteLen(l.key))
  {
    var w := ByteLen(l.key);
    assert [l][..0] == [] && KeyWidth([l]) == w;
    LineEndsSolid(l, w);
    assert RenderLines([l], w) == LineText(l, w) + "\n";
    hide LineText, RenderLines, KeyWidth;
    TrimBlanks(LineText(l, w), "\n");
  }

  /** A flag: its value column, behind the byte length of its key and three
      blanks, is `true` exactly if it is set, else `false`. */
  lemma FlagShown(command: string, key: string, b: bool)
    requires key != "status"
    ensures var text := KvText(command, Object([Field(key, Bool(b))]));
            && |text| > ByteLen(key) + 3
            && (text[ByteLen(key) + 3..] == "true" <==> b) && (text[ByteLen(key) + 3..] == "false" <==> !b)
  {
    var word := if b then "true" else "false";
    var f, l := Field(key, Bool(b)), Line(key, Some(word));
    OneField(f, 0);
    assert Spaces(0) + key == key;
    assert Flatten([f], 0) == [l];
    assert EndsSolid(word);
    assert "true" != "false" by { assert "true"[0] != "false"[0]; }
    PadFits(key, ByteLen(key));
    hide Flatten, FlattenField, RenderLines, KeyWidth, TrimEnd, Pad, EndsSolid;
    OneLineView(l);
  }
}
