/** The column table of the `streams` reply. */
module Table {
  import opened Common
  import opened Json
  import opened Text
  import Scaling

  const HEADER: seq<string> := ["ID", "PEER", "TARGET", "ISO", "AGE", "UP", "DOWN"]

  /** A string field, or `-`. */
  function FieldText(row: Value, key: string): string {
    match Get(row, key)
    case Some(Str(s)) => s
    case _ => "-"
  }

  /** A `u64` field, or 0. */
  function FieldNumber(row: Value, key: string): nat {
    match Get(row, key)
    case Some(Number(_, Some(n))) => n
    case _ => 0
  }

  function CellsOf(row: Value): (cells: seq<string>)
    ensures |cells| == |HEADER|
  {
    [if Get(row, "id").Some? then Scalar(Get(row, "id").value) else "",
     FieldText(row, "peer"),
     FieldText(row, "target"),
     FieldText(row, "isolation"),
     Scaling.Age(FieldNumber(row, "age_secs")),
     Scaling.Human(FieldNumber(row, "bytes_to_upstream")),
     Scaling.Human(FieldNumber(row, "bytes_to_client"))]
  }

  /** Each column says what its heading promises: texts as they are, the age up
      to whole minutes, the counts as `human_bytes` rounds them. */
  lemma RowReadsBack(row: Value)
    ensures HEADER == ["ID", "PEER", "TARGET", "ISO", "AGE", "UP", "DOWN"]
    ensures var cells := CellsOf(row);
            && (forall v :: Get(row, "id") == Some(v) ==> cells[0] == Scalar(v))
            && (forall s :: Get(row, "peer") == Some(Str(s)) ==> cells[1] == s)
            && (forall s :: Get(row, "target") == Some(Str(s)) ==> cells[2] == s)
            && (forall s :: Get(row, "isolation") == Some(Str(s)) ==> cells[3] == s)
            && ((forall s :: Get(row, "peer") != Some(Str(s))) ==> cells[1] == "-")
            && ((forall s :: Get(row, "target") != Some(Str(s))) ==> cells[2] == "-")
            && ((forall s :: Get(row, "isolation") != Some(Str(s))) ==> cells[3] == "-")
            && var age := FieldNumber(row, "age_secs");
            && Scaling.Seconds(cells[4]) == (if age < 3600 then age else age / 60 * 60)
            && Scaling.Denoted(cells[5]) == Some(Scaling.Printed(FieldNumber(row, "bytes_to_upstream")))
            && Scaling.Denoted(cells[6]) == Some(Scaling.Printed(FieldNumber(row, "bytes_to_client")))
  {
    var age := FieldNumber(row, "age_secs");
    Scaling.AgeDenotes(age);
    Scaling.HumanDenotes(FieldNumber(row, "bytes_to_upstream"));
    Scaling.HumanDenotes(FieldNumber(row, "bytes_to_client"));
    hide Scaling.Human, Scaling.Age, Scaling.Seconds, Scaling.Denoted, Scaling.Printed, Get, FieldNumber, Scalar;
  }

  function TableOf(rows: seq<Value>): (table: seq<seq<string>>)
    ensures |table| == |rows| + 1
  {
    [HEADER] + seq(|rows|, k requires 0 <= k < |rows| => CellsOf(rows[k]))
  }

  // ---- the widths, two passes ----

  predicate Rectangular(table: seq<seq<string>>, cols: nat) {
    forall k | 0 <= k < |table| :: |table[k]| == cols
  }

  /** The widest cell of column `i`, in bytes. */
  function WidthOf(table: seq<seq<string>>, i: nat): nat
    requires forall k | 0 <= k < |table| :: i < |table[k]|
  {
    if table == [] then 0
    else
      var w, b := WidthOf(table[..|table| - 1], i), ByteLen(table[|table| - 1][i]);
      if b > w then b else w
  }

  /** Some cell of the column is that wide. */
  lemma {:induction false} WidthAttained(table: seq<seq<string>>, i: nat)
    requires table != [] && forall k | 0 <= k < |table| :: i < |table[k]|
    ensures exists k | 0 <= k < |table| :: ByteLen(table[k][i]) == WidthOf(table, i)
  {
    var n := |table| - 1;
    if ByteLen(table[n][i]) != WidthOf(table, i) {
      assert WidthOf(table[..n], i) == WidthOf(table, i) > 0;
      assert n > 0;
      WidthAttained(table[..n], i);
      var k :| 0 <= k < n && ByteLen(table[..n][k][i]) == WidthOf(table, i);
      assert ByteLen(table[k][i]) == WidthOf(table, i);
    }
  }

  function Widths(table: seq<seq<string>>, cols: nat): (widths: seq<nat>)
    requires Rectangular(table, cols)
    ensures |widths| == cols
  {
    seq(cols, i requires 0 <= i < cols => WidthOf(table, i))
  }

  lemma {:induction false} WidthBounds(table: seq<seq<string>>, i: nat, k: nat)
    requires forall j | 0 <= j < |table| :: i < |table[j]|
    requires k < |table|
    ensures ByteLen(table[k][i]) <= WidthOf(table, i)
  {
    if k < |table| - 1 {
      WidthBounds(table[..|table| - 1], i, k);
    }
  }

  lemma WidthGrows(table: seq<seq<string>>, i: nat, k: nat)
    requires k < |table| && forall j | 0 <= j <= k :: i < |table[j]|
    ensures var w, b := WidthOf(table[..k], i), ByteLen(table[k][i]);
            WidthOf(table[..k + 1], i) == if b > w then b else w
  {
    assert table[..k + 1][..k] == table[..k];
  }

  method Measure(table: seq<seq<string>>, cols: nat) returns (width: array<nat>)
    requires Rectangular(table, cols)
    ensures fresh(width) && width[..] == Widths(table, cols)
  {
    width := new nat[cols](_ => 0);
    var k := 0;
    assert forall i | 0 <= i < cols :: WidthOf(table[..0], i) == 0;
    hide WidthOf, ByteLen;
    while k < |table|
      invariant k <= |table|
      invariant forall i | 0 <= i < cols :: width[i] == WidthOf(table[..k], i)
    {
      var row := table[k];
      var i := 0;
      while i < |row|
        invariant i <= cols
        invariant forall j | 0 <= j < i :: width[j] == WidthOf(table[..k + 1], j)
        invariant forall j | i <= j < cols :: width[j] == WidthOf(table[..k], j)
      {
        WidthGrows(table, i, k);
        if ByteLen(row[i]) > width[i] {
          width[i] := ByteLen(row[i]);
        }
        i := i + 1;
      }
      k := k + 1;
    }
    assert table[..k] == table;
  }

  // ---- the lines ----

  function Padded(row: seq<string>, widths: seq<nat>): (cells: seq<string>)
    requires |row| == |widths|
    ensures |cells| == |row|
  {
    seq(|row|, i requires 0 <= i < |row| => Pad(row[i], widths[i]))
  }

  function LineOf(row: seq<string>, widths: seq<nat>): string
    requires |row| == |widths|
  {
    TrimEnd(Join(Padded(row, widths), "  "))
  }

  function Rendered(table: seq<seq<string>>, widths: seq<nat>): string
    requires Rectangular(table, |widths|)
  {
    if table == [] then ""
    else Rendered(table[..|table| - 1], widths) + LineOf(table[|table| - 1], widths) + "\n"
  }

  method FillTable(rows: seq<Value>) returns (table: seq<seq<string>>)
    ensures table == TableOf(rows)
  {
    hide CellsOf;
    table := [HEADER];
    var k := 0;
    while k < |rows|
      invariant k <= |rows| && table == TableOf(rows)[..k + 1]
    {
      table := table + [CellsOf(rows[k])];
      k := k + 1;
    }
  }

  function StreamsText(rows: seq<Value>): string {
    if rows == [] then "no active connections"
    else TrimEnd(Rendered(TableOf(rows), Widths(TableOf(rows), |HEADER|)))
  }

  method RenderStreams(rows: seq<Value>) returns (out: string)
    ensures out == StreamsText(rows) && (rows == [] ==> out == "no active connections")
  {
    if rows == [] {
      return "no active connections";
    }
    var table := FillTable(rows);
    assert table[0] == HEADER;
    hide TableOf, Rendered, LineOf, WidthOf, TrimEnd, Widths;
    var width := Measure(table, |table[0]|);
    out := WriteTable(table, width[..]);
    out := TrimEnd(out);
  }

  method WriteTable(table: seq<seq<string>>, widths: seq<nat>) returns (out: string)
    requires Rectangular(table, |widths|)
    ensures out == Rendered(table, widths)
  {
    out := "";
    var k := 0;
    while k < |table|
      invariant k <= |table| && out == Rendered(table[..k], widths)
    {
      assert table[..k + 1][..k] == table[..k];
      var line: seq<string> := [];
      var i := 0;
      while i < |table[k]|
        invariant i <= |table[k]| && line == Padded(table[k], widths)[..i]
      {
        line := line + [Pad(table[k][i], widths[i])];
        i := i + 1;
      }
      assert line == Padded(table[k], widths);
      out := out + TrimEnd(Join(line, "  "));
      out := out + "\n";
      k := k + 1;
    }
    assert table[..k] == table;
  }

  // ---- alignment ----

  /** Where column `i` starts, in chars. */
  function Start(widths: seq<nat>, i: nat): nat
    requires i <= |widths|
  {
    if i == 0 then 0 else Start(widths, i - 1) + widths[i - 1] + 2
  }

  predicate CellAt(line: string, cell: string, at: nat) {
    at + |cell| <= |line| && line[at..at + |cell|] == cell
  }

  predicate BlankBetween(line: string, a: nat, b: nat) {
    a <= b <= |line| && forall p | a <= p < b :: line[p] == ' '
  }

  /** The first `n` cells stand at the starts of their columns, with blanks from
      one to the next. */
  ghost predicate Columns(line: string, row: seq<string>, widths: seq<nat>, n: nat)
    requires |row| == |widths| && n <= |row|
  {
    && (forall i | 0 <= i < n :: CellAt(line, row[i], Start(widths, i)))
    && (forall i | 0 <= i < n - 1 :: BlankBetween(line, Start(widths, i) + |row[i]|, Start(widths, i + 1)))
  }

  lemma CellExtends(line: string, longer: string, cell: string, at: nat)
    requires line <= longer && CellAt(line, cell, at)
    ensures CellAt(longer, cell, at)
  {
    assert longer[at..at + |cell|] == line[at..at + |cell|];
  }

  lemma ColumnsExtend(line: string, longer: string, row: seq<string>, widths: seq<nat>, n: nat)
    requires |row| == |widths| && n <= |row| && line <= longer && Columns(line, row, widths, n)
    ensures Columns(longer, row, widths, n)
  {
    hide Start, CellAt;
    forall i | 0 <= i < n ensures CellAt(longer, row[i], Start(widths, i)) {
      CellExtends(line, longer, row[i], Start(widths, i));
    }
  }

  /** The first `n` cells, joined: the last of them is padded too. */
  ghost predicate Laid(line: string, row: seq<string>, widths: seq<nat>, n: nat)
    requires |row| == |widths| && 0 < n <= |row|
  {
    var at, cell := Start(widths, n - 1), row[n - 1];
    && |cell| <= widths[n - 1]
    && |line| == at + widths[n - 1]
    && Columns(line, row, widths, n)
    && BlankBetween(line, at + |cell|, |line|)
  }

  lemma ColumnsNext(line: string, row: seq<string>, widths: seq<nat>, n: nat)
    requires |row| == |widths| && 0 < n < |row| && Columns(line, row, widths, n)
    requires BlankBetween(line, Start(widths, n - 1) + |row[n - 1]|, Start(widths, n))
    requires CellAt(line, row[n], Start(widths, n))
    ensures Columns(line, row, widths, n + 1)
  {
    hide Start, CellAt, BlankBetween;
  }

  lemma AddedCell(line: string, cell: string, blanks: string)
    requires forall i | 0 <= i < |blanks| :: blanks[i] == ' '
    ensures var longer := line + "  " + (cell + blanks);
            && CellAt(longer, cell, |line| + 2)
            && BlankBetween(longer, |line| + 2 + |cell|, |longer|)
            && longer[|line|] == longer[|line| + 1] == ' '
  {
    var longer := line + "  " + (cell + blanks);
    assert longer[|line| + 2..|line| + 2 + |cell|] == cell;
  }

  lemma BlankMore(line: string, longer: string, a: nat)
    requires BlankBetween(line, a, |line|) && line <= longer && |line| + 2 <= |longer|
    requires longer[|line|] == longer[|line| + 1] == ' '
    ensures BlankBetween(longer, a, |line| + 2)
  {
    forall p | a <= p < |line| + 2 ensures longer[p] == ' ' {
      assert p < |line| ==> line[p] == ' ';
    }
  }

  lemma LaidNext(line: string, row: seq<string>, widths: seq<nat>, n: nat)
    requires |row| == |widths| && 0 < n < |row| && Laid(line, row, widths, n)
    requires ByteLen(row[n]) <= widths[n]
    ensures Laid(line + "  " + Pad(row[n], widths[n]), row, widths, n + 1)
  {
    PadFits(row[n], widths[n]);
    var blanks := Spaces(widths[n] - |row[n]|);
    var longer := line + "  " + (row[n] + blanks);
    assert Start(widths, n) == |line| + 2;
    AddedCell(line, row[n], blanks);
    hide CellAt, BlankBetween, Pad, ByteLen, Start, Columns;
    ColumnsExtend(line, longer, row, widths, n);
    BlankMore(line, longer, Start(widths, n - 1) + |row[n - 1]|);
    ColumnsNext(longer, row, widths, n);
  }

  lemma {:induction false} JoinLaid(row: seq<string>, widths: seq<nat>, n: nat)
    requires |row| == |widths| && 0 < n <= |row|
    requires forall i | 0 <= i < n :: ByteLen(row[i]) <= widths[i]
    ensures Laid(Join(Padded(row, widths)[..n], "  "), row, widths, n)
  {
    var cells := Padded(row, widths);
    if n == 1 {
      assert cells[..1] == [Pad(row[0], widths[0])];
      PadFits(row[0], widths[0]);
    } else {
      JoinLaid(row, widths, n - 1);
      assert cells[..n][..n - 1] == cells[..n - 1];
      LaidNext(Join(cells[..n - 1], "  "), row, widths, n - 1);
      assert cells[n - 1] == Pad(row[n - 1], widths[n - 1]);
    }
  }

  /** Each line is its cells at the starts of their columns, which are the same
      in all lines: `trim_end` takes the blanks behind the last cell, no more. */
  lemma ColumnsAligned(table: seq<seq<string>>, cols: nat, k: nat)
    requires cols > 0 && Rectangular(table, cols) && k < |table|
    requires EndsSolid(table[k][cols - 1])
    ensures var widths := Widths(table, cols);
            var line := LineOf(table[k], widths);
            && Columns(line, table[k], widths, cols)
            && |line| == Start(widths, cols - 1) + |table[k][cols - 1]|
            && EndsSolid(line)
  {
    var row, widths := table[k], Widths(table, cols);
    forall i | 0 <= i < cols ensures ByteLen(row[i]) <= widths[i] {
      WidthBounds(table, i, k);
    }
    JoinLaid(row, widths, cols);
    assert Padded(row, widths)[..cols] == Padded(row, widths);
    var joined := Join(Padded(row, widths), "  ");
    var end := Start(widths, cols - 1) + |row[cols - 1]|;
    TrimLaid(joined, row, widths, end);
  }

  lemma {:induction false} StartMonotone(widths: seq<nat>, i: nat, j: nat)
    requires i <= j <= |widths|
    ensures Start(widths, i) <= Start(widths, j)
  {
    if i < j { StartMonotone(widths, i, j - 1); }
  }

  lemma CellShrinks(line: string, longer: string, cell: string, at: nat)
    requires line <= longer && CellAt(longer, cell, at) && at + |cell| <= |line|
    ensures CellAt(line, cell, at)
  {
    assert longer[at..at + |cell|] == line[at..at + |cell|];
  }

  lemma ColumnsShrink(line: string, longer: string, row: seq<string>, widths: seq<nat>)
    requires |row| == |widths| > 0 && Columns(longer, row, widths, |row|) && line <= longer
    requires |line| == Start(widths, |row| - 1) + |row[|row| - 1]|
    ensures Columns(line, row, widths, |row|)
  {
    hide Start, CellAt;
    var n := |row|;
    forall i | 0 <= i < n - 1 ensures BlankBetween(line, Start(widths, i) + |row[i]|, Start(widths, i + 1)) {
      assert BlankBetween(longer, Start(widths, i) + |row[i]|, Start(widths, i + 1));
      StartMonotone(widths, i + 1, n - 1);
    }
    forall i | 0 <= i < n ensures CellAt(line, row[i], Start(widths, i)) {
      if i < n - 1 {
        assert BlankBetween(line, Start(widths, i) + |row[i]|, Start(widths, i + 1));
      }
      CellShrinks(line, longer, row[i], Start(widths, i));
    }
  }

  lemma TrimLaid(joined: string, row: seq<string>, widths: seq<nat>, end: nat)
    requires |row| == |widths| > 0 && Laid(joined, row, widths, |row|) && EndsSolid(row[|row| - 1])
    requires end == Start(widths, |row| - 1) + |row[|row| - 1]|
    ensures |TrimEnd(joined)| == end && Columns(TrimEnd(joined), row, widths, |row|)
    ensures EndsSolid(TrimEnd(joined))
  {
    var n := |row|;
    var solid := joined[..end];
    var cell := row[n - 1];
    assert CellAt(joined, cell, Start(widths, n - 1));
    assert solid[end - 1] == cell[|cell| - 1];
    TrimBlanks(solid, joined[end..]);
    assert solid + joined[end..] == joined;
    ColumnsShrink(solid, joined, row, widths);
  }

  // ---- the whole table ----

  function LinesOf(table: seq<seq<string>>, widths: seq<nat>): (lines: seq<string>)
    requires Rectangular(table, |widths|)
    ensures |lines| == |table|
  {
    seq(|table|, k requires 0 <= k < |table| => LineOf(table[k], widths))
  }

  lemma {:induction false} RenderedJoins(table: seq<seq<string>>, widths: seq<nat>)
    requires table != [] && Rectangular(table, |widths|)
    ensures Rendered(table, widths) == Join(LinesOf(table, widths), "\n") + "\n"
  {
    var n := |table| - 1;
    var lines := LinesOf(table, widths);
    assert lines[..n] == LinesOf(table[..n], widths);
    if n > 0 {
      RenderedJoins(table[..n], widths);
    } else {
      assert Rendered(table[..n], widths) == "";
    }
  }

  lemma LastCell(row: Value)
    ensures EndsSolid(CellsOf(row)[|HEADER| - 1])
  {
    hide Scaling.Human, EndsSolid, Get, Scaling.Age, Scalar, FieldText, FieldNumber;
    Scaling.HumanDenotes(FieldNumber(row, "bytes_to_client"));
  }

  lemma LastHeading()
    ensures EndsSolid(HEADER[|HEADER| - 1])
  {
    assert HEADER[|HEADER| - 1] == "DOWN";
  }

  lemma LastCellSolid(rows: seq<Value>, k: nat)
    requires k <= |rows|
    ensures EndsSolid(TableOf(rows)[k][|HEADER| - 1])
  {
    LastHeading();
    hide CellsOf, EndsSolid;
    if k > 0 { LastCell(rows[k - 1]); }
  }

  lemma JoinEndsSolid(lines: seq<string>, sep: string)
    requires lines != [] && EndsSolid(lines[|lines| - 1])
    ensures EndsSolid(Join(lines, sep))
  {}

  lemma TrimTable(table: seq<seq<string>>, widths: seq<nat>)
    requires table != [] && Rectangular(table, |widths|) && widths != []
    requires EndsSolid(LineOf(table[|table| - 1], widths))
    ensures TrimEnd(Rendered(table, widths)) == Join(LinesOf(table, widths), "\n")
  {
    RenderedJoins(table, widths);
    var lines := LinesOf(table, widths);
    JoinEndsSolid(lines, "\n");
    TrimBlanks(Join(lines, "\n"), "\n");
  }

  /** A table whose last column ends in no blank. */
  ghost predicate Solid(table: seq<seq<string>>, cols: nat) {
    && table != [] && cols > 0 && Rectangular(table, cols)
    && forall k | 0 <= k < |table| :: EndsSolid(table[k][cols - 1])
  }

  lemma TableSolid(rows: seq<Value>)
    ensures Solid(TableOf(rows), |HEADER|)
  {
    hide EndsSolid;
    forall k | 0 <= k < |TableOf(rows)| ensures EndsSolid(TableOf(rows)[k][|HEADER| - 1]) {
      LastCellSolid(rows, k);
    }
  }

  lemma SolidAligned(table: seq<seq<string>>, cols: nat, k: nat)
    requires Solid(table, cols) && k < |table|
    ensures var widths := Widths(table, cols);
            var lines := LinesOf(table, widths);
            && TrimEnd(Rendered(table, widths)) == Join(lines, "\n")
            && Columns(lines[k], table[k], widths, cols)
            && |lines[k]| == Start(widths, cols - 1) + |table[k][cols - 1]|
  {
    hide Widths, LineOf, Columns, EndsSolid, Start;
    ColumnsAligned(table, cols, k);
    ColumnsAligned(table, cols, |table| - 1);
    TrimTable(table, Widths(table, cols));
  }

  /** The output is the built lines, joined by line breaks: one for the header
      and one for each row of the reply, each with the seven cells of its row
      where the headings of their columns are. The final `trim_end` takes the
      last line break, no more. Whether a built line is one line of output, see
      `TableLines`. */
  lemma TableAligned(rows: seq<Value>, k: nat)
    requires rows != [] && k <= |rows|
    ensures var table := TableOf(rows);
            var widths := Widths(table, |HEADER|);
            var lines := LinesOf(table, widths);
            && StreamsText(rows) == Join(lines, "\n")
            && |lines| == |rows| + 1
            && Columns(lines[k], table[k], widths, |HEADER|)
            && |lines[k]| == Start(widths, |HEADER| - 1) + |table[k][|HEADER| - 1]|
  {
    TableSolid(rows);
    hide Widths, TableOf, Columns, Solid, LinesOf, Start;
    SolidAligned(TableOf(rows), |HEADER|, k);
  }

  // ---- line breaks ----

  predicate HasBreak(row: seq<string>) {
    exists i | 0 <= i < |row| :: '\n' in row[i]
  }

  lemma {:induction false} JoinedBreak(row: seq<string>, widths: seq<nat>, n: nat)
    requires |row| == |widths| && n <= |row|
    requires '\n' in Join(Padded(row, widths)[..n], "  ")
    ensures HasBreak(row)
  {
    var cells := Padded(row, widths);
    if n > 0 {
      assert cells[..n][..n - 1] == cells[..n - 1];
      if n > 1 && '\n' in Join(cells[..n - 1], "  ") {
        JoinedBreak(row, widths, n - 1);
      } else {
        assert '\n' in Pad(row[n - 1], widths[n - 1]);
        assert '\n' in row[n - 1];
      }
    }
  }

  lemma CellBreaks(line: string, cell: string, at: nat)
    requires CellAt(line, cell, at) && '\n' in cell
    ensures '\n' in line
  {
    assert '\n' in line[at..at + |cell|];
  }

  /** A line holds a line break exactly if one of its cells does. */
  lemma LineHasBreak(table: seq<seq<string>>, cols: nat, k: nat)
    requires cols > 0 && Rectangular(table, cols) && k < |table| && EndsSolid(table[k][cols - 1])
    ensures '\n' in LineOf(table[k], Widths(table, cols)) <==> HasBreak(table[k])
  {
    var row, widths := table[k], Widths(table, cols);
    var joined := Join(Padded(row, widths), "  ");
    var line := LineOf(row, widths);
    assert line <= joined;
    ColumnsAligned(table, cols, k);
    assert Padded(row, widths)[..cols] == Padded(row, widths);
    hide Widths, Start, LineOf, Padded, Join, CellAt, BlankBetween, EndsSolid;
    if '\n' in line {
      JoinedBreak(row, widths, cols);
    }
    if i :| 0 <= i < cols && '\n' in row[i] {
      CellBreaks(line, row[i], Start(widths, i));
    }
  }

  predicate NoBreaks(table: seq<seq<string>>) {
    forall k | 0 <= k < |table| :: !HasBreak(table[k])
  }

  lemma SolidLines(table: seq<seq<string>>, cols: nat)
    requires Solid(table, cols)
    ensures var all := LinesOf(table, Widths(table, cols));
            var lines := Split(Join(all, "\n"), '\n');
            && (lines == all <==> NoBreaks(table))
            && (|lines| == |table| <==> NoBreaks(table))
            && |lines| >= |table|
  {
    var all := LinesOf(table, Widths(table, cols));
    hide LineOf, HasBreak, Widths, Join, Split, EndsSolid;
    SplitJoin(all, '\n');
    forall k | 0 <= k < |table| ensures '\n' in all[k] <==> HasBreak(table[k]) {
      LineHasBreak(table, cols, k);
    }
  }

  /** Split at its line breaks, the output is the header and one line for each
      row, if and only if no text in the reply holds a line break; otherwise it
      has more lines than that. */
  lemma TableLines(rows: seq<Value>)
    requires rows != []
    ensures var table := TableOf(rows);
            var lines := Split(StreamsText(rows), '\n');
            && (lines == LinesOf(table, Widths(table, |HEADER|)) <==> NoBreaks(table))
            && (|lines| == |rows| + 1 <==> NoBreaks(table))
            && |lines| >= |rows| + 1
  {
    TableSolid(rows);
    TableAligned(rows, 0);
    hide Widths, Solid, LinesOf, NoBreaks, StreamsText, TableOf, Start, Columns, Split, Join;
    SolidLines(TableOf(rows), |HEADER|);
  }
}
