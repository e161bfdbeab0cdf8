/**
 * The formatting half of `ContextService.format_schema_for_llm`: the
 * metadata rows are grouped by table into a dict of column lines, and the
 * dict is rendered table by table, in sorted order, under a fixed header.
 *
 * `Render` and `SchemaText` say declaratively what the text is;
 * `FormatRows` computes it the way the source does, with the two loops,
 * and is proved to agree with `SchemaText`.
 */
module SchemaFormat {
  import opened Results
  import opened PyStr

  /** A result row as the driver returns it: column name to the value's text. */
  type Row = map<string, string>

  /** The four metadata fields the formatter reads from one row. */
  datatype Column = Column(table: string, name: string, dataType: string, isNullable: string)

  const Header: string := "Database Schema:"

  // ---------------------------------------------------------------------
  // Reading rows

  /**
   * Reads the fields of a row in the order the formatter touches them
   * (`table_name`, `is_nullable`, `column_name`, `data_type`); the first
   * absent one is a KeyError.
   */
  function ReadRow(row: Row): Result<Column, Error> {
    if "table_name" !in row then Failure(KeyError("table_name"))
    else if "is_nullable" !in row then Failure(KeyError("is_nullable"))
    else if "column_name" !in row then Failure(KeyError("column_name"))
    else if "data_type" !in row then Failure(KeyError("data_type"))
    else Success(Column(row["table_name"], row["column_name"], row["data_type"], row["is_nullable"]))
  }

  /** Reads every row, front to back; the first unreadable row decides the error. */
  function ReadRows(rows: seq<Row>): Result<seq<Column>, Error> {
    if rows == [] then Success([])
    else
      match ReadRows(rows[..|rows| - 1])
      case Failure(e) => Failure(e)
      case Success(cols) =>
        match ReadRow(rows[|rows| - 1])
        case Failure(e) => Failure(e)
        case Success(c) => Success(cols + [c])
  }

  /**
   * Reading succeeds exactly when every row has the four fields, and then
   * gives one column per row, in row order; otherwise the error is that of
   * the first row that lacks a field.
   */
  lemma {:induction false} ReadRowsSpec(rows: seq<Row>)
    ensures ReadRows(rows).Success? <==> forall i :: 0 <= i < |rows| ==> ReadRow(rows[i]).Success?
    ensures ReadRows(rows).Success? ==>
      |ReadRows(rows).value| == |rows|
      && forall i :: 0 <= i < |rows| ==> ReadRows(rows).value[i] == ReadRow(rows[i]).value
    ensures ReadRows(rows).Failure? ==>
      exists i :: 0 <= i < |rows| && ReadRow(rows[i]).Failure?
        && ReadRows(rows).error == ReadRow(rows[i]).error
        && forall j :: 0 <= j < i ==> ReadRow(rows[j]).Success?
  {
    if rows != [] {
      var init := rows[..|rows| - 1];
      ReadRowsSpec(init);
      assert forall i :: 0 <= i < |init| ==> init[i] == rows[i];
      if ReadRows(init).Failure? {
        var i :| 0 <= i < |init| && ReadRow(init[i]).Failure?
          && ReadRows(init).error == ReadRow(init[i]).error
          && forall j :: 0 <= j < i ==> ReadRow(init[j]).Success?;
        assert ReadRow(rows[i]).Failure?;
      } else if ReadRow(rows[|rows| - 1]).Failure? {
        assert ReadRow(rows[|rows| - 1]).Failure?;
      }
    }
  }

  /** Once a prefix of the rows fails to read, all of them fail the same way. */
  lemma {:induction false} ReadRowsFailurePersists(rows: seq<Row>, k: nat)
    requires k <= |rows| && ReadRows(rows[..k]).Failure?
    ensures ReadRows(rows) == ReadRows(rows[..k])
  {
    if k < |rows| {
      var init := rows[..|rows| - 1];
      assert init[..k] == rows[..k];
      ReadRowsFailurePersists(init, k);
    } else {
      assert rows[..k] == rows;
    }
  }

  // ---------------------------------------------------------------------
  // Grouping by table

  predicate HasTable(cols: seq<Column>, t: string) {
    exists i | 0 <= i < |cols| :: cols[i].table == t
  }

  lemma HasTableSnoc(cols: seq<Column>, c: Column, t: string)
    ensures HasTable(cols + [c], t) <==> HasTable(cols, t) || c.table == t
  {
    var all := cols + [c];
    if HasTable(cols, t) {
      var i :| 0 <= i < |cols| && cols[i].table == t;
      assert all[i].table == t;
    }
    if c.table == t {
      assert all[|cols|].table == t;
    }
    if HasTable(all, t) && c.table != t {
      var i :| 0 <= i < |all| && all[i].table == t;
      assert cols[i].table == t;
    }
  }

  /**
   * The distinct table names in order of first appearance: the keys of the
   * `tables` dict after the grouping loop.
   */
  function TableNames(cols: seq<Column>): (names: seq<string>)
    ensures Distinct(names)
    ensures forall t :: t in names <==> HasTable(cols, t)
  {
    if cols == [] then []
    else
      var init, c := cols[..|cols| - 1], cols[|cols| - 1];
      var names := TableNames(init);
      assert cols == init + [c];
      forall t ensures HasTable(cols, t) <==> HasTable(init, t) || c.table == t {
        HasTableSnoc(init, c, t);
      }
      if c.table in names then names else names + [c.table]
  }

  /** `NULL` exactly when `is_nullable` is the string "YES"; anything else is `NOT NULL`. */
  function NullMarker(isNullable: string): string {
    if isNullable == "YES" then "NULL" else "NOT NULL"
  }

  /** The line that describes one column. */
  function ColumnLine(c: Column): (line: string)
    ensures EndsWith(line, " NULL")
    ensures EndsWith(line, " NOT NULL") <==> c.isNullable != "YES"
  {
    var line := "  - " + c.name + " (" + c.dataType + ") " + NullMarker(c.isNullable);
    assert c.isNullable == "YES" ==> line[|line| - 6] == ')';
    line
  }

  /** The lines of table `t`, one per column of `t`, in row order: the list `tables[t]`. */
  function ColumnLines(cols: seq<Column>, t: string): seq<string> {
    if cols == [] then []
    else
      var c := cols[|cols| - 1];
      ColumnLines(cols[..|cols| - 1], t) + (if c.table == t then [ColumnLine(c)] else [])
  }

  /**
   * Grouping keeps row order: the lines of `a + b` are those of `a`
   * followed by those of `b`.
   */
  lemma {:induction false} ColumnLinesAppend(a: seq<Column>, b: seq<Column>, t: string)
    ensures ColumnLines(a + b, t) == ColumnLines(a, t) + ColumnLines(b, t)
  {
    if b != [] {
      var b' := b[..|b| - 1];
      assert (a + b)[..|a + b| - 1] == a + b';
      ColumnLinesAppend(a, b', t);
    } else {
      assert a + b == a;
    }
  }

  /** Every line of table `t` is the line of one of `t`'s rows. */
  lemma {:induction false} ColumnLinesFrom(cols: seq<Column>, t: string, line: string)
    requires line in ColumnLines(cols, t)
    ensures exists i | 0 <= i < |cols| :: cols[i].table == t && ColumnLine(cols[i]) == line
  {
    var init := cols[..|cols| - 1];
    if line in ColumnLines(init, t) {
      ColumnLinesFrom(init, t, line);
      var i :| 0 <= i < |init| && init[i].table == t && ColumnLine(init[i]) == line;
      assert cols[i] == init[i];
    } else {
      assert cols[|cols| - 1].table == t && ColumnLine(cols[|cols| - 1]) == line;
    }
  }

  /** A table has lines exactly when some row names it. */
  lemma {:induction false} ColumnLinesNonEmpty(cols: seq<Column>, t: string)
    ensures |ColumnLines(cols, t)| > 0 <==> HasTable(cols, t)
  {
    if cols != [] {
      var init := cols[..|cols| - 1];
      ColumnLinesNonEmpty(init, t);
      assert cols == init + [cols[|cols| - 1]];
      HasTableSnoc(init, cols[|cols| - 1], t);
    }
  }

  /** Every row's line is among the lines of its table. */
  lemma {:induction false} ColumnLineListed(cols: seq<Column>, i: nat)
    requires i < |cols|
    ensures ColumnLine(cols[i]) in ColumnLines(cols, cols[i].table)
  {
    if i < |cols| - 1 {
      var init := cols[..|cols| - 1];
      ColumnLineListed(init, i);
    }
  }

  /** The number of lines the tables `ns` hold between them. */
  function LineCount(cols: seq<Column>, ns: seq<string>): nat {
    if ns == [] then 0 else LineCount(cols, ns[..|ns| - 1]) + |ColumnLines(cols, ns[|ns| - 1])|
  }

  lemma {:induction false} LineCountNone(ns: seq<string>)
    ensures LineCount([], ns) == 0
  {
    if ns != [] {
      LineCountNone(ns[..|ns| - 1]);
    }
  }

  lemma {:induction false} LineCountSnoc(cols: seq<Column>, c: Column, ns: seq<string>)
    requires Distinct(ns)
    ensures LineCount(cols + [c], ns) == LineCount(cols, ns) + (if c.table in ns then 1 else 0)
  {
    if ns != [] {
      var init := ns[..|ns| - 1];
      LineCountSnoc(cols, c, init);
      assert (cols + [c])[..|cols|] == cols;
      assert c.table in ns <==> c.table in init || c.table == ns[|ns| - 1];
      if c.table == ns[|ns| - 1] {
        assert c.table !in init;
      }
    }
  }

  /**
   * Every row yields exactly one line: over any list of distinct names
   * that covers all the tables, the line counts add up to the row count.
   */
  lemma {:induction false} EveryRowOneLine(cols: seq<Column>, ns: seq<string>)
    requires Distinct(ns) && forall i :: 0 <= i < |cols| ==> cols[i].table in ns
    ensures LineCount(cols, ns) == |cols|
  {
    if cols == [] {
      LineCountNone(ns);
    } else {
      var init, c := cols[..|cols| - 1], cols[|cols| - 1];
      EveryRowOneLine(init, ns);
      assert cols == init + [c];
      LineCountSnoc(init, c, ns);
    }
  }

  // ---------------------------------------------------------------------
  // Rendering

  /** One table's block: its `Table:` line, then its column lines. */
  function TableBlock(cols: seq<Column>, t: string): string {
    "Table: " + t + "\n" + Join("\n", ColumnLines(cols, t))
  }

  function Blocks(cols: seq<Column>, ns: seq<string>): (bs: seq<string>)
    ensures |bs| == |ns| && forall i :: 0 <= i < |ns| ==> bs[i] == TableBlock(cols, ns[i])
  {
    seq(|ns|, i requires 0 <= i < |ns| => TableBlock(cols, ns[i]))
  }

  /** The tables in the order they are rendered: `sorted` over the dict's keys. */
  function RenderOrder(cols: seq<Column>): (ns: seq<string>)
    ensures StrictlyAscending(ns)
    ensures forall t :: t in ns <==> HasTable(cols, t)
  {
    SortKeys(TableNames(cols))
  }

  /**
   * The formatted schema: the header and one block per table, tables in
   * ascending order, neighbours separated by exactly one blank line.
   */
  function Render(cols: seq<Column>): (text: string)
    ensures StartsWith(text, Header) && Trimmed(text)
    ensures cols == [] ==> text == Header
  {
    RenderShape(cols);
    Join("\n\n", [Header] + Blocks(cols, RenderOrder(cols)))
  }

  /** Helper for `Render`: the text begins with the header and ends in the last `NULL`. */
  lemma RenderShape(cols: seq<Column>)
    ensures var text := Join("\n\n", [Header] + Blocks(cols, RenderOrder(cols)));
      StartsWith(text, Header) && Trimmed(text) && (cols == [] ==> text == Header)
  {
    var text := Join("\n\n", [Header] + Blocks(cols, RenderOrder(cols)));
    JoinEnds("\n\n", [Header] + Blocks(cols, RenderOrder(cols)));
    FirstChar(text, Header);
    assert text[0] == 'D';
    RenderLast(cols);
    RenderEmpty(cols);
  }

  /** The rendered text ends in a `:` (header only) or in the `L` of a `NULL`. */
  lemma RenderLast(cols: seq<Column>)
    ensures var text := Join("\n\n", [Header] + Blocks(cols, RenderOrder(cols)));
      |text| > 0 && (text[|text| - 1] == ':' || text[|text| - 1] == 'L')
  {
    var ns := RenderOrder(cols);
    var parts := [Header] + Blocks(cols, ns);
    var text := Join("\n\n", parts);
    JoinEnds("\n\n", parts);
    if ns == [] {
      assert parts == [Header];
    } else {
      var t := ns[|ns| - 1];
      assert t in ns;
      BlockEnd(cols, t);
      assert parts[|parts| - 1] == TableBlock(cols, t);
      LastChar(text, TableBlock(cols, t));
    }
  }

  /** No rows, no tables: the text is the header alone. */
  lemma RenderEmpty(cols: seq<Column>)
    ensures cols == [] ==> Join("\n\n", [Header] + Blocks(cols, RenderOrder(cols))) == Header
  {
    var ns := RenderOrder(cols);
    assert ns != [] ==> ns[0] in ns;
    assert ns == [] ==> [Header] + Blocks(cols, ns) == [Header];
  }

  /** The block of a table that has rows ends in the `L` of its last `NULL`. */
  lemma BlockEnd(cols: seq<Column>, t: string)
    requires HasTable(cols, t)
    ensures var b := TableBlock(cols, t); |b| > 0 && b[|b| - 1] == 'L'
  {
    var lines := ColumnLines(cols, t);
    ColumnLinesNonEmpty(cols, t);
    var last := lines[|lines| - 1];
    ColumnLinesFrom(cols, t, last);
    var i :| 0 <= i < |cols| && cols[i].table == t && ColumnLine(cols[i]) == last;
    LastChar(last, " NULL");
    var j := Join("\n", lines);
    JoinEnds("\n", lines);
    LastChar(j, last);
  }

  /**
   * Nothing is lost: every column row shows up in the text, under a
   * `Table:` line naming its table.
   */
  lemma RowListed(cols: seq<Column>, i: nat)
    requires i < |cols|
    ensures Contains(Render(cols), "Table: " + cols[i].table + "\n")
    ensures Contains(Render(cols), ColumnLine(cols[i]))
  {
    var t := cols[i].table;
    var ns := RenderOrder(cols);
    assert HasTable(cols, t);
    var k :| 0 <= k < |ns| && ns[k] == t;
    var parts := [Header] + Blocks(cols, ns);
    assert Render(cols) == Join("\n\n", parts);
    assert parts[k + 1] == TableBlock(cols, t);
    BlockListed(cols, i);
    JoinContains("\n\n", parts, k + 1, ColumnLine(cols[i]));
    JoinContains("\n\n", parts, k + 1, "Table: " + t + "\n");
  }

  /** A row's block names the row's table and holds the row's line. */
  lemma BlockListed(cols: seq<Column>, i: nat)
    requires i < |cols|
    ensures Contains(TableBlock(cols, cols[i].table), "Table: " + cols[i].table + "\n")
    ensures Contains(TableBlock(cols, cols[i].table), ColumnLine(cols[i]))
  {
    var t, line := cols[i].table, ColumnLine(cols[i]);
    var lines := ColumnLines(cols, t);
    var head := "Table: " + t + "\n";
    ColumnLineListed(cols, i);
    var m :| 0 <= m < |lines| && lines[m] == line;
    assert OccursAt(line, line, 0);
    JoinContains("\n", lines, m, line);
    ContainsExtend(head, Join("\n", lines), "", line);
    assert head + Join("\n", lines) + "" == TableBlock(cols, t);
    assert OccursAt(TableBlock(cols, t), head, 0);
  }

  /** Two `users` columns listed before one `posts` column. */
  const ExampleCols: seq<Column> := [
    Column("users", "id", "integer", "NO"),
    Column("users", "email", "varchar", "YES"),
    Column("posts", "id", "integer", "NO")]

  const IdLine: string := "  - " + "id" + " (" + "integer" + ") " + "NOT NULL"
  const EmailLine: string := "  - " + "email" + " (" + "varchar" + ") " + "NULL"

  lemma ExampleOrder()
    ensures RenderOrder(ExampleCols) == ["posts", "users"]
  {
    ExampleNames();
    ExampleSorted(["users", "posts"]);
  }

  lemma ExampleNames()
    ensures TableNames(ExampleCols) == ["users", "posts"]
  {
    var c0, c1, c2 := ExampleCols[0], ExampleCols[1], ExampleCols[2];
    var cols := [c0, c1, c2];
    assert cols == ExampleCols;
    assert cols[..2] == [c0, c1] && [c0, c1][..1] == [c0] && [c0][..0] == [];
    assert TableNames([c0]) == ["users"];
    assert TableNames([c0, c1]) == ["users"];
  }

  lemma ExampleSorted(ns: seq<string>)
    requires ns == ["users", "posts"]
    ensures Distinct(ns) && SortKeys(ns) == ["posts", "users"]
  {
    assert ns[0][0] == 'u' && ns[1][0] == 'p';
    assert ns[..1] == ["users"] && ["users"][..0] == [];
    assert SortKeys(["users"]) == ["users"];
    assert !Less("users", "posts");
  }

  lemma ExampleLines()
    ensures ColumnLines(ExampleCols, "posts") == [IdLine]
    ensures ColumnLines(ExampleCols, "users") == [IdLine, EmailLine]
  {
    var c0, c1, c2 := ExampleCols[0], ExampleCols[1], ExampleCols[2];
    var cols := [c0, c1, c2];
    assert cols == ExampleCols;
    assert cols[..2] == [c0, c1] && [c0, c1][..1] == [c0] && [c0][..0] == [];
    assert "users" != "posts" by {
      assert "users"[0] != "posts"[0];
    }
    assert ColumnLine(c0) == IdLine && ColumnLine(c1) == EmailLine && ColumnLine(c2) == IdLine;
    assert ColumnLines([c0], "posts") == [];
    assert ColumnLines([c0, c1], "posts") == [];
    assert ColumnLines([c0], "users") == [IdLine];
    assert ColumnLines([c0, c1], "users") == [IdLine, EmailLine];
  }

  /**
   * Rows of `users` listed before rows of `posts` still render `posts`
   * first, and the columns of `users` keep their row order.
   */
  lemma RenderExample()
    ensures Render(ExampleCols) == Header + "\n\n"
      + ("Table: posts\n" + IdLine) + "\n\n"
      + ("Table: users\n" + (IdLine + "\n" + EmailLine))
  {
    var bp, bu := "Table: posts\n" + IdLine, "Table: users\n" + (IdLine + "\n" + EmailLine);
    ExampleOrder();
    ExampleBlocks();
    var parts := [Header] + Blocks(ExampleCols, ["posts", "users"]);
    assert parts == [Header, bp] + [bu];
    assert [Header, bp] == [Header] + [bp];
    JoinSnoc("\n\n", [Header], bp);
    JoinSnoc("\n\n", [Header, bp], bu);
  }

  lemma ExampleBlocks()
    ensures TableBlock(ExampleCols, "posts") == "Table: posts\n" + IdLine
    ensures TableBlock(ExampleCols, "users") == "Table: users\n" + (IdLine + "\n" + EmailLine)
  {
    ExampleLines();
    BlockOfLines(ExampleCols, "posts", [IdLine]);
    BlockOfLines(ExampleCols, "users", [IdLine, EmailLine]);
    JoinSnoc("\n", [IdLine], EmailLine);
    assert [IdLine] + [EmailLine] == [IdLine, EmailLine];
  }

  lemma BlockOfLines(cols: seq<Column>, t: string, lines: seq<string>)
    requires ColumnLines(cols, t) == lines
    ensures TableBlock(cols, t) == "Table: " + t + "\n" + Join("\n", lines)
  {
  }

  /** What `format_schema_for_llm` makes of the metadata rows. */
  function SchemaText(rows: seq<Row>): Result<string, Error> {
    match ReadRows(rows)
    case Failure(e) => Failure(e)
    case Success(cols) => Success(Render(cols))
  }

  /**
   * The text the rendering loop has written after the tables `ns`: the
   * header line and a blank line, then each block followed by a blank line.
   */
  function Written(cols: seq<Column>, ns: seq<string>): string {
    if ns == [] then Header + "\n\n" else Written(cols, ns[..|ns| - 1]) + TableBlock(cols, ns[|ns| - 1]) + "\n\n"
  }

  lemma {:induction false} WrittenJoin(cols: seq<Column>, ns: seq<string>)
    ensures Written(cols, ns) == Join("\n\n", [Header] + Blocks(cols, ns)) + "\n\n"
  {
    if ns != [] {
      var init, t := ns[..|ns| - 1], ns[|ns| - 1];
      WrittenJoin(cols, init);
      BlocksSnoc(cols, ns);
      JoinSnoc("\n\n", [Header] + Blocks(cols, init), TableBlock(cols, t));
    }
  }

  /** The blocks of a non-empty list of tables: those of all but the last, then the last one. */
  lemma BlocksSnoc(cols: seq<Column>, ns: seq<string>)
    requires ns != []
    ensures [Header] + Blocks(cols, ns) == ([Header] + Blocks(cols, ns[..|ns| - 1])) + [TableBlock(cols, ns[|ns| - 1])]
  {
  }

  /** One step of the grouping loop, in terms of the specification. */
  lemma GroupStep(cols: seq<Column>, c: Column)
    ensures TableNames(cols + [c]) == if c.table in TableNames(cols) then TableNames(cols) else TableNames(cols) + [c.table]
    ensures forall t :: ColumnLines(cols + [c], t) == ColumnLines(cols, t) + if c.table == t then [ColumnLine(c)] else []
  {
    assert (cols + [c])[..|cols|] == cols;
  }

  /** Reading one more good row appends its column. */
  lemma ReadSucceeds(rows: seq<Row>, i: nat, cols: seq<Column>, c: Column)
    requires i < |rows| && ReadRows(rows[..i]) == Success(cols) && ReadRow(rows[i]) == Success(c)
    ensures ReadRows(rows[..i + 1]) == Success(cols + [c])
  {
    assert rows[..i + 1][..i] == rows[..i];
  }

  /** A bad row after good ones decides the outcome of reading all the rows. */
  lemma ReadFails(rows: seq<Row>, i: nat, cols: seq<Column>)
    requires i < |rows| && ReadRows(rows[..i]) == Success(cols) && ReadRow(rows[i]).Failure?
    ensures ReadRows(rows) == Failure(ReadRow(rows[i]).error)
  {
    assert rows[..i + 1][..i] == rows[..i];
    ReadRowsFailurePersists(rows, i + 1);
  }

  /** One step of the rendering loop, in terms of the specification. */
  lemma WriteStep(cols: seq<Column>, ns: seq<string>, j: nat)
    requires j < |ns|
    ensures Written(cols, ns[..j + 1]) == Written(cols, ns[..j]) + TableBlock(cols, ns[j]) + "\n\n"
  {
    assert ns[..j + 1][..j] == ns[..j];
  }

  /** The three appends of the rendering loop add one block. */
  lemma Regroup(s: string, a: string, b: string, c: string, d: string)
    ensures s + a + b + c + d == s + (a + b + c + d)
  {
  }

  /** The rendering loop's result, once stripped, is `Render`. */
  lemma StripWritten(cols: seq<Column>)
    ensures Strip(Written(cols, RenderOrder(cols))) == Render(cols)
  {
    WrittenJoin(cols, RenderOrder(cols));
    StripTrailing(Render(cols), "\n\n");
  }

  /**
   * The grouping loop of `format_schema_for_llm`: each row's line is
   * appended under its table, a table entering the dict on its first row.
   * `cols` are the rows read so far, a ghost of the proof.
   */
  method GroupRows(rows: seq<Row>) returns (r: Result<(seq<string>, map<string, seq<string>>), Error>, ghost cols: seq<Column>)
    ensures r.Failure? ==> ReadRows(rows) == Failure(r.error)
    ensures r.Success? ==> ReadRows(rows) == Success(cols) && Grouped(cols, r.value.0, r.value.1)
  {
    var names: seq<string> := [];                  // the dict's keys, in insertion order
    var tables: map<string, seq<string>> := map[];
    cols := [];
    var i := 0;
    while i < |rows|
      invariant 0 <= i <= |rows|
      invariant ReadRows(rows[..i]) == Success(cols)
      invariant Grouped(cols, names, tables)
    {
      var read := ReadRow(rows[i]);
      if read.Failure? {
        ReadFails(rows, i, cols);
        return Failure(read.error), cols;
      }
      var c := read.value;
      ReadSucceeds(rows, i, cols, c);
      GroupedStep(cols, names, tables, c);
      var table := c.table;
      if table !in tables {
        tables := tables[table := []];
        names := names + [table];
      }
      var nullable := if c.isNullable == "YES" then "NULL" else "NOT NULL";
      var line := "  - " + c.name + " (" + c.dataType + ") " + nullable;
      assert line == ColumnLine(c);
      tables := tables[table := tables[table] + [line]];
      cols := cols + [c];
      i := i + 1;
    }
    assert rows[..i] == rows;
    r := Success((names, tables));
  }

  /** The dict `format_schema_for_llm` builds: each table of `cols` with its column lines. */
  function Dict(cols: seq<Column>): map<string, seq<string>> {
    map t | t in TableNames(cols) :: ColumnLines(cols, t)
  }

  /** The loop's keys, in first-seen order, and its dict, as built from `cols`. */
  ghost predicate Grouped(cols: seq<Column>, names: seq<string>, tables: map<string, seq<string>>) {
    names == TableNames(cols) && tables == Dict(cols)
  }

  /** One row through the grouping loop keeps the dict in step with the rows read. */
  lemma GroupedStep(cols: seq<Column>, names: seq<string>, tables: map<string, seq<string>>, c: Column)
    requires Grouped(cols, names, tables)
    ensures var names' := if c.table in tables then names else names + [c.table];
      var base := if c.table in tables then tables else tables[c.table := []];
      Grouped(cols + [c], names', base[c.table := base[c.table] + [ColumnLine(c)]])
  {
    GroupStep(cols, c);
    DictSnoc(cols, c);
    if c.table !in tables {
      ColumnLinesNonEmpty(cols, c.table);
      var line := [ColumnLine(c)];
      assert tables[c.table := []][c.table := [] + line] == tables[c.table := [] + line];
    }
  }

  /** A new row adds its line under its table in the dict, and changes nothing else. */
  lemma DictSnoc(cols: seq<Column>, c: Column)
    ensures Dict(cols + [c]) == Dict(cols)[c.table := ColumnLines(cols, c.table) + [ColumnLine(c)]]
  {
    GroupStep(cols, c);
    var d, d' := Dict(cols), Dict(cols + [c]);
    var e := d[c.table := ColumnLines(cols, c.table) + [ColumnLine(c)]];
    assert forall t :: t in d' <==> t in d || t == c.table;
    forall t | t in e
      ensures t in d' && d'[t] == e[t]
    {
    }
    assert d'.Keys == e.Keys;
  }

  /** The rendering loop of `format_schema_for_llm`: the header, then each table in key order. */
  method WriteTables(names: seq<string>, tables: map<string, seq<string>>, ghost cols: seq<Column>) returns (formatted: string)
    requires Grouped(cols, names, tables)
    ensures formatted == Written(cols, RenderOrder(cols))
  {
    // `sorted(tables.items())`: the keys are distinct, so this is the keys in order
    var sortedNames := SortKeys(names);
    formatted := Header + "\n\n";
    var j := 0;
    while j < |sortedNames|
      invariant 0 <= j <= |sortedNames|
      invariant formatted == Written(cols, sortedNames[..j])
    {
      var table := sortedNames[j];
      assert table in sortedNames;
      WriteStep(cols, sortedNames, j);
      ghost var before := formatted;
      formatted := formatted + "Table: " + table + "\n";
      formatted := formatted + Join("\n", tables[table]);
      formatted := formatted + "\n\n";
      assert tables[table] == ColumnLines(cols, table);
      Regroup(before, "Table: ", table, "\n", Join("\n", tables[table]));
      j := j + 1;
    }
    assert sortedNames[..j] == sortedNames;
  }

  /**
   * `format_schema_for_llm` after the metadata query: group the rows into
   * a dict of column lines, render the dict in sorted key order, strip.
   */
  method FormatRows(rows: seq<Row>) returns (r: Result<string, Error>)
    ensures r == SchemaText(rows)
  {
    var grouped, cols := GroupRows(rows);
    if grouped.Failure? {
      return Failure(grouped.error);
    }
    var formatted := WriteTables(grouped.value.0, grouped.value.1, cols);
    StripWritten(cols);
    r := Success(Strip(formatted));
  }
}
