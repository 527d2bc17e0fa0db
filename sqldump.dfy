/**
 * The dump `create` writes: a comment header, `SET FOREIGN_KEY_CHECKS=0;`,
 * for every table its `DROP TABLE IF EXISTS`, its CREATE statement and, when
 * it has rows, one multi-row INSERT, and finally `SET FOREIGN_KEY_CHECKS=1;`.
 * The database connection is replaced by the list of tables it would report.
 */
module SqlDump {
  import opened Wrappers
  import opened SqlText
  import opened SqlSplit
  import opened SqlValue

  /** A table as read from the database: name, `SHOW CREATE TABLE` text and rows in `SELECT *` order. */
  datatype Table = Table(name: string, createSql: string, rows: seq<seq<Value>>)

  // ---------------------------------------------------------------------
  // The dump text
  // ---------------------------------------------------------------------

  /** The pieces of `ps` with `sep` between neighbours. */
  function JoinWith(ps: seq<string>, sep: string): string {
    if |ps| == 0 then ""
    else if |ps| == 1 then ps[0]
    else JoinWith(ps[..|ps| - 1], sep) + sep + Last(ps)
  }

  function Literals(row: seq<Value>, esc: Escaping): (r: seq<string>)
    ensures |r| == |row| && forall j :: 0 <= j < |row| ==> r[j] == Literal(row[j], esc)
  {
    if row == [] then [] else [Literal(row[0], esc)] + Literals(row[1..], esc)
  }

  /** One row: its literals separated by commas, in parentheses. */
  function RowText(row: seq<Value>, esc: Escaping): string {
    "(" + JoinWith(Literals(row, esc), ",") + ")"
  }

  function RowTexts(rows: seq<seq<Value>>, esc: Escaping): (r: seq<string>)
    ensures |r| == |rows| && forall i :: 0 <= i < |rows| ==> r[i] == RowText(rows[i], esc)
  {
    if rows == [] then [] else [RowText(rows[0], esc)] + RowTexts(rows[1..], esc)
  }

  /** The line that opens the INSERT of table `name`. */
  function InsertHead(name: string): string {
    "INSERT INTO `" + name + "` VALUES\n"
  }

  /** The rows of an INSERT: separated by ",\n", the last one closed by ";\n\n". */
  function RowsText(rows: seq<seq<Value>>, esc: Escaping): string {
    JoinWith(RowTexts(rows, esc), ",\n") + ";\n\n"
  }

  /** The INSERT of a table: nothing for a table without rows. */
  function InsertText(name: string, rows: seq<seq<Value>>, esc: Escaping): string {
    if rows == [] then "" else InsertHead(name) + RowsText(rows, esc)
  }

  function DropText(name: string): string {
    "DROP TABLE IF EXISTS `" + name + "`;\n"
  }

  function CreateText(createSql: string): string {
    createSql + ";\n\n"
  }

  /** A table: DROP, then its CREATE statement closed by ";", then its INSERT. */
  function TableText(t: Table, esc: Escaping): string {
    DropText(t.name) + CreateText(t.createSql) + InsertText(t.name, t.rows, esc)
  }

  function TablesText(ts: seq<Table>, esc: Escaping): string {
    if ts == [] then "" else TablesText(ts[..|ts| - 1], esc) + TableText(Last(ts), esc)
  }

  function FirstLine(dbName: string): string {
    "-- Veritabanı yedeği: " + dbName + "\n"
  }

  function SecondLine(createdAt: string): string {
    "-- Oluşturulma tarihi: " + createdAt + "\n\n"
  }

  const ChecksOff := "SET FOREIGN_KEY_CHECKS=0;\n\n"
  const ChecksOn := "SET FOREIGN_KEY_CHECKS=1;\n"

  /** The two comment lines naming the database and the creation time, a blank line, and `SET FOREIGN_KEY_CHECKS=0;`. */
  function Header(dbName: string, createdAt: string): string {
    FirstLine(dbName) + SecondLine(createdAt) + ChecksOff
  }

  /** The whole dump of database `dbName`, written at `createdAt`. */
  function DumpText(dbName: string, createdAt: string, tables: seq<Table>, esc: Escaping): string {
    Header(dbName, createdAt) + TablesText(tables, esc) + ChecksOn
  }

  // ---------------------------------------------------------------------
  // The dump loops
  // ---------------------------------------------------------------------

  /**
   * The text the loops have written after `k` of the pieces `ps`: each
   * piece followed by `sep`, or by `end` for the last one.
   */
  ghost function Written(ps: seq<string>, k: nat, sep: string, end: string): string
    requires k <= |ps|
  {
    if k == 0 then "" else JoinWith(ps[..k], sep) + (if k < |ps| then sep else end)
  }

  lemma WrittenStep(ps: seq<string>, k: nat, sep: string, end: string)
    requires k < |ps|
    ensures Written(ps, k + 1, sep, end) == Written(ps, k, sep, end) + (ps[k] + (if k < |ps| - 1 then sep else end))
  {
    if k > 0 {
      assert ps[..k + 1][..k] == ps[..k];
    }
  }

  lemma WrittenAll(ps: seq<string>, sep: string, end: string)
    requires ps != [] || end == ""
    ensures Written(ps, |ps|, sep, end) == JoinWith(ps, sep) + end
    ensures end == "" ==> Written(ps, |ps|, sep, end) == JoinWith(ps, sep)
  {
    assert ps[..|ps|] == ps;
    assert JoinWith(ps, sep) + "" == JoinWith(ps, sep);
  }

  lemma TablesTextSnoc(ts: seq<Table>, k: nat, esc: Escaping)
    requires k < |ts|
    ensures TablesText(ts[..k + 1], esc) == TablesText(ts[..k], esc) + TableText(ts[k], esc)
  {
    assert ts[..k + 1][..k] == ts[..k];
  }

  /** The text `create` appends for one non-null value. */
  lemma QuotedIsLiteral(value: Value, esc: Escaping)
    requires value.Str?
    ensures "'" + StrReplace(value.s, esc) + "'" == Literal(value, esc)
  {
    StrReplaceIsEscape(value.s, esc);
  }

  /** The value loop of `create`: appends one row, its values separated by commas, in parentheses. */
  method AppendRow(start: string, row: seq<Value>, esc: Escaping) returns (content: string)
    ensures content == start + RowText(row, esc)
  {
    ghost var lits := Literals(row, esc);
    content := start + "(";
    ghost var lead := content;
    var j := 0;
    while j < |row|
      invariant 0 <= j <= |row|
      invariant content == lead + Written(lits, j, ",", "")
    {
      ghost var before := content;
      content := AppendValue(content, row[j], esc);
      ghost var sep := "";
      if j < |row| - 1 {
        content := content + ",";
        sep := ",";
      }
      LoopStep(lead, before, lits, j, ",", "", sep);
      j := j + 1;
    }
    content := content + ")";
    ValueLoopDone(start, row, esc, content);
  }

  /** One value of the row: NULL, or the value in quotes after the backslash and quote replacements. */
  method AppendValue(start: string, value: Value, esc: Escaping) returns (content: string)
    ensures content == start + Literal(value, esc)
  {
    if value.Null? {
      content := start + "NULL";
    } else {
      var escaped := StrReplace(value.s, esc);
      content := start + ("'" + escaped + "'");
      QuotedIsLiteral(value, esc);
    }
  }

  /** One turn of either loop: the piece and what follows it extend the text written so far. */
  lemma LoopStep(base: string, before: string, ps: seq<string>, k: nat, sep: string, end: string, tail: string)
    requires k < |ps|
    requires before == base + Written(ps, k, sep, end)
    requires tail == if k < |ps| - 1 then sep else end
    ensures before + ps[k] + tail == base + Written(ps, k + 1, sep, end)
  {
    Append3(before, ps[k], tail);
    WrittenStep(ps, k, sep, end);
    Append3(base, Written(ps, k, sep, end), ps[k] + tail);
  }

  lemma ValueLoopDone(start: string, row: seq<Value>, esc: Escaping, content: string)
    requires content == start + "(" + Written(Literals(row, esc), |row|, ",", "") + ")"
    ensures content == start + RowText(row, esc)
  {
    var lits := Literals(row, esc);
    WrittenAll(lits, ",", "");
    Append3(start, "(", JoinWith(lits, ","));
    Append3(start, "(" + JoinWith(lits, ","), ")");
  }

  /** The row loop of `create`: appends the INSERT of a table, or nothing when it has no rows. */
  method AppendInsert(start: string, name: string, rows: seq<seq<Value>>, esc: Escaping)
    returns (content: string)
    ensures content == start + InsertText(name, rows, esc)
  {
    content := start;
    if |rows| > 0 {
      content := content + ("INSERT INTO `" + name + "` VALUES\n");
      ghost var base := content;
      ghost var rts := RowTexts(rows, esc);
      var i := 0;
      while i < |rows|
        invariant 0 <= i <= |rows|
        invariant content == base + Written(rts, i, ",\n", ";\n\n")
      {
        ghost var before := content;
        content := AppendRow(content, rows[i], esc);
        ghost var sep := ",\n";
        if i < |rows| - 1 {
          content := content + ",\n";
        } else {
          content := content + ";\n\n";
          sep := ";\n\n";
        }
        LoopStep(base, before, rts, i, ",\n", ";\n\n", sep);
        i := i + 1;
      }
      RowLoopDone(start, name, rows, esc, base, content);
    }
  }

  lemma RowLoopDone(start: string, name: string, rows: seq<seq<Value>>, esc: Escaping, base: string, content: string)
    requires rows != []
    requires base == start + ("INSERT INTO `" + name + "` VALUES\n")
    requires content == base + Written(RowTexts(rows, esc), |rows|, ",\n", ";\n\n")
    ensures content == start + InsertText(name, rows, esc)
  {
    WrittenAll(RowTexts(rows, esc), ",\n", ";\n\n");
    Append3(start, InsertHead(name), RowsText(rows, esc));
  }

  /** The dump part of `create`: the header, every table in turn, and the closing statement. */
  method BuildDump(dbName: string, createdAt: string, tables: seq<Table>, esc: Escaping)
    returns (content: string)
    ensures content == DumpText(dbName, createdAt, tables, esc)
  {
    content := "-- Veritabanı yedeği: " + dbName + "\n";
    content := content + ("-- Oluşturulma tarihi: " + createdAt + "\n\n");
    content := content + "SET FOREIGN_KEY_CHECKS=0;\n\n";
    assert TablesText(tables[..0], esc) == "";
    var t := 0;
    while t < |tables|
      invariant 0 <= t <= |tables|
      invariant content == Header(dbName, createdAt) + TablesText(tables[..t], esc)
    {
      var table := tables[t];
      ghost var before := content;
      content := content + ("DROP TABLE IF EXISTS `" + table.name + "`;\n");
      content := content + (table.createSql + ";\n\n");
      content := AppendInsert(content, table.name, table.rows, esc);
      Append3(before, DropText(table.name), CreateText(table.createSql));
      Append3(before, DropText(table.name) + CreateText(table.createSql), InsertText(table.name, table.rows, esc));
      TablesTextSnoc(tables, t, esc);
      Append3(Header(dbName, createdAt), TablesText(tables[..t], esc), TableText(table, esc));
      t := t + 1;
    }
    assert tables[..t] == tables;
    content := content + "SET FOREIGN_KEY_CHECKS=1;\n";
  }

  // ---------------------------------------------------------------------
  // Reading rows back
  // ---------------------------------------------------------------------

  /** Reads literals separated by commas up to the closing parenthesis. */
  function ReadValues(t: string): (r: Option<Read<seq<Value>>>)
    ensures r.Some? ==> |r.value.rest| < |t|
    decreases |t|
  {
    match ReadValue(t)
    case None => None
    case Some(v) =>
      if v.rest == [] then None
      else if v.rest[0] == ')' then Some(Read([v.value], v.rest[1..]))
      else if v.rest[0] == ',' then
        match ReadValues(v.rest[1..])
        case None => None
        case Some(vs) => Some(Read([v.value] + vs.value, vs.rest))
      else None
  }

  /** Reads one parenthesised row. */
  function ReadRow(t: string): (r: Option<Read<seq<Value>>>)
    ensures r.Some? ==> |r.value.rest| < |t|
  {
    if t == [] || t[0] != '(' then None
    else if |t| >= 2 && t[1] == ')' then Some(Read([], t[2..]))
    else ReadValues(t[1..])
  }

  /** `JoinWith` seen from the front. */
  lemma {:induction false} JoinWithCons(p: string, ps: seq<string>, sep: string)
    requires ps != []
    ensures JoinWith([p] + ps, sep) == p + sep + JoinWith(ps, sep)
    decreases |ps|
  {
    var all := [p] + ps;
    if |ps| == 1 {
      assert all[..1] == [p];
    } else {
      var init := ps[..|ps| - 1];
      JoinWithCons(p, init, sep);
      assert all[..|all| - 1] == [p] + init;
    }
  }

  lemma ReadValuesLast(t: string, v: Value, rest: string)
    requires ReadValue(t) == Some(Read(v, ")" + rest))
    ensures ReadValues(t) == Some(Read([v], rest))
  {
    assert (")" + rest)[1..] == rest;
  }

  lemma ReadValuesMore(t: string, v: Value, tail: string, vs: seq<Value>, rest: string)
    requires ReadValue(t) == Some(Read(v, "," + tail))
    requires ReadValues(tail) == Some(Read(vs, rest))
    ensures ReadValues(t) == Some(Read([v] + vs, rest))
  {
    assert ("," + tail)[1..] == tail;
  }

  lemma Regroup(a: string, sep: string, b: string, c: string, d: string)
    ensures (a + sep + b) + c + d == a + (sep + (b + c + d))
  {
  }

  lemma LiteralsTail(row: seq<Value>, esc: Escaping)
    requires row != []
    ensures Literals(row, esc) == [Literal(row[0], esc)] + Literals(row[1..], esc)
  {
  }

  lemma RowCons(row: seq<Value>)
    requires row != []
    ensures [row[0]] + row[1..] == row
  {
  }

  lemma {:induction false} ValuesReadBack(row: seq<Value>, esc: Escaping, rest: string)
    requires row != []
    ensures ReadValues(JoinWith(Literals(row, esc), ",") + ")" + rest) == Some(Read(row, rest))
    decreases |row|
  {
    if |row| == 1 {
      LastValueReadsBack(row, esc, rest);
    } else {
      ValuesReadBack(row[1..], esc, rest);
      ValueReadsBefore(row, esc, rest);
    }
  }

  lemma LastValueReadsBack(row: seq<Value>, esc: Escaping, rest: string)
    requires |row| == 1
    ensures ReadValues(JoinWith(Literals(row, esc), ",") + ")" + rest) == Some(Read(row, rest))
  {
    var lit := Literal(row[0], esc);
    assert JoinWith(Literals(row, esc), ",") == lit by {
      assert Literals(row, esc) == [lit];
    }
    LiteralReadsBack(row[0], esc, ")" + rest);
    ReadValuesLast(lit + (")" + rest), row[0], rest);
    Append3(lit, ")", rest);
    assert [row[0]] == row;
  }

  /** A value read back before the values that follow it. */
  lemma ValueReadsBefore(row: seq<Value>, esc: Escaping, rest: string)
    requires |row| > 1
    requires ReadValues(JoinWith(Literals(row[1..], esc), ",") + ")" + rest) == Some(Read(row[1..], rest))
    ensures ReadValues(JoinWith(Literals(row, esc), ",") + ")" + rest) == Some(Read(row, rest))
  {
    var lit := Literal(row[0], esc);
    var more := Literals(row[1..], esc);
    var j := JoinWith(more, ",");
    var tail := j + ")" + rest;
    LiteralsTail(row, esc);
    JoinWithCons(lit, more, ",");
    LiteralReadsBack(row[0], esc, "," + tail);
    ReadValuesMore(lit + ("," + tail), row[0], tail, row[1..], rest);
    Regroup(lit, ",", j, ")", rest);
    assert JoinWith(Literals(row, esc), ",") + ")" + rest == lit + ("," + tail);
    RowCons(row);
  }

  lemma ReadRowOpen(t: string, x: string)
    requires t == "(" + x && x != [] && x[0] != ')'
    ensures ReadRow(t) == ReadValues(x)
  {
    assert t[1..] == x;
  }

  /** The text of a non-empty row's values starts with the first character of its first literal. */
  lemma ValuesStart(row: seq<Value>, esc: Escaping)
    requires row != []
    ensures var j := JoinWith(Literals(row, esc), ",");
      j != [] && (j[0] == 'N' || j[0] == '\'')
  {
    var lits := Literals(row, esc);
    var lit := lits[0];
    if |row| > 1 {
      JoinWithCons(lit, lits[1..], ",");
      assert lits == [lit] + lits[1..];
    }
  }

  lemma FilledRowReadsBack(row: seq<Value>, esc: Escaping, rest: string)
    requires row != []
    ensures ReadRow(RowText(row, esc) + rest) == Some(Read(row, rest))
  {
    var j := JoinWith(Literals(row, esc), ",");
    ValuesReadBack(row, esc, rest);
    ValuesStart(row, esc);
    ReadRowOpen(RowText(row, esc) + rest, j + ")" + rest);
  }

  /** Every row reads back as the values it was written from, whatever follows it. */
  lemma RowReadsBack(row: seq<Value>, esc: Escaping, rest: string)
    ensures ReadRow(RowText(row, esc) + rest) == Some(Read(row, rest))
  {
    if row == [] {
      var t := RowText(row, esc) + rest;
      assert t == "()" + rest;
      assert t[2..] == rest;
    } else {
      FilledRowReadsBack(row, esc, rest);
    }
  }
}
