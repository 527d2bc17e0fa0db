/**
 * The dump read back by the restore: the statements `splitSqlQueries`
 * cuts out of a dump that `create` wrote, and the rows an INSERT among them
 * carries.
 *
 * With the escaping the source uses, a value containing a blank line (or a
 * line that looks like a comment or ends with ';') does not survive: the
 * splitter works on lines and cannot tell the inside of a quoted value from
 * the statement around it. With newlines escaped as backslash-n, every
 * statement the dump writes comes back exactly, and every INSERT reads back
 * as the rows it was written from.
 */
module DumpRestore {
  import opened Wrappers
  import opened SqlText
  import opened SqlSplit
  import opened SqlValue
  import opened SqlDump

  // ---------------------------------------------------------------------
  // Splitting a concatenation
  // ---------------------------------------------------------------------

  /** Text after which the splitter starts afresh: empty, or ending with a newline and leaving no statement open. */
  predicate Block(a: string) {
    a == "" || (a[|a| - 1] == '\n' && !OpenEnd(Groups(Kept(Lines(a)))))
  }

  lemma LinesAfterNewline(a: string, b: string)
    requires a != "" && a[|a| - 1] == '\n'
    ensures Lines(a + b) == Lines(a[..|a| - 1]) + Lines(b)
  {
    var x := a[..|a| - 1];
    assert a + b == x + "\n" + b;
    LinesAround(x, b);
  }

  lemma KeptOne(x: string)
    ensures Kept([x]) == if Skipped(x) then [] else [x]
  {
    assert [x][..0] == [];
  }

  /** Text ending with a newline: the empty piece `explode` gives after it is dropped. */
  lemma KeptBeforeNewline(a: string)
    requires a != "" && a[|a| - 1] == '\n'
    ensures Kept(Lines(a)) == Kept(Lines(a[..|a| - 1]))
  {
    var x := a[..|a| - 1];
    LinesAfterNewline(a, "");
    assert a + "" == a;
    KeptAppend(Lines(x), [""]);
    KeptOne("");
    assert Kept(Lines(x)) + [] == Kept(Lines(x));
  }

  lemma KeptAfterNewline(a: string, b: string)
    requires a != "" && a[|a| - 1] == '\n'
    ensures Kept(Lines(a + b)) == Kept(Lines(a)) + Kept(Lines(b))
  {
    var x := a[..|a| - 1];
    LinesAfterNewline(a, b);
    KeptAppend(Lines(x), Lines(b));
    KeptBeforeNewline(a);
  }

  /** The statements of a block followed by more text are the block's statements, then those of the text. */
  lemma BlockAppend(a: string, b: string)
    requires Block(a)
    ensures SplitQueries(a + b) == SplitQueries(a) + SplitQueries(b)
    ensures Block(b) ==> Block(a + b)
  {
    if a == "" {
      assert a + b == b;
    } else {
      var ka, kb := Kept(Lines(a)), Kept(Lines(b));
      KeptAfterNewline(a, b);
      GroupsAppend(ka, kb);
      TextsAppend(Groups(ka), Groups(kb));
      if b != "" && Block(b) {
        assert (a + b)[|a + b| - 1] == b[|b| - 1];
        OpenEndAppend(Groups(ka), Groups(kb));
      }
    }
  }

  lemma KeptOfStatement(g: seq<string>)
    requires AllNoNewline(g)
    requires forall i :: 0 <= i < |g| ==> !Skipped(g[i])
    ensures Kept(Lines(Text(g))) == g
  {
    LinesOfText(g);
    KeptAppend(g, [""]);
    KeptAll(g);
    KeptOne("");
    assert g + [] == g;
  }

  lemma GroupsOfStatement(g: seq<string>)
    requires IsStatement(g)
    ensures Groups(g) == [g]
  {
    assert [] + g == g;
    GroupsAppendStatement([], g);
  }

  lemma TextEnd(g: seq<string>)
    requires g != []
    ensures Text(g) != [] && Text(g)[|Text(g)| - 1] == '\n'
  {
  }

  /** A complete statement is a block, and the splitter returns it whole. */
  lemma StatementBlock(g: seq<string>)
    requires g != [] && AllNoNewline(g)
    requires forall i :: 0 <= i < |g| ==> !Skipped(g[i])
    requires IsStatement(g) && Terminates(Last(g))
    ensures Block(Text(g)) && SplitQueries(Text(g)) == [Text(g)]
  {
    KeptOfStatement(g);
    GroupsOfStatement(g);
    TextEnd(g);
    ClosedBlock(Text(g), g);
  }

  /** Text ending with a newline whose kept lines form one closed statement. */
  lemma ClosedBlock(a: string, g: seq<string>)
    requires a != [] && a[|a| - 1] == '\n'
    requires Groups(Kept(Lines(a))) == [g] && g != [] && Terminates(Last(g))
    ensures Block(a) && SplitQueries(a) == [Text(g)]
  {
  }

  /** A blank or comment line is a block with no statement in it. */
  lemma SkippedBlock(l: string)
    requires NoNewline(l) && Skipped(l)
    ensures Block(l + "\n") && SplitQueries(l + "\n") == []
  {
    var a := l + "\n";
    assert Lines(a) == [l, ""] by {
      LinesAround(l, "");
      LinesOfLine(l);
      assert l + "\n" + "" == a;
      assert Lines("") == [""];
      assert [l] + [""] == [l, ""];
    }
    assert Kept([l, ""]) == [] by {
      assert Skipped("");
      KeptOne(l);
      KeptSnocOne([l], "");
      assert [l] + [""] == [l, ""];
    }
  }

  /** A single line closing a statement is a block holding just that statement. */
  lemma LineBlock(l: string)
    requires NoNewline(l) && !Skipped(l) && Terminates(l)
    ensures Block(l + "\n") && SplitQueries(l + "\n") == [l + "\n"]
  {
    TextSnoc([], l);
    assert [] + [l] == [l];
    assert "" + l == l;
    assert IsStatement([l]);
    StatementBlock([l]);
  }

  lemma BlankBlock()
    ensures Block("\n") && SplitQueries("\n") == []
  {
    assert "" + "\n" == "\n";
    SkippedBlock("");
  }

  lemma NoNewline3(a: string, b: string, c: string)
    requires NoNewline(a) && NoNewline(b) && NoNewline(c)
    ensures NoNewline(a + b + c)
  {
    NoNewlineAppend(a, b);
    NoNewlineAppend(a + b, c);
  }

  // ---------------------------------------------------------------------
  // What the restore runs
  // ---------------------------------------------------------------------

  function CreateStatement(createSql: string): string {
    createSql + ";\n"
  }

  /** The INSERT statement as the restore runs it: the dumped INSERT without its trailing blank line. */
  function InsertStatement(name: string, rows: seq<seq<Value>>, esc: Escaping): string {
    InsertHead(name) + JoinWith(RowTexts(rows, esc), ",\n") + ";\n"
  }

  function TableStatements(t: Table, esc: Escaping): seq<string> {
    [DropText(t.name), CreateStatement(t.createSql)]
      + (if t.rows == [] then [] else [InsertStatement(t.name, t.rows, esc)])
  }

  function TablesStatements(ts: seq<Table>, esc: Escaping): seq<string> {
    if ts == [] then [] else TablesStatements(ts[..|ts| - 1], esc) + TableStatements(Last(ts), esc)
  }

  /** The statements a dump holds: checks off, each table's statements, checks on. */
  function DumpStatements(ts: seq<Table>, esc: Escaping): seq<string> {
    ["SET FOREIGN_KEY_CHECKS=0;\n"] + TablesStatements(ts, esc) + [ChecksOn]
  }

  /**
   * A CREATE statement the splitter keeps whole: none of its lines is blank
   * or a comment or ends with ';', and its last line with the ';' appended
   * is not a comment either. The text `SHOW CREATE TABLE` reports has this
   * form.
   */
  predicate CreateReady(createSql: string) {
    var ls := Lines(createSql);
    && (forall i :: 0 <= i < |ls| ==> !Skipped(ls[i]))
    && (forall i :: 0 <= i < |ls| ==> !Terminates(ls[i]))
    && !Skipped(Last(ls) + ";")
  }

  /** A table whose dump the splitter cuts back into its statements. */
  predicate TableReady(t: Table, esc: Escaping) {
    NoNewline(t.name) && CreateReady(t.createSql) && RowsSafe(t.rows, esc)
  }

  // ---------------------------------------------------------------------
  // The pieces of a dump are blocks
  // ---------------------------------------------------------------------

  /** A comment line is a block with no statement in it. */
  lemma CommentBlock(prefix: string, value: string)
    requires CommentStart(prefix) && NoNewline(prefix) && NoNewline(value)
    ensures Block(prefix + value + "\n") && SplitQueries(prefix + value + "\n") == []
  {
    var c := prefix + value;
    assert c[0] == prefix[0] && c[1] == prefix[1];
    CommentSkipped(c);
    NoNewlineAppend(prefix, value);
    SkippedBlock(c);
  }

  /** A statement line between two blank lines, as the header ends. */
  lemma BlankedLineBlock(l: string)
    requires NoNewline(l) && !Skipped(l) && Terminates(l)
    ensures Block("\n" + (l + "\n" + "\n")) && SplitQueries("\n" + (l + "\n" + "\n")) == [l + "\n"]
  {
    var p := l + "\n";
    LineBlock(l);
    BlankBlock();
    BlockAppend(p, "\n");
    BlockAppend("\n", p + "\n");
  }

  /** The header as three blocks: the two comment lines, then the SET line between blank lines. */
  lemma HeaderShape(dbName: string, createdAt: string)
    ensures Header(dbName, createdAt)
      == ("-- Veritabanı yedeği: " + dbName + "\n")
      + (("-- Oluşturulma tarihi: " + createdAt + "\n") + ("\n" + ("SET FOREIGN_KEY_CHECKS=0;" + "\n" + "\n")))
  {
  }

  /** Two comment lines, a blank line, a statement line and a blank line: a block holding that statement. */
  lemma CommentsThenLine(pre1: string, v1: string, pre2: string, v2: string, l: string)
    requires CommentStart(pre1) && NoNewline(pre1) && NoNewline(v1)
    requires CommentStart(pre2) && NoNewline(pre2) && NoNewline(v2)
    requires NoNewline(l) && !Skipped(l) && Terminates(l)
    ensures var t := (pre1 + v1 + "\n") + ((pre2 + v2 + "\n") + ("\n" + (l + "\n" + "\n")));
      Block(t) && SplitQueries(t) == [l + "\n"]
  {
    var p1, p2 := pre1 + v1 + "\n", pre2 + v2 + "\n";
    var q := [l + "\n"];
    var tail := "\n" + (l + "\n" + "\n");
    CommentBlock(pre1, v1);
    CommentBlock(pre2, v2);
    BlankedLineBlock(l);
    BlockConcat(p2, tail, [], q);
    assert [] + q == q;
    BlockConcat(p1, p2 + tail, [], q);
  }

  lemma HeaderBlock(dbName: string, createdAt: string)
    requires NoNewline(dbName) && NoNewline(createdAt)
    ensures Block(Header(dbName, createdAt))
    ensures SplitQueries(Header(dbName, createdAt)) == ["SET FOREIGN_KEY_CHECKS=0;\n"]
  {
    var off := "SET FOREIGN_KEY_CHECKS=0;";
    TightLine(off);
    CommentsThenLine("-- Veritabanı yedeği: ", dbName, "-- Oluşturulma tarihi: ", createdAt, off);
    HeaderShape(dbName, createdAt);
    assert off + "\n" == "SET FOREIGN_KEY_CHECKS=0;\n";
  }

  lemma DropBlock(name: string)
    requires NoNewline(name)
    ensures Block(DropText(name)) && SplitQueries(DropText(name)) == [DropText(name)]
  {
    var l := "DROP TABLE IF EXISTS `" + name + "`;";
    NoNewline3("DROP TABLE IF EXISTS `", name, "`;");
    assert l[0] == 'D' && l[1] == 'R';
    TightLine(l);
    SemicolonTerminates("DROP TABLE IF EXISTS `" + name + "`");
    assert l == "DROP TABLE IF EXISTS `" + name + "`" + ";";
    LineBlock(l);
    assert DropText(name) == l + "\n";
  }

  /** `Text` is `implode` followed by a newline. */
  lemma {:induction false} TextJoin(g: seq<string>)
    requires g != []
    ensures Text(g) == Join(g) + "\n"
    decreases |g|
  {
    var init := g[..|g| - 1];
    if init == [] {
      assert g == [g[0]];
      assert Text(init) == "";
    } else {
      TextJoin(init);
      JoinSnoc(init, Last(g));
      assert init + [Last(g)] == g;
    }
  }

  /** The lines of a CREATE statement as the splitter sees them: the ';' is on its last line. */
  function CreateLines(createSql: string): seq<string> {
    var ls := Lines(createSql);
    ls[..|ls| - 1] + [Last(ls) + ";"]
  }

  lemma CreateText(createSql: string)
    ensures Text(CreateLines(createSql)) == CreateStatement(createSql)
  {
    var ls := Lines(createSql);
    var init, last := ls[..|ls| - 1], Last(ls);
    var cl := CreateLines(createSql);
    assert init + [last] == ls;
    assert cl == init + [last + ";"];
    TextJoin(cl);
    assert Join(cl) == createSql + ";" by {
      JoinLastAppend(init, last, ";");
      JoinLines(createSql);
    }
    Append3(createSql, ";", "\n");
    assert ";" + "\n" == ";\n";
  }

  lemma CreateBlock(createSql: string)
    requires CreateReady(createSql)
    ensures Block(SqlDump.CreateText(createSql))
    ensures SplitQueries(SqlDump.CreateText(createSql)) == [CreateStatement(createSql)]
  {
    var ls := Lines(createSql);
    var g := CreateLines(createSql);
    LinesHaveNoNewline(createSql);
    NoNewlineAppend(Last(ls), ";");
    SemicolonTerminates(Last(ls));
    forall i | 0 <= i < |g|
      ensures NoNewline(g[i]) && !Skipped(g[i])
    {
      if i < |g| - 1 {
        assert g[i] == ls[i];
      }
    }
    forall i | 0 <= i < |g| - 1
      ensures !Terminates(g[i])
    {
      assert g[i] == ls[i];
    }
    assert IsStatement(g);
    StatementBlock(g);
    CreateText(createSql);
    BlankBlock();
    BlockAppend(CreateStatement(createSql), "\n");
    assert SqlDump.CreateText(createSql) == CreateStatement(createSql) + "\n";
  }

  // ---------------------------------------------------------------------
  // The INSERT of a table
  // ---------------------------------------------------------------------

  /** Every value of row `row` is written on one line. */
  predicate RowSafe(row: seq<Value>, esc: Escaping) {
    forall j :: 0 <= j < |row| ==> esc == NewlineSafe || row[j].Null? || NoNewline(row[j].s)
  }

  /** Every value of `rows` is written on one line: with `NewlineSafe` always, with `AsWritten` when no value holds a newline. */
  predicate RowsSafe(rows: seq<seq<Value>>, esc: Escaping) {
    forall i :: 0 <= i < |rows| ==> RowSafe(rows[i], esc)
  }

  /** A row as the dump writes it: one line, in parentheses. */
  predicate RowLine(x: string) {
    NoNewline(x) && x != [] && x[0] == '(' && x[|x| - 1] == ')'
  }

  lemma {:induction false} JoinWithNoNewline(ps: seq<string>, sep: string)
    requires AllNoNewline(ps) && NoNewline(sep)
    ensures NoNewline(JoinWith(ps, sep))
    decreases |ps|
  {
    if |ps| > 1 {
      var init := ps[..|ps| - 1];
      assert AllNoNewline(init) by {
        forall i | 0 <= i < |init| ensures NoNewline(init[i]) {
          assert init[i] == ps[i];
        }
      }
      JoinWithNoNewline(init, sep);
      NoNewline3(JoinWith(init, sep), sep, Last(ps));
    }
  }

  lemma RowIsLine(row: seq<Value>, esc: Escaping)
    requires RowSafe(row, esc)
    ensures RowLine(RowText(row, esc))
  {
    var lits := Literals(row, esc);
    forall j | 0 <= j < |lits|
      ensures NoNewline(lits[j])
    {
      LiteralNoNewline(row[j], esc);
    }
    JoinWithNoNewline(lits, ",");
    NoNewline3("(", JoinWith(lits, ","), ")");
  }

  /** The lines of an INSERT's rows but the last: each row followed by a comma. */
  function Commaed(xs: seq<string>): (r: seq<string>)
    ensures |r| == |xs| && forall i :: 0 <= i < |xs| ==> r[i] == xs[i] + ","
  {
    if xs == [] then [] else Commaed(xs[..|xs| - 1]) + [Last(xs) + ","]
  }

  /** Rows joined by ",\n" are the comma-terminated lines joined by newlines. */
  lemma {:induction false} JoinCommaed(xs: seq<string>, y: string)
    ensures Join(Commaed(xs) + [y]) == JoinWith(xs + [y], ",\n")
    decreases |xs|
  {
    if xs == [] {
      assert Commaed(xs) + [y] == [y];
      assert xs + [y] == [y];
    } else {
      var init, x := xs[..|xs| - 1], Last(xs);
      var ci := Commaed(init);
      JoinCommaed(init, x);
      assert init + [x] == xs;
      assert Commaed(xs) + [y] == (ci + [x + ","]) + [y];
      JoinSnoc(ci + [x + ","], y);
      JoinLastAppend(ci, x, ",");
      assert (xs + [y])[..|xs|] == xs;
    }
  }

  function InsertLine(name: string): string {
    "INSERT INTO `" + name + "` VALUES"
  }

  /** The lines of an INSERT as the splitter sees them. */
  function InsertLines(name: string, rts: seq<string>): seq<string>
    requires rts != []
  {
    [InsertLine(name)] + Commaed(rts[..|rts| - 1]) + [Last(rts) + ";"]
  }

  lemma JoinCons(a: string, rest: seq<string>)
    requires rest != []
    ensures Join([a] + rest) == a + "\n" + Join(rest)
  {
    assert ([a] + rest)[1..] == rest;
  }

  lemma InsertLinesText(name: string, rts: seq<string>)
    requires rts != []
    ensures Text(InsertLines(name, rts)) == InsertHead(name) + JoinWith(rts, ",\n") + ";\n"
  {
    var init := rts[..|rts| - 1];
    var rest := Commaed(init) + [Last(rts) + ";"];
    var g := InsertLines(name, rts);
    assert g == [InsertLine(name)] + rest;
    TextJoin(g);
    JoinCons(InsertLine(name), rest);
    JoinLastAppend(Commaed(init), Last(rts), ";");
    JoinCommaed(init, Last(rts));
    assert init + [Last(rts)] == rts;
  }

  lemma InsertLineFacts(name: string)
    requires NoNewline(name)
    ensures NoNewline(InsertLine(name)) && !Skipped(InsertLine(name)) && !Terminates(InsertLine(name))
  {
    var l := InsertLine(name);
    NoNewline3("INSERT INTO `", name, "` VALUES");
    assert l[0] == 'I' && l[1] == 'N';
    assert l[|l| - 1] == 'S';
    TightLine(l);
  }

  lemma CommaLineFacts(x: string)
    requires RowLine(x)
    ensures NoNewline(x + ",") && !Skipped(x + ",") && !Terminates(x + ",")
  {
    var l := x + ",";
    NoNewlineAppend(x, ",");
    assert l[0] == '(' && l[|l| - 1] == ',';
    TightLine(l);
  }

  lemma LastLineFacts(x: string)
    requires RowLine(x)
    ensures NoNewline(x + ";") && !Skipped(x + ";") && Terminates(x + ";")
  {
    var l := x + ";";
    NoNewlineAppend(x, ";");
    assert l[0] == '(' && l[|l| - 1] == ';';
    TightLine(l);
  }

  /** The lines of an INSERT form one statement the splitter keeps whole. */
  lemma InsertLinesStatement(name: string, rts: seq<string>)
    requires rts != [] && NoNewline(name)
    requires forall i :: 0 <= i < |rts| ==> RowLine(rts[i])
    ensures var g := InsertLines(name, rts);
      && AllNoNewline(g) && (forall i :: 0 <= i < |g| ==> !Skipped(g[i]))
      && IsStatement(g) && Terminates(Last(g))
  {
    var g := InsertLines(name, rts);
    var n := |rts|;
    InsertLineFacts(name);
    LastLineFacts(rts[n - 1]);
    forall i | 0 <= i < |g|
      ensures NoNewline(g[i]) && !Skipped(g[i]) && (i < |g| - 1 ==> !Terminates(g[i]))
    {
      if 0 < i < |g| - 1 {
        assert g[i] == rts[i - 1] + ",";
        CommaLineFacts(rts[i - 1]);
      }
    }
  }

  lemma InsertTextBlank(name: string, rows: seq<seq<Value>>, esc: Escaping)
    requires rows != []
    ensures InsertText(name, rows, esc) == InsertStatement(name, rows, esc) + "\n"
  {
  }

  /** With every value on one line, the dumped INSERT comes back as one statement. */
  lemma InsertBlock(name: string, rows: seq<seq<Value>>, esc: Escaping)
    requires rows != [] && NoNewline(name) && RowsSafe(rows, esc)
    ensures Block(InsertText(name, rows, esc))
    ensures SplitQueries(InsertText(name, rows, esc)) == [InsertStatement(name, rows, esc)]
  {
    var rts := RowTexts(rows, esc);
    forall i | 0 <= i < |rts|
      ensures RowLine(rts[i])
    {
      RowIsLine(rows[i], esc);
    }
    InsertLinesStatement(name, rts);
    var g := InsertLines(name, rts);
    StatementBlock(g);
    InsertLinesText(name, rts);
    InsertTextBlank(name, rows, esc);
    BlankBlock();
    BlockAppend(InsertStatement(name, rows, esc), "\n");
    assert [InsertStatement(name, rows, esc)] + [] == [InsertStatement(name, rows, esc)];
  }

  // ---------------------------------------------------------------------
  // The whole dump
  // ---------------------------------------------------------------------

  lemma EmptyBlock()
    ensures Block("") && SplitQueries("") == []
  {
    EmptyInput();
  }

  /** Two blocks in a row form a block, and their statements follow each other. */
  lemma BlockConcat(a: string, b: string, qa: seq<string>, qb: seq<string>)
    requires Block(a) && SplitQueries(a) == qa
    requires Block(b) && SplitQueries(b) == qb
    ensures Block(a + b) && SplitQueries(a + b) == qa + qb
  {
    BlockAppend(a, b);
  }

  lemma DropCreateBlock(t: Table)
    requires NoNewline(t.name) && CreateReady(t.createSql)
    ensures var dc := DropText(t.name) + SqlDump.CreateText(t.createSql);
      Block(dc) && SplitQueries(dc) == [DropText(t.name), CreateStatement(t.createSql)]
  {
    DropBlock(t.name);
    CreateBlock(t.createSql);
    BlockConcat(DropText(t.name), SqlDump.CreateText(t.createSql), [DropText(t.name)], [CreateStatement(t.createSql)]);
  }

  /** A table's dump is cut back into its DROP, its CREATE and, when it has rows, its INSERT. */
  lemma TableBlock(t: Table, esc: Escaping)
    requires TableReady(t, esc)
    ensures Block(TableText(t, esc)) && SplitQueries(TableText(t, esc)) == TableStatements(t, esc)
  {
    var dc := DropText(t.name) + SqlDump.CreateText(t.createSql);
    var qs := [DropText(t.name), CreateStatement(t.createSql)];
    var i := InsertText(t.name, t.rows, esc);
    DropCreateBlock(t);
    assert TableText(t, esc) == dc + i;
    if t.rows == [] {
      EmptyBlock();
      BlockConcat(dc, i, qs, []);
      assert qs + [] == qs;
    } else {
      InsertBlock(t.name, t.rows, esc);
      BlockConcat(dc, i, qs, [InsertStatement(t.name, t.rows, esc)]);
    }
  }

  lemma {:induction false} TablesBlocks(ts: seq<Table>, esc: Escaping)
    requires forall k :: 0 <= k < |ts| ==> TableReady(ts[k], esc)
    ensures Block(TablesText(ts, esc)) && SplitQueries(TablesText(ts, esc)) == TablesStatements(ts, esc)
    decreases |ts|
  {
    if ts == [] {
      EmptyBlock();
    } else {
      var init := ts[..|ts| - 1];
      assert forall k :: 0 <= k < |init| ==> init[k] == ts[k];
      TablesBlocks(init, esc);
      TableBlock(Last(ts), esc);
      BlockAppend(TablesText(init, esc), TableText(Last(ts), esc));
    }
  }

  lemma ChecksOnBlock()
    ensures Block(ChecksOn) && SplitQueries(ChecksOn) == [ChecksOn]
  {
    var l := "SET FOREIGN_KEY_CHECKS=1;";
    TightLine(l);
    LineBlock(l);
    assert ChecksOn == l + "\n";
  }

  /**
   * The restore gets back exactly the statements the dump wrote: the SET
   * that disables the checks, each table's DROP, CREATE and INSERT, and the
   * SET that enables them again. It requires the escaping to keep every
   * value on one line, and names and CREATE statements of the shape the
   * database reports.
   */
  lemma DumpRestoresStatements(dbName: string, createdAt: string, ts: seq<Table>, esc: Escaping)
    requires NoNewline(dbName) && NoNewline(createdAt)
    requires forall k :: 0 <= k < |ts| ==> TableReady(ts[k], esc)
    ensures SplitQueries(DumpText(dbName, createdAt, ts, esc)) == DumpStatements(ts, esc)
  {
    var h, b := Header(dbName, createdAt), TablesText(ts, esc);
    HeaderBlock(dbName, createdAt);
    TablesBlocks(ts, esc);
    ChecksOnBlock();
    BlockAppend(h, b);
    BlockAppend(h + b, ChecksOn);
  }

  // ---------------------------------------------------------------------
  // Reading the rows of an INSERT back
  // ---------------------------------------------------------------------

  /** Reads rows separated by ",\n" up to the ';' that closes the INSERT. */
  function ReadRows(t: string): (r: Option<Read<seq<seq<Value>>>>)
    ensures r.Some? ==> |r.value.rest| < |t|
    decreases |t|
  {
    match ReadRow(t)
    case None => None
    case Some(row) =>
      if |row.rest| >= 2 && row.rest[..2] == ",\n" then
        match ReadRows(row.rest[2..])
        case None => None
        case Some(more) => Some(Read([row.value] + more.value, more.rest))
      else if row.rest != [] && row.rest[0] == ';' then Some(Read([row.value], row.rest[1..]))
      else None
  }

  /** The rows of the INSERT of table `name`, as the database reads statement `q`. */
  function ReadInsert(name: string, q: string): Option<seq<seq<Value>>> {
    var h := InsertHead(name);
    if |q| < |h| || q[..|h|] != h then None
    else match ReadRows(q[|h|..])
      case None => None
      case Some(r) => if r.rest == "\n" then Some(r.value) else None
  }

  lemma ReadRowsLast(t: string, row: seq<Value>, rest: string)
    requires ReadRow(t) == Some(Read(row, ";" + rest))
    ensures ReadRows(t) == Some(Read([row], rest))
  {
    assert (";" + rest)[0] == ';' && (";" + rest)[1..] == rest;
  }

  lemma ReadRowsMore(t: string, row: seq<Value>, tail: string, rows: seq<seq<Value>>, rest: string)
    requires ReadRow(t) == Some(Read(row, ",\n" + tail))
    requires ReadRows(tail) == Some(Read(rows, rest))
    ensures ReadRows(t) == Some(Read([row] + rows, rest))
  {
    var u := ",\n" + tail;
    assert u[..2] == ",\n" && u[2..] == tail;
  }

  lemma RowsCons(rows: seq<seq<Value>>)
    requires rows != []
    ensures [rows[0]] + rows[1..] == rows
  {
  }

  /** The rows of an INSERT, closed by ';', read back as the rows they were written from, whatever follows. */
  lemma {:induction false} RowsReadBack(rows: seq<seq<Value>>, esc: Escaping, rest: string)
    requires rows != []
    ensures ReadRows(JoinWith(RowTexts(rows, esc), ",\n") + ";" + rest) == Some(Read(rows, rest))
    decreases |rows|
  {
    var rt := RowText(rows[0], esc);
    if |rows| == 1 {
      assert RowTexts(rows, esc) == [rt];
      RowReadsBack(rows[0], esc, ";" + rest);
      ReadRowsLast(rt + (";" + rest), rows[0], rest);
      assert rt + ";" + rest == rt + (";" + rest);
      assert [rows[0]] == rows;
    } else {
      var more := RowTexts(rows[1..], esc);
      var j := JoinWith(more, ",\n");
      var tail := j + ";" + rest;
      RowsReadBack(rows[1..], esc, rest);
      assert RowTexts(rows, esc) == [rt] + more;
      JoinWithCons(rt, more, ",\n");
      RowReadsBack(rows[0], esc, ",\n" + tail);
      ReadRowsMore(rt + (",\n" + tail), rows[0], tail, rows[1..], rest);
      Regroup(rt, ",\n", j, ";", rest);
      RowsCons(rows);
    }
  }

  /** Whatever the escaping, the INSERT statement reads back as the rows it was written from. */
  lemma InsertReadsBack(name: string, rows: seq<seq<Value>>, esc: Escaping)
    requires rows != []
    ensures ReadInsert(name, InsertStatement(name, rows, esc)) == Some(rows)
  {
    var h := InsertHead(name);
    var q := InsertStatement(name, rows, esc);
    var body := JoinWith(RowTexts(rows, esc), ",\n");
    assert q == h + (body + ";" + "\n");
    assert q[..|h|] == h && q[|h|..] == body + ";" + "\n";
    RowsReadBack(rows, esc, "\n");
  }

  lemma {:induction false} InsertAmongStatements(ts: seq<Table>, esc: Escaping, k: nat)
    requires k < |ts| && ts[k].rows != []
    ensures InsertStatement(ts[k].name, ts[k].rows, esc) in TablesStatements(ts, esc)
    decreases |ts|
  {
    var init := ts[..|ts| - 1];
    var q := InsertStatement(ts[k].name, ts[k].rows, esc);
    if k == |ts| - 1 {
      assert q == TableStatements(Last(ts), esc)[2];
    } else {
      assert ts[k] == init[k];
      InsertAmongStatements(init, esc, k);
    }
  }

  /**
   * The restore round trip: restoring a dump written with every value on
   * one line runs, for every table with rows, an INSERT that reads back as
   * exactly that table's rows.
   */
  lemma DumpRestoresRows(dbName: string, createdAt: string, ts: seq<Table>, esc: Escaping, k: nat)
    requires NoNewline(dbName) && NoNewline(createdAt)
    requires forall i :: 0 <= i < |ts| ==> TableReady(ts[i], esc)
    requires k < |ts| && ts[k].rows != []
    ensures exists q :: q in SplitQueries(DumpText(dbName, createdAt, ts, esc)) && ReadInsert(ts[k].name, q) == Some(ts[k].rows)
  {
    var q := InsertStatement(ts[k].name, ts[k].rows, esc);
    DumpRestoresStatements(dbName, createdAt, ts, esc);
    InsertAmongStatements(ts, esc, k);
    InsertReadsBack(ts[k].name, ts[k].rows, esc);
    assert q in DumpStatements(ts, esc);
  }

  // ---------------------------------------------------------------------
  // A value the source's escaping does not bring back
  // ---------------------------------------------------------------------

  /** Text without backslash, quote or newline is written as it is. */
  lemma {:induction false} EscapePlain(s: string, esc: Escaping)
    requires forall i :: 0 <= i < |s| ==> s[i] != '\\' && s[i] != '\'' && (esc == AsWritten || s[i] != '\n')
    ensures Escape(s, esc) == s
    decreases |s|
  {
    if s != [] {
      EscapePlain(s[1..], esc);
      ConsAppend(s, "");
      assert s[1..] + "" == s[1..] && s + "" == s;
    }
  }

  /** The INSERT of a table with one row of one value. */
  lemma SingleInsert(name: string, v: Value, esc: Escaping)
    ensures InsertText(name, [[v]], esc) == InsertHead(name) + ("(" + Literal(v, esc) + ")") + ";\n\n"
    ensures InsertStatement(name, [[v]], esc) == InsertHead(name) + ("(" + Literal(v, esc) + ")") + ";\n"
  {
    assert Literals([v], esc) == [Literal(v, esc)];
    assert RowTexts([[v]], esc) == [RowText([v], esc)];
  }

  lemma LinesCons(a: string, t: string, ls: seq<string>)
    requires NoNewline(a) && Lines(t) == ls
    ensures Lines(a + "\n" + t) == [a] + ls
  {
    LinesOfLine(a);
    LinesAround(a, t);
  }

  lemma LinesOfSix(a: string, b: string, c: string, d: string, e: string, f: string)
    requires NoNewline(a) && NoNewline(b) && NoNewline(c) && NoNewline(d) && NoNewline(e) && NoNewline(f)
    ensures Lines(a + "\n" + (b + "\n" + (c + "\n" + (d + "\n" + (e + "\n" + f))))) == [a, b, c, d, e, f]
  {
    var t4 := e + "\n" + f;
    var t3 := d + "\n" + t4;
    var t2 := c + "\n" + t3;
    var t1 := b + "\n" + t2;
    LinesOfLine(f);
    LinesCons(e, f, [f]);
    LinesCons(d, t4, [e, f]);
    LinesCons(c, t3, [d, e, f]);
    LinesCons(b, t2, [c, d, e, f]);
    LinesCons(a, t1, [b, c, d, e, f]);
  }

  /** The INSERT the source writes for one row holding a value with a blank line in it. */
  lemma LostInsertText()
    ensures InsertText("t", [[Str("\n\n")]], AsWritten)
      == InsertLine("t") + "\n" + ("('" + "\n" + ("" + "\n" + ("');" + "\n" + ("" + "\n" + ""))))
  {
    var lit := Literal(Str("\n\n"), AsWritten);
    EscapePlain("\n\n", AsWritten);
    SingleInsert("t", Str("\n\n"), AsWritten);
    HeadIsLine("t");
    LostRowText(lit);
    Append3(InsertLine("t") + "\n", "(" + lit + ")", ";\n\n");
  }

  lemma HeadIsLine(name: string)
    ensures InsertHead(name) == InsertLine(name) + "\n"
  {
    assert "` VALUES\n" == "` VALUES" + "\n";
    Append3("INSERT INTO `" + name, "` VALUES", "\n");
  }

  lemma LostRowText(lit: string)
    requires lit == "'" + "\n\n" + "'"
    ensures "(" + lit + ")" + ";\n\n" == "('" + "\n" + ("" + "\n" + ("');" + "\n" + ("" + "\n" + "")))
  {
  }

  lemma LostLines()
    ensures Lines(InsertText("t", [[Str("\n\n")]], AsWritten)) == [InsertLine("t"), "('", "", "');", "", ""]
  {
    LostInsertText();
    InsertLineFacts("t");
    LinesOfSix(InsertLine("t"), "('", "", "');", "", "");
  }

  lemma LostLineFacts()
    ensures !Skipped(InsertLine("t")) && !Terminates(InsertLine("t"))
    ensures !Skipped("('") && !Terminates("('")
    ensures !Skipped("');") && Terminates("');")
    ensures Skipped("")
  {
    InsertLineFacts("t");
    TightLine("('");
    TightLine("');");
  }

  lemma LostKept()
    ensures Kept([InsertLine("t"), "('", "", "');", "", ""]) == [InsertLine("t"), "('", "');"]
  {
    LostLineFacts();
    KeptSix(InsertLine("t"), "('", "", "');", "", "");
  }

  /** Six lines of which the third, fifth and sixth are skipped. */
  lemma KeptSix(a: string, b: string, c: string, d: string, e: string, f: string)
    requires !Skipped(a) && !Skipped(b) && Skipped(c) && !Skipped(d) && Skipped(e) && Skipped(f)
    ensures Kept([a, b, c, d, e, f]) == [a, b, d]
  {
    KeptBeforeSkipped([], a, b, c);
    KeptBeforeSkipped([a, b, c], d, e, f);
    assert [] + [a, b, c] == [a, b, c];
    assert [a, b, c] + [d, e, f] == [a, b, c, d, e, f];
  }

  /** Three lines after `p`, of which the first is kept and the other two are skipped,
    * or the first two are kept and the third is skipped. */
  lemma KeptBeforeSkipped(p: seq<string>, x: string, y: string, z: string)
    requires !Skipped(x) && Skipped(z)
    ensures Kept(p + [x, y, z]) == Kept(p) + [x] + (if Skipped(y) then [] else [y])
  {
    var px := p + [x];
    var pxy := px + [y];
    KeptSnocOne(p, x);
    KeptSnocOne(px, y);
    KeptSnocOne(pxy, z);
    assert pxy + [z] == p + [x, y, z];
  }

  lemma LostText()
    ensures Text([InsertLine("t"), "('", "');"]) == InsertStatement("t", [[Str("\n")]], AsWritten)
  {
    var h := InsertLine("t");
    TextJoin([h, "('", "');"]);
    JoinCons(h, ["('", "');"]);
    JoinCons("('", ["');"]);
    assert [h] + ["('", "');"] == [h, "('", "');"];
    assert ["('"] + ["');"] == ["('", "');"];
    EscapePlain("\n", AsWritten);
    SingleInsert("t", Str("\n"), AsWritten);
  }

  /**
   * With the source's escaping, a value made of two newlines comes back as
   * one: the blank line inside the quoted value is dropped by the splitter,
   * and the restore runs an INSERT whose row holds a single newline.
   */
  lemma NewlineValueLost()
    ensures var dumped := InsertText("t", [[Str("\n\n")]], AsWritten);
      && Block(dumped)
      && SplitQueries(dumped) == [InsertStatement("t", [[Str("\n")]], AsWritten)]
      && ReadInsert("t", InsertStatement("t", [[Str("\n")]], AsWritten)) == Some([[Str("\n")]])
  {
    LostGroups();
    LostText();
    LostEndsLine();
    InsertReadsBack("t", [[Str("\n")]], AsWritten);
  }

  /** The splitter sees one statement of three lines in the dumped INSERT. */
  lemma LostGroups()
    ensures Groups(Kept(Lines(InsertText("t", [[Str("\n\n")]], AsWritten))))
      == [[InsertLine("t"), "('", "');"]]
    ensures Terminates("');")
  {
    var g := [InsertLine("t"), "('", "');"];
    LostLines();
    LostKept();
    LostLineFacts();
    assert IsStatement(g);
    GroupsOfStatement(g);
  }

  lemma LostEndsLine()
    ensures var dumped := InsertText("t", [[Str("\n\n")]], AsWritten);
      dumped != [] && dumped[|dumped| - 1] == '\n'
  {
    LostInsertText();
  }
}
