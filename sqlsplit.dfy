/**
 * The restore side of a dump: `splitSqlQueries` cuts the text of a `.sql`
 * file into the statements that the restore then hands to the database one by one.
 *
 * The splitter drops blank and `--` comment lines, accumulates the other
 * lines (each followed by "\n") and closes a statement at every line whose
 * trimmed form ends with ';'. The model states this through three
 * functions of the input lines: the kept lines (`Kept`), their grouping
 * into statements (`Groups`), and the text of a group (`Text`).
 */
module SqlSplit {
  import opened SqlText

  function Last<T>(s: seq<T>): T
    requires |s| > 0
  {
    s[|s| - 1]
  }

  /** The lines the splitter does not skip, in input order. */
  function Kept(lines: seq<string>): seq<string> {
    if lines == [] then []
    else Kept(lines[..|lines| - 1]) + (if Skipped(Last(lines)) then [] else [Last(lines)])
  }

  /** The last statement is still open: its last line does not end with ';'. */
  predicate OpenEnd(gs: seq<seq<string>>) {
    gs != [] && Last(gs) != [] && !Terminates(Last(Last(gs)))
  }

  /**
   * The kept lines grouped into statements: a line joins the open statement
   * if there is one and starts a new statement otherwise.
   */
  function Groups(ls: seq<string>): seq<seq<string>> {
    if ls == [] then []
    else
      var gs := Groups(ls[..|ls| - 1]);
      if OpenEnd(gs) then gs[..|gs| - 1] + [Last(gs) + [Last(ls)]] else gs + [[Last(ls)]]
  }

  /** The text of a statement: each of its lines followed by "\n". */
  function Text(g: seq<string>): string {
    if g == [] then "" else Text(g[..|g| - 1]) + Last(g) + "\n"
  }

  function Texts(gs: seq<seq<string>>): (r: seq<string>)
    ensures |r| == |gs| && forall i :: 0 <= i < |gs| ==> r[i] == Text(gs[i])
  {
    if gs == [] then [] else [Text(gs[0])] + Texts(gs[1..])
  }

  /** The statements `splitSqlQueries` returns for `sql`. */
  function SplitQueries(sql: string): seq<string> {
    Texts(Groups(Kept(Lines(sql))))
  }

  function Flatten(gs: seq<seq<string>>): seq<string> {
    if gs == [] then [] else Flatten(gs[..|gs| - 1]) + Last(gs)
  }

  function Concat(qs: seq<string>): string {
    if qs == [] then "" else Concat(qs[..|qs| - 1]) + Last(qs)
  }

  /** A well-formed statement: non-empty, and no line before its last one ends with ';'. */
  predicate IsStatement(g: seq<string>) {
    g != [] && forall i :: 0 <= i < |g| - 1 ==> !Terminates(g[i])
  }

  /** A partition of lines into statements where every statement but the last is closed. */
  predicate IsStatementList(gs: seq<seq<string>>) {
    && (forall j :: 0 <= j < |gs| ==> IsStatement(gs[j]))
    && (forall j :: 0 <= j < |gs| - 1 ==> Terminates(Last(gs[j])))
  }

  // ---------------------------------------------------------------------
  // The splitter loop
  // ---------------------------------------------------------------------

  lemma TextSnoc(g: seq<string>, l: string)
    ensures Text(g + [l]) == Text(g) + l + "\n"
  {
    assert (g + [l])[..|g|] == g;
  }

  lemma TextsSnoc(gs: seq<seq<string>>, g: seq<string>)
    ensures Texts(gs + [g]) == Texts(gs) + [Text(g)]
  {
  }

  lemma KeptSnoc(lines: seq<string>, k: nat)
    requires k < |lines|
    ensures Kept(lines[..k + 1]) == Kept(lines[..k]) + (if Skipped(lines[k]) then [] else [lines[k]])
  {
    assert lines[..k + 1][..k] == lines[..k];
  }

  lemma KeptSnocOne(init: seq<string>, x: string)
    ensures Kept(init + [x]) == Kept(init) + (if Skipped(x) then [] else [x])
  {
    assert (init + [x])[..|init|] == init;
  }

  lemma GroupsSnoc(ls: seq<string>, l: string)
    ensures var gs := Groups(ls);
      Groups(ls + [l]) == if OpenEnd(gs) then gs[..|gs| - 1] + [Last(gs) + [l]] else gs + [[l]]
  {
    assert (ls + [l])[..|ls|] == ls;
  }

  /** What the loop holds after the lines `lines[..k]`: closed statements and the open one. */
  predicate LoopState(queries: seq<string>, current: string, gs: seq<seq<string>>) {
    if OpenEnd(gs) then queries == Texts(gs[..|gs| - 1]) && current == Text(Last(gs))
    else queries == Texts(gs) && current == ""
  }

  /** A skipped line leaves the statements and the open statement as they are. */
  lemma SkipStep(lines: seq<string>, k: nat)
    requires k < |lines| && Skipped(lines[k])
    ensures Groups(Kept(lines[..k + 1])) == Groups(Kept(lines[..k]))
  {
    KeptSnoc(lines, k);
    assert Kept(lines[..k]) + [] == Kept(lines[..k]);
  }

  /** A kept line joins the open statement, or opens one, and a line ending with ';' closes it. */
  lemma KeepStep(lines: seq<string>, k: nat, queries: seq<string>, current: string)
    requires k < |lines| && !Skipped(lines[k])
    requires LoopState(queries, current, Groups(Kept(lines[..k])))
    ensures var current' := current + lines[k] + "\n";
      var gs' := Groups(Kept(lines[..k + 1]));
      if Terminates(lines[k]) then LoopState(queries + [current'], "", gs')
      else LoopState(queries, current', gs')
  {
    var ls, line := Kept(lines[..k]), lines[k];
    KeptSnoc(lines, k);
    assert Kept(lines[..k + 1]) == ls + [line];
    KeepLine(ls, line, queries, current);
    LastLineState(Groups(ls + [line]), queries, current + line + "\n");
  }

  /** After a kept line, `current` is the text of the last statement, which ends with that line. */
  lemma KeepLine(ls: seq<string>, line: string, queries: seq<string>, current: string)
    requires LoopState(queries, current, Groups(ls))
    ensures var gs' := Groups(ls + [line]);
      && gs' != [] && Last(gs') != [] && Last(Last(gs')) == line
      && queries == Texts(gs'[..|gs'| - 1]) && current + line + "\n" == Text(Last(gs'))
  {
    var gs := Groups(ls);
    GroupsSnoc(ls, line);
    var gs' := Groups(ls + [line]);
    if OpenEnd(gs) {
      TextSnoc(Last(gs), line);
      assert gs'[..|gs'| - 1] == gs[..|gs| - 1];
    } else {
      TextSnoc([], line);
      assert gs'[..|gs'| - 1] == gs;
    }
  }

  /** The loop state after the last statement grew by one line, closed or not. */
  lemma LastLineState(gs: seq<seq<string>>, queries: seq<string>, current: string)
    requires gs != [] && Last(gs) != []
    requires queries == Texts(gs[..|gs| - 1]) && current == Text(Last(gs))
    ensures if Terminates(Last(Last(gs))) then LoopState(queries + [current], "", gs)
      else LoopState(queries, current, gs)
  {
    if Terminates(Last(Last(gs))) {
      TextsSnoc(gs[..|gs| - 1], Last(gs));
      assert gs == gs[..|gs| - 1] + [Last(gs)];
    }
  }

  /** After the last line, an open statement is not blank, so the final `trim` test keeps it. */
  lemma FinalStep(lines: seq<string>, queries: seq<string>, current: string)
    requires LoopState(queries, current, Groups(Kept(lines)))
    ensures Trim(current) != "" ==> queries + [current] == Texts(Groups(Kept(lines)))
    ensures Trim(current) == "" ==> queries == Texts(Groups(Kept(lines)))
  {
    var gs := Groups(Kept(lines));
    if OpenEnd(gs) {
      GroupsLastLine(Kept(lines));
      KeptLines(lines);
      assert Last(Kept(lines)) in Kept(lines);
      OpenTextNotBlank(Last(gs));
      TextsSnoc(gs[..|gs| - 1], Last(gs));
      assert gs == gs[..|gs| - 1] + [Last(gs)];
    }
  }

  /**
   * splitSqlQueries: the returned statements are the texts of the statement
   * groups of the kept lines.
   */
  method SplitSqlQueries(sql: string) returns (queries: seq<string>)
    ensures queries == SplitQueries(sql)
  {
    queries := [];
    var current := "";
    var lines := Lines(sql);
    var k := 0;
    while k < |lines|
      invariant 0 <= k <= |lines|
      invariant LoopState(queries, current, Groups(Kept(lines[..k])))
    {
      var line := lines[k];
      if Skipped(line) {
        SkipStep(lines, k);
      } else {
        KeepStep(lines, k, queries, current);
        current := current + line + "\n";
        if Terminates(line) {
          queries := queries + [current];
          current := "";
        }
      }
      k := k + 1;
    }
    assert lines[..k] == lines;
    FinalStep(lines, queries, current);
    if Trim(current) != "" {
      queries := queries + [current];
    }
  }

  // ---------------------------------------------------------------------
  // Kept lines
  // ---------------------------------------------------------------------

  /** `Kept` keeps exactly the non-skipped lines. */
  lemma {:induction false} KeptLines(lines: seq<string>)
    ensures forall l :: l in Kept(lines) <==> l in lines && !Skipped(l)
    decreases |lines|
  {
    if lines != [] {
      KeptLines(lines[..|lines| - 1]);
      assert lines == lines[..|lines| - 1] + [Last(lines)];
    }
  }

  /** ... and keeps their order: `Kept` distributes over concatenation. */
  lemma {:induction false} KeptAppend(a: seq<string>, b: seq<string>)
    ensures Kept(a + b) == Kept(a) + Kept(b)
    decreases |b|
  {
    if b == [] {
      assert a + b == a;
    } else {
      var b', x := b[..|b| - 1], Last(b);
      KeptAppend(a, b');
      KeptAppendStep(a, b', x);
      assert b == b' + [x];
    }
  }

  lemma KeptAppendStep(a: seq<string>, b: seq<string>, x: string)
    requires Kept(a + b) == Kept(a) + Kept(b)
    ensures Kept(a + (b + [x])) == Kept(a) + Kept(b + [x])
  {
    var kx := if Skipped(x) then [] else [x];
    assert Kept(a + (b + [x])) == Kept(a + b) + kx by {
      assert a + (b + [x]) == (a + b) + [x];
      KeptSnocOne(a + b, x);
    }
    KeptSnocOne(b, x);
    Append3(Kept(a), Kept(b), kx);
  }

  // ---------------------------------------------------------------------
  // Statement groups
  // ---------------------------------------------------------------------

  lemma {:induction false} GroupsLastLine(ls: seq<string>)
    ensures |Groups(ls)| == 0 <==> ls == []
    ensures ls != [] ==> Last(Groups(ls)) != [] && Last(Last(Groups(ls))) == Last(ls)
    decreases |ls|
  {
    if ls != [] {
      GroupsLastLine(ls[..|ls| - 1]);
    }
  }

  /** The statements, put back together, are exactly the kept lines. */
  lemma {:induction false} GroupsFlatten(ls: seq<string>)
    ensures Flatten(Groups(ls)) == ls
    decreases |ls|
  {
    if ls != [] {
      var init := ls[..|ls| - 1];
      GroupsFlatten(init);
      var gs := Groups(init);
      if OpenEnd(gs) {
        var front := gs[..|gs| - 1];
        assert gs == front + [Last(gs)];
        assert Flatten(gs) == Flatten(front) + Last(gs);
        var gs' := front + [Last(gs) + [Last(ls)]];
        assert gs'[..|gs'| - 1] == front;
        assert Flatten(gs') == Flatten(front) + (Last(gs) + [Last(ls)]);
      } else {
        var gs' := gs + [[Last(ls)]];
        assert gs'[..|gs'| - 1] == gs;
      }
      assert ls == init + [Last(ls)];
    }
  }

  /**
   * Every statement is non-empty, only its last line may end with ';', and
   * every statement except possibly the last one does end with such a line.
   */
  lemma {:induction false} GroupsAreStatements(ls: seq<string>)
    ensures IsStatementList(Groups(ls))
    decreases |ls|
  {
    if ls != [] {
      var init := ls[..|ls| - 1];
      GroupsAreStatements(init);
      var gs := Groups(init);
      var l := Last(ls);
      if OpenEnd(gs) {
        var g := Last(gs) + [l];
        assert g[..|g| - 1] == Last(gs);
        var gs' := gs[..|gs| - 1] + [g];
        forall j | 0 <= j < |gs'|
          ensures IsStatement(gs'[j])
        {
          if j < |gs'| - 1 {
            assert gs'[j] == gs[j];
          }
        }
        forall j | 0 <= j < |gs'| - 1
          ensures Terminates(Last(gs'[j]))
        {
          assert gs'[j] == gs[j];
        }
      } else {
        var gs' := gs + [[l]];
        forall j | 0 <= j < |gs'| - 1
          ensures Terminates(Last(gs'[j]))
        {
          if j == |gs| - 1 {
            GroupsLastLine(init);
          }
        }
      }
    }
  }

  /** Adding one closed statement after a closed prefix adds exactly that statement. */
  lemma {:induction false} GroupsAppendStatement(a: seq<string>, g: seq<string>)
    requires !OpenEnd(Groups(a)) && IsStatement(g)
    ensures Groups(a + g) == Groups(a) + [g]
    decreases |g|
  {
    var g', l := g[..|g| - 1], Last(g);
    assert g == g' + [l];
    if |g| == 1 {
      assert g == [l];
      StatementOfOneLine(a, l);
    } else {
      assert IsStatement(g') by {
        forall i | 0 <= i < |g'| - 1
          ensures !Terminates(g'[i])
        {
          assert g'[i] == g[i];
        }
      }
      GroupsAppendStatement(a, g');
      assert Last(g') == g[|g| - 2];
      StatementGrows(a, g', l);
    }
  }

  lemma StatementOfOneLine(a: seq<string>, l: string)
    requires !OpenEnd(Groups(a))
    ensures Groups(a + [l]) == Groups(a) + [[l]]
  {
    GroupsStep(a, l);
  }

  /** A line after an open last statement joins it. */
  lemma StatementGrows(a: seq<string>, g: seq<string>, l: string)
    requires !OpenEnd(Groups(a)) && g != [] && !Terminates(Last(g))
    requires Groups(a + g) == Groups(a) + [g]
    ensures Groups(a + (g + [l])) == Groups(a) + [g + [l]]
  {
    assert a + (g + [l]) == (a + g) + [l];
    GroupsStep(a + g, l);
    AddLineAfter(Groups(a), [g], l);
    assert OpenEnd([g]);
  }

  /** One line added to a grouping: it joins the open statement, or starts a new one. */
  function AddLine(gs: seq<seq<string>>, l: string): seq<seq<string>> {
    if OpenEnd(gs) then gs[..|gs| - 1] + [Last(gs) + [l]] else gs + [[l]]
  }

  lemma GroupsStep(ls: seq<string>, l: string)
    ensures Groups(ls + [l]) == AddLine(Groups(ls), l)
  {
    GroupsSnoc(ls, l);
  }

  /** Behind a closed prefix, a line is added as if the prefix were not there. */
  lemma AddLineAfter(ga: seq<seq<string>>, gb: seq<seq<string>>, l: string)
    requires !OpenEnd(ga)
    ensures AddLine(ga + gb, l) == ga + AddLine(gb, l)
  {
    if gb == [] {
      assert ga + gb == ga;
    } else {
      assert Last(ga + gb) == Last(gb);
      assert (ga + gb)[..|ga + gb| - 1] == ga + gb[..|gb| - 1];
    }
  }

  /** After a closed prefix, the statements of the rest are formed as if it stood alone. */
  lemma {:induction false} GroupsAppend(a: seq<string>, b: seq<string>)
    requires !OpenEnd(Groups(a))
    ensures Groups(a + b) == Groups(a) + Groups(b)
    decreases |b|
  {
    if b == [] {
      assert a + b == a;
    } else {
      var b', l := b[..|b| - 1], Last(b);
      calc {
        Groups(a + b);
        { assert a + b == (a + b') + [l]; }
        Groups((a + b') + [l]);
        { GroupsStep(a + b', l); }
        AddLine(Groups(a + b'), l);
        { GroupsAppend(a, b'); }
        AddLine(Groups(a) + Groups(b'), l);
        { AddLineAfter(Groups(a), Groups(b'), l); }
        Groups(a) + AddLine(Groups(b'), l);
        { GroupsStep(b', l); assert b == b' + [l]; }
        Groups(a) + Groups(b);
      }
    }
  }

  lemma OpenEndAppend(ga: seq<seq<string>>, gb: seq<seq<string>>)
    requires !OpenEnd(ga)
    ensures OpenEnd(ga + gb) == OpenEnd(gb)
  {
    if gb == [] {
      assert ga + gb == ga;
    } else {
      assert Last(ga + gb) == Last(gb);
    }
  }

  /** Lines that are all kept are kept unchanged. */
  lemma {:induction false} KeptAll(ls: seq<string>)
    requires forall i :: 0 <= i < |ls| ==> !Skipped(ls[i])
    ensures Kept(ls) == ls
    decreases |ls|
  {
    if ls != [] {
      KeptAll(ls[..|ls| - 1]);
      assert ls[..|ls| - 1] + [Last(ls)] == ls;
    }
  }

  /** Lines that are all skipped leave nothing. */
  lemma {:induction false} KeptNone(ls: seq<string>)
    requires forall i :: 0 <= i < |ls| ==> Skipped(ls[i])
    ensures Kept(ls) == []
    decreases |ls|
  {
    if ls != [] {
      KeptNone(ls[..|ls| - 1]);
    }
  }

  lemma TextsAppend(a: seq<seq<string>>, b: seq<seq<string>>)
    ensures Texts(a + b) == Texts(a) + Texts(b)
  {
  }

  /**
   * The grouping is the only statement list for its lines: any list of
   * statements, each closed except possibly the last, is the grouping of its
   * own lines.
   */
  lemma {:induction false} GroupsUnique(gs: seq<seq<string>>)
    requires IsStatementList(gs)
    ensures Groups(Flatten(gs)) == gs
    decreases |gs|
  {
    if gs != [] {
      var front, g := gs[..|gs| - 1], Last(gs);
      StatementListFront(gs);
      GroupsUnique(front);
      assert gs == front + [g];
      calc {
        Groups(Flatten(gs));
        Groups(Flatten(front) + g);
        { GroupsAppendStatement(Flatten(front), g); }
        Groups(Flatten(front)) + [g];
        front + [g];
      }
    }
  }

  /** Dropping the last statement of a statement list leaves a closed statement list. */
  lemma StatementListFront(gs: seq<seq<string>>)
    requires IsStatementList(gs) && gs != []
    ensures IsStatementList(gs[..|gs| - 1]) && !OpenEnd(gs[..|gs| - 1]) && IsStatement(Last(gs))
  {
    var front := gs[..|gs| - 1];
    forall j | 0 <= j < |front|
      ensures IsStatement(front[j]) && (j < |front| - 1 ==> Terminates(Last(front[j])))
    {
      assert front[j] == gs[j];
    }
    if front != [] {
      assert Last(front) == gs[|gs| - 2];
    }
  }

  // ---------------------------------------------------------------------
  // Statement texts
  // ---------------------------------------------------------------------

  lemma {:induction false} TextAppend(a: seq<string>, b: seq<string>)
    ensures Text(a + b) == Text(a) + Text(b)
    decreases |b|
  {
    if b == [] {
      assert a + b == a;
    } else {
      var b', x := b[..|b| - 1], Last(b);
      TextAppend(a, b');
      TextAppendStep(a, b', x);
      assert b == b' + [x];
    }
  }

  lemma TextAppendStep(a: seq<string>, b: seq<string>, x: string)
    requires Text(a + b) == Text(a) + Text(b)
    ensures Text(a + (b + [x])) == Text(a) + Text(b + [x])
  {
    assert Text(a + (b + [x])) == Text(a + b) + x + "\n" by {
      assert a + (b + [x]) == (a + b) + [x];
      TextSnoc(a + b, x);
    }
    TextSnoc(b, x);
    Append4(Text(a), Text(b), x, "\n");
  }


  /** Concatenating the statement texts gives the text of all their lines. */
  lemma {:induction false} ConcatTexts(gs: seq<seq<string>>)
    ensures Concat(Texts(gs)) == Text(Flatten(gs))
    decreases |gs|
  {
    if gs != [] {
      var front := gs[..|gs| - 1];
      ConcatTexts(front);
      assert Texts(gs)[..|gs| - 1] == Texts(front);
      TextAppend(Flatten(front), Last(gs));
    }
  }

  /** A statement whose last line is not skipped is not blank after trimming. */
  lemma OpenTextNotBlank(g: seq<string>)
    requires g != [] && !Skipped(Last(g))
    ensures Trim(Text(g)) != ""
  {
    var l := Last(g);
    TrimEmpty(l);
    var k :| 0 <= k < |l| && !IsSpace(l[k]);
    var front := Text(g[..|g| - 1]);
    assert Text(g) == front + l + "\n";
    assert Text(g)[|front| + k] == l[k];
    TrimKeeps(Text(g), |front| + k);
  }

  /** The text of a statement, split on "\n" again, gives back its lines and a final empty piece. */
  lemma {:induction false} LinesOfText(g: seq<string>)
    requires AllNoNewline(g)
    ensures Lines(Text(g)) == g + [""]
    decreases |g|
  {
    if g == [] {
    } else {
      TextsHead(g);
      LinesOfText(g[1..]);
      LinesSplit(g[0], Text(g[1..]));
      assert g == [g[0]] + g[1..];
    }
  }

  lemma TextsHead(g: seq<string>)
    requires g != []
    ensures Text(g) == g[0] + "\n" + Text(g[1..])
  {
    TextAppend([g[0]], g[1..]);
    assert [g[0]] + g[1..] == g;
    assert Text([g[0]]) == Text([]) + g[0] + "\n";
  }

  // ---------------------------------------------------------------------
  // What the returned statements are
  // ---------------------------------------------------------------------

  /** Put back together, the statements are the kept lines, each followed by "\n", in input order. */
  lemma QueriesConcat(sql: string)
    ensures Concat(SplitQueries(sql)) == Text(Kept(Lines(sql)))
  {
    ConcatTexts(Groups(Kept(Lines(sql))));
    GroupsFlatten(Kept(Lines(sql)));
  }

  /** No statement is blank after trimming, and no line of any statement is blank or a comment. */
  lemma QueriesNotBlank(sql: string)
    ensures forall q :: q in SplitQueries(sql) ==> Trim(q) != ""
  {
    var ks := Kept(Lines(sql));
    var gs := Groups(ks);
    GroupsAreStatements(ks);
    GroupsMembers(ks);
    KeptLines(Lines(sql));
    forall q | q in SplitQueries(sql)
      ensures Trim(q) != ""
    {
      var j :| 0 <= j < |gs| && q == Text(gs[j]);
      assert Last(gs[j]) in gs[j];
      OpenTextNotBlank(gs[j]);
    }
  }

  lemma {:induction false} GroupsMembers(ls: seq<string>)
    ensures forall j, l :: 0 <= j < |Groups(ls)| && l in Groups(ls)[j] ==> l in ls
    decreases |ls|
  {
    if ls != [] {
      var init := ls[..|ls| - 1];
      GroupsMembers(init);
      assert forall l :: l in init ==> l in ls;
      var gs := Groups(init);
      if OpenEnd(gs) {
        var gs' := gs[..|gs| - 1] + [Last(gs) + [Last(ls)]];
        forall j, l | 0 <= j < |gs'| && l in gs'[j]
          ensures l in ls
        {
          if j < |gs'| - 1 {
            assert gs'[j] == gs[j];
          }
        }
      }
    }
  }

  lemma MemberNoNewline(ls: seq<string>, l: string)
    requires AllNoNewline(ls) && l in ls
    ensures NoNewline(l)
  {
  }

  /** Read back as lines, a statement is its group of kept lines followed by the final empty piece. */
  lemma QueryLines(sql: string, j: nat)
    requires j < |SplitQueries(sql)|
    ensures Lines(SplitQueries(sql)[j]) == Groups(Kept(Lines(sql)))[j] + [""]
  {
    var ks := Kept(Lines(sql));
    var g := Groups(ks)[j];
    GroupsMembers(ks);
    KeptLines(Lines(sql));
    LinesHaveNoNewline(sql);
    forall i | 0 <= i < |g|
      ensures NoNewline(g[i])
    {
      assert g[i] in g;
      MemberNoNewline(Lines(sql), g[i]);
    }
    LinesOfText(g);
  }

  /**
   * Read back as lines, every statement is a non-empty run of kept input
   * lines followed by the final empty piece; only its last line ends with
   * ';', and every statement but the last does end with such a line.
   */
  lemma QueryIsStatement(sql: string, j: nat)
    requires j < |SplitQueries(sql)|
    ensures var ls := Lines(SplitQueries(sql)[j]);
      && |ls| >= 2 && ls[|ls| - 1] == ""
      && (forall i :: 0 <= i < |ls| - 1 ==> ls[i] in Lines(sql) && !Skipped(ls[i]))
      && (forall i :: 0 <= i < |ls| - 2 ==> !Terminates(ls[i]))
      && (j < |SplitQueries(sql)| - 1 ==> Terminates(ls[|ls| - 2]))
  {
    var ks := Kept(Lines(sql));
    var g := Groups(ks)[j];
    QueryLines(sql, j);
    GroupsAreStatements(ks);
    GroupsMembers(ks);
    KeptLines(Lines(sql));
    var ls := Lines(SplitQueries(sql)[j]);
    forall i | 0 <= i < |ls| - 1
      ensures ls[i] in Lines(sql) && !Skipped(ls[i])
    {
      assert ls[i] == g[i] && g[i] in g;
    }
  }

  /** Empty input, and input made only of blank and comment lines, yields no statement. */
  lemma NothingToRun(sql: string)
    requires forall l :: l in Lines(sql) ==> Skipped(l)
    ensures SplitQueries(sql) == []
  {
    KeptLines(Lines(sql));
    if Kept(Lines(sql)) != [] {
      assert Kept(Lines(sql))[0] in Kept(Lines(sql));
    }
  }

  lemma EmptyInput()
    ensures SplitQueries("") == []
  {
    assert Lines("") == [""];
    assert Skipped("");
    NothingToRun("");
  }
}
