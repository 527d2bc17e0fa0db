/**
 * The string primitives the dump splitter is built from: PHP's
 * `explode("\n", ...)`, its `implode`, and PHP's default `trim`.
 */
module SqlText {

  /** The characters PHP's `trim` strips by default: space, tab, newline, carriage return, NUL and vertical tab. */
  predicate IsSpace(c: char) {
    c == ' ' || c == '\t' || c == '\n' || c == '\r' || c == '\0' || c == '\U{000B}'
  }

  // ---------------------------------------------------------------------
  // explode / implode on "\n"
  // ---------------------------------------------------------------------

  /** `explode("\n", s)`: the pieces between the newlines of `s`; there is always at least one. */
  function Lines(s: string): (r: seq<string>)
    ensures |r| >= 1
  {
    if s == [] then [""]
    else
      var rest := Lines(s[1..]);
      if s[0] == '\n' then [""] + rest else [[s[0]] + rest[0]] + rest[1..]
  }

  /** `implode("\n", ls)`. */
  function Join(ls: seq<string>): string {
    if |ls| == 0 then ""
    else if |ls| == 1 then ls[0]
    else ls[0] + "\n" + Join(ls[1..])
  }

  predicate NoNewline(s: string) {
    forall i :: 0 <= i < |s| ==> s[i] != '\n'
  }

  predicate AllNoNewline(ls: seq<string>) {
    forall i :: 0 <= i < |ls| ==> NoNewline(ls[i])
  }

  /** Prepending a piece without newline extends the first line only. */
  lemma {:induction false} LinesPrefix(a: string, t: string)
    requires NoNewline(a)
    ensures Lines(a + t) == [a + Lines(t)[0]] + Lines(t)[1..]
    decreases |a|
  {
    if a != [] {
      assert (a + t)[1..] == a[1..] + t;
      LinesPrefix(a[1..], t);
      assert [a[0]] + (a[1..] + Lines(t)[0]) == a + Lines(t)[0];
    } else {
      assert a + t == t;
      assert Lines(t) == [Lines(t)[0]] + Lines(t)[1..];
      assert a + Lines(t)[0] == Lines(t)[0];
    }
  }

  lemma LinesOfLine(a: string)
    requires NoNewline(a)
    ensures Lines(a) == [a]
  {
    LinesPrefix(a, "");
    assert a + "" == a;
  }

  lemma LinesSplit(a: string, b: string)
    requires NoNewline(a)
    ensures Lines(a + "\n" + b) == [a] + Lines(b)
  {
    assert a + "\n" + b == a + ("\n" + b);
    LinesPrefix(a, "\n" + b);
    assert ("\n" + b)[1..] == b;
    assert a + "" == a;
  }

  /** No piece of `explode` contains the separator. */
  lemma {:induction false} LinesHaveNoNewline(s: string)
    ensures AllNoNewline(Lines(s))
    decreases |s|
  {
    if s != [] {
      LinesHaveNoNewline(s[1..]);
      var rest := Lines(s[1..]);
      if s[0] != '\n' {
        assert NoNewline(rest[0]);
        var first := [s[0]] + rest[0];
        assert forall i :: 1 <= i < |first| ==> first[i] == rest[0][i - 1];
      }
    }
  }

  /** `implode` undoes `explode`. */
  lemma {:induction false} JoinLines(s: string)
    ensures Join(Lines(s)) == s
    decreases |s|
  {
    if s != [] {
      JoinLines(s[1..]);
      var rest := Lines(s[1..]);
      if s[0] == '\n' {
        assert Lines(s) == [""] + rest;
        assert Lines(s)[1..] == rest;
        assert s == "\n" + s[1..];
      } else {
        var ls := Lines(s);
        assert ls == [[s[0]] + rest[0]] + rest[1..];
        if |rest| == 1 {
          assert s == [s[0]] + s[1..];
        } else {
          assert ls[1..] == rest[1..];
          assert Join(rest) == rest[0] + "\n" + Join(rest[1..]);
          assert s == [s[0]] + s[1..];
        }
      }
    }
  }

  /** `explode` undoes `implode` when no piece contains the separator. */
  lemma {:induction false} LinesJoin(ls: seq<string>)
    requires |ls| >= 1 && AllNoNewline(ls)
    ensures Lines(Join(ls)) == ls
    decreases |ls|
  {
    if |ls| == 1 {
      LinesOfLine(ls[0]);
    } else {
      LinesJoin(ls[1..]);
      LinesSplit(ls[0], Join(ls[1..]));
      assert ls == [ls[0]] + ls[1..];
    }
  }

  /** `explode` of a text that starts with the character `c`. */
  lemma LinesCons(c: char, t: string)
    ensures Lines([c] + t) == if c == '\n' then [""] + Lines(t) else [[c] + Lines(t)[0]] + Lines(t)[1..]
  {
    assert ([c] + t)[0] == c && ([c] + t)[1..] == t;
  }

  /** Splitting at a newline: the lines before it, then the lines after it. */
  lemma {:induction false} LinesAround(x: string, b: string)
    ensures Lines(x + "\n" + b) == Lines(x) + Lines(b)
    decreases |x|
  {
    if x == [] {
      assert x + "\n" + b == ['\n'] + b;
      LinesCons('\n', b);
    } else {
      LinesAround(x[1..], b);
      AroundStep(x[0], x[1..], b);
      assert x == [x[0]] + x[1..];
    }
  }

  lemma AroundStep(c: char, x: string, b: string)
    requires Lines(x + "\n" + b) == Lines(x) + Lines(b)
    ensures Lines([c] + x + "\n" + b) == Lines([c] + x) + Lines(b)
  {
    assert [c] + x + "\n" + b == [c] + (x + "\n" + b);
    LinesCons(c, x + "\n" + b);
    LinesCons(c, x);
    ConsLines(c, Lines(x), Lines(b));
  }

  /** How a leading character joins the first of the lines `r`, whatever lines `l` follow. */
  lemma ConsLines(c: char, r: seq<string>, l: seq<string>)
    requires |r| >= 1
    ensures (if c == '\n' then [""] + (r + l) else [[c] + (r + l)[0]] + (r + l)[1..])
      == (if c == '\n' then [""] + r else [[c] + r[0]] + r[1..]) + l
  {
    if c != '\n' {
      assert (r + l)[1..] == r[1..] + l;
    }
  }

  /** `implode` seen from the back. */
  lemma {:induction false} JoinSnoc(ls: seq<string>, x: string)
    requires ls != []
    ensures Join(ls + [x]) == Join(ls) + "\n" + x
    decreases |ls|
  {
    if |ls| == 1 {
      assert (ls + [x])[1..] == [x];
    } else {
      JoinSnoc(ls[1..], x);
      assert (ls + [x])[1..] == ls[1..] + [x];
    }
  }

  /** Text appended to the last piece ends up at the end of the joined text. */
  lemma {:induction false} JoinLastAppend(ls: seq<string>, y: string, suffix: string)
    ensures Join(ls + [y + suffix]) == Join(ls + [y]) + suffix
    decreases |ls|
  {
    if ls == [] {
      assert [] + [y + suffix] == [y + suffix];
      assert [] + [y] == [y];
    } else {
      JoinLastAppend(ls[1..], y, suffix);
      assert (ls + [y + suffix])[1..] == ls[1..] + [y + suffix];
      assert (ls + [y])[1..] == ls[1..] + [y];
    }
  }

  // ---------------------------------------------------------------------
  // trim
  // ---------------------------------------------------------------------

  function TrimLeft(s: string): (r: string)
    ensures |r| <= |s|
    decreases |s|
  {
    if s != [] && IsSpace(s[0]) then TrimLeft(s[1..]) else s
  }

  function TrimRight(s: string): (r: string)
    ensures |r| <= |s|
    decreases |s|
  {
    if s != [] && IsSpace(s[|s| - 1]) then TrimRight(s[..|s| - 1]) else s
  }

  /** `TrimLeft` drops a whitespace prefix and keeps the rest. */
  lemma {:induction false} TrimLeftFacts(s: string)
    ensures var r := TrimLeft(s);
      && |r| <= |s| && r == s[|s| - |r|..]
      && (forall i :: 0 <= i < |s| - |r| ==> IsSpace(s[i]))
      && (r != [] ==> !IsSpace(r[0]))
    decreases |s|
  {
    if s != [] && IsSpace(s[0]) {
      TrimLeftFacts(s[1..]);
    }
  }

  /** `TrimRight` drops a whitespace suffix and keeps the rest. */
  lemma {:induction false} TrimRightFacts(s: string)
    ensures var r := TrimRight(s);
      && |r| <= |s| && r == s[..|r|]
      && (forall i :: |r| <= i < |s| ==> IsSpace(s[i]))
      && (r != [] ==> !IsSpace(r[|r| - 1]))
    decreases |s|
  {
    if s != [] && IsSpace(s[|s| - 1]) {
      TrimRightFacts(s[..|s| - 1]);
    }
  }

  /** PHP's `trim` with its default character list. */
  function Trim(s: string): string {
    TrimRight(TrimLeft(s))
  }

  predicate AllSpace(s: string) {
    forall i :: 0 <= i < |s| ==> IsSpace(s[i])
  }

  /** `trim` keeps a slice of `s`, starting after the leading whitespace `TrimLeft` removed. */
  lemma TrimSlice(s: string)
    ensures var i := |s| - |TrimLeft(s)|;
      i + |Trim(s)| <= |s| && Trim(s) == s[i..i + |Trim(s)|]
  {
    var l := TrimLeft(s);
    TrimLeftFacts(s);
    TrimRightFacts(l);
    var i := |s| - |l|;
    var r := TrimRight(l);
    assert r == l[..|r|];
    assert l == s[i..];
    assert r == s[i..i + |r|];
  }

  /** Only whitespace lies around the slice `trim` keeps. */
  lemma TrimSurround(s: string)
    ensures var i := |s| - |TrimLeft(s)|;
      && (forall k :: 0 <= k < i ==> IsSpace(s[k]))
      && (forall k :: i + |Trim(s)| <= k < |s| ==> IsSpace(s[k]))
  {
    var l := TrimLeft(s);
    TrimLeftFacts(s);
    TrimRightFacts(l);
    var i := |s| - |l|;
    var r := TrimRight(l);
    forall k | i + |r| <= k < |s|
      ensures IsSpace(s[k])
    {
      assert s[k] == l[k - i];
    }
  }

  /** What `trim` keeps neither starts nor ends with whitespace. */
  lemma TrimEnds(s: string)
    ensures Trim(s) != [] ==> !IsSpace(Trim(s)[0]) && !IsSpace(Trim(s)[|Trim(s)| - 1])
  {
    var l := TrimLeft(s);
    TrimLeftFacts(s);
    TrimRightFacts(l);
    var r := TrimRight(l);
    if r != [] {
      assert r[0] == l[0];
    }
  }

  /** `trim` gives the empty string exactly when `s` is all whitespace. */
  lemma TrimEmpty(s: string)
    ensures Trim(s) == [] <==> AllSpace(s)
  {
    TrimSlice(s);
    TrimSurround(s);
    TrimEnds(s);
    TrimLeftFacts(s);
    var i := |s| - |TrimLeft(s)|;
    if Trim(s) != [] {
      assert s[i] == Trim(s)[0];
    }
  }

  /** A string that neither starts nor ends with whitespace is its own trim. */
  lemma TrimNoOp(s: string)
    requires s != [] && !IsSpace(s[0]) && !IsSpace(s[|s| - 1])
    ensures Trim(s) == s
  {
  }

  /** A string containing a character `trim` keeps does not trim to empty. */
  lemma TrimKeeps(s: string, k: int)
    requires 0 <= k < |s| && !IsSpace(s[k])
    ensures Trim(s) != ""
  {
    TrimEmpty(s);
  }

  /** A string starting with a prefix that neither starts nor ends with whitespace trims to a string with that prefix. */
  lemma TrimPrefix(p: string, q: string)
    requires p != [] && !IsSpace(p[0]) && !IsSpace(p[|p| - 1])
    ensures |Trim(p + q)| >= |p| && Trim(p + q)[..|p|] == p
  {
    var s := p + q;
    assert TrimLeft(s) == s;
    TrimRightFacts(s);
    assert s[|p| - 1] == p[|p| - 1];
    assert TrimRight(s)[..|p|] == s[..|p|] == p;
  }

  /** A string ending with a character `trim` keeps trims to a string ending with it. */
  lemma TrimSuffix(p: string, c: char)
    requires !IsSpace(c)
    ensures |Trim(p + [c])| >= 1 && Trim(p + [c])[|Trim(p + [c])| - 1] == c
  {
    var s := p + [c];
    var l := TrimLeft(s);
    TrimLeftFacts(s);
    assert s[|s| - 1] == c;
    assert |l| >= 1;
    assert l[|l| - 1] == s[|s| - 1];
    assert TrimRight(l) == l;
  }

  /** Appending ';' makes any line close a statement. */
  lemma SemicolonTerminates(p: string)
    ensures Terminates(p + ";")
  {
    TrimSuffix(p, ';');
  }

  /** A line starting with "--" is a comment line. */
  lemma CommentSkipped(line: string)
    requires CommentStart(line)
    ensures Skipped(line)
  {
    TrimPrefix(line[..2], line[2..]);
    assert line[..2] + line[2..] == line;
  }

  // ---------------------------------------------------------------------
  // The two line tests of the splitter
  // ---------------------------------------------------------------------

  /** `substr(trim($line), 0, 2) === '--' || trim($line) === ''`: a comment or blank line. */
  predicate Skipped(line: string) {
    var t := Trim(line);
    CommentStart(t) || |t| == 0
  }

  /** The text starts with "--". */
  predicate CommentStart(s: string) {
    |s| >= 2 && s[0] == '-' && s[1] == '-'
  }

  /** `substr(trim($line), -1) === ';'`: the line closes a statement. */
  predicate Terminates(line: string) {
    var t := Trim(line);
    |t| >= 1 && t[|t| - 1] == ';'
  }

  /** A line without surrounding whitespace is skipped exactly when it is empty or starts with "--",
    * and terminates exactly when it ends with ';'. */
  lemma TightLine(line: string)
    requires line != [] && !IsSpace(line[0]) && !IsSpace(line[|line| - 1])
    ensures Skipped(line) <==> CommentStart(line)
    ensures Terminates(line) <==> line[|line| - 1] == ';'
  {
    TrimNoOp(line);
  }

  // ---------------------------------------------------------------------
  // Regrouping concatenations
  // ---------------------------------------------------------------------

  lemma Append3<T>(a: seq<T>, b: seq<T>, c: seq<T>)
    ensures a + b + c == a + (b + c)
  {
  }

  lemma Append4<T>(a: seq<T>, b: seq<T>, c: seq<T>, d: seq<T>)
    ensures a + b + c + d == a + (b + c + d)
  {
  }
}
