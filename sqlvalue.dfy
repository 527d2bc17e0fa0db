/**
 * How the dump writes one column value, and how MySQL reads it back.
 *
 * A non-null value goes through `str_replace(['\\', "'"], ['\\\\', "\'"], $value)`
 * and is wrapped in single quotes; a null value becomes the bare word NULL.
 * The reader agrees with MySQL's reading of a quoted string on the escapes
 * the dump writes (backslash-backslash, backslash-quote and backslash-n):
 * a backslash takes the next character literally, except that backslash-n
 * stands for a newline. MySQL's other escapes (backslash-0, -b, -r, -t,
 * -Z, the kept backslash before % and _, and a doubled quote) never occur
 * in the dump and are not modelled.
 */
module SqlValue {
  import opened Wrappers
  import opened SqlText

  datatype Value = Null | Str(s: string)

  /**
   * The escaping the dump applies. `AsWritten` is the source's
   * `str_replace`; `NewlineSafe` additionally writes a newline as
   * backslash-n, so that no value spreads over several lines of the dump.
   */
  datatype Escaping = AsWritten | NewlineSafe

  // ---------------------------------------------------------------------
  // str_replace and the escaping it performs
  // ---------------------------------------------------------------------

  /** `str_replace($c, $t, $s)` for a single character `c`. */
  function ReplaceAll(s: string, c: char, t: string): string {
    if s == [] then [] else (if s[0] == c then t else [s[0]]) + ReplaceAll(s[1..], c, t)
  }

  /**
   * `str_replace` with arrays: one full pass per search string, in order,
   * each pass working on the result of the previous one.
   */
  function StrReplace(v: string, esc: Escaping): string {
    var once := ReplaceAll(ReplaceAll(v, '\\', "\\\\"), '\'', "\\'");
    if esc == AsWritten then once else ReplaceAll(once, '\n', "\\n")
  }

  /** The escape of one character. */
  function EscapeChar(c: char, esc: Escaping): string {
    if c == '\\' then "\\\\"
    else if c == '\'' then "\\'"
    else if c == '\n' && esc == NewlineSafe then "\\n"
    else [c]
  }

  /** Character-by-character escaping: the reference the passes of `str_replace` are compared with. */
  function Escape(s: string, esc: Escaping): string {
    if s == [] then [] else EscapeChar(s[0], esc) + Escape(s[1..], esc)
  }

  lemma {:induction false} ReplaceAllAppend(a: string, b: string, c: char, t: string)
    ensures ReplaceAll(a + b, c, t) == ReplaceAll(a, c, t) + ReplaceAll(b, c, t)
    decreases |a|
  {
    if a == [] {
      assert a + b == b;
    } else {
      ReplaceAllAppend(a[1..], b, c, t);
      assert (a + b)[1..] == a[1..] + b;
    }
  }

  lemma StrReplaceAppend(a: string, b: string, esc: Escaping)
    ensures StrReplace(a + b, esc) == StrReplace(a, esc) + StrReplace(b, esc)
  {
    ReplaceAllAppend(a, b, '\\', "\\\\");
    var a1, b1 := ReplaceAll(a, '\\', "\\\\"), ReplaceAll(b, '\\', "\\\\");
    ReplaceAllAppend(a1, b1, '\'', "\\'");
    var a2, b2 := ReplaceAll(a1, '\'', "\\'"), ReplaceAll(b1, '\'', "\\'");
    ReplaceAllAppend(a2, b2, '\n', "\\n");
  }

  lemma ReplaceAllOne(c: char, d: char, t: string)
    ensures ReplaceAll([c], d, t) == if c == d then t else [c]
  {
    assert [c][1..] == [];
  }

  lemma ReplaceAllTwo(c: char, e: char, d: char, t: string)
    requires c != d && e != d
    ensures ReplaceAll([c, e], d, t) == [c, e]
  {
    ReplaceAllAppend([c], [e], d, t);
    ReplaceAllOne(c, d, t);
    ReplaceAllOne(e, d, t);
    assert [c] + [e] == [c, e];
  }

  lemma StrReplaceChar(c: char, esc: Escaping)
    ensures StrReplace([c], esc) == EscapeChar(c, esc)
  {
    ReplaceAllOne(c, '\\', "\\\\");
    if c == '\\' {
      ReplaceAllTwo('\\', '\\', '\'', "\\'");
      ReplaceAllTwo('\\', '\\', '\n', "\\n");
    } else if c == '\'' {
      ReplaceAllOne(c, '\'', "\\'");
      ReplaceAllTwo('\\', '\'', '\n', "\\n");
    } else {
      ReplaceAllOne(c, '\'', "\\'");
      ReplaceAllOne(c, '\n', "\\n");
    }
  }

  /**
   * The sequential passes of `str_replace` escape each character once: the
   * backslash the quote pass inserts is not escaped again.
   */
  lemma {:induction false} StrReplaceIsEscape(v: string, esc: Escaping)
    ensures StrReplace(v, esc) == Escape(v, esc)
    decreases |v|
  {
    if v != [] {
      StrReplaceIsEscape(v[1..], esc);
      StrReplaceAppend([v[0]], v[1..], esc);
      StrReplaceChar(v[0], esc);
      assert [v[0]] + v[1..] == v;
    } else {
      assert ReplaceAll(v, '\\', "\\\\") == [];
    }
  }

  /** With `NewlineSafe`, or for a value without newline, the escaped text has no newline. */
  lemma {:induction false} EscapeNoNewline(s: string, esc: Escaping)
    requires esc == NewlineSafe || NoNewline(s)
    ensures NoNewline(Escape(s, esc))
    decreases |s|
  {
    if s != [] {
      EscapeNoNewline(s[1..], esc);
      NoNewlineAppend(EscapeChar(s[0], esc), Escape(s[1..], esc));
    }
  }

  lemma NoNewlineAppend(a: string, b: string)
    requires NoNewline(a) && NoNewline(b)
    ensures NoNewline(a + b)
  {
    assert forall i :: |a| <= i < |a + b| ==> (a + b)[i] == b[i - |a|];
  }

  // ---------------------------------------------------------------------
  // Reading a quoted string back
  // ---------------------------------------------------------------------

  /** What a reader produced, and the text after it. */
  datatype Read<T> = Read(value: T, rest: string)

  /** The character a backslash escape stands for, for the escapes the dump writes (MySQL agrees on these). */
  function Unescaped(c: char): char {
    if c == 'n' then '\n' else c
  }

  /**
   * Reads the body of a single-quoted string up to its closing quote,
   * undoing backslash escapes; None when the text ends first.
   */
  function ReadQuoted(t: string): (r: Option<Read<string>>)
    ensures r.Some? ==> |r.value.rest| < |t|
    decreases |t|
  {
    if t == [] then None
    else if t[0] == '\'' then Some(Read("", t[1..]))
    else if t[0] == '\\' then
      if |t| < 2 then None
      else match ReadQuoted(t[2..])
        case None => None
        case Some(r) => Some(Read([Unescaped(t[1])] + r.value, r.rest))
    else
      match ReadQuoted(t[1..])
      case None => None
      case Some(r) => Some(Read([t[0]] + r.value, r.rest))
  }

  /** Reading an escaped character, then the rest. */
  lemma ReadEscapedChar(c: char, esc: Escaping, tail: string, v: string, rest: string)
    requires ReadQuoted(tail) == Some(Read(v, rest))
    ensures ReadQuoted(EscapeChar(c, esc) + tail) == Some(Read([c] + v, rest))
  {
    var e := EscapeChar(c, esc);
    var t := e + tail;
    if |e| == 2 {
      assert t[2..] == tail;
    } else {
      assert t[1..] == tail;
    }
  }

  lemma {:induction false} EscapeReadsBefore(s: string, esc: Escaping, q: string, v: string, rest: string)
    requires ReadQuoted(q) == Some(Read(v, rest))
    ensures ReadQuoted(Escape(s, esc) + q) == Some(Read(s + v, rest))
    decreases |s|
  {
    if s == [] {
      assert Escape(s, esc) + q == q;
      assert s + v == v;
    } else {
      var c, r := s[0], s[1..];
      var tail := Escape(r, esc) + q;
      EscapeReadsBefore(r, esc, q, v, rest);
      ReadEscapedChar(c, esc, tail, r + v, rest);
      EscapeCons(s, esc, q);
      ConsAppend(s, v);
    }
  }

  lemma EscapeCons(s: string, esc: Escaping, q: string)
    requires s != []
    ensures Escape(s, esc) + q == EscapeChar(s[0], esc) + (Escape(s[1..], esc) + q)
  {
    var e, er := EscapeChar(s[0], esc), Escape(s[1..], esc);
    assert Escape(s, esc) == e + er;
    assert (e + er) + q == e + (er + q);
  }

  lemma ConsAppend(s: string, v: string)
    requires s != []
    ensures [s[0]] + (s[1..] + v) == s + v
  {
  }

  /** The escaped text, closed by a quote, reads back as the original value, whatever follows. */
  lemma EscapeReadsBack(s: string, esc: Escaping, rest: string)
    ensures ReadQuoted(Escape(s, esc) + "'" + rest) == Some(Read(s, rest))
  {
    var q := "'" + rest;
    assert q[1..] == rest;
    EscapeReadsBefore(s, esc, q, "", rest);
    assert Escape(s, esc) + "'" + rest == Escape(s, esc) + q;
    assert s + "" == s;
  }

  /** The literal a value is written as: NULL, or the escaped text in single quotes. */
  function Literal(v: Value, esc: Escaping): string {
    match v
    case Null => "NULL"
    case Str(s) => "'" + Escape(s, esc) + "'"
  }

  /** Reads one literal: NULL or a quoted string. */
  function ReadValue(t: string): (r: Option<Read<Value>>)
    ensures r.Some? ==> |r.value.rest| < |t|
  {
    if |t| >= 4 && t[..4] == "NULL" then Some(Read(Null, t[4..]))
    else if t != [] && t[0] == '\'' then
      match ReadQuoted(t[1..])
      case None => None
      case Some(r) => Some(Read(Str(r.value), r.rest))
    else None
  }

  /** Every literal reads back as the value it was written from. */
  lemma LiteralReadsBack(v: Value, esc: Escaping, rest: string)
    ensures ReadValue(Literal(v, esc) + rest) == Some(Read(v, rest))
  {
    var t := Literal(v, esc) + rest;
    if v.Str? {
      var body := Escape(v.s, esc) + "'" + rest;
      assert t == "'" + body;
      QuotedValue(body);
      EscapeReadsBack(v.s, esc, rest);
    } else {
      assert t[..4] == "NULL";
    }
  }

  /** Text opening with a quote reads as the quoted string that follows. */
  lemma QuotedValue(body: string)
    ensures ReadValue("'" + body) == match ReadQuoted(body)
      case None => None
      case Some(r) => Some(Read(Str(r.value), r.rest))
  {
    var t := "'" + body;
    assert t[0] == '\'' && t[1..] == body;
    if |t| >= 4 {
      assert t[..4][0] == '\'';
    }
  }

  /** A literal is a single line when the escaping is `NewlineSafe` or the value has no newline. */
  lemma LiteralNoNewline(v: Value, esc: Escaping)
    requires esc == NewlineSafe || v.Null? || NoNewline(v.s)
    ensures NoNewline(Literal(v, esc))
  {
    if v.Str? {
      EscapeNoNewline(v.s, esc);
      NoNewlineAppend("'", Escape(v.s, esc));
      NoNewlineAppend("'" + Escape(v.s, esc), "'");
    }
  }
}
