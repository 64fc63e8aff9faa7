/** Quoting of string literals for the two SQL engines, against a reader of each dialect. */
module SqlLiteral {
  import opened Common
  import opened Text

  // ---------------------------------------------------------------- printers

  function PgLiteral(s: string): string { "'" + ReplaceAll(s, "'", "''") + "'" }

  function MysqlLiteral(s: string): string {
    "'" + ReplaceAll(ReplaceAll(s, "\\", "\\\\"), "'", "''") + "'"
  }

  // ---------------------------------------------------------------- readers

  /** A literal read from the front of the input: its value and what follows. */
  type Lexed = Option<(string, string)>

  function Prepend(p: string, l: Lexed): Lexed {
    match l
    case Some((v, rest)) => Some((p + v, rest))
    case None => None
  }

  lemma PrependNothing(l: Lexed)
    ensures Prepend("", l) == l
  {
    if l.Some? {
      assert "" + l.value.0 == l.value.0;
    }
  }

  lemma PrependTwice(p: string, q: string, l: Lexed)
    ensures Prepend(p, Prepend(q, l)) == Prepend(p + q, l)
  {
    if l.Some? {
      assert p + (q + l.value.0) == (p + q) + l.value.0;
    }
  }

  /** A quote right after the literal would be read as an escaped quote. */
  predicate Quoted(r: string) { r != "" && r[0] == '\'' }

  predicate PgSpace(c: char) { c == ' ' || c == '\t' || c == '\n' || c == '\r' || c as int == 12 || c as int == 11 }

  predicate PgNewline(c: char) { c == '\n' || c == '\r' }

  /** A comment from `--` on reaches to the end of its line. */
  function AfterComment(t: string): (r: string)
    ensures |r| <= |t|
  {
    if t == "" || PgNewline(t[0]) then t else AfterComment(t[1..])
  }

  /** After a closing quote: white space with a newline, then another quote, continues the
      same constant (PostgreSQL documentation, section 4.1.2.1). A `--` comment counts as white
      space (section 4.1.5). Returns what follows that quote. */
  function Continued(t: string, newline: bool): (r: Option<string>)
    ensures r.Some? ==> |r.value| < |t|
    decreases |t|
  {
    if t == "" then None
    else if t[0] == '\'' then (if newline then Some(t[1..]) else None)
    else if PgSpace(t[0]) then Continued(t[1..], newline || PgNewline(t[0]))
    else if "--" <= t then Continued(AfterComment(t[2..]), newline)
    else None
  }

  /** The body of a PostgreSQL constant, standard_conforming_strings on. */
  function PgBody(t: string): (r: Lexed)
    ensures r.Some? ==> |r.value.1| < |t|
    decreases |t|
  {
    if t == "" then None
    else if t[0] != '\'' then Prepend([t[0]], PgBody(t[1..]))
    else if |t| > 1 && t[1] == '\'' then Prepend("'", PgBody(t[2..]))
    else
      match Continued(t[1..], false)
      case Some(more) => PgBody(more)
      case None => Some(("", t[1..]))
  }

  function PgLex(t: string): Lexed {
    if t != "" && t[0] == '\'' then PgBody(t[1..]) else None
  }

  /** What a backslash escape stands for (MySQL Reference Manual, section 9.1.1). */
  function Unescape(c: char): string {
    match c
    case '0' => [0 as char]
    case 'b' => [8 as char]
    case 'n' => "\n"
    case 'r' => "\r"
    case 't' => "\t"
    case 'Z' => [26 as char]
    case '%' => "\\%"
    case '_' => "\\_"
    case _ => [c]
  }

  /** The body of a MySQL single-quoted string, backslash escapes on. */
  function MysqlBody(t: string): (r: Lexed)
    ensures r.Some? ==> |r.value.1| < |t|
    decreases |t|
  {
    if t == "" then None
    else if t[0] == '\\' then (if |t| > 1 then Prepend(Unescape(t[1]), MysqlBody(t[2..])) else None)
    else if t[0] != '\'' then Prepend([t[0]], MysqlBody(t[1..]))
    else if |t| > 1 && t[1] == '\'' then Prepend("'", MysqlBody(t[2..]))
    else Some(("", t[1..]))
  }

  function MysqlLex(t: string): Lexed {
    if t != "" && t[0] == '\'' then MysqlBody(t[1..]) else None
  }

  // ---------------------------------------------------------------- round trips

  lemma ReplaceHead(c: char, t: string, pat: char, sub: string)
    ensures ReplaceAll([c] + t, [pat], sub) == (if c == pat then sub else [c]) + ReplaceAll(t, [pat], sub)
  {
    var s := [c] + t;
    assert s[|[pat]|..] == t && s[1..] == t;
    assert [pat] <= s ==> s[0] == [pat][0];
    assert c == pat ==> s[..1] == [pat];
  }

  lemma {:induction false} PgBodyRoundTrip(s: string, r: string)
    ensures PgBody(ReplaceAll(s, "'", "''") + "'" + r) == Prepend(s, PgBody("'" + r))
    decreases |s|
  {
    if s == "" {
      assert "" + "'" + r == "'" + r;
      PrependNothing(PgBody("'" + r));
    } else {
      PgBodyRoundTrip(s[1..], r);
      assert s == [s[0]] + s[1..];
      ReplaceHead(s[0], s[1..], '\'', "''");
      var rest := ReplaceAll(s[1..], "'", "''") + "'" + r;
      var head := if s[0] == '\'' then "''" else [s[0]];
      assert ReplaceAll(s, "'", "''") + "'" + r == head + rest;
      assert (head + rest)[|head|..] == rest;
      PrependTwice([s[0]], s[1..], PgBody("'" + r));
    }
  }

  /** Reading a PostgreSQL literal gives back exactly the string and stops at the
      continuation, exactly when the continuation does not prolong the constant. */
  lemma PgRoundTripIff(s: string, r: string)
    ensures PgLex(PgLiteral(s) + r) == Some((s, r)) <==>
      !Quoted(r) && Continued(r, false).None?
  {
    hide PgBody, Continued, ReplaceAll;
    PgBodyRoundTrip(s, r);
    assert (PgLiteral(s) + r)[1..] == ReplaceAll(s, "'", "''") + "'" + r;
    PgBodyEnds(r);
    assert s + "" == s;
  }

  /** At its closing quote the reader either stops or swallows part of what follows. */
  lemma PgBodyEnds(r: string)
    ensures if Quoted(r) || Continued(r, false).Some?
      then PgBody("'" + r).Some? ==> |PgBody("'" + r).value.1| < |r|
      else PgBody("'" + r) == Some(("", r))
  {
    var t := "'" + r;
    assert t[1..] == r;
    if Quoted(r) {
      assert t[2..] == r[1..];
    }
  }

  /** The two passes of the MySQL printer are one character-wise map. */
  function MysqlChar(c: char): string {
    if c == '\\' then "\\\\" else if c == '\'' then "''" else [c]
  }

  function MysqlChars(s: string): string {
    if s == "" then "" else MysqlChar(s[0]) + MysqlChars(s[1..])
  }

  lemma NothingReplaced()
    ensures ReplaceAll("", "\\", "\\\\") == "" && ReplaceAll("", "'", "''") == ""
  {
  }

  lemma {:induction false} MysqlTwoPasses(s: string)
    ensures ReplaceAll(ReplaceAll(s, "\\", "\\\\"), "'", "''") == MysqlChars(s)
    decreases |s|
  {
    hide ReplaceAll;
    NothingReplaced();
    if s != "" {
      var once := ReplaceAll(s[1..], "\\", "\\\\");
      MysqlTwoPasses(s[1..]);
      assert s == [s[0]] + s[1..];
      ReplaceHead(s[0], s[1..], '\\', "\\\\");
      if s[0] == '\\' {
        assert "\\\\" + once == ['\\'] + (['\\'] + once);
        ReplaceHead('\\', ['\\'] + once, '\'', "''");
        ReplaceHead('\\', once, '\'', "''");
      } else {
        ReplaceHead(s[0], once, '\'', "''");
      }
    }
  }

  lemma MysqlBodyHead(c: char, rest: string)
    ensures MysqlBody(MysqlChar(c) + rest) == Prepend([c], MysqlBody(rest))
  {
    assert (MysqlChar(c) + rest)[|MysqlChar(c)|..] == rest;
  }

  lemma {:induction false} MysqlBodyRoundTrip(s: string, r: string)
    ensures MysqlBody(MysqlChars(s) + "'" + r) == Prepend(s, MysqlBody("'" + r))
    decreases |s|
  {
    if s == "" {
      assert "" + "'" + r == "'" + r;
      PrependNothing(MysqlBody("'" + r));
    } else {
      MysqlBodyRoundTrip(s[1..], r);
      assert s == [s[0]] + s[1..];
      var rest := MysqlChars(s[1..]) + "'" + r;
      assert MysqlChars(s) + "'" + r == MysqlChar(s[0]) + rest;
      MysqlBodyHead(s[0], rest);
      PrependTwice([s[0]], s[1..], MysqlBody("'" + r));
    }
  }

  /** The reader is the server's lexer alone: two string tokens side by side, which its parser
      joins (section 9.1.1), are two reads here. */
  lemma MysqlRoundTripIff(s: string, r: string)
    ensures MysqlLex(MysqlLiteral(s) + r) == Some((s, r)) <==> !Quoted(r)
  {
    hide MysqlBody, MysqlChars, ReplaceAll;
    MysqlTwoPasses(s);
    MysqlBodyRoundTrip(s, r);
    assert (MysqlLiteral(s) + r)[1..] == MysqlChars(s) + "'" + r;
    MysqlBodyEnds(r);
    assert s + "" == s;
  }

  lemma MysqlBodyEnds(r: string)
    ensures if Quoted(r)
      then MysqlBody("'" + r).Some? ==> |MysqlBody("'" + r).value.1| < |r|
      else MysqlBody("'" + r) == Some(("", r))
  {
    var t := "'" + r;
    assert t[1..] == r;
    if Quoted(r) {
      assert t[2..] == r[1..];
    }
  }

  /** A continuation that prolongs the constant: the reader sees one longer string. */
  lemma PgProlonged()
    ensures PgLex(PgLiteral("a") + "\n'b'") == Some(("ab", ""))
  {
    var t := PgLiteral("a") + "\n'b'";
    ReplaceHead('a', "", '\'', "''");
    assert ['a'] + "" == "a" && ReplaceAll("", "'", "''") == "";
    assert t == "'a'\n'b'" && t[1..] == "a'\n'b'" && t[1..][1..] == "'\n'b'";
    assert "'\n'b'"[1..] == "\n'b'" && "\n'b'"[1..] == "'b'" && "'b'"[1..] == "b'";
    assert "b'"[1..] == "'" && "'"[1..] == "";
    assert Continued("'b'", true) == Some("b'") && Continued("\n'b'", false) == Some("b'");
    assert ['b'] + "" == "b" && ['a'] + "b" == "ab";
    assert PgBody("'") == Some(("", "")) && PgBody("b'") == Some(("b", ""));
    assert PgBody("'\n'b'") == Some(("b", ""));
  }

  /** A comment does not end the constant either. */
  lemma PgProlongedByComment()
    ensures PgLex(PgLiteral("a") + " --c\n'b'") != Some(("a", " --c\n'b'"))
  {
    var r := " --c\n'b'";
    assert r[1..] == "--c\n'b'" && r[1..][2..] == "c\n'b'" && "c\n'b'"[1..] == "\n'b'" && "\n'b'"[1..] == "'b'";
    assert "--" <= r[1..] && AfterComment("c\n'b'") == "\n'b'";
    assert Continued("\n'b'", false).Some?;
    PgRoundTripIff("a", r);
  }
}
