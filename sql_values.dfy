/**
 * Rendering one cell of a source row as an SQL literal, per target dialect
 * (`DataExporter.format_value_for_sql` and the older `format_value`), together with
 * readers that say what the target server makes of the literal, so that the
 * escaping can be stated as a round trip.
 */
module SqlValues {
  import opened Wrappers
  import opened Text

  /** One cell of a row as pandas hands it over (floats are not modelled). */
  datatype Cell = Null | Num(n: int) | Flag(b: bool) | Str(s: string)

  /** The configured `db_type`. */
  datatype Dialect = MySql | Supabase | OtherDialect

  function DialectOf(dbType: string): Dialect {
    if dbType == "mysql" then MySql
    else if dbType == "supabase" then Supabase
    else OtherDialect
  }

  /**
   * The target version is kept as PostgreSQL's `server_version_num` (the tool divides it
   * by 10000 and tests the quotient against 9.0): `E'…'` strings are used from 90000 on.
   */
  predicate UsesEString(version: Option<int>) {
    version.Some? && version.value >= 90000
  }

  /**
   * A server known to be older than 9.0. Only there is an ordinary `'…'` literal sure to be
   * read with backslash escapes: `standard_conforming_strings` is on by default from 9.1, and
   * an unknown version (None) may be any server.
   */
  predicate KnownOldServer(version: Option<int>) {
    version.Some? && version.value < 90000
  }

  /** Python's `str(val)` for a non-null cell. */
  function CellText(c: Cell): string
    requires !c.Null?
  {
    match c
    case Num(n) => IntToString(n)
    case Flag(b) => if b then "True" else "False"
    case Str(s) => s
  }

  // ---------------------------------------------------------------- MySQL

  /** Backslash, newline and carriage return written as MySQL backslash escapes. */
  function MySqlEscape(s: string): (r: string)
    ensures '\\' !in s && '\n' !in s && '\r' !in s ==> r == s
  {
    EscapesFree(s);
    Replace(Replace(Replace(s, "\\", "\\\\"), "\n", "\\n"), "\r", "\\r")
  }

  /** A text without backslash, newline or carriage return goes through the three replacements unchanged. */
  lemma EscapesFree(s: string)
    ensures '\\' !in s && '\n' !in s && '\r' !in s ==>
      Replace(Replace(Replace(s, "\\", "\\\\"), "\n", "\\n"), "\r", "\\r") == s
  {
    if '\\' !in s && '\n' !in s && '\r' !in s {
      ReplaceCharFree(s, '\\', "\\\\");
      ReplaceCharFree(s, '\n', "\\n");
      ReplaceCharFree(s, '\r', "\\r");
    }
  }

  /** The escape `MySqlEscape` gives one character. */
  function EscapeChar(x: char): string {
    if x == '\\' then "\\\\"
    else if x == '\n' then "\\n"
    else if x == '\r' then "\\r"
    else [x]
  }

  /** `"` doubled, as inside a double-quoted literal. */
  function DoubleQuotes(e: string): string {
    Replace(e, "\"", "\"\"")
  }

  /** The rule that chooses double quotes: the escaped text holds `,` or `'`, or the value held a line break. */
  predicate NeedsDoubleQuotes(e: string, s: string) {
    ',' in e || '\'' in e || '\n' in s || '\r' in s
  }

  /**
   * The MySQL literal exactly as the tool writes it: `"` is doubled before the quote
   * style is chosen, so a single-quoted literal can carry doubled `"` as well.
   */
  function MySqlLiteralAsWritten(s: string): (r: string)
    ensures |r| >= 2
    ensures r[0] == '"' <==> NeedsDoubleQuotes(MySqlEscape(s), s)
    ensures r[0] != '"' ==> r[0] == '\'' && '\'' !in r[1..|r| - 1] && ',' !in r[1..|r| - 1]
  {
    var e := DoubleQuotes(MySqlEscape(s));
    KeepsQuoteAndComma(MySqlEscape(s));
    if NeedsDoubleQuotes(MySqlEscape(s), s) then
      "\"" + e + "\""
    else
      var r := "'" + e + "'";
      assert r[1..|r| - 1] == e;
      r
  }

  /** The MySQL literal with `"` doubled only where it is the quote character. */
  function MySqlLiteral(s: string): (r: string)
    ensures |r| >= 2
    ensures r[0] == '"' <==> NeedsDoubleQuotes(MySqlEscape(s), s)
    ensures r[0] != '"' ==> r[0] == '\'' && '\'' !in r[1..|r| - 1] && ',' !in r[1..|r| - 1]
  {
    var e := MySqlEscape(s);
    if NeedsDoubleQuotes(e, s) then
      "\"" + DoubleQuotes(e) + "\""
    else
      var r := "'" + e + "'";
      assert r[1..|r| - 1] == e;
      r
  }

  lemma KeepsQuoteAndComma(e: string)
    ensures ('\'' in DoubleQuotes(e)) == ('\'' in e)
    ensures (',' in DoubleQuotes(e)) == (',' in e)
  {
    ReplaceCharKeeps(e, '"', "\"\"", '\'');
    ReplaceCharKeeps(e, '"', "\"\"", ',');
  }

  /** The character a MySQL backslash escape stands for (the `\%` and `\_` escapes keep their backslash). */
  function MySqlEscaped(c: char): string {
    if c == '0' then "\U{0}"
    else if c == 'b' then "\U{8}"
    else if c == 'n' then "\n"
    else if c == 'r' then "\r"
    else if c == 't' then "\t"
    else if c == 'Z' then "\U{1a}"
    else if c == '%' then "\\%"
    else if c == '_' then "\\_"
    else [c]
  }

  function Prepend(p: string, r: Option<string>): Option<string> {
    match r
    case None => None
    case Some(t) => Some(p + t)
  }

  /**
   * How MySQL reads the text between the quotes of a literal quoted with `q`: a backslash
   * escapes the next character and a doubled `q` stands for one `q`; None when a lone `q`
   * would end the literal early or the text ends in a lone backslash.
   */
  function MySqlUnquote(body: string, q: char): Option<string>
    decreases |body|
  {
    if body == [] then Some([])
    else if body[0] == '\\' then
      if |body| == 1 then None else Prepend(MySqlEscaped(body[1]), MySqlUnquote(body[2..], q))
    else if body[0] == q then
      if |body| >= 2 && body[1] == q then Prepend([q], MySqlUnquote(body[2..], q)) else None
    else Prepend([body[0]], MySqlUnquote(body[1..], q))
  }

  /** The string value MySQL gives a quoted literal, if it is one. */
  function MySqlRead(lit: string): Option<string> {
    if |lit| >= 2 && (lit[0] == '\'' || lit[0] == '"') && lit[|lit| - 1] == lit[0] then
      MySqlUnquote(lit[1..|lit| - 1], lit[0])
    else None
  }

  lemma ReplaceOne(x: char, c: char, r: string)
    ensures Replace([x], [c], r) == if x == c then r else [x]
  {
    ReplaceCharCons(x, [], c, r);
    assert [x] + [] == [x];
  }

  lemma MySqlEscapeConcat(a: string, b: string)
    ensures MySqlEscape(a + b) == MySqlEscape(a) + MySqlEscape(b)
  {
    var a1, b1 := Replace(a, "\\", "\\\\"), Replace(b, "\\", "\\\\");
    ReplaceCharConcat(a, b, '\\', "\\\\");
    var a2, b2 := Replace(a1, "\n", "\\n"), Replace(b1, "\n", "\\n");
    ReplaceCharConcat(a1, b1, '\n', "\\n");
    ReplaceCharConcat(a2, b2, '\r', "\\r");
  }

  lemma MySqlEscapeOne(x: char)
    ensures MySqlEscape([x]) == EscapeChar(x)
  {
    ReplaceOne(x, '\\', "\\\\");
    var e1 := Replace([x], "\\", "\\\\");
    if x == '\\' {
      ReplaceCharFree(e1, '\n', "\\n");
      ReplaceCharFree(e1, '\r', "\\r");
    } else {
      ReplaceOne(x, '\n', "\\n");
      var e2 := Replace(e1, "\n", "\\n");
      if x == '\n' {
        ReplaceCharFree(e2, '\r', "\\r");
      } else {
        ReplaceOne(x, '\r', "\\r");
      }
    }
  }

  /** The MySQL escape works character by character. */
  lemma MySqlEscapeCons(x: char, t: string)
    ensures MySqlEscape([x] + t) == EscapeChar(x) + MySqlEscape(t)
  {
    MySqlEscapeConcat([x], t);
    MySqlEscapeOne(x);
  }

  /** What the literal quoted with `q` holds between its quotes. */
  function MySqlBody(s: string, q: char): string {
    if q == '"' then DoubleQuotes(MySqlEscape(s)) else MySqlEscape(s)
  }

  function BodyChar(x: char, q: char): string {
    if q == '"' && x == '"' then "\"\"" else EscapeChar(x)
  }

  lemma DoubleQuotesEscapeChar(x: char)
    ensures DoubleQuotes(EscapeChar(x)) == BodyChar(x, '"')
  {
    if x == '"' {
      ReplaceOne(x, '"', "\"\"");
    } else {
      assert '"' !in EscapeChar(x);
      ReplaceCharFree(EscapeChar(x), '"', "\"\"");
    }
  }

  lemma MySqlBodyCons(x: char, t: string, q: char)
    ensures MySqlBody([x] + t, q) == BodyChar(x, q) + MySqlBody(t, q)
  {
    MySqlEscapeCons(x, t);
    if q == '"' {
      var e, m := EscapeChar(x), MySqlEscape(t);
      ReplaceCharConcat(e, m, '"', "\"\"");
      DoubleQuotesEscapeChar(x);
    }
  }

  lemma UnquoteBodyChar(x: char, rest: string, q: char)
    requires q == '"' || (q == '\'' && x != '\'')
    ensures MySqlUnquote(BodyChar(x, q) + rest, q) == Prepend([x], MySqlUnquote(rest, q))
  {
    var b := BodyChar(x, q) + rest;
    if x == '\\' || x == '\n' || x == '\r' || (q == '"' && x == '"') {
      assert b[2..] == rest;
    } else {
      assert b[1..] == rest;
    }
  }

  /** MySQL reads back every character of the body; a single-quoted body never holds `'`. */
  lemma {:induction false} MySqlUnquoteBody(s: string, q: char)
    requires q == '"' || (q == '\'' && '\'' !in s)
    ensures MySqlUnquote(MySqlBody(s, q), q) == Some(s)
    decreases |s|
  {
    if s == [] {
      assert MySqlEscape([]) == [];
      assert DoubleQuotes([]) == [];
    } else {
      assert s == [s[0]] + s[1..];
      MySqlBodyCons(s[0], s[1..], q);
      UnquoteBodyChar(s[0], MySqlBody(s[1..], q), q);
      MySqlUnquoteBody(s[1..], q);
    }
  }

  lemma {:induction false} QuoteSurvivesEscape(s: string)
    ensures ('\'' in s) == ('\'' in MySqlEscape(s))
    decreases |s|
  {
    if s != [] {
      assert s == [s[0]] + s[1..];
      MySqlEscapeCons(s[0], s[1..]);
      QuoteSurvivesEscape(s[1..]);
    }
  }

  /** MySQL reads the literal back as the original string, whichever quote it uses. */
  lemma MySqlLiteralRoundTrip(s: string)
    ensures MySqlRead(MySqlLiteral(s)) == Some(s)
  {
    var e := MySqlEscape(s);
    var r := MySqlLiteral(s);
    if NeedsDoubleQuotes(e, s) {
      assert r[1..|r| - 1] == MySqlBody(s, '"');
      MySqlUnquoteBody(s, '"');
    } else {
      QuoteSurvivesEscape(s);
      assert r[1..|r| - 1] == MySqlBody(s, '\'');
      MySqlUnquoteBody(s, '\'');
    }
  }

  /** The literal as written agrees with the corrected one unless it is single-quoted around a `"`. */
  lemma MySqlAsWrittenAgrees(s: string)
    requires NeedsDoubleQuotes(MySqlEscape(s), s) || '"' !in s
    ensures MySqlLiteralAsWritten(s) == MySqlLiteral(s)
  {
    if !NeedsDoubleQuotes(MySqlEscape(s), s) {
      EscapeKeepsDoubleQuote(s);
      ReplaceCharFree(MySqlEscape(s), '"', "\"\"");
    }
  }

  lemma {:induction false} EscapeKeepsDoubleQuote(s: string)
    ensures ('"' in s) == ('"' in MySqlEscape(s))
    decreases |s|
  {
    if s != [] {
      assert s == [s[0]] + s[1..];
      MySqlEscapeCons(s[0], s[1..]);
      EscapeKeepsDoubleQuote(s[1..]);
    }
  }

  /** The value `"` is written as `'""'`, which MySQL stores as two double quotes. */
  lemma MySqlSingleQuotedDoubledQuote()
    ensures MySqlLiteralAsWritten("\"") == "'\"\"'"
    ensures MySqlRead(MySqlLiteralAsWritten("\"")) == Some("\"\"")
  {
    MySqlEscapeOne('"');
    ReplaceOne('"', '"', "\"\"");
    var lit := "'\"\"'";
    assert lit[1..|lit| - 1] == "\"\"";
    assert "\"\""[1..] == "\"";
    var one: string := "\"";
    assert one[1..] == [];
    assert MySqlUnquote(one[1..], '\'') == Some([]);
    assert one + [] == one;
    assert MySqlUnquote(one, '\'') == Some(one);
    var two: string := "\"\"";
    assert two[1..] == one;
    assert MySqlUnquote(two, '\'') == Some(['"'] + one);
    assert ['"'] + one == two;
    assert MySqlLiteralAsWritten("\"") == lit;
    assert lit[0] == '\'' && lit[|lit| - 1] == '\'';
    assert MySqlRead(lit) == MySqlUnquote(two, '\'');
  }

  // ------------------------------------------------------------ PostgreSQL

  /** `'` doubled, as inside any PostgreSQL string literal. */
  function PgDoubleQuotes(s: string): string {
    Replace(s, "'", "''")
  }

  /** Backslash doubled, as inside a literal read with escape processing. */
  function PgEscapeBackslashes(s: string): string {
    Replace(s, "\\", "\\\\")
  }

  /** `,` written `\,` for servers older than 9.0. */
  function EscapeCommas(d: string): string {
    Replace(d, ",", "\\,")
  }

  /** The PostgreSQL literal exactly as the tool writes it: backslashes are left as they are. */
  function PgLiteralAsWritten(s: string, version: Option<int>): (r: string)
    ensures UsesEString(version) ==> r == "E'" + PgDoubleQuotes(s) + "'"
    ensures !UsesEString(version) ==> r == "'" + EscapeCommas(PgDoubleQuotes(s)) + "'"
  {
    var d := PgDoubleQuotes(s);
    if UsesEString(version) then "E'" + d + "'" else "'" + EscapeCommas(d) + "'"
  }

  /**
   * The corrected PostgreSQL literal: backslashes doubled before `'` is doubled, and the
   * plain `'…'` form kept for a server known to be older than 9.0; any other version,
   * an unknown one included, gets an escape string `E'…'`.
   */
  function PgLiteral(s: string, version: Option<int>): (r: string)
    ensures StartsWith(r, if KnownOldServer(version) then "'" else "E'") && EndsWith(r, "'")
  {
    var d := PgDoubleQuotes(PgEscapeBackslashes(s));
    if KnownOldServer(version) then "'" + EscapeCommas(d) + "'" else "E'" + d + "'"
  }

  /**
   * How PostgreSQL reads the text of a literal when backslash escapes are processed
   * (an `E'…'` string, or any string on a server older than 9.1 with its default
   * `standard_conforming_strings = off`): `''` stands for `'` and a backslash escapes
   * the next character. None for a lone `'`, a trailing backslash, and the octal,
   * hexadecimal and Unicode escapes, which this model does not decode.
   */
  function PgUnescape(body: string): Option<string>
    decreases |body|
  {
    if body == [] then Some([])
    else if body[0] == '\'' then
      if |body| >= 2 && body[1] == '\'' then Prepend("'", PgUnescape(body[2..])) else None
    else if body[0] == '\\' then
      if |body| == 1 then None
      else
        var c := body[1];
        if '0' <= c <= '7' || c == 'x' || c == 'u' || c == 'U' then None
        else
          var v := if c == 'b' then "\U{8}" else if c == 'f' then "\U{c}" else if c == 'n' then "\n"
            else if c == 'r' then "\r" else if c == 't' then "\t" else [c];
          Prepend(v, PgUnescape(body[2..]))
    else Prepend([body[0]], PgUnescape(body[1..]))
  }

  /** How PostgreSQL reads an ordinary literal with `standard_conforming_strings = on`: only `''` is special. */
  function PgUndouble(body: string): Option<string>
    decreases |body|
  {
    if body == [] then Some([])
    else if body[0] == '\'' then
      if |body| >= 2 && body[1] == '\'' then Prepend("'", PgUndouble(body[2..])) else None
    else Prepend([body[0]], PgUndouble(body[1..]))
  }

  /** Undoubling the `'` of the text recovers the value. */
  lemma {:induction false} PgUndoubleRoundTrip(s: string)
    ensures PgUndouble(PgDoubleQuotes(s)) == Some(s)
    decreases |s|
  {
    if s == [] {
      assert PgDoubleQuotes([]) == [];
    } else {
      assert s == [s[0]] + s[1..];
      ReplaceCharCons(s[0], s[1..], '\'', "''");
      var b := PgDoubleQuotes(s);
      if s[0] == '\'' {
        assert b[2..] == PgDoubleQuotes(s[1..]);
      } else {
        assert b[1..] == PgDoubleQuotes(s[1..]);
      }
      PgUndoubleRoundTrip(s[1..]);
    }
  }

  /** The text inside the tool's `E'…'` literal un-doubles to the value. */
  lemma PgEStringUndoubles(s: string, version: Option<int>)
    requires UsesEString(version)
    ensures var r := PgLiteralAsWritten(s, version);
      |r| >= 3 && r[..2] == "E'" && r[|r| - 1] == '\'' && PgUndouble(r[2..|r| - 1]) == Some(s)
  {
    var r := PgLiteralAsWritten(s, version);
    assert r[2..|r| - 1] == PgDoubleQuotes(s);
    PgUndoubleRoundTrip(s);
  }

  /** The text the corrected literal holds between its quotes, one source character at a time. */
  function PgChar(x: char, commas: bool): string {
    if x == '\\' then "\\\\" else if x == '\'' then "''" else if commas && x == ',' then "\\," else [x]
  }

  function PgBody(s: string, commas: bool): string {
    var d := PgDoubleQuotes(PgEscapeBackslashes(s));
    if commas then EscapeCommas(d) else d
  }

  lemma PgBodyCons(x: char, t: string, commas: bool)
    ensures PgBody([x] + t, commas) == PgChar(x, commas) + PgBody(t, commas)
  {
    var e := PgEscapeBackslashes([x]);
    ReplaceCharConcat([x], t, '\\', "\\\\");
    ReplaceOne(x, '\\', "\\\\");
    var et := PgEscapeBackslashes(t);
    ReplaceCharConcat(e, et, '\'', "''");
    var d := PgDoubleQuotes(e);
    if x == '\\' {
      ReplaceCharFree(e, '\'', "''");
    } else {
      ReplaceOne(x, '\'', "''");
    }
    if commas {
      ReplaceCharConcat(d, PgDoubleQuotes(et), ',', "\\,");
      if x == ',' {
        ReplaceOne(x, ',', "\\,");
      } else {
        ReplaceCharFree(d, ',', "\\,");
      }
    }
  }

  lemma PgUnescapeChar(x: char, rest: string, commas: bool)
    ensures PgUnescape(PgChar(x, commas) + rest) == Prepend([x], PgUnescape(rest))
  {
    var b := PgChar(x, commas) + rest;
    if |PgChar(x, commas)| == 2 {
      assert b[2..] == rest;
    } else {
      assert b[1..] == rest;
    }
  }

  lemma {:induction false} PgUnescapeBody(s: string, commas: bool)
    ensures PgUnescape(PgBody(s, commas)) == Some(s)
    decreases |s|
  {
    if s == [] {
      assert PgEscapeBackslashes([]) == [];
      assert PgDoubleQuotes([]) == [];
      assert EscapeCommas([]) == [];
    } else {
      assert s == [s[0]] + s[1..];
      PgBodyCons(s[0], s[1..], commas);
      PgUnescapeChar(s[0], PgBody(s[1..], commas), commas);
      PgUnescapeBody(s[1..], commas);
    }
  }

  /**
   * The corrected literal reads back as exactly the value in both branches: an `E'…'`
   * string is read with escape processing on every server, and the plain `'…'` form is
   * written only for a server known to be older than 9.0, which reads it that way too.
   */
  lemma PgLiteralRoundTrip(s: string, version: Option<int>)
    ensures var r := PgLiteral(s, version);
      var skip := if KnownOldServer(version) then 1 else 2;
      |r| >= skip + 1 && r[skip - 1] == '\'' && r[|r| - 1] == '\''
      && PgUnescape(r[skip..|r| - 1]) == Some(s)
  {
    var r := PgLiteral(s, version);
    if KnownOldServer(version) {
      assert r[1..|r| - 1] == PgBody(s, true);
      PgUnescapeBody(s, true);
    } else {
      assert r[2..|r| - 1] == PgBody(s, false);
      PgUnescapeBody(s, false);
    }
  }

  /** For a known version and a value without backslashes, the literal as written is the corrected one. */
  lemma PgAsWrittenAgrees(s: string, version: Option<int>)
    requires '\\' !in s && version.Some?
    ensures PgLiteralAsWritten(s, version) == PgLiteral(s, version)
  {
    ReplaceCharFree(s, '\\', "\\\\");
  }

  /**
   * With the version unknown the tool writes `'a\,b'` for `a,b`. A server from 9.1 on,
   * with `standard_conforming_strings` on, reads an ordinary literal by un-doubling `'`
   * only, and stores `a\,b`.
   */
  lemma PgUnknownVersionComma()
    ensures PgLiteralAsWritten("a,b", None) == "'a\\,b'"
    ensures PgUndouble("a\\,b") == Some("a\\,b") != Some("a,b")
  {
    ReplaceCharFree("a,b", '\'', "''");
    assert PgDoubleQuotes("a,b") == "a,b";
    CommaEscapedOnce();
    assert "'" + "a\\,b" + "'" == "'a\\,b'";
    UndoubleKeepsBackslash();
  }

  lemma CommaEscapedOnce()
    ensures EscapeCommas("a,b") == "a\\,b"
  {
    var d: string := "a,b";
    assert d == "a" + "," + "b";
    FirstCharAbsent("b", ",");
    assert !OccursAt(d, ",", 0) by {
      assert d[0..1] == "a";
    }
    ReplaceOnce("a", "b", ",", "\\,");
  }

  lemma UndoubleKeepsBackslash()
    ensures PgUndouble("a\\,b") == Some("a\\,b")
  {
    var t: string := "a\\,b";
    assert t[4..] == [] && ['b'] + [] == t[3..];
    assert PgUndouble(t[3..]) == Some(t[3..]);
    assert [','] + t[3..] == t[2..];
    assert PgUndouble(t[2..]) == Some(t[2..]);
    assert ['\\'] + t[2..] == t[1..];
    assert PgUndouble(t[1..]) == Some(t[1..]);
    assert ['a'] + t[1..] == t;
  }

  /** The two-character value `\n` is written `E'\n'`, which PostgreSQL reads as one newline. */
  lemma PgBackslashRead()
    ensures PgLiteralAsWritten("\\n", Some(90000)) == "E'\\n'"
    ensures PgUnescape("\\n") == Some("\n")
  {
    ReplaceCharFree("\\n", '\'', "''");
    var b: string := "\\n";
    assert b[2..] == [];
    assert PgUnescape(b[2..]) == Some([]);
    assert PgUnescape(b) == Some("\n" + []);
    assert "\n" + [] == "\n";
  }

  // ------------------------------------------------------------ one value

  /**
   * `format_value_for_sql` as written. None where Python falls off the end of the
   * function and returns `None` (a non-null, non-numeric value for a dialect that is
   * neither mysql nor supabase).
   */
  function FormatValueAsWritten(c: Cell, dialect: Dialect, version: Option<int>): (r: Option<string>)
    ensures r.None? <==> c.Str? && dialect == OtherDialect
  {
    match c
    case Null => Some("NULL")
    case Num(n) => Some(IntToString(n))
    case Flag(_) => Some(CellText(c))
    case Str(s) =>
      match dialect
      case MySql => Some(MySqlLiteralAsWritten(s))
      case Supabase => Some(PgLiteralAsWritten(s, version))
      case OtherDialect => None
  }

  /** The value formatter the rest of the model uses: the corrected literals of both dialects. */
  function FormatValue(c: Cell, dialect: Dialect, version: Option<int>): (r: Option<string>)
    ensures r.None? <==> c.Str? && dialect == OtherDialect
  {
    match c
    case Null => Some("NULL")
    case Num(n) => Some(IntToString(n))
    case Flag(_) => Some(CellText(c))
    case Str(s) =>
      match dialect
      case MySql => Some(MySqlLiteral(s))
      case Supabase => Some(PgLiteral(s, version))
      case OtherDialect => None
  }

  /** Which literals a text is built with: the program's own, or the corrected ones. */
  datatype Escaping = AsWritten | Corrected

  /**
   * A value on which the two formatters can differ: a mysql string with `"`, and a supabase
   * string with a backslash or written for an unknown server version.
   */
  predicate EscapingMatters(c: Cell, dialect: Dialect, version: Option<int>) {
    c.Str? && ((dialect == MySql && '"' in c.s) || (dialect == Supabase && ('\\' in c.s || version.None?)))
  }

  /** One value under the chosen literals; both agree wherever escaping does not matter. */
  function Format(c: Cell, dialect: Dialect, version: Option<int>, esc: Escaping): (r: Option<string>)
    ensures r.None? <==> c.Str? && dialect == OtherDialect
    ensures !EscapingMatters(c, dialect, version) ==> r == FormatValue(c, dialect, version)
  {
    FormattersAgree(c, dialect, version);
    if esc == AsWritten then FormatValueAsWritten(c, dialect, version) else FormatValue(c, dialect, version)
  }

  /** The formatter as written and the corrected one differ only where escaping matters. */
  lemma FormattersAgree(c: Cell, dialect: Dialect, version: Option<int>)
    ensures !EscapingMatters(c, dialect, version) ==> FormatValueAsWritten(c, dialect, version) == FormatValue(c, dialect, version)
  {
    if c.Str? && dialect == MySql && '"' !in c.s {
      MySqlAsWrittenAgrees(c.s);
    }
    if c.Str? && dialect == Supabase && '\\' !in c.s && version.Some? {
      PgAsWrittenAgrees(c.s, version);
    }
  }

  /** A missing value is `NULL`; a number is its decimal text, which reads back as the number. */
  lemma FormatNullAndNumbers(n: int, dialect: Dialect, version: Option<int>)
    ensures FormatValue(Null, dialect, version) == Some("NULL")
    ensures FormatValue(Num(n), dialect, version).Some?
    ensures ParseInt(FormatValue(Num(n), dialect, version).value) == Some(n)
    ensures FormatValueAsWritten(Num(n), dialect, version) == FormatValue(Num(n), dialect, version)
  {
    IntToStringRoundTrip(n);
  }

  /** Whenever the value is a string, its literal reads back on the target as that string. */
  lemma FormatStringRoundTrip(s: string, dialect: Dialect, version: Option<int>)
    requires dialect != OtherDialect
    ensures FormatValue(Str(s), dialect, version).Some?
    ensures dialect == MySql ==> MySqlRead(FormatValue(Str(s), dialect, version).value) == Some(s)
    ensures dialect == Supabase ==>
      var r := FormatValue(Str(s), dialect, version).value;
      var skip := if KnownOldServer(version) then 1 else 2;
      |r| >= skip + 1 && PgUnescape(r[skip..|r| - 1]) == Some(s)
  {
    if dialect == MySql {
      MySqlLiteralRoundTrip(s);
    } else {
      PgLiteralRoundTrip(s, version);
    }
  }
}
