/**
 * The text handling of the older script `filemaker_extract.py`: table-name sanitising,
 * the table selection of `get_table_export_list` and `found_in`, `clean_error`, the
 * source queries of `get_table_data` (row limit, count query, ordering), and the DDL
 * handling around the generated CREATE TABLE text.
 */
module ExtractText {
  import opened Wrappers
  import opened Text

  // ------------------------------------------------------------ table names

  /** `get_table_list`'s sanitising: spaces become underscores, letters are lower-cased. */
  function SanitiseName(x: string): (r: string)
    ensures |r| == |x|
    ensures forall i :: 0 <= i < |x| ==> r[i] == LowerChar(if x[i] == ' ' then '_' else x[i])
  {
    ReplaceCharByChar(x, ' ', '_');
    Lower(Replace(x, " ", "_"))
  }

  /** A sanitised name holds no space and no upper-case letter, and sanitising it again changes nothing. */
  lemma SanitisedIsClean(x: string)
    ensures var r := SanitiseName(x);
      ' ' !in r && (forall i :: 0 <= i < |r| ==> !('A' <= r[i] <= 'Z')) && SanitiseName(r) == r
  {
    var r := SanitiseName(x);
    forall i | 0 <= i < |r| ensures r[i] != ' ' && !('A' <= r[i] <= 'Z') {
    }
    var rr := SanitiseName(r);
    assert forall i :: 0 <= i < |r| ==> rr[i] == r[i];
  }

  /** The table list of the source: each base-table name sanitised. */
  function TableList(raw: seq<string>): (r: seq<string>)
    ensures |r| == |raw| && forall i :: 0 <= i < |raw| ==> r[i] == SanitiseName(raw[i])
  {
    seq(|raw|, i requires 0 <= i < |raw| => SanitiseName(raw[i]))
  }

  // ------------------------------------------------------------ table selection

  /** The separators of `get_table_export_list`: `;`, `|`, `,` and the space. */
  predicate IsDelimiter(c: char) {
    c == ';' || c == '|' || c == ',' || c == ' '
  }

  /** `re.split` on single separator characters: the pieces between them, empty pieces kept. */
  function SplitWhere(s: string, sep: char -> bool): (parts: seq<string>)
    ensures |parts| >= 1
    ensures forall k, j :: 0 <= k < |parts| && 0 <= j < |parts[k]| ==> !sep(parts[k][j])
    decreases |s|
  {
    if s == [] then [[]]
    else
      var rest := SplitWhere(s[1..], sep);
      if sep(s[0]) then [[]] + rest
      else
        var first := [s[0]] + rest[0];
        assert forall j :: 1 <= j < |first| ==> first[j] == rest[0][j - 1];
        [first] + rest[1..]
  }

  /** The separator characters of `s`, in order. */
  function Separators(s: string, sep: char -> bool): (ds: seq<char>)
    decreases |s|
  {
    if s == [] then []
    else (if sep(s[0]) then [s[0]] else []) + Separators(s[1..], sep)
  }

  /** The pieces put back together with the separators between them. */
  function Interleave(parts: seq<string>, ds: seq<char>): string
    requires |parts| == |ds| + 1
    decreases |ds|
  {
    if ds == [] then parts[0] else parts[0] + [ds[0]] + Interleave(parts[1..], ds[1..])
  }

  /** Splitting loses nothing: one piece more than separators, and interleaving them restores the text. */
  lemma {:induction false} SplitWhereRoundTrip(s: string, sep: char -> bool)
    ensures |SplitWhere(s, sep)| == |Separators(s, sep)| + 1
    ensures Interleave(SplitWhere(s, sep), Separators(s, sep)) == s
    decreases |s|
  {
    if s != [] {
      var t := s[1..];
      SplitWhereRoundTrip(t, sep);
      var rest := SplitWhere(t, sep);
      var ds := Separators(t, sep);
      assert s == [s[0]] + t;
      if sep(s[0]) {
        assert SplitWhere(s, sep) == [[]] + rest;
        assert Separators(s, sep) == [s[0]] + ds;
        InterleaveSeparator(s[0], t, rest, ds);
      } else {
        assert Separators(s, sep) == ds;
        assert SplitWhere(s, sep) == [[s[0]] + rest[0]] + rest[1..];
        InterleavePiece(s[0], t, rest, ds);
      }
    }
  }

  /** A leading separator adds an empty piece and that separator in front. */
  lemma InterleaveSeparator(x: char, t: string, rest: seq<string>, ds: seq<char>)
    requires |rest| == |ds| + 1 && Interleave(rest, ds) == t
    ensures Interleave([[]] + rest, [x] + ds) == [x] + t
  {
    assert ([[]] + rest)[1..] == rest;
    assert ([x] + ds)[1..] == ds;
  }

  /** A leading ordinary character joins the first piece. */
  lemma InterleavePiece(x: char, t: string, rest: seq<string>, ds: seq<char>)
    requires |rest| == |ds| + 1 && Interleave(rest, ds) == t
    ensures Interleave([[x] + rest[0]] + rest[1..], ds) == [x] + t
  {
    var parts := [[x] + rest[0]] + rest[1..];
    assert parts[0] == [x] + rest[0];
    if ds != [] {
      assert parts[1..] == rest[1..];
      var i := Interleave(rest[1..], ds[1..]);
      InterleaveUnfold(rest, ds);
      InterleaveUnfold(parts, ds);
      ConsAssoc(x, rest[0], [ds[0]] + i);
    }
  }

  lemma InterleaveUnfold(parts: seq<string>, ds: seq<char>)
    requires |parts| == |ds| + 1 && ds != []
    ensures Interleave(parts, ds) == parts[0] + ([ds[0]] + Interleave(parts[1..], ds[1..]))
  {
  }

  lemma ConsAssoc(x: char, a: string, b: string)
    ensures ([x] + a) + b == [x] + (a + b)
  {
  }



  /** A text without separators is one piece. */
  lemma {:induction false} SplitWhereNone(s: string, sep: char -> bool)
    requires forall j :: 0 <= j < |s| ==> !sep(s[j])
    ensures SplitWhere(s, sep) == [s]
    decreases |s|
  {
    if s != [] {
      SplitWhereNone(s[1..], sep);
      assert [s[0]] + s[1..] == s;
    }
  }

  /** Splitting at a separator character: the pieces before it, then the pieces after it. */
  lemma {:induction false} SplitWhereConcat(a: string, c: char, b: string, sep: char -> bool)
    requires sep(c)
    ensures SplitWhere(a + [c] + b, sep) == SplitWhere(a, sep) + SplitWhere(b, sep)
    decreases |a|
  {
    var s := a + [c] + b;
    if a == [] {
      assert s[1..] == b;
    } else {
      assert s[1..] == a[1..] + [c] + b;
      SplitWhereConcat(a[1..], c, b, sep);
    }
  }

  /** `found_in(l1, l2)`: `all(item in l1 for item in l2)`, item by item. */
  function FoundIn(l1: seq<string>, l2: seq<string>): bool
    decreases |l2|
  {
    l2 == [] || (l2[0] in l1 && FoundIn(l1, l2[1..]))
  }

  /** `found_in` holds exactly when every item of the second list occurs in the first. */
  lemma {:induction false} FoundInIff(l1: seq<string>, l2: seq<string>)
    ensures FoundIn(l1, l2) <==> forall x :: x in l2 ==> x in l1
    decreases |l2|
  {
    if l2 != [] {
      FoundInIff(l1, l2[1..]);
      assert forall x :: x in l2 <==> x == l2[0] || x in l2[1..];
    }
  }

  /**
   * `get_table_export_list`: the requested text split on `; | , space`; a first piece
   * `all` selects every available table; otherwise every piece must be an available
   * table, or the script exits (Err).
   */
  function TableExportList(requested: string, available: seq<string>): (r: Result<seq<string>, string>)
    ensures var parts := SplitWhere(requested, IsDelimiter);
      && (parts[0] == "all" ==> r == Ok(available))
      && (parts[0] != "all" && r.Ok? ==> r.value == parts)
      && (r.Err? <==> parts[0] != "all" && !FoundIn(available, parts))
    ensures r.Ok? ==> forall t :: t in r.value ==> t in available
  {
    var parts := SplitWhere(requested, IsDelimiter);
    FoundInIff(available, parts);
    if parts[0] != "all" then
      if forall p :: p in parts ==> p in available then Ok(parts)
      else Err("Table list conflict")
    else Ok(available)
  }

  /** One available table named on its own is selected on its own. */
  lemma TableExportListSingle(t: string, available: seq<string>)
    requires t != "all" && t in available
    requires forall j :: 0 <= j < |t| ==> !IsDelimiter(t[j])
    ensures TableExportList(t, available) == Ok([t])
  {
    SplitWhereNone(t, IsDelimiter);
  }

  // ------------------------------------------------------------ errors

  /** `clean_error`: line breaks become spaces, then surrounding whitespace is stripped. */
  function CleanError(err: string): (r: string)
    ensures '\n' !in r
    ensures r == [] || (!IsSpace(r[0]) && !IsSpace(r[|r| - 1]))
  {
    var flat := Replace(err, "\n", " ");
    ReplaceCharRemoves(err, '\n', " ", '\n');
    StripByKeeps(flat, IsSpace, '\n');
    StripByEnds(flat, IsSpace);
    Strip(flat)
  }

  /** Cleaning a cleaned message changes nothing. */
  lemma CleanErrorIdempotent(err: string)
    ensures CleanError(CleanError(err)) == CleanError(err)
  {
    var r := CleanError(err);
    ReplaceCharFree(r, '\n', " ");
    StripByEnds(r, IsSpace);
    assert LStrip(r, IsSpace) == r;
  }

  // ------------------------------------------------------------ source queries

  /** The query of `get_table_data`: the given one or `SELECT * FROM "<tab>"`, limited unless `rows` is `all`. */
  function BaseQuery(tab: string, sql: Option<string>, rows: string): string {
    var base := if sql.Some? then sql.value else "SELECT * FROM \"" + tab + "\"";
    if rows != "all" then base + FetchClause(rows) else base
  }

  function FetchClause(rows: string): string {
    " FETCH FIRST " + rows + " ROWS ONLY"
  }

  const OrderClause := " ORDER BY image_no ASC"

  /** The DML query as written: for ratcatalogue the ordering is appended after the limit. */
  function DmlQueryAsWritten(tab: string, sql: Option<string>, rows: string): (r: string)
    ensures tab != "ratcatalogue" ==> r == DmlQuery(tab, sql, rows)
    ensures tab == "ratcatalogue" ==> EndsWith(r, OrderClause)
  {
    var q := BaseQuery(tab, sql, rows);
    if tab == "ratcatalogue" then q + OrderClause else q
  }

  /** The DML query with the ordering placed before the limit, as SQL's grammar requires. */
  function DmlQuery(tab: string, sql: Option<string>, rows: string): (r: string)
    ensures rows != "all" ==> EndsWith(r, FetchClause(rows))
    ensures rows == "all" && tab == "ratcatalogue" ==> EndsWith(r, OrderClause)
    ensures sql.Some? ==> StartsWith(r, sql.value)
  {
    var base := if sql.Some? then sql.value else "SELECT * FROM \"" + tab + "\"";
    var ordered := if tab == "ratcatalogue" then base + OrderClause else base;
    if rows != "all" then ordered + FetchClause(rows) else ordered
  }

  /** As written, a limited ratcatalogue query ends in ORDER BY right after its FETCH FIRST clause. */
  lemma DmlQueryAsWrittenOrdersAfterLimit(sql: Option<string>, rows: string)
    requires rows != "all"
    ensures var q := DmlQueryAsWritten("ratcatalogue", sql, rows);
      EndsWith(q, FetchClause(rows) + OrderClause)
  {
    var base := if sql.Some? then sql.value else "SELECT * FROM \"ratcatalogue\"";
    var f := FetchClause(rows);
    assert BaseQuery("ratcatalogue", sql, rows) == base + f;
    EndsWithTwo(base, f, OrderClause);
  }

  /** Text followed by two pieces ends with both of them. */
  lemma EndsWithTwo(base: string, a: string, b: string)
    ensures EndsWith(base + a + b, a + b)
  {
    assert base + a + b == base + (a + b);
    EndsWithAppend(base, a + b);
  }

  /** Corrected: a limited query ends with its FETCH FIRST clause, ordered first; unlimited ones agree with the code as written. */
  lemma DmlQueryLimitLast(tab: string, sql: Option<string>, rows: string)
    ensures rows != "all" ==> EndsWith(DmlQuery(tab, sql, rows), FetchClause(rows))
    ensures rows != "all" && tab == "ratcatalogue" ==>
      EndsWith(DmlQuery(tab, sql, rows), OrderClause + FetchClause(rows))
    ensures rows == "all" ==> DmlQuery(tab, sql, rows) == DmlQueryAsWritten(tab, sql, rows)
  {
    var base := if sql.Some? then sql.value else "SELECT * FROM \"" + tab + "\"";
    var ordered := if tab == "ratcatalogue" then base + OrderClause else base;
    if rows != "all" {
      var f := FetchClause(rows);
      EndsWithAppend(ordered, f);
      if tab == "ratcatalogue" {
        EndsWithTwo(base, OrderClause, f);
      }
    }
  }

  /** The last `FROM` starting at or after `k` and before the end of the line, or `last`. */
  function LastFromOnLine(s: string, k: nat, last: Option<nat>): (r: Option<nat>)
    ensures r.Some? ==> r == last || OccursAt(s, "FROM", r.value)
    decreases |s| - k
  {
    if k >= |s| || s[k] == '\n' then last
    else LastFromOnLine(s, k + 1, if OccursAt(s, "FROM", k) then Some(k) else last)
  }

  /**
   * `re.sub(r'(SELECT).*(FROM)', r'\1 COUNT(*) AS n \2', sql)`: at the leftmost `SELECT`
   * followed by a `FROM` on the same line, everything up to the last such `FROM` becomes
   * `SELECT COUNT(*) AS n FROM`; the scan resumes after it.
   */
  function CountQuery(s: string): (r: string)
    ensures StartsWith(s, "SELECT") && LastFromOnLine(s, 6, None).Some? ==> StartsWith(r, "SELECT COUNT(*) AS n FROM")
    ensures s != [] && !StartsWith(s, "SELECT") ==> r != [] && r[0] == s[0]
    decreases |s|
  {
    if s == [] then []
    else if StartsWith(s, "SELECT") && LastFromOnLine(s, 6, None).Some? then
      var j := LastFromOnLine(s, 6, None).value;
      "SELECT COUNT(*) AS n FROM" + CountQuery(s[j + 4..])
    else [s[0]] + CountQuery(s[1..])
  }

  /** A text without `SELECT` is left as it is. */
  lemma {:induction false} CountQueryNoSelect(s: string)
    requires !Contains(s, "SELECT")
    ensures CountQuery(s) == s
    decreases |s|
  {
    if s != [] {
      if StartsWith(s, "SELECT") {
        assert OccursAt(s, "SELECT", 0);
      }
      if Contains(s[1..], "SELECT") {
        var i :| 0 <= i <= |s[1..]| && OccursAt(s[1..], "SELECT", i);
        assert s[1..][i..i + 6] == s[i + 1..i + 7];
        assert OccursAt(s, "SELECT", i + 1);
      }
      CountQueryNoSelect(s[1..]);
      assert [s[0]] + s[1..] == s;
    }
  }

  /** With no `FROM` at or after `k`, the scan keeps what it had. */
  lemma {:induction false} LastFromNoMore(s: string, k: nat, last: Option<nat>)
    requires forall i :: k <= i ==> !OccursAt(s, "FROM", i)
    ensures LastFromOnLine(s, k, last) == last
    decreases |s| - k
  {
    if k < |s| && s[k] != '\n' {
      LastFromNoMore(s, k + 1, last);
    }
  }

  /** The scan finds the `FROM` at `j` when the line runs unbroken to it and no `FROM` follows. */
  lemma {:induction false} LastFromFound(s: string, k: nat, last: Option<nat>, j: nat)
    requires k <= j && OccursAt(s, "FROM", j)
    requires forall i :: k <= i < j ==> s[i] != '\n'
    requires forall i :: j < i ==> !OccursAt(s, "FROM", i)
    ensures LastFromOnLine(s, k, last) == Some(j)
    decreases |s| - k
  {
    assert s[j] == 'F';
    if k < j {
      LastFromFound(s, k + 1, if OccursAt(s, "FROM", k) then Some(k) else last, j);
    } else {
      LastFromNoMore(s, j + 1, Some(j));
    }
  }

  /**
   * The count query of a one-line `SELECT <cols> FROM <rest>`: the column list becomes
   * `COUNT(*) AS n` and the rest is kept.
   */
  lemma CountQueryOneLine(cols: string, rest: string)
    requires '\n' !in cols
    requires !Contains(rest, "FROM") && !Contains(rest, "SELECT")
    ensures CountQuery("SELECT" + cols + "FROM" + rest) == "SELECT COUNT(*) AS n FROM" + rest
  {
    var head := "SELECT" + cols + "FROM";
    var s := head + rest;
    var m := 6 + |cols|;
    assert s[..6] == "SELECT";
    assert s[m..m + 4] == "FROM";
    assert forall i :: 6 <= i < m ==> s[i] == cols[i - 6];
    forall i | m < i ensures !OccursAt(s, "FROM", i) {
      if i < m + 4 {
        assert s[i] == "FROM"[i - m];
        assert s[i] != 'F';
      } else if OccursAt(s, "FROM", i) {
        OccursInSuffix(head, rest, "FROM", i);
      }
    }
    LastFromFound(s, 6, None, m);
    assert s[m + 4..] == rest;
    CountQueryNoSelect(rest);
  }

  /** An occurrence inside the second part of a concatenation is an occurrence in that part. */
  lemma OccursInSuffix(a: string, b: string, sub: string, i: nat)
    requires |a| <= i && OccursAt(a + b, sub, i)
    ensures OccursAt(b, sub, i - |a|)
  {
    assert (a + b)[i..i + |sub|] == b[i - |a|..i - |a| + |sub|];
  }

  /** The count query of the default query: `SELECT COUNT(*) AS n FROM "<tab>"`, limit kept. */
  lemma DefaultCountQuery(tab: string, rows: string)
    requires var rest := " \"" + tab + "\"" + (if rows != "all" then FetchClause(rows) else "");
      !Contains(rest, "FROM") && !Contains(rest, "SELECT")
    ensures var rest := " \"" + tab + "\"" + (if rows != "all" then FetchClause(rows) else "");
      CountQuery(BaseQuery(tab, None, rows)) == "SELECT COUNT(*) AS n FROM" + rest
  {
    var rest := " \"" + tab + "\"" + (if rows != "all" then FetchClause(rows) else "");
    assert BaseQuery(tab, None, rows) == "SELECT" + " * " + "FROM" + rest;
    CountQueryOneLine(" * ", rest);
  }

  /** `get_table_data`'s row count: capped at `int(rows)` unless `rows` is `all`; Err where `int` raises. */
  function CappedCount(cnt: int, rows: string): (r: Result<int, string>)
    ensures rows == "all" ==> r == Ok(cnt)
    ensures rows != "all" ==> (r.Err? <==> ParseInt(rows).None?)
    ensures rows != "all" && r.Ok? ==>
      var limit := ParseInt(rows).value;
      r.value <= cnt && r.value <= limit && (r.value == cnt || r.value == limit)
  {
    if rows == "all" then Ok(cnt)
    else match ParseInt(rows)
      case None => Err("invalid literal for int()")
      case Some(limit) => Ok(if cnt > limit then limit else cnt)
  }

  /** A limit written as `str(n)` caps the count at `n`. */
  lemma CappedCountOfLimit(cnt: int, n: nat)
    ensures CappedCount(cnt, IntToString(n)) == Ok(if cnt > n then n else cnt)
  {
    IntToStringRoundTrip(n);
    NatToStringDigits(n);
    var t := IntToString(n);
    assert IsDigit(t[0]) && !IsDigit("all"[0]);
  }

  // ------------------------------------------------------------ DDL

  /** Python's `\w` on ASCII: letters, digits and the underscore. */
  predicate IsWordChar(c: char) {
    'a' <= c <= 'z' || 'A' <= c <= 'Z' || '0' <= c <= '9' || c == '_'
  }

  predicate IsLetter(c: char) {
    'a' <= c <= 'z' || 'A' <= c <= 'Z'
  }

  /** The longest prefix of `s` whose characters satisfy `P`. */
  function TakeWhile(s: string, P: char -> bool): (r: string)
    ensures |r| <= |s| && r == s[..|r|]
    ensures forall k :: 0 <= k < |r| ==> P(r[k])
    ensures |r| < |s| ==> !P(s[|r|])
    decreases |s|
  {
    if s != [] && P(s[0]) then [s[0]] + TakeWhile(s[1..], P) else []
  }

  /** The longest prefix is `a` when `a` qualifies and what follows does not. */
  lemma TakeWhileStops(a: string, b: string, P: char -> bool)
    requires forall k :: 0 <= k < |a| ==> P(a[k])
    requires b == [] || !P(b[0])
    ensures TakeWhile(a + b, P) == a
  {
    var r := TakeWhile(a + b, P);
    var s := a + b;
    assert forall k :: 0 <= k < |a| ==> P(s[k]);
    assert |b| > 0 ==> !P(s[|a|]);
    assert forall k :: 0 <= k < |r| ==> P(s[k]);
    assert |r| == |a|;
    assert r == s[..|a|] == a;
  }

  /** `s` without a leading `c`. */
  function DropChar(s: string, c: char): string {
    if s != [] && s[0] == c then s[1..] else s
  }

  /** A column of the CREATE TABLE text. */
  datatype ColumnDef = ColumnDef(name: string, colType: string)

  /**
   * One line of the column list, simplified: a tab, the name's word characters (optionally
   * in backticks), a space, then the type's letters.
   */
  function ColumnOfLine(line: string): Option<ColumnDef> {
    if line == [] || line[0] != '\t' then None
    else ColumnOfBody(DropChar(line[1..], '`'))
  }

  /** The name's word characters, then (past an optional closing backtick) the type. */
  function ColumnOfBody(body: string): Option<ColumnDef> {
    var name := TakeWhile(body, IsWordChar);
    if name == [] then None
    else match TypeAfterName(DropChar(body[|name|..], '`'))
      case Some(ty) => Some(ColumnDef(name, ty))
      case None => None
  }

  /** A space, then the type's letters. */
  function TypeAfterName(rest: string): Option<string> {
    if rest == [] || rest[0] != ' ' then None
    else
      var ty := TakeWhile(rest[1..], IsLetter);
      if ty == [] then None else Some(ty)
  }

  /** The table name on a `CREATE TABLE` line, optionally quoted. */
  function TableNameOfLine(line: string): Option<string> {
    if StartsWith(line, "CREATE TABLE ") then
      var n := TakeWhile(DropChar(DropChar(line[13..], '`'), '"'), IsWordChar);
      if n == [] then None else Some(n)
    else None
  }

  function ColumnsIn(lines: seq<string>): seq<ColumnDef>
    decreases |lines|
  {
    if lines == [] then []
    else (match ColumnOfLine(lines[0]) case Some(c) => [c] case None => []) + ColumnsIn(lines[1..])
  }

  function TableNameIn(lines: seq<string>): Option<string>
    decreases |lines|
  {
    if lines == [] then None
    else if TableNameOfLine(lines[0]).Some? then TableNameOfLine(lines[0])
    else TableNameIn(lines[1..])
  }

  /** What `convert_create_table_to_dict` extracts: the table name and its columns. */
  datatype TableDef = TableDef(name: string, columns: seq<ColumnDef>)

  function Lines(ddl: string): seq<string> {
    SplitWhere(ddl, c => c == '\n')
  }

  /**
   * `convert_create_table_to_dict`, line by line: Ok(None) for `{}`; Err where columns are
   * found without a table name (Python's unbound `tab`).
   */
  function CreateTableToDict(ddl: string): (r: Result<Option<TableDef>, string>)
    ensures r.Err? <==> TableNameIn(Lines(ddl)).None? && ColumnsIn(Lines(ddl)) != []
    ensures r == Ok(None) <==> TableNameIn(Lines(ddl)).None? && ColumnsIn(Lines(ddl)) == []
    ensures r.Ok? && r.value.Some? ==> Some(r.value.value.name) == TableNameIn(Lines(ddl))
  {
    var lines := Lines(ddl);
    var cols := ColumnsIn(lines);
    match TableNameIn(lines)
    case Some(n) => Ok(Some(TableDef(n, cols)))
    case None => if cols == [] then Ok(None) else Err("local variable 'tab' referenced before assignment")
  }

  /**
   * The column lines as the regular expressions read them: the block's text starts right
   * at the first column line, with no line break before it, and the column pattern needs
   * one, so the first tab-indented line is passed over.
   */
  function ColumnsAsWritten(lines: seq<string>): seq<ColumnDef>
    decreases |lines|
  {
    if lines == [] then []
    else if lines[0] != [] && lines[0][0] == '\t' then ColumnsIn(lines[1..])
    else ColumnsAsWritten(lines[1..])
  }

  /** `convert_create_table_to_dict` as written: like `CreateTableToDict`, but reading the columns as the regular expressions do. */
  function CreateTableToDictAsWritten(ddl: string): (r: Result<Option<TableDef>, string>)
    ensures r.Err? <==> CreateTableToDict(ddl).Err?
    ensures r.Ok? && r.value.Some? ==> CreateTableToDict(ddl).Ok? && CreateTableToDict(ddl).value.Some?
    ensures r.Ok? && r.value.Some? ==> r.value.value.name == CreateTableToDict(ddl).value.value.name
  {
    var lines := Lines(ddl);
    match TableNameIn(lines)
    case Some(n) => Ok(Some(TableDef(n, ColumnsAsWritten(lines))))
    case None => if ColumnsIn(lines) == [] then Ok(None) else Err("local variable 'tab' referenced before assignment")
  }

  /** The columns `get_table_data` parses as dates: those of type `DATE`, in order. */
  function DateColumns(cols: seq<ColumnDef>): (r: seq<string>)
    ensures forall n :: n in r <==> exists c :: c in cols && c.colType == "DATE" && c.name == n
    decreases |cols|
  {
    if cols == [] then []
    else (if cols[0].colType == "DATE" then [cols[0].name] else []) + DateColumns(cols[1..])
  }

  /** A name and type the simplified parser reads back: word characters and letters. */
  predicate PlainColumn(c: ColumnDef) {
    c.name != [] && c.colType != []
    && (forall k :: 0 <= k < |c.name| ==> IsWordChar(c.name[k]))
    && (forall k :: 0 <= k < |c.colType| ==> IsLetter(c.colType[k]))
  }

  /** The column lines of SQLAlchemy's CREATE TABLE text: a tab, name, space and type; `, ` after all but the last. */
  function ColumnLines(cols: seq<ColumnDef>): (r: seq<string>)
    ensures |r| == |cols|
    ensures forall i :: 0 <= i < |cols| ==> r[i] == ColumnLine(cols[i], i + 1 < |cols|)
    decreases |cols|
  {
    if cols == [] then []
    else [ColumnLine(cols[0], |cols| > 1)] + ColumnLines(cols[1..])
  }

  /** A tab, the name, a space and the type, and `, ` when more columns follow. */
  function ColumnLine(c: ColumnDef, more: bool): string {
    "\t" + c.name + " " + c.colType + (if more then ", " else "")
  }

  /** The lines of the CREATE TABLE text: `\nCREATE TABLE <t> (\n<columns>\n)\n\n`. */
  function RenderedLines(table: string, cols: seq<ColumnDef>): seq<string> {
    ["", "CREATE TABLE " + table + " ("] + ColumnLines(cols) + [")", "", ""]
  }

  /** A plain column's line reads back as that column. */
  lemma ColumnOfLineReads(c: ColumnDef, more: bool)
    requires PlainColumn(c)
    ensures ColumnOfLine(ColumnLine(c, more)) == Some(c)
  {
    var tail: string := if more then ", " else "";
    var after := " " + c.colType + tail;
    var body := c.name + after;
    assert ColumnLine(c, more) == "\t" + body;
    assert ("\t" + body)[1..] == body;
    assert body[0] == c.name[0];
    assert DropChar(body, '`') == body;
    ColumnBodyReads(c, after);
    TypeAfterNameReads(c.colType, tail);
  }

  lemma ColumnBodyReads(c: ColumnDef, after: string)
    requires PlainColumn(c) && after != [] && after[0] == ' '
    ensures ColumnOfBody(c.name + after) == (match TypeAfterName(after) case Some(ty) => Some(ColumnDef(c.name, ty)) case None => None)
  {
    TakeWhileStops(c.name, after, IsWordChar);
    assert (c.name + after)[|c.name|..] == after;
    assert DropChar(after, '`') == after;
  }

  lemma TypeAfterNameReads(ty: string, tail: string)
    requires ty != [] && forall k :: 0 <= k < |ty| ==> IsLetter(ty[k])
    requires tail == "" || tail == ", "
    ensures TypeAfterName(" " + ty + tail) == Some(ty)
  {
    assert (" " + ty + tail)[1..] == ty + tail;
    TakeWhileStops(ty, tail, IsLetter);
  }

  /** A line starting with a tab names no table. */
  lemma TabLineNoTable(line: string)
    requires line != [] && line[0] == '\t'
    ensures TableNameOfLine(line).None?
  {
    assert !StartsWith(line, "CREATE TABLE ") by {
      if |line| >= 13 { assert line[..13][0] == '\t'; }
    }
  }

  lemma {:induction false} ColumnsInConcat(a: seq<string>, b: seq<string>)
    ensures ColumnsIn(a + b) == ColumnsIn(a) + ColumnsIn(b)
    decreases |a|
  {
    if a != [] {
      var head: seq<ColumnDef> := match ColumnOfLine(a[0]) case Some(c) => [c] case None => [];
      var ab := a + b;
      assert ab[0] == a[0] && ab[1..] == a[1..] + b;
      ColumnsInConcat(a[1..], b);
      assert ColumnsIn(ab) == head + (ColumnsIn(a[1..]) + ColumnsIn(b));
      assert ColumnsIn(a) == head + ColumnsIn(a[1..]);
    } else {
      assert a + b == b;
    }
  }

  lemma {:induction false} ColumnLinesRead(cols: seq<ColumnDef>)
    requires forall i :: 0 <= i < |cols| ==> PlainColumn(cols[i])
    ensures ColumnsIn(ColumnLines(cols)) == cols
    decreases |cols|
  {
    if cols != [] {
      ColumnOfLineReads(cols[0], |cols| > 1);
      ColumnLinesRead(cols[1..]);
      assert ColumnLines(cols)[1..] == ColumnLines(cols[1..]);
    }
  }

  /** No column line names a table. */
  lemma {:induction false} ColumnLinesNoTable(cols: seq<ColumnDef>, later: seq<string>)
    requires forall i :: 0 <= i < |cols| ==> PlainColumn(cols[i])
    ensures TableNameIn(ColumnLines(cols) + later) == TableNameIn(later)
    decreases |cols|
  {
    if cols != [] {
      var l := ColumnLine(cols[0], |cols| > 1);
      var tail := ColumnLines(cols[1..]);
      assert l[0] == '\t';
      TabLineNoTable(l);
      assert ColumnLines(cols) + later == [l] + (tail + later);
      TableNameInCons(l, tail + later);
      ColumnLinesNoTable(cols[1..], later);
    } else {
      assert ColumnLines(cols) + later == later;
    }
  }

  /** A line that names no table is passed over. */
  lemma TableNameInCons(l: string, rest: seq<string>)
    requires TableNameOfLine(l).None?
    ensures TableNameIn([l] + rest) == TableNameIn(rest)
  {
    assert ([l] + rest)[1..] == rest;
  }

  /** A line holding no line break. */
  predicate OneLine(l: string) {
    forall k :: 0 <= k < |l| ==> l[k] != '\n'
  }

  /** Splitting a line followed by a line break and more text. */
  lemma {:induction false} LinesCons(l: string, t: string)
    requires OneLine(l)
    ensures Lines(l + "\n" + t) == [l] + Lines(t)
    decreases |l|
  {
    var s := l + "\n" + t;
    if l == [] {
      assert s == "\n" + t && s[1..] == t;
    } else {
      assert s[1..] == l[1..] + "\n" + t;
      LinesCons(l[1..], t);
      assert [l[0]] + l[1..] == l;
    }
  }

  /** Splitting joined lines gives the lines back. */
  lemma {:induction false} LinesJoin(ls: seq<string>)
    requires |ls| >= 1 && forall i :: 0 <= i < |ls| ==> OneLine(ls[i])
    ensures Lines(Join("\n", ls)) == ls
    decreases |ls|
  {
    if |ls| == 1 {
      SplitWhereNone(ls[0], c => c == '\n');
    } else {
      LinesJoin(ls[1..]);
      LinesCons(ls[0], Join("\n", ls[1..]));
      assert [ls[0]] + ls[1..] == ls;
    }
  }

  /**
   * Reading back the CREATE TABLE text: for a word-character table name and plain columns,
   * the parser yields exactly that table and those columns.
   */
  lemma CreateTableRoundTrip(table: string, cols: seq<ColumnDef>)
    requires table != [] && forall k :: 0 <= k < |table| ==> IsWordChar(table[k])
    requires forall i :: 0 <= i < |cols| ==> PlainColumn(cols[i])
    ensures CreateTableToDict(Join("\n", RenderedLines(table, cols))) == Ok(Some(TableDef(table, cols)))
  {
    var ls := RenderedLines(table, cols);
    RenderedLinesOneLine(table, cols);
    LinesJoin(ls);
    RenderedColumns(table, cols);
    RenderedTableName(table, cols);
  }

  lemma RenderedLinesOneLine(table: string, cols: seq<ColumnDef>)
    requires forall k :: 0 <= k < |table| ==> IsWordChar(table[k])
    requires forall i :: 0 <= i < |cols| ==> PlainColumn(cols[i])
    ensures forall i :: 0 <= i < |RenderedLines(table, cols)| ==> OneLine(RenderedLines(table, cols)[i])
  {
    var ls := RenderedLines(table, cols);
    var mid := ColumnLines(cols);
    forall i | 0 <= i < |ls| ensures OneLine(ls[i]) {
      if 2 <= i < 2 + |mid| {
        assert ls[i] == mid[i - 2] == ColumnLine(cols[i - 2], i - 1 < |cols|);
        ColumnLineOneLine(cols[i - 2], i - 1 < |cols|);
      } else if i == 1 {
        WordsOneLine(table);
        ConcatOneLine("CREATE TABLE " + table, " (");
        ConcatOneLine("CREATE TABLE ", table);
      }
    }
  }

  /** Two pieces without a line break join into a piece without one. */
  lemma ConcatOneLine(a: string, b: string)
    requires OneLine(a) && OneLine(b)
    ensures OneLine(a + b)
  {
    assert forall k :: 0 <= k < |a + b| ==> (a + b)[k] == if k < |a| then a[k] else b[k - |a|];
  }

  /** Word characters hold no line break. */
  lemma WordsOneLine(t: string)
    requires forall k :: 0 <= k < |t| ==> IsWordChar(t[k])
    ensures OneLine(t)
  { }

  /** A plain column's line holds no line break. */
  lemma ColumnLineOneLine(c: ColumnDef, more: bool)
    requires PlainColumn(c)
    ensures OneLine(ColumnLine(c, more))
  {
    WordsOneLine(c.name);
    assert OneLine(c.colType);
    ConcatOneLine("\t", c.name);
    ConcatOneLine("\t" + c.name, " ");
    ConcatOneLine("\t" + c.name + " ", c.colType);
    ConcatOneLine("\t" + c.name + " " + c.colType, if more then ", " else "");
  }

  /**
   * As written, the parser loses the first column of a rendered CREATE TABLE text and
   * reads every other one.
   */
  lemma CreateTableAsWrittenLosesFirst(table: string, cols: seq<ColumnDef>)
    requires table != [] && forall k :: 0 <= k < |table| ==> IsWordChar(table[k])
    requires forall i :: 0 <= i < |cols| ==> PlainColumn(cols[i])
    ensures CreateTableToDictAsWritten(Join("\n", RenderedLines(table, cols)))
         == Ok(Some(TableDef(table, if cols == [] then [] else cols[1..])))
  {
    var ls := RenderedLines(table, cols);
    RenderedLinesOneLine(table, cols);
    LinesJoin(ls);
    RenderedColumnsAsWritten(table, cols);
    RenderedTableName(table, cols);
  }

  lemma RenderedColumnsAsWritten(table: string, cols: seq<ColumnDef>)
    requires forall i :: 0 <= i < |cols| ==> PlainColumn(cols[i])
    ensures ColumnsAsWritten(RenderedLines(table, cols)) == if cols == [] then [] else cols[1..]
  {
    var mid := ColumnLines(cols);
    var tail := [")", "", ""];
    AsWrittenSkipsHead("CREATE TABLE " + table + " (", mid + tail);
    assert RenderedLines(table, cols) == ["", "CREATE TABLE " + table + " ("] + (mid + tail);
    if cols == [] {
      assert mid + tail == tail;
      assert ColumnsAsWritten(tail) == [];
    } else {
      assert mid[0][0] == '\t';
      AsWrittenFromTab(mid, tail);
      assert mid[1..] == ColumnLines(cols[1..]);
      ColumnLinesRead(cols[1..]);
      ColumnsInConcat(mid[1..], tail);
      assert ColumnsIn(tail) == [];
    }
  }

  /** The empty line and the header line before the columns hold no tab. */
  lemma AsWrittenSkipsHead(header: string, body: seq<string>)
    requires header != [] && header[0] == 'C'
    ensures ColumnsAsWritten(["", header] + body) == ColumnsAsWritten(body)
  {
    var ls := ["", header] + body;
    assert ls[1..] == [header] + body;
    assert ls[1..][1..] == body;
  }

  /** Reading as written from a first tab line skips it and reads the rest. */
  lemma AsWrittenFromTab(mid: seq<string>, tail: seq<string>)
    requires mid != [] && mid[0] != [] && mid[0][0] == '\t'
    ensures ColumnsAsWritten(mid + tail) == ColumnsIn(mid[1..] + tail)
  {
    assert (mid + tail)[1..] == mid[1..] + tail;
  }

  /**
   * A leading `DATE` column is never parsed as a date: rendered alone, the corrected
   * parser lists it among the date columns and the parser as written lists none.
   */
  lemma LeadingDateColumnLost()
    ensures var ddl := Join("\n", RenderedLines("t", [ColumnDef("d", "DATE")]));
      && CreateTableToDict(ddl) == Ok(Some(TableDef("t", [ColumnDef("d", "DATE")])))
      && DateColumns(CreateTableToDict(ddl).value.value.columns) == ["d"]
      && CreateTableToDictAsWritten(ddl) == Ok(Some(TableDef("t", [])))
      && DateColumns(CreateTableToDictAsWritten(ddl).value.value.columns) == []
  {
    var c := ColumnDef("d", "DATE");
    assert IsWordChar('d') && IsWordChar('t');
    assert forall k :: 0 <= k < |c.colType| ==> IsLetter(c.colType[k]);
    assert PlainColumn(c);
    CreateTableRoundTrip("t", [c]);
    CreateTableAsWrittenLosesFirst("t", [c]);
    assert [c][1..] == [];
  }

  lemma RenderedColumns(table: string, cols: seq<ColumnDef>)
    requires forall i :: 0 <= i < |cols| ==> PlainColumn(cols[i])
    ensures ColumnsIn(RenderedLines(table, cols)) == cols
  {
    var head := ["", "CREATE TABLE " + table + " ("];
    var mid := ColumnLines(cols);
    var tail := [")", "", ""];
    ColumnLinesRead(cols);
    ColumnsInConcat(head + mid, tail);
    ColumnsInConcat(head, mid);
    assert ColumnsIn(head) == [];
    assert ColumnsIn(tail) == [];
  }

  lemma RenderedTableName(table: string, cols: seq<ColumnDef>)
    requires table != [] && forall k :: 0 <= k < |table| ==> IsWordChar(table[k])
    ensures TableNameIn(RenderedLines(table, cols)) == Some(table)
  {
    var line := "CREATE TABLE " + table + " (";
    var ls := RenderedLines(table, cols);
    assert ls[0] == "" && ls[1] == line;
    assert line[..13] == "CREATE TABLE ";
    assert line[13..] == table + " (";
    assert DropChar(DropChar(table + " (", '`'), '"') == table + " (";
    TakeWhileStops(table, " (", IsWordChar);
    assert TableNameOfLine(line) == Some(table);
    assert TableNameIn(ls) == TableNameIn(ls[1..]);
  }

  /**
   * `get_table_data`'s DDL rewrites: `TABLE` becomes `TABLE IF NOT EXISTS`, then every
   * occurrence of the table name is prefixed with the schema.
   */
  function SchemaDdl(ddl: string, tab: string, schema: string): (r: string)
    requires tab != []
    ensures !Contains(ddl, "TABLE") && !Contains(ddl, tab) ==> r == ddl
  {
    ReplaceAbsent(ddl, "TABLE", "TABLE IF NOT EXISTS");
    ReplaceAbsent(Replace(ddl, "TABLE", "TABLE IF NOT EXISTS"), tab, schema + "." + tab);
    Replace(Replace(ddl, "TABLE", "TABLE IF NOT EXISTS"), tab, schema + "." + tab)
  }

  const CreatePrefix := "\nCREATE "
  const GuardedPrefix := CreatePrefix + "TABLE IF NOT EXISTS" + " "

  /**
   * On a CREATE TABLE text whose rest mentions neither `TABLE` nor the table name, and a
   * name that cannot start inside the keyword text, the header becomes
   * `CREATE TABLE IF NOT EXISTS <schema>.<tab>` and nothing else changes.
   */
  lemma SchemaDdlHeader(tab: string, rest: string, schema: string)
    requires tab != [] && tab[0] !in GuardedPrefix
    requires !Contains(" " + tab + rest, "TABLE") && !Contains(rest, tab)
    ensures SchemaDdl(CreatePrefix + "TABLE " + tab + rest, tab, schema)
         == GuardedPrefix + schema + "." + tab + rest
  {
    KeywordRewrite(tab, rest);
    NameRewrite(tab, rest, schema);
  }

  /** The first rewrite hits only the keyword of the header. */
  lemma KeywordRewrite(tab: string, rest: string)
    requires !Contains(" " + tab + rest, "TABLE")
    ensures Replace(CreatePrefix + "TABLE " + tab + rest, "TABLE", "TABLE IF NOT EXISTS") == GuardedPrefix + tab + rest
  {
    var y := " " + tab + rest;
    assert CreatePrefix + "TABLE " + tab + rest == CreatePrefix + "TABLE" + y;
    KeywordOnlyOnce(y);
    ReplaceOnce(CreatePrefix, y, "TABLE", "TABLE IF NOT EXISTS");
    assert CreatePrefix + "TABLE IF NOT EXISTS" + y == GuardedPrefix + tab + rest;
  }

  /** The second rewrite hits only the table name after the header. */
  lemma NameRewrite(tab: string, rest: string, schema: string)
    requires tab != [] && tab[0] !in GuardedPrefix && !Contains(rest, tab)
    ensures Replace(GuardedPrefix + tab + rest, tab, schema + "." + tab) == GuardedPrefix + schema + "." + tab + rest
  {
    NameNotInHeader(tab, rest);
    ReplaceOnce(GuardedPrefix, rest, tab, schema + "." + tab);
    assert GuardedPrefix + (schema + "." + tab) + rest == GuardedPrefix + schema + "." + tab + rest;
  }

  /** `TABLE` does not start inside `\nCREATE `. */
  lemma KeywordOnlyOnce(y: string)
    ensures forall j :: 0 <= j < |CreatePrefix| ==> !OccursAt(CreatePrefix + "TABLE" + y, "TABLE", j)
  {
    var s := CreatePrefix + "TABLE" + y;
    assert s[..13] == "\nCREATE TABLE";
    forall j | 0 <= j < |CreatePrefix| ensures !OccursAt(s, "TABLE", j) {
      if j == 5 {
        MismatchNotOccurs(s, "TABLE", j, 1);
      } else {
        MismatchNotOccurs(s, "TABLE", j, 0);
      }
    }
  }

  /** A name whose first character is not in the guarded header does not start inside it. */
  lemma NameNotInHeader(tab: string, rest: string)
    requires tab != [] && tab[0] !in GuardedPrefix
    ensures forall j :: 0 <= j < |GuardedPrefix| ==> !OccursAt(GuardedPrefix + tab + rest, tab, j)
  {
    var s := GuardedPrefix + tab + rest;
    forall j | 0 <= j < |GuardedPrefix| ensures !OccursAt(s, tab, j) {
      assert s[j] == GuardedPrefix[j];
      MismatchNotOccurs(s, tab, j, 0);
    }
  }
}
