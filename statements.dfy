/**
 * Single INSERT statements: finding the first value of a statement (`extract_image_no`),
 * the dialect rewrite (`adjust_sql_syntax`), the `ON CONFLICT … DO NOTHING` suffix,
 * and an abstract target table that executes one statement at a time.
 */
module Statements {
  import opened Wrappers
  import opened Text
  import opened SqlValues

  // ------------------------------------------------------- case-blind search

  /** The lower-case ASCII pattern `p` occurs at `i` when case is ignored. */
  predicate MatchesCI(s: string, i: nat, p: string) {
    i + |p| <= |s| && Lower(s[i..i + |p|]) == p
  }

  /** The first index at or after `from` where `p` occurs, case ignored. */
  function FirstMatchCI(s: string, p: string, from: nat): (r: Option<nat>)
    ensures r.Some? ==> from <= r.value && MatchesCI(s, r.value, p)
    ensures r.Some? ==> forall i :: from <= i < r.value ==> !MatchesCI(s, i, p)
    ensures r.None? ==> forall i :: from <= i <= |s| ==> !MatchesCI(s, i, p)
    decreases |s| - from
  {
    if from > |s| then None
    else if MatchesCI(s, from, p) then Some(from)
    else FirstMatchCI(s, p, from + 1)
  }

  /** `re.findall('INSERT INTO', s, re.IGNORECASE)` is non-empty. */
  predicate HasInsertInto(s: string) {
    exists i :: 0 <= i < |s| && MatchesCI(s, i, "insert into")
  }

  /** The search finds a match exactly when there is one. */
  lemma HasInsertIntoFound(s: string)
    ensures HasInsertInto(s) <==> FirstMatchCI(s, "insert into", 0).Some?
  {
    if HasInsertInto(s) {
      var i :| 0 <= i < |s| && MatchesCI(s, i, "insert into");
      assert i <= |s|;
    }
  }

  // ------------------------------------------------------- extract_image_no

  /** The first index at or after `k` that is not whitespace (the end of a `\s*`). */
  function SkipSpaces(s: string, k: nat): (r: nat)
    requires k <= |s|
    ensures k <= r <= |s| && (r < |s| ==> !IsSpace(s[r]))
    ensures forall m :: k <= m < r ==> IsSpace(s[m])
    decreases |s| - k
  {
    if k < |s| && IsSpace(s[k]) then SkipSpaces(s, k + 1) else k
  }

  /** `VALUES\s*\(` matches at `j` (case ignored) and a `)` follows the parenthesis. */
  predicate ValuesAt(s: string, j: nat) {
    MatchesCI(s, j, "values")
    && var k := SkipSpaces(s, j + 6);
    k < |s| && s[k] == '(' && IndexOf(s[k + 1..], ")").Some?
  }

  /** The last `j` in `[lo, hi)` at which `P` holds. */
  function LastWhere(lo: nat, hi: nat, P: nat -> bool): (r: Option<nat>)
    ensures r.Some? ==> lo <= r.value < hi && P(r.value)
    ensures r.Some? ==> forall j :: r.value < j < hi ==> !P(j)
    ensures r.None? ==> forall j :: lo <= j < hi ==> !P(j)
    decreases hi
  {
    if hi <= lo then None
    else if P(hi - 1) then Some(hi - 1)
    else LastWhere(lo, hi - 1, P)
  }

  /** The greedy `.*`: the last `j` in `[lo, hi)` at which `ValuesAt` holds. */
  function LastValues(s: string, lo: nat, hi: nat): (r: Option<nat>)
    ensures r.Some? ==> lo <= r.value < hi && ValuesAt(s, r.value)
    ensures r.Some? ==> forall j: nat :: r.value < j < hi ==> !ValuesAt(s, j)
    ensures r.None? ==> forall j: nat :: lo <= j < hi ==> !ValuesAt(s, j)
  {
    var P := (j: nat) => ValuesAt(s, j);
    assert forall j: nat :: P(j) == ValuesAt(s, j);
    LastWhere(lo, hi, P)
  }

  /** The lazy group `(.*?)\)`: the text after the `(` of a `ValuesAt` match up to the first `)`. */
  function GroupAt(s: string, j: nat): (g: string)
    requires ValuesAt(s, j)
    ensures ')' !in g
  {
    var k := SkipSpaces(s, j + 6);
    var m := IndexOf(s[k + 1..], ")").value;
    IndexOfFirst(s[k + 1..], ")");
    var g := s[k + 1..k + 1 + m];
    forall t | 0 <= t < |g| ensures g[t] != ')' {
      assert !OccursAt(s[k + 1..], ")", t);
      assert s[k + 1..][t..t + 1] == [g[t]];
    }
    g
  }

  /** `values.split(',')[0].strip().strip("'").strip('E').strip("'")`. */
  function ImageNoOf(group: string): (r: string)
    ensures ',' !in r
    ensures |r| > 0 ==> r[0] != '\'' && r[|r| - 1] != '\''
  {
    var first := Split(group, ",")[0];
    var a := Strip(first);
    var b := StripChar(a, '\'');
    var c := StripChar(b, 'E');
    var r := StripChar(c, '\'');
    FirstPieceNoComma(group);
    StripByKeeps(first, IsSpace, ',');
    StripByKeeps(a, d => d == '\'', ',');
    StripByKeeps(b, d => d == 'E', ',');
    StripByKeeps(c, d => d == '\'', ',');
    StripByEnds(c, d => d == '\'');
    r
  }

  /**
   * The image number of a first value written as a number, as `'…'` or as `E'…'`
   * (whatever follows it starts with a comma) is that number's digits.
   */
  lemma ImageNoOfValue(v: string, pre: string, rest: string)
    requires v != [] && AllDigits(v)
    requires pre == "" || pre == "'" || pre == "E'"
    requires rest == [] || rest[0] == ','
    ensures ImageNoOf(pre + v + (if pre == "" then "" else "'") + rest) == v
  {
    var post: string := if pre == "" then "" else "'";
    var first := pre + v + post;
    FirstValueClean(v, pre, post);
    SplitFirst(first, rest, ',');
    assert first + rest == pre + v + post + rest;
    StripNoSpace(first);
    ImageNoOfIs(first + rest);
    StripQuotes(v, pre);
  }

  /** The first value holds no comma and no whitespace. */
  lemma FirstValueClean(v: string, pre: string, post: string)
    requires AllDigits(v)
    requires forall k :: 0 <= k < |pre| ==> pre[k] == '\'' || pre[k] == 'E'
    requires forall k :: 0 <= k < |post| ==> post[k] == '\''
    ensures var first := pre + v + post;
      ',' !in first && forall k :: 0 <= k < |first| ==> !IsSpace(first[k])
  {
    var first := pre + v + post;
    forall k | 0 <= k < |first| ensures first[k] != ',' && !IsSpace(first[k]) {
      if |pre| <= k < |pre| + |v| {
        assert first[k] == v[k - |pre|];
      }
    }
  }

  /** The stripping steps of `ImageNoOf`, one after the other. */
  lemma ImageNoOfIs(group: string)
    ensures ImageNoOf(group) == StripChar(StripChar(StripChar(Strip(Split(group, ",")[0]), '\''), 'E'), '\'')
  { }

  /** Stripping `'`, `E`, `'` from a number, `'number'` or `E'number'` leaves the number. */
  lemma StripQuotes(v: string, pre: string)
    requires v != [] && AllDigits(v)
    requires pre == "" || pre == "'" || pre == "E'"
    ensures var first := pre + v + (if pre == "" then "" else "'");
      StripChar(StripChar(StripChar(first, '\''), 'E'), '\'') == v
  {
    assert IsDigit(v[0]) && IsDigit(v[|v| - 1]);
    if pre == "" {
      assert pre + v + "" == [] + v + [];
      StripCharAround(v, '\'', [], []);
      StripCharAround(v, 'E', [], []);
    } else if pre == "'" {
      StripCharAround(v, '\'', "'", "'");
      StripCharAround(v, 'E', [], []);
      assert [] + v + [] == v;
    } else {
      StripEQuoted(v);
    }
  }

  /** The `E'…'` case of `StripQuotes`: the closing quote, then the `E`, then the opening quote go. */
  lemma StripEQuoted(v: string)
    requires v != [] && v[0] != '\'' && v[0] != 'E' && v[|v| - 1] != '\'' && v[|v| - 1] != 'E'
    ensures StripChar(StripChar(StripChar("E'" + v + "'", '\''), 'E'), '\'') == v
  {
    var ev := "E'" + v;
    var qv := "'" + v;
    assert "E'" + v + "'" == [] + ev + "'";
    assert ev == "E" + qv + [];
    assert qv == "'" + v + [];
    assert ev[0] == 'E' && ev[|ev| - 1] == v[|v| - 1];
    assert qv[0] == '\'' && qv[|qv| - 1] == v[|v| - 1];
    StripCharAround(ev, '\'', [], "'");
    StripCharAround(qv, 'E', "E", []);
    StripCharAround(v, '\'', "'", []);
  }

  lemma FirstPieceNoComma(group: string)
    ensures ',' !in Split(group, ",")[0]
  {
    SplitPiecesFree(group, ",");
    var p := Split(group, ",")[0];
    forall t | 0 <= t < |p| ensures p[t] != ',' {
      assert !OccursAt(p, ",", t);
      assert p[t..t + 1] == [p[t]];
    }
  }

  /**
   * `extract_image_no`: a search for `INSERT INTO.*VALUES\s*\((.*?)\)` with `re.DOTALL`
   * and `re.IGNORECASE`. The leftmost `INSERT INTO` starts the match, the greedy `.*`
   * reaches the last `VALUES (` that still has a `)` after it, and the first value of
   * the group, stripped, is the image number.
   */
  function ExtractImageNo(sql: string): (r: Option<string>)
    ensures r.Some? ==> exists j :: 0 <= j <= |sql| && ValuesAt(sql, j) && r.value == ImageNoOf(GroupAt(sql, j))
  {
    match FirstMatchCI(sql, "insert into", 0)
    case None => None
    case Some(i) =>
      match LastValues(sql, i + 11, |sql| + 1)
      case None => None
      case Some(j) => Some(ImageNoOf(GroupAt(sql, j)))
  }

  /** A statement matches the pattern: `INSERT INTO`, then a `VALUES (…)` at or after its end. */
  predicate PatternMatches(sql: string) {
    exists i, j :: 0 <= i && i + 11 <= j <= |sql| && MatchesCI(sql, i, "insert into") && ValuesAt(sql, j)
  }

  /** No image number without a match; with one, it is the cleaned first value of a matched `VALUES (…)` group. */
  lemma ExtractImageNoSpec(sql: string)
    ensures ExtractImageNo(sql).None? <==> !PatternMatches(sql)
    ensures ExtractImageNo(sql).Some? ==>
      exists j :: 0 <= j <= |sql| && ValuesAt(sql, j) && ExtractImageNo(sql).value == ImageNoOf(GroupAt(sql, j))
  {
    var first := FirstMatchCI(sql, "insert into", 0);
    if first.None? {
      assert ExtractImageNo(sql) == None;
      NoInsertNoMatch(sql);
    } else {
      var i := first.value;
      var last := LastValues(sql, i + 11, |sql| + 1);
      if last.None? {
        assert ExtractImageNo(sql) == None;
        NoValuesNoMatch(sql, i);
      } else {
        assert ExtractImageNo(sql).Some?;
        MatchFound(sql, i, last.value);
      }
    }
  }

  /** An `INSERT INTO` with a `VALUES (` at or after its end is a match. */
  lemma MatchFound(sql: string, i: nat, j: nat)
    requires MatchesCI(sql, i, "insert into") && i + 11 <= j <= |sql| && ValuesAt(sql, j)
    ensures PatternMatches(sql)
  {
  }

  /** Without an `INSERT INTO` the pattern cannot match. */
  lemma NoInsertNoMatch(sql: string)
    requires forall i :: 0 <= i <= |sql| ==> !MatchesCI(sql, i, "insert into")
    ensures !PatternMatches(sql)
  {
    forall i, j | 0 <= i && i + 11 <= j <= |sql|
      ensures !(ValuesAt(sql, j) && MatchesCI(sql, i, "insert into"))
    {
      assert i <= |sql|;
    }
  }

  /** Without a `VALUES (` after the first `INSERT INTO` the pattern cannot match. */
  lemma NoValuesNoMatch(sql: string, first: nat)
    requires forall i :: 0 <= i < first ==> !MatchesCI(sql, i, "insert into")
    requires forall j: nat :: first + 11 <= j < |sql| + 1 ==> !ValuesAt(sql, j)
    ensures !PatternMatches(sql)
  {
    forall i, j | 0 <= i && i + 11 <= j <= |sql|
      ensures !(ValuesAt(sql, j) && MatchesCI(sql, i, "insert into"))
    {
      if MatchesCI(sql, i, "insert into") {
        assert i >= first;
      }
    }
  }


  // ------------------------------------------------------- adjust_sql_syntax

  /** `adjust_sql_syntax`: backticks become double quotes for supabase; other dialects are untouched. */
  function AdjustSqlSyntax(sql: string, dialect: Dialect): (r: string)
    ensures dialect != Supabase ==> r == sql
    ensures dialect == Supabase ==> '`' !in r
    ensures dialect == Supabase ==>
      |r| == |sql| && forall i :: 0 <= i < |sql| ==> r[i] == if sql[i] == '`' then '"' else sql[i]
  {
    if dialect == Supabase then
      ReplaceCharRemoves(sql, '`', "\"", '`');
      ReplaceCharByChar(sql, '`', '"');
      Replace(sql, "`", "\"")
    else sql
  }

  /** Adjusting twice is adjusting once. */
  lemma AdjustIdempotent(sql: string, dialect: Dialect)
    ensures AdjustSqlSyntax(AdjustSqlSyntax(sql, dialect), dialect) == AdjustSqlSyntax(sql, dialect)
  {
    if dialect == Supabase {
      ReplaceCharFree(AdjustSqlSyntax(sql, dialect), '`', "\"");
    }
  }

  /** The rewrite touches only backticks: each other character is present afterwards iff it was before. */
  lemma AdjustKeepsOtherChars(sql: string, dialect: Dialect, d: char)
    requires d != '`' && d != '"'
    ensures (d in AdjustSqlSyntax(sql, dialect)) == (d in sql)
  {
    if dialect == Supabase {
      ReplaceCharKeeps(sql, '`', "\"", d);
    }
  }

  /**
   * The rewrite is applied to whole statements, so a backtick inside a supabase string
   * value is stored as a double quote.
   */
  lemma AdjustRewritesValues()
    ensures AdjustSqlSyntax("E'a`b'", Supabase) == "E'a\"b'"
  {
    var head: string, tail: string := "E'a", "b'";
    var s := head + ['`'] + tail;
    assert s == "E'a`b'";
    assert s == head + ([ '`'] + tail);
    ReplaceCharConcat(head, ['`'] + tail, '`', "\"");
    ReplaceCharFree(head, '`', "\"");
    ReplaceCharCons('`', tail, '`', "\"");
    ReplaceCharFree(tail, '`', "\"");
    assert head + "\"" + tail == "E'a\"b'";
  }

  // ------------------------------------------------------- ON CONFLICT

  /** The clause the tool appends: `ON CONFLICT(<pk columns>) DO NOTHING`. */
  function ConflictClause(pkColumns: string): string {
    " ON CONFLICT(" + pkColumns + ") DO NOTHING"
  }

  /** The statement carries the conflict clause. */
  predicate HasConflictClause(sql: string) {
    EndsWith(sql, " DO NOTHING")
  }

  /**
   * `export_dml_to_database`'s suffix rule: the primary-key columns are joined with `, `
   * and the clause is appended exactly when that text is non-empty.
   */
  function WithConflict(sql: string, pk: seq<string>): (r: string)
    ensures var cols := Join(", ", pk);
      cols != [] ==> r == sql + ConflictClause(cols)
    ensures Join(", ", pk) == [] ==> r == sql
  {
    var cols := Join(", ", pk);
    if cols != [] then sql + ConflictClause(cols) else sql
  }

  /** With primary-key columns configured, the executed statement carries the clause. */
  lemma WithConflictAdds(sql: string, pk: seq<string>)
    requires Join(", ", pk) != []
    ensures HasConflictClause(WithConflict(sql, pk))
  {
    var r := sql + ConflictClause(Join(", ", pk));
    assert r[|r| - 11..] == " DO NOTHING";
  }

  /** A statement gets the clause iff primary-key columns are configured (or it already had it). */
  lemma WithConflictIff(sql: string, pk: seq<string>)
    requires !HasConflictClause(sql)
    ensures HasConflictClause(WithConflict(sql, pk)) <==> Join(", ", pk) != []
  {
    if Join(", ", pk) != [] {
      WithConflictAdds(sql, pk);
    }
  }

  /** A list of configured key columns joins to empty only when it is empty or one empty name. */
  lemma JoinEmpty(pk: seq<string>)
    ensures Join(", ", pk) == [] <==> pk == [] || pk == [""]
  {
    if |pk| >= 2 {
      assert |Join(", ", pk)| >= 2;
    }
  }

  /**
   * Which text a statement is executed as: the tool's, which appends the conflict clause
   * whatever the target, or the corrected rule, which appends it only for PostgreSQL (MySQL
   * has no `ON CONFLICT`; its key constraint refuses a duplicate instead).
   */
  datatype ClauseRule = AlwaysAppend | PostgresOnly

  function WithConflictFor(sql: string, pk: seq<string>, dialect: Dialect, rule: ClauseRule): (r: string)
    ensures rule == AlwaysAppend || dialect == Supabase ==> r == WithConflict(sql, pk)
    ensures rule == PostgresOnly && dialect != Supabase ==> r == sql
  {
    if rule == AlwaysAppend || dialect == Supabase then WithConflict(sql, pk) else sql
  }

  // ------------------------------------------------------- the target

  /** What executing one statement did. */
  datatype Outcome =
    | Committed
      /** An `IntegrityError` from psycopg2, whose `diag` carries the primary message and detail. */
    | Integrity(primary: string, detail: string)
      /** An `IntegrityError` from pymysql, which has no `diag`: only the text `str(e)`. */
    | PlainIntegrity(text: string)
      /** An `OperationalError` or another `SQLAlchemyError` (a syntax error among them). */
    | Failed

  /** The outcome is an `IntegrityError`, from either driver. */
  predicate IsIntegrity(o: Outcome) {
    o.Integrity? || o.PlainIntegrity?
  }

  /** The text of an integrity error as `str(e)` shows it. */
  function ErrorText(primary: string, detail: string): (r: string)
    ensures StartsWith(r, primary) && EndsWith(r, "\nDETAIL:  " + detail)
    ensures Contains(primary, "already exists") ==> Contains(r, "already exists")
  {
    var tail := "\nDETAIL:  " + detail;
    ContainsAppend(primary, tail, "already exists");
    EndsWithAppend(primary, tail);
    primary + tail
  }

  /** The outcome is an integrity error whose text says the key already exists. */
  predicate IsDuplicate(o: Outcome) {
    || (o.Integrity? && Contains(ErrorText(o.primary, o.detail), "already exists"))
    || (o.PlainIntegrity? && Contains(o.text, "already exists"))
  }

  /**
   * The target table, abstractly: the primary-key values of its rows, and whether a
   * primary key constraint exists. The key of a statement's row is read by `keyOf`;
   * None stands for a statement the server rejects.
   */
  datatype Target = Target(rows: multiset<string>, keyed: bool)

  const DuplicateDetailSuffix := " already exists."

  /** `str(e)` of MySQL's error 1062 as pymysql raises it. */
  function MySqlDuplicateText(k: string): string {
    MySqlDuplicateHead + k + MySqlDuplicateTail
  }

  const MySqlDuplicateHead := "(pymysql.err." + "IntegrityError) " + "(1062, \"Duplicate entry '"
  const MySqlDuplicateTail := "' for key 'PRIMARY'\")"

  /** The integrity error a server raises for a key that is already present. */
  function DuplicateKey(server: Dialect, k: string): (o: Outcome)
    ensures server == Supabase ==> o.Integrity?
    ensures server != Supabase ==> o == PlainIntegrity(MySqlDuplicateText(k))
  {
    if server == Supabase then
      Integrity("duplicate key value violates unique constraint",
                "Key (" + k + ")=(" + k + ")" + DuplicateDetailSuffix)
    else PlainIntegrity(MySqlDuplicateText(k))
  }

  /**
   * The server executing one INSERT: PostgreSQL for `supabase`, MySQL otherwise (no
   * connection is made for another type). MySQL has no `ON CONFLICT` and rejects a
   * statement carrying it as a syntax error. On PostgreSQL a statement with the clause
   * skips a row whose key is present (and fails without a key constraint to match).
   * Without the clause a present key violates the constraint; otherwise the row is added.
   */
  function Execute(server: Dialect, t: Target, sql: string, keyOf: string -> Option<string>): (res: (Outcome, Target))
    ensures res.0.Committed? || res.1 == t
    ensures res.1.keyed == t.keyed
    ensures server != Supabase && HasConflictClause(sql) ==> res == (Failed, t)
    ensures res.0.Integrity? ==> server == Supabase
    ensures res.0.PlainIntegrity? ==> server != Supabase
  {
    if server != Supabase && HasConflictClause(sql) then (Failed, t)
    else
      match keyOf(sql)
      case None => (Failed, t)
      case Some(k) =>
        if HasConflictClause(sql) && !t.keyed then (Failed, t)
        else if k in t.rows && t.keyed then
          if HasConflictClause(sql) then (Committed, t)
          else (DuplicateKey(server, k), t)
        else (Committed, Target(t.rows + multiset{k}, t.keyed))
  }

  /** With a key constraint, a row appears at most once, and keeps doing so after any statement. */
  predicate KeysUnique(t: Target) {
    t.keyed ==> forall k :: k in t.rows ==> t.rows[k] == 1
  }

  lemma ExecuteKeepsKeysUnique(server: Dialect, t: Target, sql: string, keyOf: string -> Option<string>)
    requires KeysUnique(t)
    ensures KeysUnique(Execute(server, t, sql, keyOf).1)
  {
  }

  /** An integrity error from the target is always a duplicate, and the dedupe count sees it. */
  lemma ExecuteIntegrityIsDuplicate(server: Dialect, t: Target, sql: string, keyOf: string -> Option<string>)
    ensures Execute(server, t, sql, keyOf).0.Integrity? ==> IsDuplicate(Execute(server, t, sql, keyOf).0)
  {
    var o := Execute(server, t, sql, keyOf).0;
    if o.Integrity? {
      assert o == DuplicateKey(Supabase, keyOf(sql).value);
      PostgresDuplicateSaysAlreadyExists(keyOf(sql).value);
    }
  }

  /** PostgreSQL's duplicate-key error says `already exists` in its detail line. */
  lemma PostgresDuplicateSaysAlreadyExists(k: string)
    ensures IsDuplicate(DuplicateKey(Supabase, k))
  {
    var o := DuplicateKey(Supabase, k);
    var x := o.primary + "\nDETAIL:  " + ("Key (" + k + ")=(" + k + ")");
    assert ErrorText(o.primary, o.detail) == x + DuplicateDetailSuffix;
    EndsSayingAlreadyExists(x);
  }

  /** Any text ending in the detail suffix says `already exists`. */
  lemma EndsSayingAlreadyExists(x: string)
    ensures Contains(x + DuplicateDetailSuffix, "already exists")
  {
    var w := "already exists";
    assert DuplicateDetailSuffix == " " + w + ".";
    assert x + DuplicateDetailSuffix == (x + " ") + w + ".";
    OccursBetween(x + " ", w, ".");
  }

  /** A text occurs where it is put. */
  lemma OccursBetween(a: string, w: string, b: string)
    ensures OccursAt(a + w + b, w, |a|)
  {
    assert (a + w + b)[|a|..|a| + |w|] == w;
  }

  /**
   * MySQL's duplicate-key error does not say `already exists`, so the duplicate counter
   * misses it (for any key without an `x`, the tenth letter of `already exists`).
   */
  lemma ExecuteMySqlDuplicateUncounted(server: Dialect, t: Target, sql: string, keyOf: string -> Option<string>)
    requires server != Supabase
    ensures var o := Execute(server, t, sql, keyOf).0;
      o.PlainIntegrity? ==> keyOf(sql).Some? && o.text == MySqlDuplicateText(keyOf(sql).value)
    ensures var o := Execute(server, t, sql, keyOf).0;
      o.PlainIntegrity? && keyOf(sql).Some? && 'x' !in keyOf(sql).value ==> !IsDuplicate(o)
  {
    var o := Execute(server, t, sql, keyOf).0;
    if o.PlainIntegrity? && keyOf(sql).Some? && 'x' !in keyOf(sql).value {
      MySqlDuplicateNotAlreadyExists(keyOf(sql).value);
    }
  }

  lemma MySqlDuplicateNotAlreadyExists(k: string)
    requires 'x' !in k
    ensures !Contains(MySqlDuplicateText(k), "already exists")
  {
    MySqlDuplicateNoX(k);
    NoXNoAlreadyExists(MySqlDuplicateText(k));
  }

  lemma MySqlDuplicateNoX(k: string)
    requires 'x' !in k
    ensures 'x' !in MySqlDuplicateText(k)
  {
    HeadNoX();
    TailNoX();
  }

  lemma HeadNoX()
    ensures 'x' !in MySqlDuplicateHead
  {
    assert 'x' !in "(pymysql.err.";
    assert 'x' !in "IntegrityError) ";
    assert 'x' !in "(1062, \"Duplicate entry '";
  }

  lemma TailNoX()
    ensures 'x' !in MySqlDuplicateTail
  {
  }


  /** A text without an `x` does not contain `already exists`. */
  lemma NoXNoAlreadyExists(s: string)
    requires 'x' !in s
    ensures !Contains(s, "already exists")
  {
    forall i | 0 <= i <= |s| ensures !OccursAt(s, "already exists", i) {
      if i + 14 <= |s| {
        assert s[i + 9] in s;
        MismatchNotOccurs(s, "already exists", i, 9);
      }
    }
  }



  /**
   * On a PostgreSQL server with a key constraint, a statement with the conflict clause
   * never removes a row, and afterwards the key it names is present.
   */
  lemma ExecuteConflictAbsorbs(t: Target, sql: string, keyOf: string -> Option<string>)
    requires HasConflictClause(sql) && t.keyed
    ensures t.rows <= Execute(Supabase, t, sql, keyOf).1.rows
    ensures keyOf(sql).Some? ==> keyOf(sql).value in Execute(Supabase, t, sql, keyOf).1.rows
  {
  }

  /**
   * On a keyed target, a statement without the clause never removes a row either, and its
   * key is present afterwards: a present key is refused with an integrity error.
   */
  lemma ExecuteUnclausedAbsorbs(server: Dialect, t: Target, sql: string, keyOf: string -> Option<string>)
    requires !HasConflictClause(sql) && t.keyed
    ensures t.rows <= Execute(server, t, sql, keyOf).1.rows
    ensures keyOf(sql).Some? ==> keyOf(sql).value in Execute(server, t, sql, keyOf).1.rows
    ensures keyOf(sql).Some? && keyOf(sql).value in t.rows <==> IsIntegrity(Execute(server, t, sql, keyOf).0)
  {
  }

  /**
   * A statement with the conflict clause whose key is already present changes nothing and
   * raises no integrity error, on either server.
   */
  lemma ExecuteConflictPresent(server: Dialect, t: Target, sql: string, keyOf: string -> Option<string>)
    requires HasConflictClause(sql) && t.keyed
    requires keyOf(sql).Some? ==> keyOf(sql).value in t.rows
    ensures Execute(server, t, sql, keyOf).1 == t && !IsIntegrity(Execute(server, t, sql, keyOf).0)
  {
  }

  /**
   * As written, a MySQL target with key columns configured is sent the conflict clause and
   * rejects every statement: nothing is inserted.
   */
  lemma AsWrittenClauseRejected(server: Dialect, t: Target, sql: string, pk: seq<string>, keyOf: string -> Option<string>)
    requires server != Supabase && Join(", ", pk) != []
    ensures Execute(server, t, WithConflictFor(sql, pk, server, AlwaysAppend), keyOf) == (Failed, t)
  {
    WithConflictAdds(sql, pk);
  }

  /**
   * With the clause sent only to PostgreSQL, every statement on a keyed target of either
   * kind keeps every row and leaves its own key present.
   */
  lemma CorrectedClauseAbsorbs(server: Dialect, t: Target, sql: string, pk: seq<string>, keyOf: string -> Option<string>)
    requires t.keyed && Join(", ", pk) != [] && !HasConflictClause(sql)
    ensures var e := WithConflictFor(sql, pk, server, PostgresOnly);
      t.rows <= Execute(server, t, e, keyOf).1.rows
      && (keyOf(e).Some? ==> keyOf(e).value in Execute(server, t, e, keyOf).1.rows)
  {
    var e := WithConflictFor(sql, pk, server, PostgresOnly);
    if server == Supabase {
      WithConflictAdds(sql, pk);
      ExecuteConflictAbsorbs(t, e, keyOf);
    } else {
      ExecuteUnclausedAbsorbs(server, t, e, keyOf);
    }
  }
}
