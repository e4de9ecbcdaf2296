/**
 * The `DataExporter` object: the stored INSERT header, file export with its naming and
 * write mode, the statement-by-statement insert loop with the resume latch, the image
 * export with its skip rules, and the export summary.
 */
module Exporter {
  import opened Wrappers
  import opened Text
  import opened SqlValues
  import opened Statements
  import opened BulkInsert

  /** One recorded integrity error: the server's message, its detail, and the statement. */
  datatype ErrorInfo = ErrorInfo(message: string, detail: string, sql: string)

  /** The configuration and options the exporter reads (its clock reading included). */
  datatype Settings = Settings(
    dialect: Dialect,
    migSchema: string,
    pkConfig: map<string, seq<string>>,
    startFrom: Option<string>,
    fileFormat: string,
    prefix: string,
    dateString: string,
    exportDir: string,
    jpgDir: string,
    webpDir: string,
    imageFormats: seq<string>)

  predicate NoDuplicates(s: seq<string>) {
    forall a, b :: 0 <= a < b < |s| ==> s[a] != s[b]
  }

  // ------------------------------------------------------------ file naming

  /** `<table>_<type>` for one file per table, the bare type otherwise. */
  function FileTag(fileFormat: string, table: string, exportType: string): string {
    if fileFormat == "multi" then table + "_" + exportType else exportType
  }

  function FileName(dateString: string, prefix: string, tag: string): string {
    dateString + "_" + prefix + "_" + tag + ".sql"
  }

  /** The comment block opening a DML file. */
  function DmlBanner(table: string, timestamp: string): string {
    "\n/*\n" + "\tTable: " + table + "\n" + "\tDate: " + timestamp + "\n" + "*/\n"
  }

  /** What one call writes: the banner for a DML header, then DDL with `;`, or DML with `;` only on the footer. */
  function FileText(content: string, table: string, exportType: string, isHeader: bool, isFooter: bool,
                    timestamp: string): string
  {
    (if isHeader && exportType == "dml" then DmlBanner(table, timestamp) else "")
    + (if content == "" then ""
       else if exportType == "ddl" then content + ";\n"
       else content + (if isFooter then ";\n" else "") + "\n")
  }

  /** In the one-file-per-table layout, two tables never share a file of the same type. */
  lemma MultiFileNamesDistinct(d: string, p: string, t1: string, t2: string, exportType: string)
    requires t1 != t2
    ensures FileName(d, p, FileTag("multi", t1, exportType)) != FileName(d, p, FileTag("multi", t2, exportType))
  {
    var n1 := FileName(d, p, FileTag("multi", t1, exportType));
    var n2 := FileName(d, p, FileTag("multi", t2, exportType));
    var pre := d + "_" + p + "_";
    var post := "_" + exportType + ".sql";
    assert n1 == pre + t1 + post;
    assert n2 == pre + t2 + post;
    if |t1| == |t2| {
      var k :| 0 <= k < |t1| && t1[k] != t2[k];
      assert n1[|pre| + k] == t1[k];
      assert n2[|pre| + k] == t2[k];
    } else {
      assert |n1| != |n2|;
    }
  }

  /** In the single-file layout every table writes into the one file of its type. */
  lemma SingleFileShared(d: string, p: string, t1: string, t2: string, exportType: string, fileFormat: string)
    requires fileFormat != "multi"
    ensures FileName(d, p, FileTag(fileFormat, t1, exportType)) == FileName(d, p, FileTag(fileFormat, t2, exportType))
          == d + "_" + p + "_" + exportType + ".sql"
  {
  }

  // ------------------------------------------------------------ the insert loop

  /**
   * What the insert loop reads besides its statements: `dialect` is the target server's
   * type, and `rule` says when the conflict clause is appended (`DataExporter` always
   * appends it).
   */
  datatype DmlConfig = DmlConfig(
    header: string,
    table: string,
    startFrom: Option<string>,
    dialect: Dialect,
    pk: seq<string>,
    rule: ClauseRule,
    keyOf: string -> Option<string>,
    imageNo: string -> Option<string>)

  /** The counters and records the loop updates; `skipped` counts statements the latch passes over. */
  datatype DmlState = DmlState(
    inserted: nat,
    errors: nat,
    skipped: nat,
    started: bool,
    log: map<nat, ErrorInfo>,
    dupes: nat,
    target: Target)

  /** Resuming is on for ratcatalogue when a non-empty `start_from` is set. */
  predicate LatchActive(cfg: DmlConfig) {
    cfg.startFrom.Some? && cfg.startFrom.value != "" && cfg.table == "ratcatalogue"
  }

  /** A piece of the split text, with the stored header put back when it carries no `INSERT INTO`. */
  function StatementOf(header: string, piece: string): string {
    if HasInsertInto(piece) then piece else header + piece
  }

  /** The statements the loop executes, one per piece, in order. */
  function StatementsOf(header: string, pieces: seq<string>): (r: seq<string>)
    ensures |r| == |pieces| && forall i :: 0 <= i < |pieces| ==> r[i] == StatementOf(header, pieces[i])
  {
    seq(|pieces|, i requires 0 <= i < |pieces| => StatementOf(header, pieces[i]))
  }

  /** The statement carries the image number resuming starts from. */
  predicate StartsHere(cfg: DmlConfig, sql: string) {
    cfg.imageNo(sql) == cfg.startFrom
  }

  predicate Skips(cfg: DmlConfig, started: bool, sql: string) {
    LatchActive(cfg) && !started && !StartsHere(cfg, sql)
  }

  /** The text a non-skipped statement is sent to the target as. */
  function Executed(cfg: DmlConfig, sql: string): string {
    WithConflictFor(AdjustSqlSyntax(sql, cfg.dialect), cfg.pk, cfg.dialect, cfg.rule)
  }

  /**
   * Counting one executed statement: committed rows as inserted, others as errors,
   * integrity errors logged (with `str(e)` as both texts where the driver has no `diag`).
   */
  function Record(st: DmlState, adjusted: string, o: Outcome, t: Target): (r: DmlState)
    ensures r.skipped == st.skipped && r.started == st.started && r.target == t
    ensures o.Committed? ==> r == st.(inserted := st.inserted + 1, target := t)
    ensures !o.Committed? ==> r.inserted == st.inserted && r.errors == st.errors + 1
    ensures r.dupes == st.dupes + (if IsDuplicate(o) then 1 else 0)
    ensures o.Integrity? ==> r.log == st.log[st.errors + 1 := ErrorInfo(o.primary, o.detail, adjusted)]
    ensures o.PlainIntegrity? ==> r.log == st.log[st.errors + 1 := ErrorInfo(o.text, o.text, adjusted)]
    ensures !IsIntegrity(o) ==> r.log == st.log
  {
    match o
    case Committed => st.(inserted := st.inserted + 1, target := t)
    case Integrity(p, d) =>
      st.(errors := st.errors + 1,
          log := st.log[st.errors + 1 := ErrorInfo(p, d, adjusted)],
          dupes := st.dupes + (if IsDuplicate(o) then 1 else 0), target := t)
    case PlainIntegrity(e) =>
      st.(errors := st.errors + 1,
          log := st.log[st.errors + 1 := ErrorInfo(e, e, adjusted)],
          dupes := st.dupes + (if IsDuplicate(o) then 1 else 0), target := t)
    case Failed => st.(errors := st.errors + 1, target := t)
  }

  /**
   * One turn of the loop of `export_dml_to_database`: a skipped statement only counts as
   * skipped; any other statement sets the latch (when resuming) and is executed and recorded.
   */
  function DmlStep(cfg: DmlConfig, st: DmlState, sql: string): (r: DmlState)
    ensures r.inserted + r.errors + r.skipped == st.inserted + st.errors + st.skipped + 1
    ensures Skips(cfg, st.started, sql) ==> r == st.(skipped := st.skipped + 1)
    ensures !Skips(cfg, st.started, sql) ==>
      r.skipped == st.skipped && r.target == Execute(cfg.dialect, st.target, Executed(cfg, sql), cfg.keyOf).1
    ensures r.started <==> st.started || (LatchActive(cfg) && StartsHere(cfg, sql))
    ensures st.inserted <= r.inserted && st.errors <= r.errors && st.dupes <= r.dupes
  {
    if Skips(cfg, st.started, sql) then st.(skipped := st.skipped + 1)
    else
      var res := Execute(cfg.dialect, st.target, Executed(cfg, sql), cfg.keyOf);
      Record(st.(started := st.started || LatchActive(cfg)), AdjustSqlSyntax(sql, cfg.dialect), res.0, res.1)
  }

  /** The loop over all statements, in order. */
  function DmlRun(cfg: DmlConfig, st: DmlState, stmts: seq<string>): (r: DmlState)
    ensures st.inserted <= r.inserted && st.errors <= r.errors && st.dupes <= r.dupes
    decreases |stmts|
  {
    if stmts == [] then st
    else DmlStep(cfg, DmlRun(cfg, st, stmts[..|stmts| - 1]), stmts[|stmts| - 1])
  }

  /** Every statement is counted exactly once: as inserted, as an error, or as skipped. */
  lemma {:induction false} DmlRunCounts(cfg: DmlConfig, st: DmlState, stmts: seq<string>)
    ensures var r := DmlRun(cfg, st, stmts);
      r.inserted + r.errors + r.skipped == st.inserted + st.errors + st.skipped + |stmts|
      && st.inserted <= r.inserted && st.errors <= r.errors && st.dupes <= r.dupes
    decreases |stmts|
  {
    if stmts != [] {
      DmlRunCounts(cfg, st, stmts[..|stmts| - 1]);
    }
  }

  /** Once resuming has started it stays started; and without a latch nothing is skipped. */
  lemma {:induction false} DmlRunLatchPersists(cfg: DmlConfig, st: DmlState, stmts: seq<string>)
    ensures st.started ==> DmlRun(cfg, st, stmts).started
    ensures st.started || !LatchActive(cfg) ==> DmlRun(cfg, st, stmts).skipped == st.skipped
    decreases |stmts|
  {
    if stmts != [] {
      DmlRunLatchPersists(cfg, st, stmts[..|stmts| - 1]);
    }
  }

  /** The first `j` in `[lo, hi)` at which `P` holds, or `hi`. */
  function FirstWhere(lo: nat, hi: nat, P: nat -> bool): (r: nat)
    requires lo <= hi
    ensures lo <= r <= hi && (r < hi ==> P(r))
    ensures forall j :: lo <= j < r ==> !P(j)
    decreases hi - lo
  {
    if lo == hi then hi
    else if P(lo) then lo
    else FirstWhere(lo + 1, hi, P)
  }

  /** The index of the first statement resuming starts from, or the number of statements. */
  function FirstStart(cfg: DmlConfig, stmts: seq<string>): (k: nat)
    ensures k <= |stmts|
    ensures k < |stmts| ==> StartsHere(cfg, stmts[k])
    ensures forall j :: 0 <= j < k ==> !StartsHere(cfg, stmts[j])
  {
    var P := (j: nat) => j < |stmts| && StartsHere(cfg, stmts[j]);
    assert forall j: nat :: P(j) == (j < |stmts| && StartsHere(cfg, stmts[j]));
    FirstWhere(0, |stmts|, P)
  }

  /**
   * The resume latch: starting unlatched, exactly the statements before the first one carrying
   * the `start_from` image number are skipped, and the latch is set iff that statement exists.
   */
  lemma {:induction false} DmlRunSkipsPrefix(cfg: DmlConfig, st: DmlState, stmts: seq<string>)
    requires LatchActive(cfg) && !st.started
    ensures DmlRun(cfg, st, stmts).skipped == st.skipped + FirstStart(cfg, stmts)
    ensures DmlRun(cfg, st, stmts).started <==> FirstStart(cfg, stmts) < |stmts|
    decreases |stmts|
  {
    if stmts != [] {
      var n := |stmts| - 1;
      var init := stmts[..n];
      DmlRunSkipsPrefix(cfg, st, init);
      FirstStartSnoc(cfg, stmts);
      DmlRunLatch(cfg, st, stmts, FirstStart(cfg, init));
    }
  }

  /** The latch step of `DmlStepLatch`, applied to the last statement of a batch. */
  lemma DmlRunLatch(cfg: DmlConfig, st: DmlState, stmts: seq<string>, k: nat)
    requires LatchActive(cfg) && stmts != [] && k <= |stmts| - 1
    requires var mid := DmlRun(cfg, st, stmts[..|stmts| - 1]);
      mid.skipped == st.skipped + k && (mid.started <==> k < |stmts| - 1)
    ensures var n := |stmts| - 1;
      var k' := if k < n then k else if StartsHere(cfg, stmts[n]) then n else n + 1;
      && DmlRun(cfg, st, stmts).skipped == st.skipped + k'
      && (DmlRun(cfg, st, stmts).started <==> k' < n + 1)
  {
    var n := |stmts| - 1;
    DmlStepLatch(cfg, DmlRun(cfg, st, stmts[..n]), stmts[n], st.skipped, k, n);
  }

  /**
   * One step of an active latch, after `n` statements of which the first `k` were skipped
   * (`k == n` while the latch is unset): a skipped statement is counted, and the latch sets
   * on a starting one.
   */
  lemma DmlStepLatch(cfg: DmlConfig, mid: DmlState, sql: string, skipped0: nat, k: nat, n: nat)
    requires LatchActive(cfg) && k <= n
    requires mid.skipped == skipped0 + k && (mid.started <==> k < n)
    ensures var r := DmlStep(cfg, mid, sql);
      var k' := if k < n then k else if StartsHere(cfg, sql) then n else n + 1;
      && r.skipped == skipped0 + k'
      && (r.started <==> k' < n + 1)
  { }

  /** Where the first starting statement of a batch is, given where it is in the batch without its last one. */
  lemma FirstStartSnoc(cfg: DmlConfig, stmts: seq<string>)
    requires stmts != []
    ensures var n := |stmts| - 1;
      var k := FirstStart(cfg, stmts[..n]);
      FirstStart(cfg, stmts) == if k < n then k else if StartsHere(cfg, stmts[n]) then n else n + 1
  {
    var n := |stmts| - 1;
    var init := stmts[..n];
    var k := FirstStart(cfg, init);
    var K := FirstStart(cfg, stmts);
    assert forall j :: 0 <= j < n ==> init[j] == stmts[j];
    if k < n {
      assert StartsHere(cfg, stmts[k]);
      assert K <= k;
      assert K < n ==> StartsHere(cfg, init[K]);
    } else {
      forall j | 0 <= j < n ensures !StartsHere(cfg, stmts[j]) {
        assert init[j] == stmts[j];
      }
    }
  }

  /** The key of the row a statement inserts, as the target reads the executed statement. */
  function StatementKey(cfg: DmlConfig, sql: string): Option<string> {
    cfg.keyOf(Executed(cfg, sql))
  }

  /** Every key the statements insert is present in the target. */
  predicate KeysPresent(cfg: DmlConfig, t: Target, stmts: seq<string>) {
    forall j :: 0 <= j < |stmts| && StatementKey(cfg, stmts[j]).Some? ==> StatementKey(cfg, stmts[j]).value in t.rows
  }

  /**
   * The clause is sent only where the server reads it: to PostgreSQL, or under the
   * corrected rule, to a MySQL server whose statements do not themselves end in ` DO NOTHING`.
   */
  predicate ClauseUnderstood(cfg: DmlConfig, stmts: seq<string>) {
    cfg.dialect == Supabase
    || (cfg.rule == PostgresOnly && forall j :: 0 <= j < |stmts| ==> !HasConflictClause(stmts[j]))
  }

  /**
   * Where the clause is understood, statements never remove rows, and after a run a keyed
   * target holds every key of the batch (a present key is skipped by the clause or
   * refused by the key constraint).
   */
  lemma {:induction false} DmlRunAbsorbs(cfg: DmlConfig, st: DmlState, stmts: seq<string>)
    requires Join(", ", cfg.pk) != [] && st.target.keyed && ClauseUnderstood(cfg, stmts)
    requires st.started || !LatchActive(cfg)
    ensures st.target.rows <= DmlRun(cfg, st, stmts).target.rows
    ensures DmlRun(cfg, st, stmts).target.keyed
    ensures KeysPresent(cfg, DmlRun(cfg, st, stmts).target, stmts)
    decreases |stmts|
  {
    if stmts != [] {
      var n := |stmts| - 1;
      var init := stmts[..n];
      assert ClauseUnderstood(cfg, init) by {
        forall j | 0 <= j < n ensures init[j] == stmts[j] {}
      }
      DmlRunAbsorbs(cfg, st, init);
      DmlRunLatchPersists(cfg, st, init);
      var mid := DmlRun(cfg, st, init);
      var r := DmlStep(cfg, mid, stmts[n]);
      assert DmlRun(cfg, st, stmts) == r;
      assert ClauseUnderstood(cfg, [stmts[n]]);
      DmlStepAbsorbs(cfg, mid, stmts[n]);
      assert stmts == init + [stmts[n]];
      KeysPresentSnoc(cfg, mid.target, r.target, init, stmts[n]);
    }
  }

  /** Keys present before a step stay present when the step keeps every row and adds its own key. */
  lemma KeysPresentSnoc(cfg: DmlConfig, t: Target, t': Target, init: seq<string>, sql: string)
    requires KeysPresent(cfg, t, init) && t.rows <= t'.rows
    requires StatementKey(cfg, sql).Some? ==> StatementKey(cfg, sql).value in t'.rows
    ensures KeysPresent(cfg, t', init + [sql])
  {
    var all := init + [sql];
    forall j | 0 <= j < |all| && StatementKey(cfg, all[j]).Some?
      ensures StatementKey(cfg, all[j]).value in t'.rows
    {
      if j < |init| {
        assert all[j] == init[j];
      }
    }
  }

  /**
   * One statement of a started (or latch-free) run on a keyed target, with the clause
   * understood, keeps every row and adds its own key.
   */
  lemma DmlStepAbsorbs(cfg: DmlConfig, st: DmlState, sql: string)
    requires Join(", ", cfg.pk) != [] && st.target.keyed && ClauseUnderstood(cfg, [sql])
    requires st.started || !LatchActive(cfg)
    ensures var r := DmlStep(cfg, st, sql);
      && st.target.rows <= r.target.rows && r.target.keyed
      && (StatementKey(cfg, sql).Some? ==> StatementKey(cfg, sql).value in r.target.rows)
  {
    assert !Skips(cfg, st.started, sql);
    var adjusted := AdjustSqlSyntax(sql, cfg.dialect);
    if cfg.dialect == Supabase {
      WithConflictAdds(adjusted, cfg.pk);
      ExecuteConflictAbsorbs(st.target, Executed(cfg, sql), cfg.keyOf);
    } else {
      assert [sql][0] == sql;
      CorrectedClauseAbsorbs(cfg.dialect, st.target, adjusted, cfg.pk, cfg.keyOf);
    }
  }

  /** The conflict clause is appended: always as written, and for PostgreSQL under the corrected rule. */
  predicate AppendsClause(cfg: DmlConfig) {
    cfg.rule == AlwaysAppend || cfg.dialect == Supabase
  }

  /**
   * With primary-key columns configured, running the same batch again changes nothing in
   * the target and counts no duplicate: on PostgreSQL every row is skipped by
   * `ON CONFLICT DO NOTHING`, and on MySQL every statement is rejected.
   */
  lemma {:induction false} DmlRerunIdempotent(cfg: DmlConfig, st: DmlState, stmts: seq<string>)
    requires Join(", ", cfg.pk) != [] && st.target.keyed && AppendsClause(cfg)
    requires st.started || !LatchActive(cfg)
    requires KeysPresent(cfg, st.target, stmts)
    ensures DmlRun(cfg, st, stmts).target == st.target
    ensures DmlRun(cfg, st, stmts).dupes == st.dupes
    ensures DmlRun(cfg, st, stmts).log == st.log
    decreases |stmts|
  {
    if stmts != [] {
      var n := |stmts| - 1;
      var init := stmts[..n];
      assert KeysPresent(cfg, st.target, init) by {
        forall j | 0 <= j < n ensures stmts[j] == init[j] {}
      }
      DmlRerunIdempotent(cfg, st, init);
      DmlRunLatchPersists(cfg, st, init);
      var mid := DmlRun(cfg, st, init);
      var e := Executed(cfg, stmts[n]);
      assert DmlRun(cfg, st, stmts) == DmlStep(cfg, mid, stmts[n]);
      assert !Skips(cfg, mid.started, stmts[n]);
      WithConflictAdds(AdjustSqlSyntax(stmts[n], cfg.dialect), cfg.pk);
      ExecuteConflictPresent(cfg.dialect, mid.target, e, cfg.keyOf);
    }
  }

  /** Running a batch, then the same batch again, leaves the target as the first run left it. */
  lemma DmlRunTwice(cfg: DmlConfig, st: DmlState, stmts: seq<string>)
    requires Join(", ", cfg.pk) != [] && st.target.keyed && AppendsClause(cfg)
    requires st.started || !LatchActive(cfg)
    ensures var once := DmlRun(cfg, st, stmts);
      DmlRun(cfg, once, stmts).target == once.target && DmlRun(cfg, once, stmts).dupes == once.dupes
  {
    if cfg.dialect == Supabase {
      DmlRunAbsorbs(cfg, st, stmts);
      DmlRunLatchPersists(cfg, st, stmts);
      DmlRerunIdempotent(cfg, DmlRun(cfg, st, stmts), stmts);
    } else {
      DmlRunRejected(cfg, DmlRun(cfg, st, stmts), stmts);
    }
  }

  /**
   * As written, a MySQL target with key columns configured is sent `ON CONFLICT`, which it
   * rejects as a syntax error: every statement the latch lets through counts as an error,
   * and nothing is inserted or recorded.
   */
  lemma {:induction false} DmlRunRejected(cfg: DmlConfig, st: DmlState, stmts: seq<string>)
    requires cfg.dialect != Supabase && cfg.rule == AlwaysAppend && Join(", ", cfg.pk) != []
    ensures var r := DmlRun(cfg, st, stmts);
      && r.inserted == st.inserted && r.target == st.target && r.log == st.log && r.dupes == st.dupes
      && r.errors + r.skipped == st.errors + st.skipped + |stmts|
    decreases |stmts|
  {
    if stmts != [] {
      var n := |stmts| - 1;
      DmlRunRejected(cfg, st, stmts[..n]);
      var mid := DmlRun(cfg, st, stmts[..n]);
      AsWrittenClauseRejected(cfg.dialect, mid.target, AdjustSqlSyntax(stmts[n], cfg.dialect), cfg.pk, cfg.keyOf);
    }
  }

  /**
   * The statement of a keyed table sent to an empty MySQL table: as written it is
   * rejected and its row is missing; under the corrected rule the row is inserted.
   */
  lemma MySqlKeyedStatement()
    ensures var st := DmlState(0, 0, 0, false, map[], 0, Target(multiset{}, true));
      var sql := "INSERT INTO t VALUES (1)";
      var asWritten := DmlStep(DmlConfig("", "t", None, MySql, ["id"], AlwaysAppend, _ => Some("1"), _ => None), st, sql);
      var corrected := DmlStep(DmlConfig("", "t", None, MySql, ["id"], PostgresOnly, _ => Some("1"), _ => None), st, sql);
      && asWritten.errors == 1 && asWritten.inserted == 0 && "1" !in asWritten.target.rows
      && corrected.errors == 0 && corrected.inserted == 1 && "1" in corrected.target.rows
  {
    var st := DmlState(0, 0, 0, false, map[], 0, Target(multiset{}, true));
    var sql := "INSERT INTO t VALUES (1)";
    var keyOf: string -> Option<string> := _ => Some("1");
    var asWritten := DmlConfig("", "t", None, MySql, ["id"], AlwaysAppend, keyOf, _ => None);
    var corrected := DmlConfig("", "t", None, MySql, ["id"], PostgresOnly, keyOf, _ => None);
    assert Join(", ", ["id"]) == "id";
    AsWrittenClauseRejected(MySql, st.target, sql, ["id"], keyOf);
    assert Execute(MySql, st.target, Executed(asWritten, sql), keyOf) == (Failed, st.target);
    assert !HasConflictClause(sql) by {
      assert sql[|sql| - 1] == ')';
    }
    assert Executed(corrected, sql) == sql;
    assert keyOf(sql) == Some("1") && "1" !in st.target.rows;
    assert st.target.rows + multiset{"1"} == multiset{"1"};
  }


  /**
   * Error records are keyed by the call's own error counter, which restarts at zero: a
   * second call that records an error replaces the record an earlier call left under key 1.
   */
  lemma ErrorRecordsRestartPerCall(cfg: DmlConfig, st: DmlState, sql: string)
    requires st.errors == 0 && 1 in st.log
    requires DmlStep(cfg, st, sql).log != st.log
    ensures DmlStep(cfg, st, sql).log == st.log[1 := DmlStep(cfg, st, sql).log[1]]
    ensures |DmlStep(cfg, st, sql).log| == |st.log|
  {
    var r := DmlStep(cfg, st, sql);
    assert r.log.Keys == st.log.Keys;
  }

  // ------------------------------------------------------------ images

  /** One `(image_no, picture)` pair; `name` None and empty `data` are Python's falsy values. */
  datatype ImageItem = ImageItem(name: Option<string>, data: seq<bv8>)

  /** Line breaks and spaces removed from an image name. */
  function CleanName(n: string): (r: string)
    ensures '\n' !in r && '\r' !in r && ' ' !in r
  {
    var a := Replace(n, "\n", "");
    var b := Replace(a, "\r", "");
    var c := Replace(b, " ", "");
    ReplaceCharRemoves(n, '\n', "", '\n');
    ReplaceCharKeeps(a, '\r', "", '\n');
    ReplaceCharRemoves(a, '\r', "", '\r');
    ReplaceCharKeeps(b, ' ', "", '\n');
    ReplaceCharKeeps(b, ' ', "", '\r');
    ReplaceCharRemoves(b, ' ', "", ' ');
    c
  }

  predicate SkipImage(item: ImageItem) {
    item.name.None? || item.name.value == "" || item.data == []
  }

  function JpgPath(s: Settings, name: string): string {
    s.jpgDir + "/" + CleanName(name) + ".jpg"
  }

  function WebpPath(s: Settings, name: string): string {
    s.webpDir + "/" + CleanName(name) + ".webp"
  }

  /** The files present, the count of files written, and whether an exception ended the export. */
  datatype ImageState = ImageState(present: set<string>, count: nat, failed: bool)

  /**
   * One item: skipped when its name or data is empty; otherwise each requested format is
   * written when its file does not exist yet. `decodable` says whether the image library
   * can read the bytes; when it cannot, the WebP conversion raises and the export ends.
   */
  function ImageStep(s: Settings, decodable: seq<bv8> -> bool, st: ImageState, item: ImageItem): ImageState {
    if st.failed || SkipImage(item) then st
    else
      var jp := JpgPath(s, item.name.value);
      var wp := WebpPath(s, item.name.value);
      var st1 := if "jpg" in s.imageFormats then AddFile(st, jp) else st;
      if "webp" in s.imageFormats && wp !in st1.present && !decodable(item.data) then st1.(failed := true)
      else if "webp" in s.imageFormats then AddFile(st1, wp)
      else st1
  }

  /** The state `AddFile` leaves, given whether the file was new. */
  lemma AddFileIs(st: ImageState, path: string, present: set<string>, count: nat)
    requires path in st.present ==> present == st.present && count == st.count
    requires path !in st.present ==> present == st.present + {path} && count == st.count + 1
    ensures AddFile(st, path) == ImageState(present, count, st.failed)
  { }

  /** A file written unless it exists, counted when written. */
  function AddFile(st: ImageState, path: string): (r: ImageState)
    ensures r.failed == st.failed && path in r.present
    ensures st.present <= r.present && r.count == st.count + |r.present - st.present|
    ensures r.present == st.present + {path}
  {
    if path in st.present then
      assert st.present - st.present == {};
      st
    else
      var r := st.(present := st.present + {path}, count := st.count + 1);
      assert r.present - st.present == {path};
      r
  }

  function ImagesRun(s: Settings, decodable: seq<bv8> -> bool, st: ImageState, items: seq<ImageItem>): (r: ImageState)
    ensures st.present <= r.present && (st.failed ==> r.failed)
    decreases |items|
  {
    if items == [] then st
    else ImageStep(s, decodable, ImagesRun(s, decodable, st, items[..|items| - 1]), items[|items| - 1])
  }

  /** The items of all chunks, in order. */
  function Flatten(chunks: seq<seq<ImageItem>>): seq<ImageItem>
    decreases |chunks|
  {
    if chunks == [] then [] else Flatten(chunks[..|chunks| - 1]) + chunks[|chunks| - 1]
  }

  lemma {:induction false} ImagesRunAppend(s: Settings, decodable: seq<bv8> -> bool, st: ImageState,
                                           a: seq<ImageItem>, b: seq<ImageItem>)
    ensures ImagesRun(s, decodable, st, a + b) == ImagesRun(s, decodable, ImagesRun(s, decodable, st, a), b)
    decreases |b|
  {
    if b == [] {
      assert a + b == a;
    } else {
      assert (a + b)[..|a + b| - 1] == a + b[..|b| - 1];
      assert (a + b)[|a + b| - 1] == b[|b| - 1];
      ImagesRunAppend(s, decodable, st, a, b[..|b| - 1]);
    }
  }

  /** After an exception nothing more happens. */
  lemma {:induction false} ImagesRunFailed(s: Settings, decodable: seq<bv8> -> bool, st: ImageState, items: seq<ImageItem>)
    requires st.failed
    ensures ImagesRun(s, decodable, st, items) == st
    decreases |items|
  {
    if items != [] {
      ImagesRunFailed(s, decodable, st, items[..|items| - 1]);
    }
  }

  /** One item only adds files, and counts each file it adds. */
  lemma ImageStepCounts(s: Settings, decodable: seq<bv8> -> bool, st: ImageState, item: ImageItem)
    ensures var r := ImageStep(s, decodable, st, item);
      st.present <= r.present && r.count == st.count + |r.present - st.present|
  {
    if !st.failed && !SkipImage(item) {
      var jp := JpgPath(s, item.name.value);
      var st1 := if "jpg" in s.imageFormats then AddFile(st, jp) else st;
      var r := ImageStep(s, decodable, st, item);
      CountsCompose(st, st1, r);
    }
  }

  /** Two steps that each count their new files count, together, the files new to both. */
  lemma CountsCompose(a: ImageState, b: ImageState, c: ImageState)
    requires a.present <= b.present && b.count == a.count + |b.present - a.present|
    requires b.present <= c.present && c.count == b.count + |c.present - b.present|
    ensures a.present <= c.present && c.count == a.count + |c.present - a.present|
  {
    assert c.present - a.present == (b.present - a.present) + (c.present - b.present);
    assert (b.present - a.present) !! (c.present - b.present);
  }

  /** Files are only added, and the count grows by exactly the number of new files. */
  lemma {:induction false} ImagesRunCounts(s: Settings, decodable: seq<bv8> -> bool, st: ImageState, items: seq<ImageItem>)
    ensures var r := ImagesRun(s, decodable, st, items);
      st.present <= r.present && r.count == st.count + |r.present - st.present|
    decreases |items|
  {
    if items != [] {
      var mid := ImagesRun(s, decodable, st, items[..|items| - 1]);
      ImagesRunCounts(s, decodable, st, items[..|items| - 1]);
      var r := ImageStep(s, decodable, mid, items[|items| - 1]);
      ImageStepCounts(s, decodable, mid, items[|items| - 1]);
      CountsCompose(st, mid, r);
    }
  }

  /** The files a non-skipped item needs, for the requested formats. */
  predicate ItemDone(s: Settings, present: set<string>, item: ImageItem) {
    SkipImage(item)
    || (("jpg" in s.imageFormats ==> JpgPath(s, item.name.value) in present)
        && ("webp" in s.imageFormats ==> WebpPath(s, item.name.value) in present))
  }

  lemma {:induction false} ImagesRunDone(s: Settings, decodable: seq<bv8> -> bool, st: ImageState, items: seq<ImageItem>)
    requires !ImagesRun(s, decodable, st, items).failed
    ensures st.present <= ImagesRun(s, decodable, st, items).present
    ensures forall j :: 0 <= j < |items| ==> ItemDone(s, ImagesRun(s, decodable, st, items).present, items[j])
    decreases |items|
  {
    if items != [] {
      var n := |items| - 1;
      var mid := ImagesRun(s, decodable, st, items[..n]);
      assert !mid.failed;
      ImagesRunDone(s, decodable, st, items[..n]);
      var r := ImageStep(s, decodable, mid, items[n]);
      assert ImagesRun(s, decodable, st, items) == r;
      ImageStepDone(s, decodable, mid, items[n]);
      forall j | 0 <= j < |items| ensures ItemDone(s, r.present, items[j]) {
        if j < n {
          assert items[j] == items[..n][j];
          DoneStaysDone(s, mid.present, r.present, items[j]);
        }
      }
    }
  }

  /** A step that does not fail keeps every file and leaves its own item done. */
  lemma ImageStepDone(s: Settings, decodable: seq<bv8> -> bool, st: ImageState, item: ImageItem)
    requires !ImageStep(s, decodable, st, item).failed
    ensures st.present <= ImageStep(s, decodable, st, item).present
    ensures ItemDone(s, ImageStep(s, decodable, st, item).present, item)
  { }

  /** An item done stays done as files are added. */
  lemma DoneStaysDone(s: Settings, present: set<string>, present': set<string>, item: ImageItem)
    requires ItemDone(s, present, item) && present <= present'
    ensures ItemDone(s, present', item)
  { }

  lemma {:induction false} ImagesRerunNothing(s: Settings, decodable: seq<bv8> -> bool, st: ImageState, items: seq<ImageItem>)
    requires !st.failed
    requires forall j :: 0 <= j < |items| ==> ItemDone(s, st.present, items[j])
    ensures ImagesRun(s, decodable, st, items) == st
    decreases |items|
  {
    if items != [] {
      ImagesRerunNothing(s, decodable, st, items[..|items| - 1]);
    }
  }

  /** A second export of the same images writes nothing. */
  lemma ImagesSecondRunExportsNothing(s: Settings, decodable: seq<bv8> -> bool, present: set<string>, items: seq<ImageItem>)
    requires !ImagesRun(s, decodable, ImageState(present, 0, false), items).failed
    ensures var once := ImagesRun(s, decodable, ImageState(present, 0, false), items);
      ImagesRun(s, decodable, ImageState(once.present, 0, false), items) == ImageState(once.present, 0, false)
  {
    var once := ImagesRun(s, decodable, ImageState(present, 0, false), items);
    ImagesRunDone(s, decodable, ImageState(present, 0, false), items);
    ImagesRerunNothing(s, decodable, ImageState(once.present, 0, false), items);
  }

  // ------------------------------------------------------------ summary

  datatype Summary = Summary(
    tablesProcessed: nat,
    rowsInserted: nat,
    rowsFailed: nat,
    duplicateEntries: nat,
    filesCreated: nat,
    fileList: seq<string>,
    errorsByTable: map<string, nat>)

  class ExportStats {
    var tablesProcessed: nat
    var rowsInserted: nat
    var rowsFailed: nat
    var duplicateEntries: nat
    var filesCreated: seq<string>

    constructor ()
      ensures tablesProcessed == 0 && rowsInserted == 0 && rowsFailed == 0 && duplicateEntries == 0
      ensures filesCreated == []
    {
      tablesProcessed, rowsInserted, rowsFailed, duplicateEntries := 0, 0, 0, 0;
      filesCreated := [];
    }
  }

  class DataExporter {
    const settings: Settings
    const stats: ExportStats
    /** `server_version_num` of the target, when known. */
    var version: Option<int>
    var insertHeader: string
    /** Python's `hasattr(self, '_start_found')`. */
    var startFound: bool
    var insertErrors: map<string, map<nat, ErrorInfo>>
    /** The export directory's files and their contents. */
    var files: map<string, string>
    /** The image files that exist. */
    var images: set<string>

    /** The list of created files never repeats a name. */
    predicate Valid()
      reads this, stats
    {
      NoDuplicates(stats.filesCreated)
    }

    constructor (s: Settings, existingImages: set<string>)
      ensures settings == s && fresh(stats) && Valid()
      ensures version.None? && insertHeader == "" && !startFound
      ensures insertErrors == map[] && files == map[] && images == existingImages
      ensures stats.filesCreated == [] && stats.duplicateEntries == 0 && stats.rowsInserted == 0
    {
      settings := s;
      stats := new ExportStats();
      version := None;
      insertHeader := "";
      startFound := false;
      insertErrors := map[];
      files := map[];
      images := existingImages;
    }

    method SetPostgresVersion(v: Option<int>)
      modifies this`version
      ensures version == v
    {
      version := v;
    }

    /**
     * `df_to_sql_bulk_insert`: the INSERT text of a chunk. With a header the stored
     * header is replaced and starts the text; without one the text is the bare values
     * and the stored header stays. None where a value cannot be formatted (Python
     * raises before touching the header).
     */
    method DfToSqlBulkInsert(f: Frame, table: string, includeHeader: bool, kwargs: seq<(string, Cell)>)
      returns (query: Option<string>)
      requires WellFormed(f)
      modifies this`insertHeader
      ensures var g := Prepared(f, table, kwargs);
        match ValuesText(g, settings.dialect, version, AsWritten)
        case None => query.None? && insertHeader == old(insertHeader)
        case Some(v) =>
          if includeHeader then
            insertHeader == InsertHeader(settings.dialect, settings.migSchema, table, g.columns)
            && query == Some(insertHeader + " " + v)
          else insertHeader == old(insertHeader) && query == Some(v)
    {
      var g := Prepared(f, table, kwargs);
      var values := ValuesText(g, settings.dialect, version, AsWritten);
      if values.None? {
        return None;
      }
      if includeHeader {
        insertHeader := InsertHeader(settings.dialect, settings.migSchema, table, g.columns);
        query := Some(insertHeader + " " + values.value);
      } else {
        query := Some(values.value);
      }
    }

    /**
     * `export_to_file`: writes (header) or appends to `<date>_<prefix>_<tag>.sql` and
     * records the file name once.
     */
    method ExportToFile(content: string, table: string, exportType: string, isHeader: bool, isFooter: bool,
                        timestamp: string) returns (path: string)
      requires Valid()
      modifies this`files, stats`filesCreated
      ensures Valid()
      ensures var name := FileName(settings.dateString, settings.prefix, FileTag(settings.fileFormat, table, exportType));
        path == settings.exportDir + "/" + name
        && name in stats.filesCreated
        && stats.filesCreated == (if name in old(stats.filesCreated) then old(stats.filesCreated)
                                  else old(stats.filesCreated) + [name])
      ensures var before := if isHeader || path !in old(files) then "" else old(files)[path];
        files == old(files)[path := before + FileText(content, table, exportType, isHeader, isFooter, timestamp)]
    {
      var tag := FileTag(settings.fileFormat, table, exportType);
      var name := FileName(settings.dateString, settings.prefix, tag);
      path := settings.exportDir + "/" + name;
      var text := WrittenText(content, table, exportType, isHeader, isFooter, timestamp);
      if isHeader || path !in files {
        assert "" + text == text;
        files := files[path := text];
      } else {
        files := files[path := files[path] + text];
      }
      if name !in stats.filesCreated {
        stats.filesCreated := stats.filesCreated + [name];
        assert forall a :: 0 <= a < |stats.filesCreated| - 1 ==> stats.filesCreated[a] != name;
      }
    }

    /** What one call of `export_to_file` writes, piece by piece as the file object receives it. */
    static method WrittenText(content: string, table: string, exportType: string, isHeader: bool, isFooter: bool,
                              timestamp: string) returns (text: string)
      ensures text == FileText(content, table, exportType, isHeader, isFooter, timestamp)
    {
      text := "";
      if isHeader && exportType == "dml" {
        text := text + DmlBanner(table, timestamp);
      }
      ghost var banner := text;
      if content != "" {
        if exportType == "ddl" {
          text := text + content + ";\n";
          assert text == banner + (content + ";\n");
        } else {
          var semicolon := if isFooter then ";\n" else "";
          text := text + content + semicolon + "\n";
          assert text == banner + (content + semicolon + "\n");
        }
      } else {
        assert text == banner + "";
      }
    }

    /** The loop's configuration for `table`: the stored header, the options, the table's key columns. */
    function DmlConfigFor(table: string, keyOf: string -> Option<string>): DmlConfig
      reads this`insertHeader
    {
      DmlConfig(insertHeader, table, settings.startFrom, settings.dialect,
                if table in settings.pkConfig then settings.pkConfig[table] else [], AlwaysAppend, keyOf, ExtractImageNo)
    }

    /** The options of `cfg` are the exporter's settings for `table` (its header and key reader aside). */
    predicate Configures(cfg: DmlConfig, table: string) {
      cfg.table == table && cfg.startFrom == settings.startFrom && cfg.dialect == settings.dialect
      && cfg.pk == (if table in settings.pkConfig then settings.pkConfig[table] else []) && cfg.rule == AlwaysAppend
    }

    /**
     * `export_dml_to_database`: splits the text on `",\n"`, puts the header back where a
     * piece lacks it, skips pieces until `start_from` is seen (ratcatalogue only), and
     * executes each remaining statement (with the conflict clause when key columns are
     * configured), counting it as inserted or as an error and recording integrity errors.
     */
    method ExportDml(dml: string, table: string, db: Target, keyOf: string -> Option<string>)
      returns (inserted: nat, errors: nat, db1: Target)
      modifies this`startFound, this`insertErrors, stats`duplicateEntries
      ensures var init := DmlState(0, 0, 0, old(startFound),
                                   if table in old(insertErrors) then old(insertErrors)[table] else map[],
                                   old(stats.duplicateEntries), db);
        var r := DmlRun(DmlConfigFor(table, keyOf), init, StatementsOf(insertHeader, Split(dml, ",\n")));
        inserted == r.inserted && errors == r.errors && db1 == r.target
        && startFound == r.started && stats.duplicateEntries == r.dupes
        && insertErrors == old(insertErrors)[table := r.log]
    {
      var cfg := DmlConfigFor(table, keyOf);
      assert Configures(cfg, table);
      if table !in insertErrors {
        insertErrors := insertErrors[table := map[]];
      }
      ghost var init := DmlState(0, 0, 0, startFound, insertErrors[table], stats.duplicateEntries, db);
      ghost var skipped := 0;
      var pieces := Split(dml, ",\n");
      var header := insertHeader;
      var stmts := StatementsOf(header, pieces);
      inserted, errors, db1 := 0, 0, db;
      var i := 0;
      while i < |pieces|
        invariant 0 <= i <= |pieces| && table in insertErrors
        invariant insertErrors == old(insertErrors)[table := insertErrors[table]]
        invariant DmlRun(cfg, init, stmts[..i])
               == DmlState(inserted, errors, skipped, startFound, insertErrors[table], stats.duplicateEntries, db1)
      {
        DmlRunSnoc(cfg, init, stmts, i);
        ghost var logs := insertErrors;
        inserted, errors, skipped, db1 := DmlTurn(cfg, table, stmts[i], inserted, errors, skipped, db1);
        UpdateTwice(old(insertErrors), table, logs[table], insertErrors[table]);
        i := i + 1;
      }
      assert stmts[..|pieces|] == stmts;
    }

    /**
     * One turn of the loop of `export_dml_to_database`: the statement is either
     * passed over by the resume latch or adjusted, executed and tallied.
     */
    method DmlTurn(cfg: DmlConfig, table: string, sql: string, inserted: nat, errors: nat, ghost skipped: nat,
                   db: Target)
      returns (inserted': nat, errors': nat, ghost skipped': nat, db': Target)
      requires table in insertErrors && Configures(cfg, table)
      modifies this`startFound, this`insertErrors, stats`duplicateEntries
      ensures table in insertErrors && insertErrors == old(insertErrors)[table := insertErrors[table]]
      ensures DmlState(inserted', errors', skipped', startFound, insertErrors[table], stats.duplicateEntries, db')
           == DmlStep(cfg, DmlState(inserted, errors, skipped, old(startFound), old(insertErrors)[table],
                                    old(stats.duplicateEntries), db), sql)
    {
      ghost var before := DmlState(inserted, errors, skipped, startFound, insertErrors[table],
                                   stats.duplicateEntries, db);
      inserted', errors', skipped', db' := inserted, errors, skipped, db;
      var run := PassesLatch(cfg, table, sql);
      if !run {
        skipped' := skipped + 1;
        return;
      }
      var pk := if table in settings.pkConfig then settings.pkConfig[table] else [];
      var adjusted := AdjustSqlSyntax(sql, settings.dialect);
      var (outcome, t) := Execute(settings.dialect, db, WithConflict(adjusted, pk), cfg.keyOf);
      assert !Skips(cfg, before.started, sql);
      assert DmlStep(cfg, before, sql) == Record(before.(started := startFound), adjusted, outcome, t);
      db' := t;
      inserted', errors' := Tally(table, adjusted, outcome, t, inserted, errors, before.(started := startFound));
    }

    /**
     * The resume latch of `export_dml_to_database`: for ratcatalogue with a non-empty
     * `start_from`, statements are passed over until one carries that image number, which
     * sets the latch for the rest of the export. `DmlConfigFor` sets `cfg.imageNo` to `ExtractImageNo`.
     */
    method PassesLatch(cfg: DmlConfig, table: string, sql: string) returns (run: bool)
      requires Configures(cfg, table)
      modifies this`startFound
      ensures run <==> !Skips(cfg, old(startFound), sql)
      ensures startFound == (old(startFound) || (run && LatchActive(cfg)))
    {
      run := true;
      if settings.startFrom.Some? && settings.startFrom.value != "" && table == "ratcatalogue" {
        var imageNo := cfg.imageNo(sql);
        if imageNo != settings.startFrom && !startFound {
          run := false;
        } else {
          startFound := true;
        }
      }
    }

    /**
     * The handling of one executed statement in `export_dml_to_database`: a commit counts
     * as inserted; an integrity error counts as an error, is recorded under the error
     * count, and also counts as a duplicate when its text says the key already exists;
     * any other database error only counts as an error.
     */
    method Tally(table: string, adjusted: string, outcome: Outcome, t: Target, inserted: nat, errors: nat,
                 ghost st: DmlState)
      returns (inserted': nat, errors': nat)
      requires table in insertErrors
      requires st.inserted == inserted && st.errors == errors
      requires st.log == insertErrors[table] && st.dupes == stats.duplicateEntries
      modifies this`insertErrors, stats`duplicateEntries
      ensures table in insertErrors && insertErrors == old(insertErrors)[table := insertErrors[table]]
      ensures var r := Record(st, adjusted, outcome, t);
        inserted' == r.inserted && errors' == r.errors
        && insertErrors[table] == r.log && stats.duplicateEntries == r.dupes
    {
      inserted', errors' := inserted, errors;
      match outcome {
        case Committed =>
          inserted' := inserted + 1;
        case Integrity(p, d) =>
          errors' := errors + 1;
          var key: nat := errors';
          var tableLog: map<nat, ErrorInfo> := insertErrors[table];
          insertErrors := insertErrors[table := tableLog[key := ErrorInfo(p, d, adjusted)]];
          if IsDuplicate(outcome) {
            stats.duplicateEntries := stats.duplicateEntries + 1;
          }
        case PlainIntegrity(e) =>
          errors' := errors + 1;
          var key: nat := errors';
          var tableLog: map<nat, ErrorInfo> := insertErrors[table];
          insertErrors := insertErrors[table := tableLog[key := ErrorInfo(e, e, adjusted)]];
          if IsDuplicate(outcome) {
            stats.duplicateEntries := stats.duplicateEntries + 1;
          }
        case Failed =>
          errors' := errors + 1;
      }
    }

    /**
     * `export_images`: walks the chunks' items, skipping empty names or data and writing
     * each requested format whose file is missing; returns the number of files written,
     * or 0 when an exception ended the export.
     */
    method ExportImages(chunks: seq<seq<ImageItem>>, decodable: seq<bv8> -> bool) returns (count: nat)
      modifies this`images
      ensures var r := ImagesRun(settings, decodable, ImageState(old(images), 0, false), Flatten(chunks));
        images == r.present && count == (if r.failed then 0 else r.count)
    {
      ghost var start := ImageState(images, 0, false);
      var exported := 0;
      var c := 0;
      while c < |chunks|
        invariant 0 <= c <= |chunks|
        invariant ImagesRun(settings, decodable, start, Flatten(chunks[..c])) == ImageState(images, exported, false)
      {
        var chunk := chunks[c];
        ghost var done := Flatten(chunks[..c]);
        var raised, k;
        exported, raised, k := ExportChunk(chunk, decodable, start, done, exported);
        if raised {
          FailedToEnd(settings, start, chunks, c, k, decodable, ImageState(images, exported, true));
          return 0;
        }
        assert chunk[..k] == chunk;
        assert chunks[..c + 1][..c] == chunks[..c];
        assert Flatten(chunks[..c + 1]) == done + chunk;
        c := c + 1;
      }
      assert chunks[..|chunks|] == chunks;
      count := exported;
    }

    /**
     * The items of one chunk, in order, after the items `done` of the chunks before it;
     * `raised` with the state at the `k` items that ran when an item fails.
     */
    method ExportChunk(chunk: seq<ImageItem>, decodable: seq<bv8> -> bool, ghost start: ImageState,
                       ghost done: seq<ImageItem>, exported: nat)
      returns (exported': nat, raised: bool, k: nat)
      requires ImagesRun(settings, decodable, start, done) == ImageState(images, exported, false)
      modifies this`images
      ensures k <= |chunk|
      ensures ImagesRun(settings, decodable, start, done + chunk[..k]) == ImageState(images, exported', raised)
      ensures !raised ==> k == |chunk|
    {
      exported', raised := exported, false;
      assert done + chunk[..0] == done;
      k := 0;
      while k < |chunk|
        invariant 0 <= k <= |chunk|
        invariant ImagesRun(settings, decodable, start, done + chunk[..k]) == ImageState(images, exported', false)
      {
        ImagesRunSnoc(settings, decodable, start, done + chunk[..k], chunk[k]);
        assert done + chunk[..k + 1] == done + chunk[..k] + [chunk[k]];
        var ok;
        exported', ok := ExportItem(chunk[k], decodable, exported');
        k := k + 1;
        if !ok {
          return exported', true, k;
        }
      }
    }

    /**
     * One item of `export_images`: skipped when its name or bytes are empty; otherwise the
     * JPEG is written when missing, then the WebP when missing, which needs the bytes to
     * decode; `ok` is false when they do not.
     */
    method ExportItem(item: ImageItem, decodable: seq<bv8> -> bool, exported: nat) returns (exported': nat, ok: bool)
      modifies this`images
      ensures ImageStep(settings, decodable, ImageState(old(images), exported, false), item)
           == ImageState(images, exported', !ok)
    {
      exported', ok := exported, true;
      if item.name.None? || item.name.value == "" || item.data == [] {
        return;
      }
      var name := item.name.value;
      ghost var st := ImageState(images, exported, false);
      var jpg := JpgPath(settings, name);
      if "jpg" in settings.imageFormats && jpg !in images {
        images := images + {jpg};
        exported' := exported' + 1;
      }
      if "jpg" in settings.imageFormats {
        AddFileIs(st, jpg, images, exported');
      }
      ghost var st1 := ImageState(images, exported', false);
      var webp := WebpPath(settings, name);
      if "webp" in settings.imageFormats && webp !in images {
        if !decodable(item.data) {
          ok := false;
          return;
        }
        images := images + {webp};
        exported' := exported' + 1;
      }
      if "webp" in settings.imageFormats {
        AddFileIs(st1, webp, images, exported');
      }
    }


    /** `get_export_summary`: the counters, the file list and the number of recorded errors of each table that has any. */
    function ExportSummary(): (r: Summary)
      reads this, stats
      ensures r.filesCreated == |r.fileList| && r.fileList == stats.filesCreated
      ensures forall t :: t in r.errorsByTable <==> t in insertErrors && |insertErrors[t]| > 0
      ensures forall t :: t in r.errorsByTable ==> r.errorsByTable[t] == |insertErrors[t]| > 0
    {
      Summary(stats.tablesProcessed, stats.rowsInserted, stats.rowsFailed, stats.duplicateEntries,
              |stats.filesCreated|, stats.filesCreated,
              map t | t in insertErrors && |insertErrors[t]| > 0 :: |insertErrors[t]|)
    }
  }

  /** An image export that failed at item `k` of chunk `c` ends in that state. */
  lemma FailedToEnd(s: Settings, start: ImageState, chunks: seq<seq<ImageItem>>, c: nat, k: nat,
                    decodable: seq<bv8> -> bool, failedAt: ImageState)
    requires c < |chunks| && k <= |chunks[c]| && failedAt.failed
    requires ImagesRun(s, decodable, start, Flatten(chunks[..c]) + chunks[c][..k]) == failedAt
    ensures ImagesRun(s, decodable, start, Flatten(chunks)) == failedAt
  {
    var done := Flatten(chunks[..c]) + chunks[c][..k];
    var rest := chunks[c][k..] + Flatten(chunks[c + 1..]);
    FlattenSplit(chunks, c, k);
    ImagesRunAppend(s, decodable, start, done, rest);
    ImagesRunFailed(s, decodable, failedAt, rest);
  }

  lemma DmlRunSnoc(cfg: DmlConfig, st: DmlState, stmts: seq<string>, i: nat)
    requires i < |stmts|
    ensures DmlRun(cfg, st, stmts[..i + 1]) == DmlStep(cfg, DmlRun(cfg, st, stmts[..i]), stmts[i])
  {
    assert stmts[..i + 1][..i] == stmts[..i];
  }

  lemma ImagesRunSnoc(s: Settings, decodable: seq<bv8> -> bool, st: ImageState, items: seq<ImageItem>,
                      item: ImageItem)
    ensures ImagesRun(s, decodable, st, items + [item]) == ImageStep(s, decodable, ImagesRun(s, decodable, st, items), item)
  {
    assert (items + [item])[..|items|] == items;
  }

  lemma UpdateTwice<K, V>(m: map<K, V>, k: K, a: V, b: V)
    ensures m[k := a][k := b] == m[k := b]
  {
  }

  lemma {:induction false} FlattenSplit(chunks: seq<seq<ImageItem>>, c: nat, k: nat)
    requires c < |chunks| && k <= |chunks[c]|
    ensures Flatten(chunks) == Flatten(chunks[..c]) + chunks[c][..k] + (chunks[c][k..] + Flatten(chunks[c + 1..]))
  {
    FlattenConcat(chunks[..c + 1], chunks[c + 1..]);
    assert chunks[..c + 1] + chunks[c + 1..] == chunks;
    assert chunks[..c + 1][..c] == chunks[..c];
    assert chunks[c] == chunks[c][..k] + chunks[c][k..];
  }

  lemma {:induction false} FlattenConcat(a: seq<seq<ImageItem>>, b: seq<seq<ImageItem>>)
    ensures Flatten(a + b) == Flatten(a) + Flatten(b)
    decreases |b|
  {
    if b == [] {
      assert a + b == a;
    } else {
      var init, last := b[..|b| - 1], b[|b| - 1];
      var ab := a + b;
      assert ab[..|ab| - 1] == a + init;
      assert ab[|ab| - 1] == last;
      assert Flatten(ab) == Flatten(a + init) + last;
      FlattenConcat(a, init);
      assert Flatten(b) == Flatten(init) + last;
      assert Flatten(a) + Flatten(init) + last == Flatten(a) + (Flatten(init) + last);
    }
  }
}
