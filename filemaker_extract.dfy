/**
 * The insert loop, the INSERT text and the image export of the older script
 * `filemaker_extract.py`, whose counters, error records, resume flag and stored INSERT
 * header are module globals (here the fields of `ScriptState`).
 */
module FilemakerExtract {
  import opened Wrappers
  import opened Text
  import opened SqlValues
  import opened Statements
  import opened BulkInsert
  import opened ExtractText
  import Exporter

  // ------------------------------------------------------------ the insert loop of export_data

  /**
   * What the loop reads besides its statements: `dialect` is the target server's type;
   * `pk` is None where the table has no key entry; `imageNo` reads a statement's image
   * number and `clean` flattens error texts.
   */
  datatype LoopConfig = LoopConfig(
    dialect: Dialect,
    table: string,
    startFrom: Option<string>,
    pk: Option<seq<string>>,
    keyOf: string -> Option<string>,
    imageNo: string -> Option<string>,
    clean: string -> string)

  /**
   * The globals the loop updates (`ins_cnt`, `err_cnt`, `dupe_entry_cnt`, the table's
   * `ins_err` records, `ok_to_insert_from`), the statements the latch passed over, whether
   * an exception escaped, and the target.
   */
  datatype LoopState = LoopState(
    inserted: nat,
    errCnt: nat,
    dupes: nat,
    skipped: nat,
    log: map<nat, Exporter.ErrorInfo>,
    ok: bool,
    raised: bool,
    target: Target)

  /** Resuming is on for ratcatalogue whenever `start_from` is given, the empty string included. */
  predicate Resuming(cfg: LoopConfig) {
    cfg.startFrom.Some? && cfg.table == "ratcatalogue"
  }

  /** The adjusted statement carries the image number resuming starts from. */
  predicate StartsHere(cfg: LoopConfig, adjusted: string) {
    cfg.imageNo(adjusted) == cfg.startFrom
  }

  predicate Skips(cfg: LoopConfig, ok: bool, adjusted: string) {
    Resuming(cfg) && !ok && !StartsHere(cfg, adjusted)
  }

  /** The statements of a batch: each piece with the stored header put back, adjusted to the dialect. */
  function AdjustedOf(header: string, dialect: Dialect, pieces: seq<string>): (r: seq<string>)
    ensures |r| == |pieces|
    ensures forall i :: 0 <= i < |pieces| ==> r[i] == AdjustSqlSyntax(Exporter.StatementOf(header, pieces[i]), dialect)
  {
    seq(|pieces|, i requires 0 <= i < |pieces| => AdjustSqlSyntax(Exporter.StatementOf(header, pieces[i]), dialect))
  }

  /** The key columns as the conflict clause names them: joined by `, `, with backslashes removed. */
  function PkText(pk: seq<string>): (r: string)
    ensures '\\' !in r
  {
    ReplaceCharRemoves(Join(", ", pk), '\\', "", '\\');
    Replace(Join(", ", pk), "\\", "")
  }

  const DoNothing := " DO NOTHING"

  /** The text sent to the target: the conflict clause always appended, then every `\\` pair made one backslash. */
  function Executed(adjusted: string, pk: seq<string>): string {
    Replace(adjusted + " ON CONFLICT(" + PkText(pk) + ")" + DoNothing, "\\\\", "\\")
  }

  /** The backslash rewrite never reaches the clause's end: every executed statement ends in ` DO NOTHING`. */
  lemma ExecutedKeepsClause(adjusted: string, pk: seq<string>)
    ensures Executed(adjusted, pk)
         == Replace(adjusted + " ON CONFLICT(" + PkText(pk) + ")", "\\\\", "\\") + DoNothing
    ensures EndsWith(Executed(adjusted, pk), DoNothing)
  {
    var a := adjusted + " ON CONFLICT(" + PkText(pk) + ")";
    ReplaceFreeSuffix(a, DoNothing, "\\\\", "\\");
    EndsWithAppend(Replace(a, "\\\\", "\\"), DoNothing);
  }

  /**
   * Without backslashes the older loop sends what the exporter sends for a table with key
   * columns: the statement followed by `ON CONFLICT(<keys>) DO NOTHING`.
   */
  lemma ExecutedAgreesWithExporter(adjusted: string, pk: seq<string>)
    requires '\\' !in adjusted && '\\' !in Join(", ", pk) && Join(", ", pk) != []
    ensures Executed(adjusted, pk) == WithConflict(adjusted, pk)
  {
    var cols := Join(", ", pk);
    FirstCharAbsent(cols, "\\");
    ReplaceAbsent(cols, "\\", "");
    var s := adjusted + " ON CONFLICT(" + cols + ")" + DoNothing;
    assert s == adjusted + ConflictClause(cols);
    forall i | 0 <= i < |s| ensures s[i] != '\\' {
      if i >= |adjusted| {
        assert s[i] == ConflictClause(cols)[i - |adjusted|];
      }
    }
    FirstCharAbsent(s, "\\\\");
    ReplaceAbsent(s, "\\\\", "\\");
  }

  /**
   * Counting one executed statement: a commit as inserted; an integrity error as an error,
   * recorded with cleaned texts; anything else raises. So does an integrity error without
   * `diag` (pymysql's), whose `e.orig.diag` raises `AttributeError` in the handler.
   */
  function Record(cfg: LoopConfig, st: LoopState, adjusted: string, o: Outcome, t: Target): (r: LoopState)
    ensures r.skipped == st.skipped && r.ok == st.ok && r.target == t
    ensures r.raised <==> st.raised || o.Failed? || o.PlainIntegrity?
    ensures r.inserted == st.inserted + (if o.Committed? then 1 else 0)
    ensures r.errCnt == st.errCnt + (if o.Integrity? then 1 else 0)
    ensures r.dupes == st.dupes + (if o.Integrity? && IsDuplicate(o) then 1 else 0)
    ensures o.Integrity? ==>
      r.log == st.log[st.errCnt + 1 := Exporter.ErrorInfo(cfg.clean(o.primary), cfg.clean(o.detail), adjusted)]
    ensures !o.Integrity? ==> r.log == st.log
  {
    match o
    case Committed => st.(inserted := st.inserted + 1, target := t)
    case Integrity(p, d) =>
      st.(errCnt := st.errCnt + 1,
          log := st.log[st.errCnt + 1 := Exporter.ErrorInfo(cfg.clean(p), cfg.clean(d), adjusted)],
          dupes := st.dupes + (if IsDuplicate(o) then 1 else 0), target := t)
    case PlainIntegrity(_) => st.(raised := true, target := t)
    case Failed => st.(raised := true, target := t)
  }

  /**
   * One turn of the loop of `export_data`: nothing once an exception escaped; a statement
   * the latch passes over only counts as skipped; any other sets the latch (when resuming),
   * looks up the key columns (raising when the table has none configured), and is executed
   * and recorded.
   */
  function Step(cfg: LoopConfig, st: LoopState, adjusted: string): (r: LoopState)
    ensures st.raised ==> r == st
    ensures !st.raised && Skips(cfg, st.ok, adjusted) ==> r == st.(skipped := st.skipped + 1)
    ensures !st.raised && !Skips(cfg, st.ok, adjusted) ==>
      r.skipped == st.skipped && (r.ok <==> st.ok || Resuming(cfg))
      && (cfg.pk.None? ==> r.raised && r.target == st.target)
      && (cfg.pk.Some? ==> r.target == Execute(cfg.dialect, st.target, Executed(adjusted, cfg.pk.value), cfg.keyOf).1)
  {
    if st.raised then st
    else if Skips(cfg, st.ok, adjusted) then st.(skipped := st.skipped + 1)
    else Attempt(cfg, st.(ok := st.ok || Resuming(cfg)), adjusted)
  }

  /**
   * One turn only grows the counters; a turn that does not raise counts its statement once,
   * and every duplicate is also an error.
   */
  lemma StepCounts(cfg: LoopConfig, st: LoopState, adjusted: string)
    ensures var r := Step(cfg, st, adjusted);
      && st.inserted <= r.inserted && st.errCnt <= r.errCnt && st.dupes <= r.dupes && st.skipped <= r.skipped
      && r.inserted + r.errCnt + r.skipped <= st.inserted + st.errCnt + st.skipped + 1
      && (!r.raised ==> r.inserted + r.errCnt + r.skipped == st.inserted + st.errCnt + st.skipped + 1)
      && r.dupes - st.dupes <= r.errCnt - st.errCnt
  {
  }

  /** A statement past the latch: raises where the table has no key columns, else is executed and recorded. */
  function Attempt(cfg: LoopConfig, st: LoopState, adjusted: string): (r: LoopState)
    requires !st.raised
    ensures r.skipped == st.skipped && r.ok == st.ok
    ensures cfg.pk.None? ==> r == st.(raised := true)
    ensures cfg.pk.Some? ==>
      r == Record(cfg, st, adjusted, Execute(cfg.dialect, st.target, Executed(adjusted, cfg.pk.value), cfg.keyOf).0,
                  Execute(cfg.dialect, st.target, Executed(adjusted, cfg.pk.value), cfg.keyOf).1)
  {
    match cfg.pk
    case None => st.(raised := true)
    case Some(pk) =>
      var res := Execute(cfg.dialect, st.target, Executed(adjusted, pk), cfg.keyOf);
      Record(cfg, st, adjusted, res.0, res.1)
  }

  /** A turn is the latch's verdict followed by either a skip or an attempt with the latch as it then stands. */
  lemma StepByLatch(cfg: LoopConfig, st: LoopState, adjusted: string, run: bool, r: LoopState)
    requires !st.raised && (run <==> !Skips(cfg, st.ok, adjusted))
    requires r.ok == (st.ok || (run && Resuming(cfg)))
    requires !run ==> r == st.(skipped := st.skipped + 1)
    requires run ==> r == Attempt(cfg, st.(ok := r.ok), adjusted)
    ensures r == Step(cfg, st, adjusted)
  {
  }

  /** The loop over all statements, in order. */
  function Run(cfg: LoopConfig, st: LoopState, stmts: seq<string>): (r: LoopState)
    ensures st.raised ==> r == st
    ensures st.skipped <= r.skipped
    decreases |stmts|
  {
    if stmts == [] then st
    else Step(cfg, Run(cfg, st, stmts[..|stmts| - 1]), stmts[|stmts| - 1])
  }
  /**
   * On a MySQL target the older loop always sends `ON CONFLICT`, which the server rejects:
   * the first statement past the latch raises, and nothing is inserted.
   */
  lemma StepRaisesOnMySql(cfg: LoopConfig, st: LoopState, adjusted: string)
    requires cfg.dialect != Supabase && !st.raised && !Skips(cfg, st.ok, adjusted)
    ensures var r := Step(cfg, st, adjusted);
      r.raised && r.inserted == st.inserted && r.target == st.target && r.errCnt == st.errCnt
  {
    if cfg.pk.Some? {
      ExecutedKeepsClause(adjusted, cfg.pk.value);
    }
  }

  /** A whole run of the older loop on a MySQL target inserts nothing and changes no row. */
  lemma {:induction false} RunInsertsNothingOnMySql(cfg: LoopConfig, st: LoopState, stmts: seq<string>)
    requires cfg.dialect != Supabase
    ensures var r := Run(cfg, st, stmts);
      r.inserted == st.inserted && r.target == st.target && r.errCnt == st.errCnt
    decreases |stmts|
  {
    if stmts != [] {
      var n := |stmts| - 1;
      RunInsertsNothingOnMySql(cfg, st, stmts[..n]);
      var mid := Run(cfg, st, stmts[..n]);
      if !mid.raised && !Skips(cfg, mid.ok, stmts[n]) {
        StepRaisesOnMySql(cfg, mid, stmts[n]);
      }
    }
  }


  lemma RunSnoc(cfg: LoopConfig, st: LoopState, stmts: seq<string>, i: nat)
    requires i < |stmts|
    ensures Run(cfg, st, stmts[..i + 1]) == Step(cfg, Run(cfg, st, stmts[..i]), stmts[i])
  {
    assert stmts[..i + 1][..i] == stmts[..i];
  }

  /** Running two batches is running the first, then the second from where it ended. */
  lemma {:induction false} RunAppend(cfg: LoopConfig, st: LoopState, a: seq<string>, b: seq<string>)
    ensures Run(cfg, st, a + b) == Run(cfg, Run(cfg, st, a), b)
    decreases |b|
  {
    if b == [] {
      assert a + b == a;
    } else {
      var n := |b| - 1;
      assert (a + b)[..|a + b| - 1] == a + b[..n];
      assert (a + b)[|a + b| - 1] == b[n];
      RunAppend(cfg, st, a, b[..n]);
    }
  }

  /** Once an exception escaped, the rest of the batch is not run. */
  lemma {:induction false} RunRaised(cfg: LoopConfig, st: LoopState, stmts: seq<string>)
    requires st.raised
    ensures Run(cfg, st, stmts) == st
    decreases |stmts|
  {
    if stmts != [] {
      RunRaised(cfg, st, stmts[..|stmts| - 1]);
    }
  }

  /** A loop that raised after `i` statements ends where it raised. */
  lemma RaisedToEnd(cfg: LoopConfig, st: LoopState, stmts: seq<string>, i: nat)
    requires i <= |stmts| && Run(cfg, st, stmts[..i]).raised
    ensures Run(cfg, st, stmts) == Run(cfg, st, stmts[..i])
  {
    assert stmts == stmts[..i] + stmts[i..];
    RunAppend(cfg, st, stmts[..i], stmts[i..]);
    RunRaised(cfg, Run(cfg, st, stmts[..i]), stmts[i..]);
  }

  /**
   * Every statement is counted at most once, as inserted, as an error or as skipped, and
   * exactly once when no exception escaped; duplicates are among the errors.
   */
  lemma {:induction false} RunCounts(cfg: LoopConfig, st: LoopState, stmts: seq<string>)
    ensures var r := Run(cfg, st, stmts);
      r.inserted + r.errCnt + r.skipped <= st.inserted + st.errCnt + st.skipped + |stmts|
      && (!r.raised ==> r.inserted + r.errCnt + r.skipped == st.inserted + st.errCnt + st.skipped + |stmts|)
      && st.inserted <= r.inserted && st.errCnt <= r.errCnt && st.dupes <= r.dupes
      && r.dupes - st.dupes <= r.errCnt - st.errCnt
    decreases |stmts|
  {
    if stmts != [] {
      var mid := Run(cfg, st, stmts[..|stmts| - 1]);
      RunCounts(cfg, st, stmts[..|stmts| - 1]);
      StepCounts(cfg, mid, stmts[|stmts| - 1]);
      assert !Run(cfg, st, stmts).raised ==> !mid.raised;
    }
  }

  /** `ok_to_insert_from` never resets; once it is set, or when not resuming, nothing is skipped. */
  lemma {:induction false} RunLatchPersists(cfg: LoopConfig, st: LoopState, stmts: seq<string>)
    ensures st.ok ==> Run(cfg, st, stmts).ok
    ensures st.ok || !Resuming(cfg) ==> Run(cfg, st, stmts).skipped == st.skipped
    decreases |stmts|
  {
    if stmts != [] {
      RunLatchPersists(cfg, st, stmts[..|stmts| - 1]);
    }
  }

  /** The index of the first statement carrying the `start_from` image number, or the number of statements. */
  function FirstStart(cfg: LoopConfig, stmts: seq<string>): (k: nat)
    ensures k <= |stmts|
    ensures k < |stmts| ==> StartsHere(cfg, stmts[k])
    ensures forall j :: 0 <= j < k ==> !StartsHere(cfg, stmts[j])
  {
    var P := (j: nat) => j < |stmts| && StartsHere(cfg, stmts[j]);
    assert forall j: nat :: P(j) == (j < |stmts| && StartsHere(cfg, stmts[j]));
    Exporter.FirstWhere(0, |stmts|, P)
  }

  lemma FirstStartSnoc(cfg: LoopConfig, stmts: seq<string>)
    requires stmts != []
    ensures var n := |stmts| - 1;
      var k := FirstStart(cfg, stmts[..n]);
      FirstStart(cfg, stmts) == if k < n then k else if StartsHere(cfg, stmts[n]) then n else n + 1
  {
    var n := |stmts| - 1;
    var init := stmts[..n];
    var k := FirstStart(cfg, init);
    var K := FirstStart(cfg, stmts);
    assert forall j :: 0 <= j < n ==> init[j] == stmts[j];
    if k < n {
      assert StartsHere(cfg, stmts[k]);
      assert K <= k;
      assert K < n ==> StartsHere(cfg, init[K]);
    } else {
      forall j | 0 <= j < n ensures !StartsHere(cfg, stmts[j]) {
        assert init[j] == stmts[j];
      }
    }
  }

  /**
   * The resume latch of `export_data`: starting unlatched, exactly the statements before
   * the first one carrying the `start_from` image number are skipped (an exception can
   * only come later), and the flag is set iff that statement exists.
   */
  lemma {:induction false} RunSkipsPrefix(cfg: LoopConfig, st: LoopState, stmts: seq<string>)
    requires Resuming(cfg) && !st.ok && !st.raised
    ensures Run(cfg, st, stmts).skipped == st.skipped + FirstStart(cfg, stmts)
    ensures Run(cfg, st, stmts).ok <==> FirstStart(cfg, stmts) < |stmts|
    ensures FirstStart(cfg, stmts) == |stmts| ==> !Run(cfg, st, stmts).raised
    decreases |stmts|
  {
    if stmts != [] {
      var n := |stmts| - 1;
      var init := stmts[..n];
      RunSkipsPrefix(cfg, st, init);
      FirstStartSnoc(cfg, stmts);
      var mid := Run(cfg, st, init);
      var k := FirstStart(cfg, init);
      var r := Step(cfg, mid, stmts[n]);
      assert Run(cfg, st, stmts) == r;
      if k < n {
        assert mid.ok;
        assert r.skipped == mid.skipped && r.ok;
      } else if StartsHere(cfg, stmts[n]) {
        assert !mid.ok && !mid.raised && mid.skipped == st.skipped + n;
        assert r.skipped == mid.skipped && r.ok;
      } else {
        assert !mid.ok && !mid.raised && mid.skipped == st.skipped + n;
        assert r == mid.(skipped := mid.skipped + 1);
      }
    }
  }

  /** A cleaning of error texts that never leaves a line break, as `CleanError` does. */
  ghost predicate OneLine(clean: string -> string) {
    forall s :: '\n' !in clean(s)
  }

  /** The records of a table are keyed at most by the error count. */
  predicate KeysBelow(log: map<nat, Exporter.ErrorInfo>, errCnt: nat) {
    forall k :: k in log ==> k <= errCnt
  }

  /** What the loop does to a table's records, given they are keyed at most by the error count. */
  predicate RecordsKept(before: map<nat, Exporter.ErrorInfo>, errCnt: nat, after: map<nat, Exporter.ErrorInfo>, errCnt': nat) {
    KeysBelow(after, errCnt') && errCnt <= errCnt'
    && |after| == |before| + (errCnt' - errCnt)
    && (forall k :: k in before ==> k in after && after[k] == before[k])
    && (forall k :: k in after && k !in before ==> '\n' !in after[k].message && '\n' !in after[k].detail)
  }

  /**
   * No integrity error overwrites an earlier record: the loop adds exactly one record per
   * integrity error, keeps every earlier one, and the new records' texts are on one line.
   */
  lemma {:induction false} RunKeepsRecords(cfg: LoopConfig, st: LoopState, stmts: seq<string>)
    requires OneLine(cfg.clean) && KeysBelow(st.log, st.errCnt)
    ensures var r := Run(cfg, st, stmts); RecordsKept(st.log, st.errCnt, r.log, r.errCnt)
    decreases |stmts|
  {
    if stmts != [] {
      var n := |stmts| - 1;
      var mid := Run(cfg, st, stmts[..n]);
      RunKeepsRecords(cfg, st, stmts[..n]);
      StepKeepsRecords(cfg, mid, stmts[n]);
    }
  }

  lemma StepKeepsRecords(cfg: LoopConfig, st: LoopState, adjusted: string)
    requires OneLine(cfg.clean) && KeysBelow(st.log, st.errCnt)
    ensures var r := Step(cfg, st, adjusted); RecordsKept(st.log, st.errCnt, r.log, r.errCnt)
  {
    if !st.raised && !Skips(cfg, st.ok, adjusted) && cfg.pk.Some? {
      var st1 := st.(ok := st.ok || Resuming(cfg));
      var res := Execute(cfg.dialect, st1.target, Executed(adjusted, cfg.pk.value), cfg.keyOf);
      RecordKeepsRecords(cfg, st1, adjusted, res.0, res.1);
    }
  }

  lemma RecordKeepsRecords(cfg: LoopConfig, st: LoopState, adjusted: string, o: Outcome, t: Target)
    requires OneLine(cfg.clean) && KeysBelow(st.log, st.errCnt)
    ensures var r := Record(cfg, st, adjusted, o, t); RecordsKept(st.log, st.errCnt, r.log, r.errCnt)
  {
    var r := Record(cfg, st, adjusted, o, t);
    if o.Integrity? {
      var e := Exporter.ErrorInfo(cfg.clean(o.primary), cfg.clean(o.detail), adjusted);
      assert r.log == st.log[st.errCnt + 1 := e] && r.errCnt == st.errCnt + 1;
      AddRecordKeeps(st.log, st.errCnt, e);
    } else {
      assert r.log == st.log && r.errCnt == st.errCnt;
    }
  }

  /** A one-line record added under the next count is a new key. */
  lemma AddRecordKeeps(log: map<nat, Exporter.ErrorInfo>, n: nat, e: Exporter.ErrorInfo)
    requires KeysBelow(log, n) && '\n' !in e.message && '\n' !in e.detail
    ensures RecordsKept(log, n, log[n + 1 := e], n + 1)
  {
    assert n + 1 !in log;
  }

  /** Every table's records are keyed at most by the error count `n`. */
  predicate AllKeysBelow(m: map<string, map<nat, Exporter.ErrorInfo>>, n: nat) {
    forall t :: t in m ==> KeysBelow(m[t], n)
  }

  /** Replacing one table's records by records in bounds for a larger count keeps every table in bounds. */
  lemma AllKeysBelowUpdate(m: map<string, map<nat, Exporter.ErrorInfo>>, n: nat, name: string,
                           log: map<nat, Exporter.ErrorInfo>, n': nat)
    requires AllKeysBelow(m, n) && n <= n' && KeysBelow(log, n')
    ensures AllKeysBelow(m[name := log], n')
  {
  }

  /** After a run over one table's records, every table's records are still in bounds. */
  lemma KeepsValid(m: map<string, map<nat, Exporter.ErrorInfo>>, name: string, cfg: LoopConfig,
                   st: LoopState, stmts: seq<string>)
    requires OneLine(cfg.clean) && name in m && AllKeysBelow(m, st.errCnt) && st.log == m[name]
    ensures var r := Run(cfg, st, stmts); AllKeysBelow(m[name := r.log], r.errCnt)
  {
    var r := Run(cfg, st, stmts);
    RunKeepsRecords(cfg, st, stmts);
    AllKeysBelowUpdate(m, st.errCnt, name, r.log, r.errCnt);
  }

  // ------------------------------------------------------------ the script's globals

  /** The older script's run: its options and configuration, and the globals its functions update. */
  class ScriptState {
    /** `--db-type`, the dialect `adjust_sql_syntax` is given. */
    const dbType: Dialect
    /**
     * `dbt_type`, the target's configured type: it picks the engine's URL scheme, so the
     * server the statements run on, and the value formatting and column quoting read it.
     */
    const targetType: Dialect
    const migSchema: string
    const startFrom: Option<string>
    const pkConfig: map<string, seq<string>>
    const postgresVersion: Option<int>
    /** The image directories, with the formats fixed at `jpg` and `webp`. */
    const imageSettings: Exporter.Settings

    var insertHeader: string
    var insCnt: nat
    var errCnt: nat
    var dupeEntryCnt: nat
    var insErr: map<string, map<nat, Exporter.ErrorInfo>>
    var okToInsertFrom: bool
    var images: set<string>

    /** Every table's error records are keyed at most by the global error count. */
    predicate Valid()
      reads this`insErr, this`errCnt
    {
      AllKeysBelow(insErr, errCnt)
    }

    /** The script's start: flags and counters cleared, nothing recorded. */
    constructor (dbType: Dialect, targetType: Dialect, migSchema: string, startFrom: Option<string>,
                 pkConfig: map<string, seq<string>>, postgresVersion: Option<int>, jpgDir: string, webpDir: string,
                 existingImages: set<string>)
      ensures Valid()
      ensures this.dbType == dbType && this.targetType == targetType && this.migSchema == migSchema
      ensures this.startFrom == startFrom && this.pkConfig == pkConfig && this.postgresVersion == postgresVersion
      ensures imageSettings.imageFormats == ["jpg", "webp"]
      ensures imageSettings.jpgDir == jpgDir && imageSettings.webpDir == webpDir
      ensures insertHeader == "" && insCnt == 0 && errCnt == 0 && dupeEntryCnt == 0
      ensures insErr == map[] && !okToInsertFrom && images == existingImages
    {
      this.dbType := dbType;
      this.targetType := targetType;
      this.migSchema := migSchema;
      this.startFrom := startFrom;
      this.pkConfig := pkConfig;
      this.postgresVersion := postgresVersion;
      imageSettings := Exporter.Settings(targetType, migSchema, pkConfig, startFrom, "multi", "", "", "",
                                         jpgDir, webpDir, ["jpg", "webp"]);
      insertHeader := "";
      insCnt := 0;
      errCnt := 0;
      dupeEntryCnt := 0;
      insErr := map[];
      okToInsertFrom := false;
      images := existingImages;
    }

    /** `get_table_data_set` and `get_table_data` clear the insert and duplicate counts per table. */
    method BeginTable()
      modifies this`insCnt, this`dupeEntryCnt
      ensures insCnt == 0 && dupeEntryCnt == 0
    {
      insCnt := 0;
      dupeEntryCnt := 0;
    }

    // ---------------------------------------------------------- df_to_sql_bulk_insert

    /**
     * `df_to_sql_bulk_insert`: with a header the stored header is replaced and starts the
     * text; without one the text is the bare values. None where pandas raises on the
     * picture rule or a value cannot be formatted; the stored header is then unchanged.
     */
    method DfToSqlBulkInsert(f: Frame, table: string, includeHeader: bool, kwargs: seq<(string, Cell)>)
      returns (query: Option<string>)
      requires WellFormed(f)
      modifies this`insertHeader
      ensures match LegacyPrepared(f, table, kwargs)
        case None => query.None? && insertHeader == old(insertHeader)
        case Some(g) =>
          match ValuesText(g, targetType, postgresVersion, AsWritten)
          case None => query.None? && insertHeader == old(insertHeader)
          case Some(v) =>
            if includeHeader then
              insertHeader == InsertHeader(targetType, migSchema, table, g.columns)
              && query == Some(insertHeader + " " + v)
            else insertHeader == old(insertHeader) && query == Some(v)
    {
      var prepared := LegacyPrepared(f, table, kwargs);
      if prepared.None? {
        return None;
      }
      var g := prepared.value;
      var values := ValuesText(g, targetType, postgresVersion, AsWritten);
      if values.None? {
        return None;
      }
      if includeHeader {
        insertHeader := InsertHeader(targetType, migSchema, table, g.columns);
        query := Some(insertHeader + " " + values.value);
      } else {
        query := Some(values.value);
      }
    }

    // ---------------------------------------------------------- export_data (DML into the target)

    /** The loop's configuration for `table`: the options and the table's key columns, when configured. */
    function ConfigFor(table: string, keyOf: string -> Option<string>): LoopConfig {
      LoopConfig(targetType, table, startFrom, if table in pkConfig then Some(pkConfig[table]) else None, keyOf, ExtractImageNo,
                 CleanError)
    }

    /**
     * The statements run on the configured target, whatever `--db-type` says: with a MySQL
     * target every statement the latch lets through raises, so a run inserts nothing.
     */
    lemma ConfiguredServerRuns(table: string, keyOf: string -> Option<string>, st: LoopState, stmts: seq<string>)
      requires targetType != Supabase
      ensures var r := Run(ConfigFor(table, keyOf), st, stmts);
        r.inserted == st.inserted && r.target == st.target && r.errCnt == st.errCnt
    {
      RunInsertsNothingOnMySql(ConfigFor(table, keyOf), st, stmts);
    }

    /** `cfg` carries the configured server, this run's resume option and the key columns of `table`. */
    predicate Configures(cfg: LoopConfig, table: string) {
      cfg.dialect == targetType && cfg.table == table && cfg.startFrom == startFrom
      && cfg.pk == (if table in pkConfig then Some(pkConfig[table]) else None)
    }

    /**
     * The DML branch of `export_data`: the error records start over (with the error count)
     * when the table has none yet; the text is split on `",\n"`, the stored header put back
     * where a piece lacks `INSERT INTO`, each statement adjusted, passed over by the resume
     * latch or executed with the conflict clause and counted. An operational or other
     * database error, or a table without configured key columns, raises out of the loop,
     * keeping what was counted so far.
     */
    method ExportData(dml: string, name: string, db: Target, keyOf: string -> Option<string>)
      returns (db1: Target, raised: bool)
      requires Valid()
      modifies this`insCnt, this`errCnt, this`dupeEntryCnt, this`insErr, this`okToInsertFrom
      ensures Valid()
      ensures var absent := name !in old(insErr);
        var init := LoopState(old(insCnt), if absent then 0 else old(errCnt), old(dupeEntryCnt), 0,
                              if absent then map[] else old(insErr)[name], old(okToInsertFrom), false, db);
        var r := Run(ConfigFor(name, keyOf), init, AdjustedOf(insertHeader, dbType, Split(dml, ",\n")));
        insCnt == r.inserted && errCnt == r.errCnt && dupeEntryCnt == r.dupes && okToInsertFrom == r.ok
        && insErr == (if absent then map[] else old(insErr))[name := r.log]
        && raised == r.raised && db1 == r.target
    {
      var cfg := ConfigFor(name, keyOf);
      ghost var start := if name !in insErr then map[] else insErr;
      if name !in insErr {
        insErr := map[name := map[]];
        errCnt := 0;
      }
      assert AllKeysBelow(insErr, errCnt);
      ghost var base := insErr;
      ghost var init := LoopState(insCnt, errCnt, dupeEntryCnt, 0, insErr[name], okToInsertFrom, false, db);
      ghost var skipped := 0;
      var pieces := Split(dml, ",\n");
      ghost var stmts := AdjustedOf(insertHeader, dbType, pieces);
      db1, raised := db, false;
      var i := 0;
      while i < |pieces| && !raised
        invariant 0 <= i <= |pieces| && name in insErr
        invariant insErr == base[name := insErr[name]]
        invariant Run(cfg, init, stmts[..i])
               == LoopState(insCnt, errCnt, dupeEntryCnt, skipped, insErr[name], okToInsertFrom, raised, db1)
      {
        RunSnoc(cfg, init, stmts, i);
        var adjusted := AdjustSqlSyntax(Exporter.StatementOf(insertHeader, pieces[i]), dbType);
        ghost var records := insErr;
        skipped, db1, raised := Turn(cfg, name, adjusted, skipped, db1);
        Exporter.UpdateTwice(base, name, records[name], insErr[name]);
        i := i + 1;
      }
      if raised {
        RaisedToEnd(cfg, init, stmts, i);
      } else {
        assert stmts[..i] == stmts;
      }
      KeepsValid(base, name, cfg, init, stmts);
      Exporter.UpdateTwice(start, name, map[], insErr[name]);
      assert insErr == start[name := insErr[name]];
    }

    /** One turn of the loop of `export_data`, as `Step` states it. */
    method Turn(cfg: LoopConfig, name: string, adjusted: string, ghost skipped: nat, db: Target)
      returns (ghost skipped': nat, db': Target, raised: bool)
      requires name in insErr && Configures(cfg, name)
      modifies this`insCnt, this`errCnt, this`dupeEntryCnt, this`insErr, this`okToInsertFrom
      ensures name in insErr && insErr == old(insErr)[name := insErr[name]]
      ensures LoopState(insCnt, errCnt, dupeEntryCnt, skipped', insErr[name], okToInsertFrom, raised, db')
           == Step(cfg, LoopState(old(insCnt), old(errCnt), old(dupeEntryCnt), skipped, old(insErr)[name],
                                  old(okToInsertFrom), false, db), adjusted)
    {
      ghost var st := LoopState(insCnt, errCnt, dupeEntryCnt, skipped, insErr[name], okToInsertFrom, false, db);
      var run := PassesLatch(cfg, name, adjusted);
      if run {
        skipped' := skipped;
        db', raised := TryInsert(cfg, name, adjusted, skipped, db);
      } else {
        skipped' := skipped + 1;
        db', raised := db, false;
      }
      StepByLatch(cfg, st, adjusted, run,
                  LoopState(insCnt, errCnt, dupeEntryCnt, skipped', insErr[name], okToInsertFrom, raised, db'));
    }

    /** A statement past the latch: the key columns looked up, the statement executed and tallied. */
    method TryInsert(cfg: LoopConfig, name: string, adjusted: string, ghost skipped: nat, db: Target)
      returns (db': Target, raised: bool)
      requires name in insErr && Configures(cfg, name)
      modifies this`insCnt, this`errCnt, this`dupeEntryCnt, this`insErr
      ensures name in insErr && insErr == old(insErr)[name := insErr[name]]
      ensures LoopState(insCnt, errCnt, dupeEntryCnt, skipped, insErr[name], okToInsertFrom, raised, db')
           == Attempt(cfg, LoopState(old(insCnt), old(errCnt), old(dupeEntryCnt), skipped, old(insErr)[name],
                                     okToInsertFrom, false, db), adjusted)
    {
      ghost var before := LoopState(insCnt, errCnt, dupeEntryCnt, skipped, insErr[name], okToInsertFrom, false, db);
      if name !in pkConfig {
        return db, true;
      }
      var pk := pkConfig[name];
      var (outcome, t) := Execute(targetType, db, Executed(adjusted, pk), cfg.keyOf);
      db' := t;
      raised := Tally(cfg, name, adjusted, outcome, before);
    }

    /**
     * The resume latch of `export_data`: for ratcatalogue with `start_from` given, statements
     * are passed over until one carries that image number, which sets the flag for good.
     * The number is read with `cfg.imageNo`, which `ConfigFor` sets to `ExtractImageNo`.
     */
    method PassesLatch(cfg: LoopConfig, name: string, adjusted: string) returns (run: bool)
      requires Configures(cfg, name)
      modifies this`okToInsertFrom
      ensures run <==> !Skips(cfg, old(okToInsertFrom), adjusted)
      ensures okToInsertFrom == (old(okToInsertFrom) || (run && Resuming(cfg)))
    {
      run := true;
      if startFrom.Some? && name == "ratcatalogue" {
        var imageNo := cfg.imageNo(adjusted);
        if imageNo != startFrom && !okToInsertFrom {
          run := false;
        } else {
          okToInsertFrom := true;
        }
      }
    }

    /**
     * The handling of one executed statement: a commit counts as inserted; an integrity
     * error counts as an error, is recorded under the new error count with its cleaned
     * texts, and is a duplicate when its text says the key already exists; any other
     * database error raises.
     */
    method Tally(cfg: LoopConfig, name: string, adjusted: string, outcome: Outcome, ghost st: LoopState)
      returns (raised: bool)
      requires name in insErr
      requires st.inserted == insCnt && st.errCnt == errCnt && st.dupes == dupeEntryCnt
      requires st.log == insErr[name] && !st.raised
      modifies this`insCnt, this`errCnt, this`dupeEntryCnt, this`insErr
      ensures name in insErr && insErr == old(insErr)[name := insErr[name]]
      ensures var r := Record(cfg, st, adjusted, outcome, st.target);
        insCnt == r.inserted && errCnt == r.errCnt && dupeEntryCnt == r.dupes
        && insErr[name] == r.log && raised == r.raised
    {
      raised := false;
      match outcome {
        case Committed =>
          insCnt := insCnt + 1;
        case Integrity(p, d) =>
          var e := Exporter.ErrorInfo(cfg.clean(p), cfg.clean(d), adjusted);
          var records := insErr[name];
          insErr := insErr[name := records[errCnt + 1 := e]];
          errCnt := errCnt + 1;
          if IsDuplicate(outcome) {
            dupeEntryCnt := dupeEntryCnt + 1;
          }
        case PlainIntegrity(_) =>
          raised := true;
        case Failed =>
          raised := true;
      }
    }

    // ---------------------------------------------------------- export_images

    /**
     * `export_images`: walks the chunks' items, skipping empty names or data, writing each
     * format whose file is missing; `raised` when an image cannot be converted to WebP.
     */
    method ExportImages(chunks: seq<seq<Exporter.ImageItem>>, decodable: seq<bv8> -> bool) returns (raised: bool)
      modifies this`images
      ensures var r := Exporter.ImagesRun(imageSettings, decodable, Exporter.ImageState(old(images), 0, false),
                                          Exporter.Flatten(chunks));
        images == r.present && raised == r.failed
    {
      ghost var start := Exporter.ImageState(images, 0, false);
      ghost var written := 0;
      var c := 0;
      while c < |chunks|
        invariant 0 <= c <= |chunks|
        invariant Exporter.ImagesRun(imageSettings, decodable, start, Exporter.Flatten(chunks[..c]))
               == Exporter.ImageState(images, written, false)
      {
        var chunk := chunks[c];
        ghost var done := Exporter.Flatten(chunks[..c]);
        var k;
        written, raised, k := ExportChunk(chunk, decodable, start, done, written);
        if raised {
          Exporter.FailedToEnd(imageSettings, start, chunks, c, k, decodable, Exporter.ImageState(images, written, true));
          return;
        }
        assert chunk[..k] == chunk;
        assert chunks[..c + 1][..c] == chunks[..c];
        assert Exporter.Flatten(chunks[..c + 1]) == done + chunk;
        c := c + 1;
      }
      assert chunks[..|chunks|] == chunks;
      raised := false;
    }

    /**
     * The items of one chunk, in order, after the items `done` of the chunks before it;
     * `raised` with the state at the `k` items that ran when an item fails.
     */
    method ExportChunk(chunk: seq<Exporter.ImageItem>, decodable: seq<bv8> -> bool, ghost start: Exporter.ImageState,
                       ghost done: seq<Exporter.ImageItem>, ghost written: nat)
      returns (ghost written': nat, raised: bool, k: nat)
      requires Exporter.ImagesRun(imageSettings, decodable, start, done) == Exporter.ImageState(images, written, false)
      modifies this`images
      ensures k <= |chunk|
      ensures Exporter.ImagesRun(imageSettings, decodable, start, done + chunk[..k])
           == Exporter.ImageState(images, written', raised)
      ensures !raised ==> k == |chunk|
    {
      written', raised := written, false;
      assert done + chunk[..0] == done;
      k := 0;
      while k < |chunk|
        invariant 0 <= k <= |chunk|
        invariant Exporter.ImagesRun(imageSettings, decodable, start, done + chunk[..k])
               == Exporter.ImageState(images, written', false)
      {
        Exporter.ImagesRunSnoc(imageSettings, decodable, start, done + chunk[..k], chunk[k]);
        assert done + chunk[..k + 1] == done + chunk[..k] + [chunk[k]];
        var ok;
        written', ok := ExportItem(chunk[k], decodable, written');
        k := k + 1;
        if !ok {
          return written', true, k;
        }
      }
    }

    /** One item of `export_images`: the JPEG written when missing, then the WebP when missing, which needs decodable bytes. */
    method ExportItem(item: Exporter.ImageItem, decodable: seq<bv8> -> bool, ghost written: nat)
      returns (ghost written': nat, ok: bool)
      modifies this`images
      ensures Exporter.ImageStep(imageSettings, decodable, Exporter.ImageState(old(images), written, false), item)
           == Exporter.ImageState(images, written', !ok)
    {
      written', ok := written, true;
      if item.name.None? || item.name.value == "" || item.data == [] {
        return;
      }
      var name := item.name.value;
      ghost var st := Exporter.ImageState(images, written, false);
      var jpg := Exporter.JpgPath(imageSettings, name);
      if "jpg" in imageSettings.imageFormats && jpg !in images {
        images := images + {jpg};
        written' := written' + 1;
      }
      if "jpg" in imageSettings.imageFormats {
        Exporter.AddFileIs(st, jpg, images, written');
      }
      ghost var st1 := Exporter.ImageState(images, written', false);
      var webp := Exporter.WebpPath(imageSettings, name);
      if "webp" in imageSettings.imageFormats && webp !in images {
        if !decodable(item.data) {
          ok := false;
          return;
        }
        images := images + {webp};
        written' := written' + 1;
      }
      if "webp" in imageSettings.imageFormats {
        Exporter.AddFileIs(st1, webp, images, written');
      }
    }
  }

  // ------------------------------------------------------------ the older picture rule

  /** The frame the older script formats: keywords assigned, booleans as numbers, its picture rule applied. */
  function LegacyPrepared(f: Frame, table: string, kwargs: seq<(string, Cell)>): (r: Option<Frame>)
    requires WellFormed(f)
    ensures r.Some? ==> WellFormed(r.value) && |r.value.rows| == |f.rows|
  {
    LegacyPictureRule(ReplaceBools(Assign(f, kwargs)), table)
  }

  /**
   * Where the older rule does not raise and finds both columns (or the table is not
   * ratcatalogue), both scripts format the same frame.
   */
  lemma LegacyPreparedAgrees(f: Frame, table: string, kwargs: seq<(string, Cell)>)
    requires WellFormed(f)
    requires var g := ReplaceBools(Assign(f, kwargs));
      table != "ratcatalogue" || ("picture" in g.columns && "image_no" in g.columns)
    ensures LegacyPrepared(f, table, kwargs) == Some(Prepared(f, table, kwargs))
  {
    var g := ReplaceBools(Assign(f, kwargs));
    if table != "ratcatalogue" {
      PictureRuleOtherwise(g, table);
    } else if g.rows == [] {
      assert PictureRule(g, table).rows == [];
      assert PictureRule(g, table) == g;
    } else {
      assert ColumnIndex(g.columns, "image_no").Some?;
    }
  }
}
