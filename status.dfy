/**
 * The refactored command-line script: which connections a run needs, the table list it
 * works on, the status of each table when both sides are compared, the chunking of a
 * table's data, the defaults the command line fills in and the per-table migration loop.
 * Servers, the data frames and the logger are parameters or left out: what a query or a
 * connection test answers is an argument of the operation that asks.
 */
module MigrationStatus {
  import opened Wrappers
  import opened Text
  import ExtractText
  import Connections

  // ------------------------------------------------------------ connections

  /** The results `test_connections_selectively` records: both sides are always tested. */
  function TestResults(filemakerOk: bool, targetOk: bool): (r: map<string, bool>)
    ensures r.Keys == {"filemaker", "target"}
    ensures r["filemaker"] == filemakerOk && r["target"] == targetOk
  {
    map["filemaker" := filemakerOk, "target" := targetOk]
  }

  /** `validate_connections`: fails exactly when a required side was tested and failed. */
  function ValidateConnections(results: map<string, bool>, requireFilemaker: bool, requireTarget: bool): (ok: bool)
    ensures !ok <==> exists k :: k in results && !results[k]
                       && ((k == "filemaker" && requireFilemaker) || (k == "target" && requireTarget))
  {
    var success := !(requireFilemaker && "filemaker" in results && !results["filemaker"]);
    success && !(requireTarget && "target" in results && !results["target"])
  }

  /** With both sides tested, a run passes iff every side it requires is up. */
  lemma ValidateTested(filemakerOk: bool, targetOk: bool, requireFilemaker: bool, requireTarget: bool)
    ensures ValidateConnections(TestResults(filemakerOk, targetOk), requireFilemaker, requireTarget)
        <==> (requireFilemaker ==> filemakerOk) && (requireTarget ==> targetOk)
  {
    var results := TestResults(filemakerOk, targetOk);
    assert "filemaker" in results && "target" in results;
  }

  /** Requiring fewer connections never turns a passing validation into a failing one. */
  lemma ValidateMonotone(results: map<string, bool>, f1: bool, t1: bool, f2: bool, t2: bool)
    requires (f2 ==> f1) && (t2 ==> t1)
    ensures ValidateConnections(results, f1, t1) ==> ValidateConnections(results, f2, t2)
  {
  }

  // ------------------------------------------------------------ table list

  /** The list used when the source cannot be asked for its tables. */
  const FallbackTables: seq<string> := ["ratcatalogue", "ratbuilders", "ratroutes", "ratcollections", "ratlabels"]

  /** A name with none of the separators in it. */
  predicate NoDelimiter(t: string) {
    forall j :: 0 <= j < |t| ==> !ExtractText.IsDelimiter(t[j])
  }

  /** `[t.strip() for t in pieces if t.strip()]`: stripped, non-empty, and free of delimiters when the pieces are. */
  function Kept(pieces: seq<string>): (r: seq<string>)
    ensures |r| <= |pieces|
    decreases |pieces|
  {
    if pieces == [] then []
    else
      var rest := Kept(pieces[1..]);
      var t := Strip(pieces[0]);
      if t != [] then [t] + rest else rest
  }

  /** Every kept name is non-empty and already stripped, and free of delimiters when the pieces are. */
  lemma KeptStripped(pieces: seq<string>)
    ensures forall t :: t in Kept(pieces) ==> t != [] && Strip(t) == t
    ensures (forall k :: 0 <= k < |pieces| ==> NoDelimiter(pieces[k])) ==> forall t :: t in Kept(pieces) ==> NoDelimiter(t)
  {
    forall t | t in Kept(pieces)
      ensures t != [] && Strip(t) == t
      ensures (forall k :: 0 <= k < |pieces| ==> NoDelimiter(pieces[k])) ==> NoDelimiter(t)
    {
      var k := KeptFrom(pieces, t);
      StripByIdempotent(pieces[k], IsSpace);
      if NoDelimiter(pieces[k]) {
        StripNoDelimiter(pieces[k]);
      }
    }
  }

  /** A kept name is the stripped form of one of the pieces. */
  lemma {:induction false} KeptFrom(pieces: seq<string>, t: string) returns (k: nat)
    requires t in Kept(pieces)
    ensures k < |pieces| && t == Strip(pieces[k]) && t != []
    decreases |pieces|
  {
    var h := Strip(pieces[0]);
    if h != [] && t == h {
      k := 0;
    } else {
      assert t in Kept(pieces[1..]);
      var j := KeptFrom(pieces[1..], t);
      k := j + 1;
    }
  }

  /** Stripping a name free of delimiters leaves it free of them. */
  lemma StripNoDelimiter(p: string)
    requires NoDelimiter(p)
    ensures NoDelimiter(Strip(p))
  {
    var t := Strip(p);
    forall j | 0 <= j < |t| ensures !ExtractText.IsDelimiter(t[j]) {
      StripByKeeps(p, IsSpace, t[j]);
    }
  }

  /** The names a table argument requests: split on `; | , space`, stripped, empty names dropped. */
  function Requested(arg: string): (r: seq<string>)
    ensures forall t :: t in r ==> t != [] && Strip(t) == t && NoDelimiter(t)
  {
    var pieces := ExtractText.SplitWhere(arg, ExtractText.IsDelimiter);
    assert forall k :: 0 <= k < |pieces| ==> NoDelimiter(pieces[k]);
    KeptStripped(pieces);
    Kept(pieces)
  }

  /**
   * `get_table_list_safe`: the tables to work on and whether the list could be made. When the
   * source is connected its tables are fetched (an error ends in `([], False)`) and every
   * requested name must be one of them; otherwise the fallback list stands in and nothing is checked.
   */
  function TableListSafe(connected: bool, fetched: Result<seq<string>, string>, arg: string): (r: (seq<string>, bool))
    ensures !r.1 ==> r.0 == []
    ensures !connected ==> r.1
    ensures r.1 && arg == "all" ==> if connected then fetched.Ok? && r.0 == fetched.value else r.0 == FallbackTables
    ensures r.1 && arg != "all" ==> r.0 == Requested(arg)
    ensures connected ==>
      (r.1 <==> fetched.Ok? && (arg == "all" || forall t :: t in Requested(arg) ==> t in fetched.value))
  {
    if connected && fetched.Err? then ([], false)
    else
      var available := if connected then fetched.value else FallbackTables;
      if arg == "all" then (available, true)
      else
        var requested := Requested(arg);
        if connected && exists t :: t in requested && t !in available then ([], false)
        else (requested, true)
  }

  /** Whatever list a connected run accepts consists of tables the source has. */
  lemma ListedAreAvailable(fetched: Result<seq<string>, string>, arg: string)
    ensures var r := TableListSafe(true, fetched, arg);
      r.1 ==> forall t :: t in r.0 ==> t in fetched.value
  {
  }

  /** `SplitWhere` undoes a comma-joined list of names free of delimiters. */
  lemma {:induction false} SplitCommaJoined(names: seq<string>)
    requires names != []
    requires forall k :: 0 <= k < |names| ==> NoDelimiter(names[k])
    ensures ExtractText.SplitWhere(Join(",", names), ExtractText.IsDelimiter) == names
    decreases |names|
  {
    if |names| == 1 {
      assert Join(",", names) == names[0];
      ExtractText.SplitWhereNone(names[0], ExtractText.IsDelimiter);
    } else {
      SplitCommaJoined(names[1..]);
      assert Join(",", names) == names[0] + "," + Join(",", names[1..]);
      ExtractText.SplitWhereConcat(names[0], ',', Join(",", names[1..]), ExtractText.IsDelimiter);
      ExtractText.SplitWhereNone(names[0], ExtractText.IsDelimiter);
    }
  }

  /** A name with no whitespace in it. */
  predicate NoSpace(t: string) {
    forall j :: 0 <= j < |t| ==> !IsSpace(t[j])
  }

  /** A name a comma-separated table argument can carry unchanged. */
  predicate CleanName(t: string) {
    t != [] && NoSpace(t) && NoDelimiter(t)
  }

  /** Names without whitespace are all kept, unchanged. */
  lemma {:induction false} KeptClean(names: seq<string>)
    requires forall k :: 0 <= k < |names| ==> CleanName(names[k])
    ensures Kept(names) == names
    decreases |names|
  {
    if names != [] {
      var tail := names[1..];
      assert forall k :: 0 <= k < |tail| ==> tail[k] == names[k + 1];
      KeptClean(tail);
      StripClean(names[0]);
      KeptCons(names);
      assert names == [names[0]] + tail;
    }
  }

  /** A non-empty stripped head is kept as it is, in front of the rest. */
  lemma KeptCons(names: seq<string>)
    requires names != [] && names[0] != [] && Strip(names[0]) == names[0]
    ensures Kept(names) == [names[0]] + Kept(names[1..])
  { }

  lemma StripClean(t: string)
    requires CleanName(t)
    ensures Strip(t) == t
  {
    StripNoSpace(t);
  }

  /** A list of clean names joined by commas requests exactly those names. */
  lemma RequestedJoined(names: seq<string>)
    requires names != []
    requires forall k :: 0 <= k < |names| ==> CleanName(names[k])
    ensures Requested(Join(",", names)) == names
  {
    SplitCommaJoined(names);
    KeptClean(names);
  }

  /**
   * On a clean comma-separated list the refactored selection and the original script's
   * `get_table_export_list` agree: both accept the names exactly when the source has them all.
   */
  lemma AgreesWithExportList(names: seq<string>, available: seq<string>)
    requires names != [] && names[0] != "all"
    requires forall k :: 0 <= k < |names| ==> CleanName(names[k])
    ensures var arg := Join(",", names);
      && arg != "all"
      && (TableListSafe(true, Ok(available), arg).1 <==> ExtractText.TableExportList(arg, available).Ok?)
      && (TableListSafe(true, Ok(available), arg).1 ==>
            TableListSafe(true, Ok(available), arg).0 == ExtractText.TableExportList(arg, available).value)
  {
    JoinedNotAll(names);
    RequestedJoined(names);
    SplitCommaJoined(names);
    AgreeOnSplit(Join(",", names), names, available);
  }

  /** The two selections agree on any named list whose pieces are the names it requests. */
  lemma AgreeOnSplit(arg: string, names: seq<string>, available: seq<string>)
    requires arg != "all" && names != [] && names[0] != "all"
    requires Requested(arg) == names && ExtractText.SplitWhere(arg, ExtractText.IsDelimiter) == names
    ensures TableListSafe(true, Ok(available), arg).1 <==> ExtractText.TableExportList(arg, available).Ok?
    ensures TableListSafe(true, Ok(available), arg).1 ==>
      TableListSafe(true, Ok(available), arg).0 == ExtractText.TableExportList(arg, available).value
  {
    ListedWhenConnected(available, arg);
    ExtractText.FoundInIff(available, names);
  }

  /** A connected run with a named list accepts it, unchanged, exactly when the source has every name. */
  lemma ListedWhenConnected(available: seq<string>, arg: string)
    requires arg != "all"
    ensures var requested := Requested(arg);
      TableListSafe(true, Ok(available), arg)
        == if forall t :: t in requested ==> t in available then (requested, true) else ([], false)
  {
  }

  /** A clean list whose first name is not `all` is not the text `all` either. */
  lemma JoinedNotAll(names: seq<string>)
    requires names != [] && names[0] != "all"
    requires forall k :: 0 <= k < |names| ==> CleanName(names[k])
    ensures Join(",", names) != "all"
  {
    SplitCommaJoined(names);
    if Join(",", names) == "all" {
      ExtractText.SplitWhereNone("all", ExtractText.IsDelimiter);
      assert false;
    }
  }

  // ------------------------------------------------------------ table status

  datatype TableStatus = BothError | SourceError | TargetError | NotMigrated | FullyMigrated | PartiallyMigrated

  /** The status strings of the report. */
  function Name(s: TableStatus): string {
    match s
    case BothError => "both_error"
    case SourceError => "source_error"
    case TargetError => "target_error"
    case NotMigrated => "not_migrated"
    case FullyMigrated => "fully_migrated"
    case PartiallyMigrated => "partially_migrated"
  }

  predicate IsError(s: TableStatus) {
    s.BothError? || s.SourceError? || s.TargetError?
  }

  predicate IsMigrated(s: TableStatus) {
    s.FullyMigrated? || s.PartiallyMigrated?
  }

  /** The refactored script's classification, or the database manager's, which has no `both_error`. */
  datatype Classifier = Script | Manager

  /**
   * The status of a table with source count `src` and target count `tgt` (`-1` for a
   * failed count): errors first, then an empty target, then equal or unequal counts.
   */
  function Classify(c: Classifier, src: int, tgt: int): (s: TableStatus)
    ensures s == BothError <==> c.Script? && src == -1 && tgt == -1
    ensures s == SourceError <==> src == -1 && (c.Manager? || tgt != -1)
    ensures s == TargetError <==> src != -1 && tgt == -1
    ensures s == NotMigrated <==> src != -1 && tgt == 0
    ensures s == FullyMigrated <==> src != -1 && tgt != 0 && tgt == src
    ensures s == PartiallyMigrated <==> src != -1 && tgt != -1 && tgt != 0 && tgt != src
  {
    if c.Script? && src == -1 && tgt == -1 then BothError
    else if src == -1 then SourceError
    else if tgt == -1 then TargetError
    else if tgt == 0 then NotMigrated
    else if tgt == src then FullyMigrated
    else PartiallyMigrated
  }

  /** A status is an error exactly when a count failed, whichever classification is used. */
  lemma ErrorIffFailedCount(c: Classifier, src: int, tgt: int)
    ensures IsError(Classify(c, src, tgt)) <==> src == -1 || tgt == -1
  {
  }

  /** The two classifications differ only where the manager folds `both_error` into `source_error`. */
  lemma ClassifiersAgree(src: int, tgt: int)
    ensures var s := Classify(Script, src, tgt);
      Classify(Manager, src, tgt) == if s == BothError then SourceError else s
  {
  }

  /** On real counts (`-1` or a row count), a migrated table has target rows and a fully migrated one as many as the source. */
  lemma MigratedHasRows(c: Classifier, src: int, tgt: int)
    requires src >= -1 && tgt >= -1
    ensures IsMigrated(Classify(c, src, tgt)) ==> src >= 0 && tgt > 0
    ensures Classify(c, src, tgt) == FullyMigrated ==> src == tgt > 0
  {
  }

  /** No two adjacent characters of `s` spell the first two of `sub`, so `sub` does not occur. */
  lemma NoPairNotContains(s: string, sub: string)
    requires |sub| >= 2
    requires forall i :: 0 <= i < |s| - 1 ==> s[i] != sub[0] || s[i + 1] != sub[1]
    ensures !Contains(s, sub)
  {
    forall i | 0 <= i <= |s| ensures !OccursAt(s, sub, i) {
      if i + |sub| <= |s| {
        if s[i] != sub[0] {
          MismatchNotOccurs(s, sub, i, 0);
        } else {
          MismatchNotOccurs(s, sub, i, 1);
        }
      }
    }
  }

  /** `'error' in table_status` holds exactly for the error statuses. */
  lemma NameSaysError(s: TableStatus)
    ensures Contains(Name(s), "error") <==> IsError(s)
  {
    var n := Name(s);
    match s
    case BothError => assert OccursAt(n, "error", 5);
    case SourceError => assert OccursAt(n, "error", 7);
    case TargetError => assert OccursAt(n, "error", 7);
    case NotMigrated => NoPairNotContains(n, "error");
    case FullyMigrated => NoPairNotContains(n, "error");
    case PartiallyMigrated => NoPairNotContains(n, "error");
  }

  // ------------------------------------------------------------ status report

  datatype TableReport = TableReport(sourceRows: int, targetRows: int, status: TableStatus)

  datatype Summary = Summary(totalTables: nat, sourceTotalRows: nat, targetTotalRows: nat,
                             tablesMigrated: nat, tablesEmptyTarget: nat, tablesWithErrors: nat)

  datatype StatusReport = StatusReport(tables: map<string, TableReport>, summary: Summary)

  /** The entry of one table: both counts (`-1` where missing) and its status. */
  function ReportOf(c: Classifier, t: string, src: Connections.Counts, tgt: Connections.Counts): TableReport {
    var s := Connections.Get(src, t, -1);
    var g := Connections.Get(tgt, t, -1);
    TableReport(s, g, Classify(c, s, g))
  }

  /** The three counters of the summary. */
  datatype Bucket = Migrated | EmptyTarget | WithErrors

  predicate InBucket(b: Bucket, s: TableStatus) {
    match b
    case Migrated => IsMigrated(s)
    case EmptyTarget => s == NotMigrated
    case WithErrors => IsError(s)
  }

  /** How many entries of `tables` (repeats included) have a status in bucket `b`. */
  function CountIn(b: Bucket, c: Classifier, tables: seq<string>, src: Connections.Counts, tgt: Connections.Counts): nat
    decreases |tables|
  {
    if tables == [] then 0
    else
      var n := |tables| - 1;
      CountIn(b, c, tables[..n], src, tgt) + if InBucket(b, ReportOf(c, tables[n], src, tgt).status) then 1 else 0
  }

  /** Every table lands in exactly one counter, so the counters add up to the number of tables. */
  lemma {:induction false} BucketsPartition(c: Classifier, tables: seq<string>, src: Connections.Counts, tgt: Connections.Counts)
    ensures CountIn(Migrated, c, tables, src, tgt) + CountIn(EmptyTarget, c, tables, src, tgt)
          + CountIn(WithErrors, c, tables, src, tgt) == |tables|
    decreases |tables|
  {
    if tables != [] {
      BucketsPartition(c, tables[..|tables| - 1], src, tgt);
    }
  }

  /** When one side's counts all failed, every table is an error and none is counted otherwise. */
  lemma {:induction false} AllErrorsWhenSideFailed(c: Classifier, tables: seq<string>, src: Connections.Counts,
                                                    tgt: Connections.Counts)
    requires forall t :: t in tables ==> Connections.Get(src, t, -1) == -1 || Connections.Get(tgt, t, -1) == -1
    ensures CountIn(WithErrors, c, tables, src, tgt) == |tables|
    ensures CountIn(Migrated, c, tables, src, tgt) == 0 && CountIn(EmptyTarget, c, tables, src, tgt) == 0
    decreases |tables|
  {
    if tables != [] {
      var n := |tables| - 1;
      assert tables[n] in tables;
      assert forall t :: t in tables[..n] ==> t in tables;
      AllErrorsWhenSideFailed(c, tables[..n], src, tgt);
    }
  }

  /** The summary totals: `sum(count for count in counts.values() if count >= 0)` per side. */
  function SummaryOf(c: Classifier, tables: seq<string>, src: Connections.Counts, tgt: Connections.Counts): Summary
    requires Connections.WellFormed(src) && Connections.WellFormed(tgt)
  {
    Summary(|tables|, Connections.NonNegativeTotal(src), Connections.NonNegativeTotal(tgt),
            CountIn(Migrated, c, tables, src, tgt), CountIn(EmptyTarget, c, tables, src, tgt),
            CountIn(WithErrors, c, tables, src, tgt))
  }

  /** One more table: its entry is added and its bucket's counter grows by one. */
  lemma TallySnoc(c: Classifier, tables: seq<string>, src: Connections.Counts, tgt: Connections.Counts, i: nat)
    requires i < |tables|
    ensures var entry := ReportOf(c, tables[i], src, tgt);
      && (map t | t in tables[..i + 1] :: ReportOf(c, t, src, tgt))
           == (map t | t in tables[..i] :: ReportOf(c, t, src, tgt))[tables[i] := entry]
      && forall b :: CountIn(b, c, tables[..i + 1], src, tgt)
                       == CountIn(b, c, tables[..i], src, tgt) + if InBucket(b, entry.status) then 1 else 0
  {
    assert tables[..i + 1] == tables[..i] + [tables[i]];
    assert tables[..i + 1][..i] == tables[..i];
  }

  /**
   * The per-table loop of `run_migration_status` (and of `get_migration_status` with the
   * manager's classification): each table's entry, the empty and migrated counters bumped in
   * their branches, and the error counter bumped when the status string contains `error`.
   */
  method Summarise(c: Classifier, tables: seq<string>, src: Connections.Counts, tgt: Connections.Counts)
    returns (report: StatusReport)
    requires Connections.WellFormed(src) && Connections.WellFormed(tgt)
    ensures report.tables == map t | t in tables :: ReportOf(c, t, src, tgt)
    ensures report.summary == SummaryOf(c, tables, src, tgt)
  {
    var migrated, empty, errors := 0, 0, 0;
    var entries: map<string, TableReport> := map[];
    var i := 0;
    while i < |tables|
      invariant 0 <= i <= |tables|
      invariant entries == map t | t in tables[..i] :: ReportOf(c, t, src, tgt)
      invariant migrated == CountIn(Migrated, c, tables[..i], src, tgt)
      invariant empty == CountIn(EmptyTarget, c, tables[..i], src, tgt)
      invariant errors == CountIn(WithErrors, c, tables[..i], src, tgt)
    {
      var t := tables[i];
      var entry := ReportOf(c, t, src, tgt);
      TallySnoc(c, tables, src, tgt, i);
      migrated, empty, errors := Tally(entry.status, migrated, empty, errors);
      entries := entries[t := entry];
      i := i + 1;
    }
    assert tables[..i] == tables;
    report := StatusReport(entries, SummaryOf(c, tables, src, tgt));
  }

  /**
   * One table's contribution to the counters: the empty counter for `not_migrated`, otherwise
   * the migrated counter for a migrated status, and the error counter when the status string
   * contains `error`.
   */
  method Tally(status: TableStatus, migrated: nat, empty: nat, errors: nat) returns (migrated': nat, empty': nat, errors': nat)
    ensures migrated' == migrated + if InBucket(Migrated, status) then 1 else 0
    ensures empty' == empty + if InBucket(EmptyTarget, status) then 1 else 0
    ensures errors' == errors + if InBucket(WithErrors, status) then 1 else 0
  {
    migrated', empty', errors' := migrated, empty, errors;
    if status == NotMigrated {
      empty' := empty + 1;
    } else if IsMigrated(status) {
      migrated' := migrated + 1;
    }
    NameSaysError(status);
    if Contains(Name(status), "error") {
      errors' := errors + 1;
    }
  }

  /** The tables the status run covers: the listed ones, or the fallback list when listing failed or found none. */
  function StatusTables(listed: (seq<string>, bool)): (r: seq<string>)
    ensures r != []
  {
    if !listed.1 || listed.0 == [] then FallbackTables else listed.0
  }

  /** The counts of one side: what the counting returned when that side is up and the call did not raise. */
  function SideCounts(available: bool, counted: Option<Connections.Counts>, tables: seq<string>): Connections.Counts {
    if available && counted.Some? then counted.value else Connections.Fill(tables, Connections.Failed)
  }

  /**
   * `run_migration_status`: nothing when neither side is available; otherwise the report over
   * the status tables, with every count of an unavailable side, or of a side whose counting
   * raised (`None`), set to `-1`.
   */
  method RunMigrationStatus(filemakerAvailable: bool, targetAvailable: bool, listed: (seq<string>, bool),
                            sourceCounted: Option<Connections.Counts>, targetCounted: Option<Connections.Counts>)
    returns (r: Option<StatusReport>)
    requires sourceCounted.Some? ==> Connections.WellFormed(sourceCounted.value)
    requires targetCounted.Some? ==> Connections.WellFormed(targetCounted.value)
    ensures r.None? <==> !filemakerAvailable && !targetAvailable
    ensures r.Some? ==>
      var tables := StatusTables(listed);
      var src := SideCounts(filemakerAvailable, sourceCounted, tables);
      var tgt := SideCounts(targetAvailable, targetCounted, tables);
      && (forall t :: t in r.value.tables <==> t in tables)
      && r.value.summary.totalTables == |tables|
      && r.value.summary.tablesMigrated + r.value.summary.tablesEmptyTarget + r.value.summary.tablesWithErrors == |tables|
      && r.value == StatusReport(map t | t in tables :: ReportOf(Script, t, src, tgt), SummaryOf(Script, tables, src, tgt))
    ensures r.Some? && !filemakerAvailable ==>
      && r.value.summary.sourceTotalRows == 0
      && r.value.summary.tablesWithErrors == r.value.summary.totalTables
      && r.value.summary.tablesMigrated == 0
  {
    if !filemakerAvailable && !targetAvailable {
      return None;
    }
    var tables := StatusTables(listed);
    var src := SideCounts(filemakerAvailable, sourceCounted, tables);
    var tgt := SideCounts(targetAvailable, targetCounted, tables);
    var report := Summarise(Script, tables, src, tgt);
    BucketsPartition(Script, tables, src, tgt);
    if !filemakerAvailable {
      Connections.AllFailedTotal(tables);
      AllErrorsWhenSideFailed(Script, tables, src, tgt);
    }
    r := Some(report);
  }

  /** The database manager's `get_migration_status` reaches the same counters as the script: `both_error` and `source_error` are both errors. */
  lemma {:induction false} SummariesAgree(tables: seq<string>, src: Connections.Counts, tgt: Connections.Counts)
    requires Connections.WellFormed(src) && Connections.WellFormed(tgt)
    ensures SummaryOf(Manager, tables, src, tgt) == SummaryOf(Script, tables, src, tgt)
    ensures forall t :: t in tables ==>
      var e := ReportOf(Script, t, src, tgt);
      ReportOf(Manager, t, src, tgt) == if e.status == BothError then e.(status := SourceError) else e
    decreases |tables|
  {
    if tables != [] {
      var n := |tables| - 1;
      SummariesAgree(tables[..n], src, tgt);
      var t := tables[n];
      ClassifiersAgree(Connections.Get(src, t, -1), Connections.Get(tgt, t, -1));
      assert forall x :: x in tables ==> x in tables[..n] || x == t;
    }
  }

  // ------------------------------------------------------------ row-count runs

  datatype CountSummary = CountSummary(totalTables: nat, totalRows: nat, tablesMigrated: nat,
                                       tablesEmpty: nat, tablesWithErrors: nat)

  /** How the target count run sorts a count. */
  datatype Sign = Positive | Zero | Negative

  predicate HasSign(v: int, g: Sign) {
    match g
    case Positive => v > 0
    case Zero => v == 0
    case Negative => v < 0
  }

  /** `sum(1 for count in counts.values() if <sign>)`, over the keys in order. */
  function CountSign(keys: seq<string>, rows: map<string, int>, g: Sign): nat
    requires forall k :: k in keys ==> k in rows
    decreases |keys|
  {
    if keys == [] then 0
    else
      var n := |keys| - 1;
      CountSign(keys[..n], rows, g) + if HasSign(rows[keys[n]], g) then 1 else 0
  }

  /** Every count is positive, zero or negative, so the three counters cover every key once. */
  lemma {:induction false} SignsPartition(keys: seq<string>, rows: map<string, int>)
    requires forall k :: k in keys ==> k in rows
    ensures CountSign(keys, rows, Positive) + CountSign(keys, rows, Zero) + CountSign(keys, rows, Negative) == |keys|
    decreases |keys|
  {
    if keys != [] {
      SignsPartition(keys[..|keys| - 1], rows);
    }
  }

  /**
   * The summary `run_target_count` prints: the table count, the non-negative row total and
   * the positive, zero and negative counts. `run_source_count` prints the first two and the negatives.
   */
  function CountSummaryOf(tables: seq<string>, d: Connections.Counts): (r: CountSummary)
    requires Connections.WellFormed(d)
    ensures r.tablesMigrated + r.tablesEmpty + r.tablesWithErrors == |d.keys|
  {
    SignsPartition(d.keys, d.rows);
    CountSummary(|tables|, Connections.NonNegativeTotal(d), CountSign(d.keys, d.rows, Positive),
                 CountSign(d.keys, d.rows, Zero), CountSign(d.keys, d.rows, Negative))
  }

  /** A failed side counts no rows and reports every table as an error. */
  lemma {:induction false} FailedCountSummary(tables: seq<string>)
    ensures var d := Connections.Fill(tables, Connections.Failed);
      && CountSummaryOf(tables, d).totalRows == 0
      && CountSummaryOf(tables, d).tablesWithErrors == |d.keys|
  {
    var d := Connections.Fill(tables, Connections.Failed);
    Connections.AllFailedTotal(tables);
    SignsPartition(d.keys, d.rows);
    AllNegative(d.keys, d.rows);
  }

  lemma {:induction false} AllNegative(keys: seq<string>, rows: map<string, int>)
    requires forall k :: k in keys ==> k in rows && rows[k] == -1
    ensures CountSign(keys, rows, Positive) == 0 && CountSign(keys, rows, Zero) == 0
    decreases |keys|
  {
    if keys != [] {
      var n := |keys| - 1;
      assert forall k :: k in keys[..n] ==> k in keys;
      AllNegative(keys[..n], rows);
    }
  }

  /**
   * The tables a count run uses when none are given: the source count gives up when the
   * list cannot be made, the target count falls back to the fixed list.
   */
  function CountRunTables(sourceSide: bool, listed: (seq<string>, bool)): (r: Option<seq<string>>)
    ensures r.None? <==> sourceSide && !listed.1
    ensures r.Some? ==> r.value == if listed.1 then listed.0 else FallbackTables
  {
    if listed.1 then Some(listed.0)
    else if sourceSide then None
    else Some(FallbackTables)
  }

  // ------------------------------------------------------------ chunked data

  /** `process_table_data`'s default chunk size. */
  const DefaultChunkSize: nat := 1000

  /** `(total_rows + chunk_size - 1) // chunk_size`; with a positive divisor `/` floors, as Python's `//` does. */
  function ExpectedChunks(total: int, size: nat): (n: int)
    requires size > 0
    ensures total >= 0 ==> n >= 0
    ensures 0 < total <= size ==> n == 1
  {
    (total + size - 1) / size
  }

  /** For a row total the expected count is the ceiling of total / size. */
  lemma ExpectedChunksCeil(total: nat, size: nat)
    requires size > 0
    ensures var n := ExpectedChunks(total, size);
      n >= 0 && total <= n * size && (n == 0 || (n - 1) * size < total)
  {
    var x := total + size - 1;
    var q, r := x / size, x % size;
    assert x == q * size + r && 0 <= r < size;
    assert q * size == total + (size - 1 - r);
    assert (q - 1) * size == total - 1 - r;
  }

  /** `a <= b` scales by a non-negative factor. */
  lemma MulMonotone(a: int, b: int, c: nat)
    requires a <= b
    ensures a * c <= b * c
  {
    var d := b - a;
    assert b * c == a * c + d * c;
  }

  /** The quotient is the one `q` whose multiples bracket `x`. */
  lemma DivUnique(x: int, size: nat, q: int)
    requires size > 0 && q * size <= x < q * size + size
    ensures x / size == q
  {
    var p, r := x / size, x % size;
    assert x == p * size + r && 0 <= r < size;
    if p > q {
      MulMonotone(q + 1, p, size);
      assert false;
    } else if p < q {
      MulMonotone(p + 1, q, size);
      assert false;
    }
  }

  /** One more full chunk of rows adds one expected chunk. */
  lemma ExpectedChunksShift(total: int, size: nat)
    requires size > 0
    ensures ExpectedChunks(total + size, size) == ExpectedChunks(total, size) + 1
  {
    var x := total + size - 1;
    var q, r := x / size, x % size;
    assert x == q * size + r && 0 <= r < size;
    assert (q + 1) * size == q * size + size;
    DivUnique(x + size, size, q + 1);
  }

  /** The chunk lengths a reader with `chunksize=size` yields over `rows` rows. */
  function Chunked(rows: nat, size: nat): (r: seq<nat>)
    requires size > 0
    ensures forall k :: 0 <= k < |r| ==> 0 < r[k] <= size
    decreases rows
  {
    if rows == 0 then []
    else if rows <= size then [rows]
    else [size] + Chunked(rows - size, size)
  }

  function Total(s: seq<nat>): nat
    decreases |s|
  {
    if s == [] then 0 else s[0] + Total(s[1..])
  }

  /** The reader yields every row, in exactly the expected number of chunks. */
  lemma {:induction false} ChunkedCovers(rows: nat, size: nat)
    requires size > 0
    ensures Total(Chunked(rows, size)) == rows
    ensures |Chunked(rows, size)| == ExpectedChunks(rows, size)
    decreases rows
  {
    if rows == 0 {
      DivUnique(size - 1, size, 0);
    } else if rows <= size {
      DivUnique(rows + size - 1, size, 1);
    } else {
      var c := [size] + Chunked(rows - size, size);
      ChunkedCovers(rows - size, size);
      assert c[1..] == Chunked(rows - size, size);
      ExpectedChunksShift(rows - size, size);
    }
  }

  datatype ChunkRole = ChunkRole(isHeader: bool, isFooter: bool)

  /**
   * The chunk loop of `process_table_data`: `chunk_count` grows by one per chunk, a chunk is
   * the header while no header was written, and a footer once `chunk_count` reaches the
   * expected count.
   */
  method ChunkRoles(chunks: seq<nat>, expected: int) returns (roles: seq<ChunkRole>)
    ensures |roles| == |chunks|
    ensures forall j :: 0 <= j < |roles| ==> (roles[j].isHeader <==> j == 0)
    ensures forall j :: 0 <= j < |roles| ==> (roles[j].isFooter <==> j + 1 >= expected)
  {
    var chunkCount := 0;
    var headerWritten := false;
    roles := [];
    while chunkCount < |chunks|
      invariant 0 <= chunkCount <= |chunks| && |roles| == chunkCount
      invariant headerWritten <==> chunkCount > 0
      invariant forall j :: 0 <= j < chunkCount ==> roles[j] == ChunkRole(j == 0, j + 1 >= expected)
    {
      chunkCount := chunkCount + 1;
      var isHeader := !headerWritten;
      var isFooter := chunkCount >= expected;
      roles := roles + [ChunkRole(isHeader, isFooter)];
      headerWritten := true;
    }
  }

  /** Over a full read of `rows` rows the roles the chunk loop hands out have their only footer last. */
  lemma FooterIsLast(rows: nat, size: nat, roles: seq<ChunkRole>)
    requires size > 0 && |roles| == |Chunked(rows, size)|
    requires forall j :: 0 <= j < |roles| ==> (roles[j].isFooter <==> j + 1 >= ExpectedChunks(rows, size))
    ensures forall j :: 0 <= j < |roles| ==> (roles[j].isFooter <==> j == |roles| - 1)
  {
    ChunkedCovers(rows, size);
  }

  /**
   * What `process_table_data` settles before reading: the row total, capped at `int(max_rows)`
   * unless `max_rows` is `all` (an Err where `int` raises), and the expected chunk count.
   */
  function DataPlan(count: nat, maxRows: string, size: nat): (r: Result<(int, int), string>)
    requires size > 0
    ensures r.Err? <==> maxRows != "all" && ParseInt(maxRows).None?
    ensures maxRows == "all" ==> r == Ok((count, ExpectedChunks(count, size)))
    ensures r.Ok? ==> r.value.1 == ExpectedChunks(r.value.0, size) && r.value.0 <= count
  {
    match ExtractText.CappedCount(count, maxRows)
    case Err(e) => Err(e)
    case Ok(total) => Ok((total, ExpectedChunks(total, size)))
  }

  /** A limit of `n` rows plans `min(count, n)` rows, and the limited read yields as many chunks as planned. */
  lemma PlanOfLimit(count: nat, n: nat, size: nat)
    requires size > 0
    ensures var total := if count > n then n else count;
      && DataPlan(count, IntToString(n), size) == Ok((total, ExpectedChunks(total, size)))
      && |Chunked(total, size)| == ExpectedChunks(total, size)
  {
    ExtractText.CappedCountOfLimit(count, n);
    ChunkedCovers(if count > n then n else count, size);
  }

  // ------------------------------------------------------------ command line

  /** The mutually exclusive destination group. */
  datatype Modes = Modes(fnExp: bool, dbExp: bool, infoOnly: bool, getImages: bool, srcCnt: bool, tgtCnt: bool,
                         migrationStatus: bool)

  /** `--ddl` and `--dml`. */
  datatype Steps = Steps(ddl: bool, dml: bool)

  datatype Args = Args(modes: Modes, steps: Steps, delData: bool, delDb: bool, getSchema: bool, json: bool,
                       tablesToExport: string, maxRows: string, dbType: string, fnFmt: string, configFile: string,
                       dsn: Option<string>, startFrom: Option<string>)

  /** The parser's values when no option is given. */
  const ParserDefaults: Args := Args(Modes(false, false, false, false, false, false, false), Steps(false, false),
                                     false, false, false, false, "all", "all", "supabase", "multi", "config.toml",
                                     None, None)

  function Bit(b: bool): nat {
    if b then 1 else 0
  }

  /** How many flags of the destination group are set. */
  function ModeCount(m: Modes): nat {
    Bit(m.fnExp) + Bit(m.dbExp) + Bit(m.infoOnly) + Bit(m.getImages) + Bit(m.srcCnt) + Bit(m.tgtCnt)
    + Bit(m.migrationStatus)
  }

  /** What the parser itself accepts: at most one destination flag and the listed choices. */
  predicate Accepted(a: Args) {
    ModeCount(a.modes) <= 1 && (a.dbType == "mysql" || a.dbType == "supabase")
    && (a.fnFmt == "single" || a.fnFmt == "multi")
  }

  /** `get_args`' first rule: with no destination flag, export to the database. */
  function DefaultModes(m: Modes): (r: Modes)
    ensures r.dbExp <==> m.dbExp || ModeCount(m) == 0
    ensures ModeCount(r) == if ModeCount(m) == 0 then 1 else ModeCount(m)
    ensures r.fnExp == m.fnExp && r.infoOnly == m.infoOnly && r.getImages == m.getImages
    ensures r.srcCnt == m.srcCnt && r.tgtCnt == m.tgtCnt && r.migrationStatus == m.migrationStatus
  {
    if !(m.fnExp || m.dbExp || m.getImages || m.infoOnly || m.srcCnt || m.tgtCnt || m.migrationStatus)
    then m.(dbExp := true) else m
  }

  /** `get_args`' second rule: exporting with neither `--ddl` nor `--dml` does both; given steps are kept. */
  function DefaultSteps(m: Modes, s: Steps): (r: Steps)
    ensures (m.dbExp || m.fnExp) ==> r.ddl || r.dml
    ensures s.ddl ==> r.ddl
    ensures s.dml ==> r.dml
    ensures (s.ddl || s.dml || !(m.dbExp || m.fnExp)) ==> r == s
  {
    if (m.dbExp || m.fnExp) && !s.ddl && !s.dml then Steps(true, true) else s
  }

  /** `get_args` after parsing: the destination rule first, then the steps rule on its outcome. */
  function ApplyDefaults(a: Args): (r: Args)
    ensures ModeCount(r.modes) >= 1
    ensures (r.modes.dbExp || r.modes.fnExp) ==> r.steps.ddl || r.steps.dml
    ensures r == a.(modes := r.modes, steps := r.steps)
  {
    var modes := DefaultModes(a.modes);
    a.(modes := modes, steps := DefaultSteps(modes, a.steps))
  }

  /** Filling the defaults in twice changes nothing more. */
  lemma DefaultsIdempotent(a: Args)
    ensures ApplyDefaults(ApplyDefaults(a)) == ApplyDefaults(a)
  {
  }

  /** Arguments the parser accepted name exactly one destination once the defaults are filled in. */
  lemma DefaultsNameOneMode(a: Args)
    requires Accepted(a)
    ensures Accepted(ApplyDefaults(a)) && ModeCount(ApplyDefaults(a).modes) == 1
  {
  }

  /** With no option at all the script migrates schema and data into the database. */
  lemma BareCommandLine()
    ensures ApplyDefaults(ParserDefaults)
         == ParserDefaults.(modes := ParserDefaults.modes.(dbExp := true), steps := Steps(true, true))
  {
  }

  datatype ExportOptions = ExportOptions(exportToFiles: bool, exportToDatabase: bool, includeDdl: bool,
                                         includeDml: bool, resetData: bool, resetDatabase: bool,
                                         fileFormat: string, maxRows: string, startFrom: Option<string>)

  /** The export options the migration manager builds from the arguments. */
  function OptionsOf(a: Args): ExportOptions {
    ExportOptions(a.modes.fnExp, a.modes.dbExp, a.steps.ddl, a.steps.dml, a.delData, a.delDb, a.fnFmt, a.maxRows,
                  a.startFrom)
  }

  /** Once the defaults are in, an export includes the DDL step or the data step. */
  lemma ExportHasAStep(a: Args)
    ensures var o := OptionsOf(ApplyDefaults(a));
      (o.exportToFiles || o.exportToDatabase) ==> o.includeDdl || o.includeDml
  {
  }

  datatype Operation = SchemaExport | SourceCountRun | TargetCountRun | StatusRun | InfoOnly | Images | Migrate

  /** The operation `main` starts, with `run_migration`'s own dispatch for what `main` passes on. */
  function OperationOf(a: Args): (r: Operation)
    ensures r == SchemaExport <==> a.getSchema
    ensures !a.getSchema && ModeCount(a.modes) <= 1 ==>
      (r == SourceCountRun <==> a.modes.srcCnt) && (r == TargetCountRun <==> a.modes.tgtCnt)
      && (r == StatusRun <==> a.modes.migrationStatus) && (r == InfoOnly <==> a.modes.infoOnly)
      && (r == Images <==> a.modes.getImages)
  {
    if a.getSchema then SchemaExport
    else if a.modes.srcCnt then SourceCountRun
    else if a.modes.tgtCnt then TargetCountRun
    else if a.modes.migrationStatus then StatusRun
    else if a.modes.infoOnly then InfoOnly
    else if a.modes.getImages then Images
    else Migrate
  }

  /** After the defaults, an accepted command line migrates exactly when it exports and does not ask for the schema. */
  lemma MigrateIffExport(a: Args)
    requires Accepted(a)
    ensures var d := ApplyDefaults(a);
      OperationOf(d) == Migrate <==> !a.getSchema && (d.modes.dbExp || d.modes.fnExp)
  {
  }

  // ------------------------------------------------------------ migration loop

  /** A table succeeds when its DDL step (if included) and its data step (if included) both succeed. */
  predicate Succeeds(t: string, o: ExportOptions, ddlOk: string -> bool, dmlOk: string -> bool) {
    (!o.includeDdl || ddlOk(t)) && (!o.includeDml || dmlOk(t))
  }

  /** The number of entries of `tables` that succeed. */
  function CountSucceeded(tables: seq<string>, o: ExportOptions, ddlOk: string -> bool, dmlOk: string -> bool): nat
    decreases |tables|
  {
    if tables == [] then 0
    else
      var n := |tables| - 1;
      CountSucceeded(tables[..n], o, ddlOk, dmlOk) + if Succeeds(tables[n], o, ddlOk, dmlOk) then 1 else 0
  }

  /** Some table succeeded exactly when the count is positive. */
  lemma {:induction false} CountSucceededPositive(tables: seq<string>, o: ExportOptions, ddlOk: string -> bool,
                                                  dmlOk: string -> bool)
    ensures CountSucceeded(tables, o, ddlOk, dmlOk) > 0 <==> exists t :: t in tables && Succeeds(t, o, ddlOk, dmlOk)
    decreases |tables|
  {
    if tables != [] {
      var n := |tables| - 1;
      CountSucceededPositive(tables[..n], o, ddlOk, dmlOk);
      assert forall t :: t in tables <==> t in tables[..n] || t == tables[n];
    }
  }

  /** The tables whose data step runs: with data included, those whose DDL step passed or was skipped. */
  function DataTables(tables: seq<string>, o: ExportOptions, ddlOk: string -> bool): (r: seq<string>)
    ensures forall t :: t in r <==> o.includeDml && t in tables && (!o.includeDdl || ddlOk(t))
    decreases |tables|
  {
    if tables == [] then []
    else
      var n := |tables| - 1;
      var rest := DataTables(tables[..n], o, ddlOk);
      assert forall t :: t in tables <==> t in tables[..n] || t == tables[n];
      if o.includeDml && (!o.includeDdl || ddlOk(tables[n])) then rest + [tables[n]] else rest
  }

  /**
   * The per-table loop of `run_migration`: a failing DDL step skips that table's data step,
   * a failing step moves on to the next table, and each table that gets through counts once.
   */
  method MigrateTables(tables: seq<string>, o: ExportOptions, ddlOk: string -> bool, dmlOk: string -> bool)
    returns (successCount: nat, dataRuns: seq<string>)
    ensures successCount == CountSucceeded(tables, o, ddlOk, dmlOk)
    ensures dataRuns == DataTables(tables, o, ddlOk)
  {
    successCount := 0;
    dataRuns := [];
    var i := 0;
    while i < |tables|
      invariant 0 <= i <= |tables|
      invariant successCount == CountSucceeded(tables[..i], o, ddlOk, dmlOk)
      invariant dataRuns == DataTables(tables[..i], o, ddlOk)
    {
      var t := tables[i];
      assert tables[..i + 1][..i] == tables[..i];
      var passed := true;
      if o.includeDdl && !ddlOk(t) {
        passed := false;
      }
      if passed && o.includeDml {
        dataRuns := dataRuns + [t];
        if !dmlOk(t) {
          passed := false;
        }
      }
      if passed {
        successCount := successCount + 1;
      }
      i := i + 1;
    }
    assert tables[..i] == tables;
  }

  /**
   * The migration branch of `run_migration`: both connections must pass, the table list must
   * be made and, when exporting to the database, its setup must succeed; then the run succeeds
   * iff some table did.
   */
  method RunMigration(o: ExportOptions, bothConnected: bool, listed: (seq<string>, bool), setupOk: bool,
                      ddlOk: string -> bool, dmlOk: string -> bool)
    returns (ok: bool)
    ensures ok <==> bothConnected && listed.1 && (!o.exportToDatabase || setupOk)
                    && exists t :: t in listed.0 && Succeeds(t, o, ddlOk, dmlOk)
  {
    if !bothConnected || !listed.1 || (o.exportToDatabase && !setupOk) {
      return false;
    }
    var successCount, _ := MigrateTables(listed.0, o, ddlOk, dmlOk);
    CountSucceededPositive(listed.0, o, ddlOk, dmlOk);
    ok := successCount > 0;
  }
}
