/**
 * The database connections: the row-count dictionaries of both sides with their `-1`
 * sentinels, the target connection's engine cache and its fallback to a connection without
 * the database path, and the decisions taken when the target database and schema are prepared.
 * The servers are parameters: a query's outcome is a function of the query's text.
 */
module Connections {
  import opened Wrappers
  import opened Text
  import Config

  // ------------------------------------------------------------ row-count dictionaries

  /** A `Dict[str, int]` of row counts: its keys in insertion order, and its entries. */
  datatype Counts = Counts(keys: seq<string>, rows: map<string, int>)

  /** The keys are distinct and are exactly the entries' keys. */
  ghost predicate WellFormed(d: Counts) {
    (forall i, j :: 0 <= i < j < |d.keys| ==> d.keys[i] != d.keys[j])
    && (forall k :: k in d.rows <==> k in d.keys)
  }

  /** `d[k] = v`: a new key goes last, an existing one keeps its place. */
  function Put(d: Counts, k: string, v: int): (r: Counts)
    requires WellFormed(d)
    ensures WellFormed(r) && r.rows == d.rows[k := v]
    ensures k in d.rows ==> r.keys == d.keys
    ensures k !in d.rows ==> r.keys == d.keys + [k]
  {
    if k in d.rows then Counts(d.keys, d.rows[k := v]) else Counts(d.keys + [k], d.rows[k := v])
  }

  /** `d.get(k, default)`. */
  function Get(d: Counts, k: string, default: int): int {
    if k in d.rows then d.rows[k] else default
  }

  /** The dictionary `for t in tables: d[t] = f(t)` builds from an empty one (or `{t: f(t) for t in tables}`). */
  function Fill(tables: seq<string>, f: string -> int): (r: Counts)
    ensures WellFormed(r)
    ensures forall t :: t in r.rows <==> t in tables
    ensures forall t :: t in r.rows ==> r.rows[t] == f(t)
    decreases |tables|
  {
    if tables == [] then Counts([], map[])
    else
      var n := |tables| - 1;
      assert tables == tables[..n] + [tables[n]];
      Put(Fill(tables[..n], f), tables[n], f(tables[n]))
  }

  /** One more table fills one more entry. */
  lemma FillSnoc(tables: seq<string>, f: string -> int, i: nat)
    requires i < |tables|
    ensures Fill(tables[..i + 1], f) == Put(Fill(tables[..i], f), tables[i], f(tables[i]))
  {
    assert tables[..i + 1][..i] == tables[..i];
  }

  /** The sentinel every table gets when counting fails as a whole. */
  function Failed(t: string): int {
    -1
  }

  /** A count when non-negative, nothing for a sentinel. */
  function NonNeg(v: int): nat {
    if v >= 0 then v else 0
  }

  /** The sum of the non-negative entries of `rows` under `keys`. */
  function SumNonNeg(keys: seq<string>, rows: map<string, int>): nat
    requires forall k :: k in keys ==> k in rows
    decreases |keys|
  {
    if keys == [] then 0 else SumNonNeg(keys[..|keys| - 1], rows) + NonNeg(rows[keys[|keys| - 1]])
  }

  /** `sum(count for count in d.values() if count >= 0)`. */
  function NonNegativeTotal(d: Counts): nat
    requires WellFormed(d)
  {
    SumNonNeg(d.keys, d.rows)
  }

  /** Entries outside the keys do not enter the sum. */
  lemma {:induction false} SumNonNegOthers(keys: seq<string>, rows: map<string, int>, k: string, v: int)
    requires forall x :: x in keys ==> x in rows
    requires k !in keys
    ensures SumNonNeg(keys, rows[k := v]) == SumNonNeg(keys, rows)
    decreases |keys|
  {
    if keys != [] {
      SumNonNegOthers(keys[..|keys| - 1], rows, k, v);
    }
  }

  /** Changing one entry changes the sum by the difference of its non-negative parts. */
  lemma {:induction false} SumNonNegUpdate(keys: seq<string>, rows: map<string, int>, k: string, v: int)
    requires forall x :: x in keys ==> x in rows
    requires k in keys && forall i, j :: 0 <= i < j < |keys| ==> keys[i] != keys[j]
    ensures SumNonNeg(keys, rows[k := v]) + NonNeg(rows[k]) == SumNonNeg(keys, rows) + NonNeg(v)
    decreases |keys|
  {
    var n := |keys| - 1;
    if keys[n] == k {
      assert k !in keys[..n];
      SumNonNegOthers(keys[..n], rows, k, v);
    } else {
      assert k in keys[..n];
      SumNonNegUpdate(keys[..n], rows, k, v);
    }
  }

  /** Storing `v` under `k` moves the total by `v`'s non-negative part, less the old entry's. */
  lemma PutTotal(d: Counts, k: string, v: int)
    requires WellFormed(d)
    ensures NonNegativeTotal(Put(d, k, v)) + NonNeg(Get(d, k, -1)) == NonNegativeTotal(d) + NonNeg(v)
  {
    if k in d.rows {
      SumNonNegUpdate(d.keys, d.rows, k, v);
    } else {
      var r := Put(d, k, v);
      assert r.keys[..|r.keys| - 1] == d.keys;
      SumNonNegOthers(d.keys, d.rows, k, v);
    }
  }

  /** When every count failed the total is zero. */
  lemma {:induction false} AllFailedTotal(tables: seq<string>)
    ensures NonNegativeTotal(Fill(tables, Failed)) == 0
    decreases |tables|
  {
    if tables != [] {
      var n := |tables| - 1;
      AllFailedTotal(tables[..n]);
      PutTotal(Fill(tables[..n], Failed), tables[n], -1);
    }
  }

  // ------------------------------------------------------------ source counts

  /** The source's count query for one table. */
  function SourceCountSql(t: string): string {
    "SELECT COUNT(*) FROM \"" + t + "\""
  }

  /** One source table's entry: the count the query returned, or `-1` where it raised. */
  function SourceCount(count: string -> Option<nat>): (r: string -> int)
    ensures forall t :: r(t) >= -1 && (r(t) == -1 <==> count(SourceCountSql(t)).None?)
  {
    var f := t => if count(SourceCountSql(t)).Some? then count(SourceCountSql(t)).value else -1;
    assert forall t :: f(t) == if count(SourceCountSql(t)).Some? then count(SourceCountSql(t)).value else -1;
    f
  }

  /**
   * `FileMakerConnection.get_table_row_counts`: one entry per requested table; a query that
   * raises marks only its own table with `-1`, and when no cursor can be had every table gets
   * `-1`. `count` is the source's answer to a count query, `None` where it raises.
   */
  method SourceRowCounts(tables: seq<string>, cursorOk: bool, count: string -> Option<nat>) returns (d: Counts)
    ensures d == Fill(tables, if cursorOk then SourceCount(count) else Failed)
    ensures forall t :: t in d.rows <==> t in tables
    ensures forall t :: t in tables ==>
      (d.rows[t] == -1 <==> !cursorOk || count(SourceCountSql(t)).None?) && d.rows[t] >= -1
  {
    if !cursorOk {
      return Fill(tables, Failed);
    }
    d := Counts([], map[]);
    var i := 0;
    while i < |tables|
      invariant 0 <= i <= |tables|
      invariant d == Fill(tables[..i], SourceCount(count))
    {
      var c := count(SourceCountSql(tables[i]));
      FillSnoc(tables, SourceCount(count), i);
      d := Put(d, tables[i], if c.Some? then c.value else -1);
      i := i + 1;
    }
    assert tables[..|tables|] == tables;
  }

  // ------------------------------------------------------------ target counts

  /** `if not schema: schema = self.config.mig_schema`. */
  function SchemaFor(schema: Option<string>, migSchema: string): (r: string)
    ensures schema.None? || schema == Some("") ==> r == migSchema
    ensures schema.Some? && schema.value != "" ==> r == schema.value
  {
    if schema.None? || schema.value == "" then migSchema else schema.value
  }

  /** The target's count query: double quotes for PostgreSQL, backticks otherwise. */
  function TargetCountSql(dbType: Config.Toml, schema: string, t: string): string {
    if dbType == Config.Str("supabase") then "SELECT COUNT(*) FROM \"" + schema + "\".\"" + t + "\""
    else "SELECT COUNT(*) FROM `" + schema + "`.`" + t + "`"
  }

  /** One target table's entry: 0 when the table is missing, the count, or `-1` where the query raised. */
  function TargetCount(dbType: Config.Toml, schema: string, present: (string, string) -> bool,
                       count: string -> Option<nat>): (r: string -> int)
    ensures forall t :: r(t) >= -1
    ensures forall t :: !present(t, schema) ==> r(t) == 0
    ensures forall t :: r(t) == -1 <==> present(t, schema) && count(TargetCountSql(dbType, schema, t)).None?
  {
    var f := t => if !present(t, schema) then 0
                  else if count(TargetCountSql(dbType, schema, t)).Some? then count(TargetCountSql(dbType, schema, t)).value
                  else -1;
    assert forall t :: f(t) == if !present(t, schema) then 0
                  else if count(TargetCountSql(dbType, schema, t)).Some? then count(TargetCountSql(dbType, schema, t)).value
                  else -1;
    f
  }

  /**
   * `TargetDatabaseConnection.get_table_row_counts`: the schema defaults to the migration
   * schema; a table the inspector does not find counts 0, a failing count query `-1`, and when
   * no connection can be had every table gets `-1`. `present` is `table_exists` (which answers
   * false when the inspection raises).
   */
  method TargetRowCounts(dbType: Config.Toml, migSchema: string, tables: seq<string>, schema: Option<string>,
                         connOk: bool, present: (string, string) -> bool, count: string -> Option<nat>)
    returns (d: Counts)
    ensures var s := SchemaFor(schema, migSchema);
      d == Fill(tables, if connOk then TargetCount(dbType, s, present, count) else Failed)
    ensures forall t :: t in d.rows <==> t in tables
    ensures forall t :: t in tables ==>
      && (d.rows[t] == -1 <==> !connOk || (present(t, SchemaFor(schema, migSchema))
                                            && count(TargetCountSql(dbType, SchemaFor(schema, migSchema), t)).None?))
      && (connOk && !present(t, SchemaFor(schema, migSchema)) ==> d.rows[t] == 0)
  {
    var s := SchemaFor(schema, migSchema);
    if !connOk {
      d := Fill(tables, Failed);
    } else {
      d := CountTargetTables(dbType, s, tables, present, count);
    }
    TargetCountsRead(dbType, s, tables, connOk, present, count);
  }

  /** The per-table loop of a connected count: each table's entry as `TargetCount` gives it. */
  method CountTargetTables(dbType: Config.Toml, s: string, tables: seq<string>,
                           present: (string, string) -> bool, count: string -> Option<nat>)
    returns (d: Counts)
    ensures d == Fill(tables, TargetCount(dbType, s, present, count))
  {
    var f := TargetCount(dbType, s, present, count);
    d := Counts([], map[]);
    var i := 0;
    while i < |tables|
      invariant 0 <= i <= |tables|
      invariant d == Fill(tables[..i], f)
    {
      var t := tables[i];
      FillSnoc(tables, f, i);
      d := Put(d, t, f(t));
      i := i + 1;
    }
    assert tables[..|tables|] == tables;
  }

  /** What the entries of a target count say: `-1` exactly for a failed connection or query, 0 for a missing table. */
  lemma TargetCountsRead(dbType: Config.Toml, s: string, tables: seq<string>, connOk: bool,
                         present: (string, string) -> bool, count: string -> Option<nat>)
    ensures var d := Fill(tables, if connOk then TargetCount(dbType, s, present, count) else Failed);
      forall t :: t in tables ==>
        && (d.rows[t] == -1 <==> !connOk || (present(t, s) && count(TargetCountSql(dbType, s, t)).None?))
        && (connOk && !present(t, s) ==> d.rows[t] == 0)
  {
    var f := if connOk then TargetCount(dbType, s, present, count) else Failed;
    var d := Fill(tables, f);
    forall t | t in tables
      ensures d.rows[t] == -1 <==> !connOk || (present(t, s) && count(TargetCountSql(dbType, s, t)).None?)
      ensures connOk && !present(t, s) ==> d.rows[t] == 0
    {
      assert t in d.rows && d.rows[t] == f(t);
    }
  }

  // ------------------------------------------------------------ engine and connection

  /** An engine, known by the URL it was created for. */
  datatype Engine = Engine(url: string)

  /** What the server answers to a connection attempt on a URL. */
  datatype Reply = Connected | UnknownDatabase | Refused

  /** The engine `create_engine` makes for the configured target, or the error building its URL raises. */
  function EngineFor(c: Config.AppConfig, useDsn: bool): (r: Result<Engine, Config.ConfigError>)
    ensures r.Ok? <==> Config.TargetUrl(c, useDsn).Ok?
    ensures r.Ok? ==> r.value.url == Config.TargetUrl(c, useDsn).value
  {
    match Config.TargetUrl(c, useDsn)
    case Ok(url) => Ok(Engine(url))
    case Err(e) => Err(e)
  }

  /**
   * `TargetDatabaseConnection`: the configuration and the cached engine. `engines` is the
   * corrected cache, one engine per choice of database path.
   */
  class TargetConnection {
    const config: Config.AppConfig
    var engine: Option<Engine>
    var engines: map<bool, Engine>

    constructor (c: Config.AppConfig)
      ensures config == c && engine == None && engines == map[]
    {
      config := c;
      engine := None;
      engines := map[];
    }

    /**
     * `get_engine` as written: once an engine exists it is returned whatever `useDsn` asks
     * for; otherwise one is created for the URL of the configured type, and an unsupported
     * type raises.
     */
    method GetEngine(useDsn: bool) returns (r: Result<Engine, Config.ConfigError>)
      modifies this`engine
      ensures old(engine).Some? ==> r == Ok(old(engine).value) && engine == old(engine)
      ensures old(engine).None? ==> r == EngineFor(config, useDsn) && engine == (if r.Ok? then Some(r.value) else None)
    {
      if engine.Some? {
        return Ok(engine.value);
      }
      r := EngineFor(config, useDsn);
      if r.Ok? {
        engine := Some(r.value);
      }
    }

    /**
     * `get_connection` as written: on "Unknown database" with the DSN it retries without it,
     * but the retry is served the cached engine, whose URL still names the database.
     */
    method ConnectionAsWritten(useDsn: bool, server: string -> Reply) returns (r: Result<Engine, string>)
      modifies this`engine
      decreases if useDsn then 1 else 0
      ensures old(engine).Some? && server(old(engine).value.url) != Connected ==> r.Err?
      ensures (old(engine).None? && useDsn && EngineFor(config, true).Ok?
               && server(EngineFor(config, true).value.url) == UnknownDatabase) ==> r.Err?
    {
      var e := GetEngine(useDsn);
      if e.Err? {
        return Err("Connection failed");
      }
      match server(e.value.url)
      case Connected => r := Ok(e.value);
      case UnknownDatabase =>
        if useDsn {
          r := ConnectionAsWritten(false, server);
        } else {
          r := Err("Connection failed");
        }
      case Refused => r := Err("Connection failed");
    }

    /** `get_engine` with the engine cached per choice of database path. */
    method EngineOf(useDsn: bool) returns (r: Result<Engine, Config.ConfigError>)
      modifies this`engines
      ensures useDsn in old(engines) ==> r == Ok(old(engines)[useDsn]) && engines == old(engines)
      ensures useDsn !in old(engines) ==>
        r == EngineFor(config, useDsn) && engines == (if r.Ok? then old(engines)[useDsn := r.value] else old(engines))
    {
      if useDsn in engines {
        return Ok(engines[useDsn]);
      }
      r := EngineFor(config, useDsn);
      if r.Ok? {
        engines := engines[useDsn := r.value];
      }
    }

    /** The engines cached so far were made for their own choice of database path. */
    predicate EnginesFaithful()
      reads this
    {
      forall b :: b in engines ==> EngineFor(config, b) == Ok(engines[b])
    }

    /**
     * `get_connection` with the corrected cache: when the database is unknown the retry
     * connects to the server without a database path.
     */
    method Connection(useDsn: bool, server: string -> Reply) returns (r: Result<Engine, string>)
      requires EnginesFaithful()
      modifies this`engines
      decreases if useDsn then 1 else 0
      ensures EnginesFaithful()
      ensures r.Ok? ==> server(r.value.url) == Connected
      ensures EngineFor(config, useDsn).Ok? && server(EngineFor(config, useDsn).value.url) == Connected
              ==> r == Ok(EngineFor(config, useDsn).value)
      ensures (useDsn && EngineFor(config, true).Ok? && server(EngineFor(config, true).value.url) == UnknownDatabase
               && EngineFor(config, false).Ok? && server(EngineFor(config, false).value.url) == Connected)
              ==> r == Ok(EngineFor(config, false).value)
    {
      var e := EngineOf(useDsn);
      if e.Err? {
        return Err("Connection failed");
      }
      match server(e.value.url)
      case Connected => r := Ok(e.value);
      case UnknownDatabase =>
        if useDsn {
          r := Connection(false, server);
        } else {
          r := Err("Connection failed");
        }
      case Refused => r := Err("Connection failed");
    }
  }

  /** Without a database path the URL ends in a bare `/`; with the DSN it ends in the DSN. */
  lemma EngineUrlsDiffer(c: Config.AppConfig)
    requires EngineFor(c, true).Ok? && EngineFor(c, false).Ok?
    requires c.targetDb.dsn.Str? && c.targetDb.dsn.s != "" && '/' !in c.targetDb.dsn.s
    ensures EngineFor(c, true).value != EngineFor(c, false).value
  {
    Config.TargetUrlPath(c, true);
    Config.TargetUrlPath(c, false);
  }

  // ------------------------------------------------------------ database and schema

  datatype DbStatus = Created | Exists

  /**
   * `verify_database_exists` against the server's set of databases: with `dropDb` the
   * database is dropped first; with `createDb` it is created when it was absent or dropped.
   * Only a database created here reports `Created`.
   */
  function VerifyDatabase(dbType: Config.Toml, dbs: set<string>, name: string, createDb: bool, dropDb: bool)
    : (r: (DbStatus, set<string>))
    ensures dbType == Config.Str("mysql") || dbType == Config.Str("supabase") ==>
      && (r.0 == Created <==> createDb && (name !in dbs || dropDb))
      && (createDb ==> name in r.1)
      && (dropDb && !createDb ==> name !in r.1 && r.0 == Exists)
      && r.1 - {name} == dbs - {name}
    ensures !(dbType == Config.Str("mysql") || dbType == Config.Str("supabase")) ==> r == (Exists, dbs)
  {
    if dbType == Config.Str("mysql") then
      var afterDrop := if dropDb && name in dbs then dbs - {name} else dbs;
      if createDb && (name !in dbs || dropDb) then (Created, afterDrop + {name}) else (Exists, afterDrop)
    else if dbType == Config.Str("supabase") then
      var afterDrop := if dropDb then dbs - {name} else dbs;
      if createDb then
        (if name !in afterDrop || dropDb then (Created, afterDrop + {name}) else (Exists, afterDrop))
      else (Exists, afterDrop)
    else (Exists, dbs)
  }

  /** `create_schema_if_not_exists`: true exactly when the schema was missing; afterwards it exists. */
  function CreateSchema(schemas: set<string>, name: string): (r: (bool, set<string>))
    ensures r.0 <==> name !in schemas
    ensures r.1 == schemas + {name}
  {
    if name !in schemas then (true, schemas + {name}) else (false, schemas)
  }
}
