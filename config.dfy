/**
 * The configuration manager: the TOML document read from `config.toml`, the typed
 * configuration derived from it, and what the rest of the tool asks of it (the target's
 * connection URL, the export directories, validation, a table's key columns). The values
 * of the document keep Python's dynamic typing: a field holds whatever TOML value the file
 * gave it, and a lookup on a value of the wrong kind fails as Python's would.
 */
module Config {
  import opened Wrappers
  import opened Text
  import ExtractText

  /** A TOML value as the parser returns it (booleans, floats and dates are not modelled). */
  datatype Toml = Str(s: string) | Int(i: int) | Arr(items: seq<Toml>) | Tab(fields: map<string, Toml>)

  /** The exception a configuration operation raises. */
  datatype ConfigError =
    | MissingKey(key: Toml)          // a `KeyError`, which `_parse_config` re-raises as `ValueError`
    | WrongType                      // a `TypeError` or `AttributeError`: a value of the wrong kind
    | OutOfRange                     // an `IndexError`
    | NoData                         // `ValueError("No configuration data loaded")`
    | Unreadable(reason: string)     // the file is missing or is not TOML
    | UnsupportedDbType(dbType: Toml)

  /** Python's truth value of a TOML value: empty strings, zero, empty arrays and tables are false. */
  predicate Truthy(t: Toml) {
    match t
    case Str(s) => s != []
    case Int(i) => i != 0
    case Arr(items) => items != []
    case Tab(m) => m != map[]
  }

  /** The position Python's `xs[i]` reads in a sequence of length `n`: negative `i` counts from the end. */
  function PyIndex(n: nat, i: int): (r: Option<nat>)
    ensures r.Some? <==> -(n as int) <= i < n
    ensures r.Some? ==> r.value < n && (if i >= 0 then r.value == i else r.value + (-i) == n)
  {
    if 0 <= i < n then Some(i) else if -(n as int) <= i < 0 then Some(n + i) else None
  }

  /** Python's `x[k]` on a TOML value: a table by key, an array or a string by position. */
  function Sub(x: Toml, k: Toml): (r: Result<Toml, ConfigError>)
    ensures x.Tab? && k.Str? ==> r == (if k.s in x.fields then Ok(x.fields[k.s]) else Err(MissingKey(k)))
    ensures x.Arr? && k.Int? && r.Ok? ==> r.value in x.items
    ensures x.Int? ==> r == Err(WrongType)
  {
    match x
    case Tab(m) =>
      (match k
       case Str(s) => if s in m then Ok(m[s]) else Err(MissingKey(k))
       case Int(_) => Err(MissingKey(k))  // the keys of a TOML table are strings
       case _ => Err(WrongType))          // an array or a table is not hashable
    case Arr(items) =>
      (match k
       case Int(i) => (match PyIndex(|items|, i) case Some(p) => Ok(items[p]) case None => Err(OutOfRange))
       case _ => Err(WrongType))
    case Str(s) =>
      (match k
       case Int(i) => (match PyIndex(|s|, i) case Some(p) => Ok(Str([s[p]])) case None => Err(OutOfRange))
       case _ => Err(WrongType))
    case Int(_) => Err(WrongType)
  }

  /** Python's `x.get(k, default)`: only a table has `get`. */
  function GetOr(x: Toml, k: Toml, default: Toml): (r: Result<Toml, ConfigError>)
    ensures x.Tab? && k.Str? ==> r == Ok(if k.s in x.fields then x.fields[k.s] else default)
    ensures !x.Tab? ==> r == Err(WrongType)
  {
    match x
    case Tab(m) =>
      (match k
       case Str(s) => Ok(if s in m then m[s] else default)
       case Int(_) => Ok(default)
       case _ => Err(WrongType))
    case _ => Err(WrongType)
  }

  /** `DatabaseConfig`: one database's connection settings. */
  datatype DatabaseConfig = DatabaseConfig(host: Toml, dsn: Toml, user: Toml, pwd: Toml, port: Toml,
                                           kind: Toml, name: Toml, schema: Toml)

  /** `ExportConfig`: where and under which prefix exports are written. */
  datatype ExportConfig = ExportConfig(path: Toml, prefix: Toml, imageFormats: Toml, imagePath: Toml)

  /** `AppConfig`: the whole derived configuration. */
  datatype AppConfig = AppConfig(sourceDb: DatabaseConfig, targetDb: DatabaseConfig, exportCfg: ExportConfig,
                                 dbType: Toml, migSchema: Toml, tgtSchema: Toml, pkConfig: Toml)

  /** The value at a path of table keys, when every step is a table holding the key. */
  function At(x: Toml, path: seq<string>): Option<Toml>
    decreases |path|
  {
    if path == [] then Some(x)
    else if x.Tab? && path[0] in x.fields then At(x.fields[path[0]], path[1..])
    else None
  }

  /** The source section's settings: `host` defaults to `127.0.0.1`, `port` to empty, `schema` to `[]`. */
  function SourceDb(src: Toml): (r: Result<DatabaseConfig, ConfigError>)
    ensures r.Ok? ==> src.Tab?
    ensures r.Ok? ==> r.value.host == (if "host" in src.fields then src.fields["host"] else Str("127.0.0.1"))
    ensures r.Ok? ==> r.value.port == (if "port" in src.fields then src.fields["port"] else Str(""))
    ensures r.Ok? ==> r.value.schema == (if "schema" in src.fields then src.fields["schema"] else Arr([]))
    ensures src.Tab? ==> (r.Ok? <==> forall k :: k in SourceRequired ==> k in src.fields)
  {
    match src
    case Tab(m) =>
      var host := if "host" in m then m["host"] else Str("127.0.0.1");
      var dsn :- Sub(src, Str("dsn"));
      var user :- Sub(src, Str("user"));
      var pwd :- Sub(src, Str("pwd"));
      var port := if "port" in m then m["port"] else Str("");
      var kind :- Sub(src, Str("type"));
      var name :- Sub(src, Str("name"));
      var schema := if "schema" in m then m["schema"] else Arr([]);
      Ok(DatabaseConfig(host, dsn, user, pwd, port, kind, name, schema))
    case _ => Err(WrongType)  // `get` of a non-table raises `AttributeError`
  }

  /** The keys the source section must hold. */
  const SourceRequired: seq<string> := ["dsn", "user", "pwd", "type", "name"]

  /** The first required source key missing is the one reported. */
  lemma SourceMissingKey(src: Toml, j: nat)
    requires src.Tab? && j < |SourceRequired|
    requires forall m :: 0 <= m < j ==> SourceRequired[m] in src.fields
    requires SourceRequired[j] !in src.fields
    ensures SourceDb(src) == Err(MissingKey(Str(SourceRequired[j])))
  {
    assert j > 0 ==> SourceRequired[0] in src.fields;
    assert j > 1 ==> SourceRequired[1] in src.fields;
    assert j > 2 ==> SourceRequired[2] in src.fields;
    assert j > 3 ==> SourceRequired[3] in src.fields;
  }

  /**
   * The target section's settings: `db` names the sub-table holding the credentials and the
   * name; host, DSN, type and the schema list come from the section itself.
   */
  function TargetDb(tgt: Toml, dbType: Toml): (r: Result<DatabaseConfig, ConfigError>) {
    var host :- Sub(tgt, Str("host"));
    var dsn :- Sub(tgt, Str("dsn"));
    var creds :- Sub(tgt, dbType);
    var user :- Sub(creds, Str("user"));
    var pwd :- Sub(creds, Str("pwd"));
    var port :- Sub(creds, Str("port"));
    var kind :- Sub(tgt, Str("type"));
    var name :- Sub(creds, Str("name"));
    var schema :- Sub(tgt, Str("schema"));
    Ok(DatabaseConfig(host, dsn, user, pwd, port, kind, name, schema))
  }

  function ExportOf(exp: Toml): Result<ExportConfig, ConfigError> {
    var path :- Sub(exp, Str("path"));
    var prefix :- Sub(exp, Str("prefix"));
    var formats :- Sub(exp, Str("image_formats_supported"));
    var imagePath :- Sub(exp, Str("image_path"));
    Ok(ExportConfig(path, prefix, formats, imagePath))
  }

  /**
   * `_parse_config`: an empty document is refused; otherwise the sections are read in the
   * order the source reads them, the first failing lookup deciding the error. The migration
   * and target schemas are picked out of the target's schema list by their indices, and the
   * key-column table is looked up under the migration schema's name, defaulting to empty.
   */
  function ParseConfig(data: Toml): (r: Result<AppConfig, ConfigError>)
    ensures !Truthy(data) ==> r == Err(NoData)
    ensures r.Ok? ==> At(data, ["database", "source"]).Some? && SourceDb(At(data, ["database", "source"]).value) == Ok(r.value.sourceDb)
    ensures r.Ok? ==> var tgt := At(data, ["database", "target"]);
      && tgt.Some? && tgt.value.Tab? && "schema" in tgt.value.fields
      && "mig_schema" in tgt.value.fields && "tgt_schema" in tgt.value.fields
      && Sub(tgt.value.fields["schema"], tgt.value.fields["mig_schema"]) == Ok(r.value.migSchema)
      && Sub(tgt.value.fields["schema"], tgt.value.fields["tgt_schema"]) == Ok(r.value.tgtSchema)
      && (r.value.migSchema.Str? && r.value.migSchema.s !in tgt.value.fields ==> r.value.pkConfig == Tab(map[]))
    ensures r.Ok? ==> var tgt := At(data, ["database", "target"]).value;
      && "db" in tgt.fields && r.value.dbType == tgt.fields["db"]
      && TargetDb(tgt, r.value.dbType) == Ok(r.value.targetDb)
    ensures r.Ok? ==> At(data, ["export"]).Some? && ExportOf(At(data, ["export"]).value) == Ok(r.value.exportCfg)
    ensures r.Ok? ==> var holder := GetOr(At(data, ["database", "target"]).value, r.value.migSchema, Tab(map[]));
      holder.Ok? && GetOr(holder.value, Str("pk"), Tab(map[])) == Ok(r.value.pkConfig)
  {
    if !Truthy(data) then Err(NoData)
    else
      var db :- Sub(data, Str("database"));
      var src :- Sub(db, Str("source"));
      var sourceDb :- SourceDb(src);
      var tgt :- Sub(db, Str("target"));
      var dbType :- Sub(tgt, Str("db"));
      var targetDb :- TargetDb(tgt, dbType);
      var exp :- Sub(data, Str("export"));
      var exportCfg :- ExportOf(exp);
      var migIdx :- Sub(tgt, Str("mig_schema"));
      var tgtIdx :- Sub(tgt, Str("tgt_schema"));
      var schemas :- Sub(tgt, Str("schema"));
      var migSchema :- Sub(schemas, migIdx);
      var tgtSchema :- Sub(schemas, tgtIdx);
      var pkHolder :- GetOr(tgt, migSchema, Tab(map[]));
      var pk :- GetOr(pkHolder, Str("pk"), Tab(map[]));
      Ok(AppConfig(sourceDb, targetDb, exportCfg, dbType, migSchema, tgtSchema, pk))
  }

  /**
   * A missing key after the source section is reported as missing too: the target section,
   * the export section, or either schema index, each once everything read before it is there.
   */
  lemma ParseConfigMissingKey(data: Toml)
    requires data.Tab? && "database" in data.fields && data.fields["database"].Tab?
    requires var db := data.fields["database"].fields;
      "source" in db && SourceDb(db["source"]).Ok?
    ensures var db := data.fields["database"].fields;
      "target" !in db ==> ParseConfig(data) == Err(MissingKey(Str("target")))
    ensures var db := data.fields["database"].fields;
      "target" in db && db["target"].Tab? && "db" in db["target"].fields
      && TargetDb(db["target"], db["target"].fields["db"]).Ok? ==>
        && ("export" !in data.fields ==> ParseConfig(data) == Err(MissingKey(Str("export"))))
        && ("export" in data.fields && ExportOf(data.fields["export"]).Ok? ==>
              && ("mig_schema" !in db["target"].fields ==> ParseConfig(data) == Err(MissingKey(Str("mig_schema"))))
              && ("mig_schema" in db["target"].fields && "tgt_schema" !in db["target"].fields ==>
                    ParseConfig(data) == Err(MissingKey(Str("tgt_schema")))))
  {
    assert Truthy(data);
  }

  /** A negative schema index counts from the end of the list, as Python's indexing does. */
  lemma SchemaIndexFromEnd(schemas: seq<Toml>, i: int)
    requires -|schemas| <= i < 0
    ensures Sub(Arr(schemas), Int(i)) == Ok(schemas[|schemas| + i])
  {
  }

  // ------------------------------------------------------------ the target's URL

  /** `str()` of a value inside an f-string, for strings and integers. */
  function Show(t: Toml): (r: Result<string, ConfigError>)
    ensures t.Str? ==> r == Ok(t.s)
    ensures t.Int? ==> r.Ok? && ParseInt(r.value) == Some(t.i)
    ensures r.Ok? <==> t.Str? || t.Int?
  {
    match t
    case Str(s) => Ok(s)
    case Int(i) => IntToStringRoundTrip(i); Ok(IntToString(i))
    case _ => Err(WrongType)
  }

  /** A value an f-string prints here: a string or an integer. */
  predicate Printable(t: Toml) {
    t.Str? || t.Int?
  }

  /** The URL scheme of a supported target type. */
  function UrlScheme(dbType: Toml): Option<string> {
    if dbType == Str("mysql") then Some("mysql+pymysql")
    else if dbType == Str("supabase") then Some("postgresql")
    else None
  }

  /**
   * `get_target_connection_url` (and the URL `get_engine` builds): scheme, credentials, host
   * and port, then the DSN as the database path, or an empty path when `useDsn` is false.
   * Any other target type raises.
   */
  function TargetUrl(c: AppConfig, useDsn: bool): (r: Result<string, ConfigError>)
    ensures UrlScheme(c.dbType).None? ==> r == Err(UnsupportedDbType(c.dbType))
    ensures r.Ok? ==> UrlScheme(c.dbType).Some? && StartsWith(r.value, UrlScheme(c.dbType).value + "://")
    ensures UrlScheme(c.dbType).Some? ==>
      (r.Ok? <==> Printable(c.targetDb.user) && Printable(c.targetDb.pwd) && Printable(c.targetDb.host)
                  && Printable(c.targetDb.port) && (useDsn ==> Printable(c.targetDb.dsn)))
    ensures r.Ok? ==>
      r.value == UrlText(UrlScheme(c.dbType).value, Show(c.targetDb.user).value, Show(c.targetDb.pwd).value,
                         Show(c.targetDb.host).value, Show(c.targetDb.port).value,
                         if useDsn then Show(c.targetDb.dsn).value else "")
  {
    match UrlScheme(c.dbType)
    case None => Err(UnsupportedDbType(c.dbType))
    case Some(scheme) =>
      var user :- Show(c.targetDb.user);
      var pwd :- Show(c.targetDb.pwd);
      var host :- Show(c.targetDb.host);
      var port :- Show(c.targetDb.port);
      var dsn :- if useDsn then Show(c.targetDb.dsn) else Ok("");
      Ok(UrlText(scheme, user, pwd, host, port, dsn))
  }

  /** `f"{scheme}://{user}:{pwd}@{host}:{port}/{dsn}"`. */
  function UrlText(scheme: string, user: string, pwd: string, host: string, port: string, dsn: string): (u: string)
    ensures StartsWith(u, scheme + "://")
  {
    var rest := user + ":" + pwd + "@" + host + ":" + port + "/" + dsn;
    assert scheme + "://" + rest == (scheme + "://") + rest;
    scheme + "://" + rest
  }

  /** The text after the last `/`. */
  function LastSegment(s: string): string {
    var parts := ExtractText.SplitWhere(s, c => c == '/');
    parts[|parts| - 1]
  }

  /** Whatever precedes a `/`, the text after it is the last segment when it holds no `/`. */
  lemma LastSegmentAfterSlash(a: string, b: string)
    requires '/' !in b
    ensures LastSegment(a + "/" + b) == b
  {
    var sep := (c: char) => c == '/';
    ExtractText.SplitWhereConcat(a, '/', b, sep);
    ExtractText.SplitWhereNone(b, sep);
  }

  /** The URL's database path is the DSN when `useDsn` holds and empty otherwise. */
  lemma TargetUrlPath(c: AppConfig, useDsn: bool)
    requires TargetUrl(c, useDsn).Ok?
    requires useDsn ==> c.targetDb.dsn.Str? && '/' !in c.targetDb.dsn.s
    ensures LastSegment(TargetUrl(c, useDsn).value) == if useDsn then c.targetDb.dsn.s else ""
  {
    var scheme := UrlScheme(c.dbType).value;
    var user, pwd, host, port := Show(c.targetDb.user).value, Show(c.targetDb.pwd).value,
                                 Show(c.targetDb.host).value, Show(c.targetDb.port).value;
    var dsn := if useDsn then c.targetDb.dsn.s else "";
    assert TargetUrl(c, useDsn).value == UrlText(scheme, user, pwd, host, port, dsn);
    UrlTextPath(scheme, user, pwd, host, port, dsn);
  }

  /** A URL's last segment is its database path when that holds no `/`. */
  lemma UrlTextPath(scheme: string, user: string, pwd: string, host: string, port: string, dsn: string)
    requires '/' !in dsn
    ensures LastSegment(UrlText(scheme, user, pwd, host, port, dsn)) == dsn
  {
    var head := scheme + "://" + user + ":" + pwd + "@" + host + ":" + port;
    assert UrlText(scheme, user, pwd, host, port, dsn) == head + "/" + dsn;
    LastSegmentAfterSlash(head, dsn);
  }

  // ------------------------------------------------------------ export directories

  /** A filesystem path as `pathlib` keeps it: rooted or not, and its non-empty components. */
  datatype Path = Path(absolute: bool, parts: seq<string>)

  /** A component `pathlib` keeps: not empty, not `.`, without `/`. */
  predicate IsComponent(x: string) {
    x != [] && x != "." && '/' !in x
  }

  predicate WellFormedPath(p: Path) {
    forall k :: 0 <= k < |p.parts| ==> p.parts[k] != [] && p.parts[k] != "." && '/' !in p.parts[k]
  }

  /** The components kept out of the pieces between slashes. */
  function Components(pieces: seq<string>): (r: seq<string>)
    requires forall k :: 0 <= k < |pieces| ==> '/' !in pieces[k]
    ensures forall k :: 0 <= k < |r| ==> r[k] != [] && r[k] != "." && '/' !in r[k]
    decreases |pieces|
  {
    if pieces == [] then []
    else (if IsComponent(pieces[0]) then [pieces[0]] else []) + Components(pieces[1..])
  }

  /** `Path(s)`: repeated slashes and `.` components collapse. */
  function PathOf(s: string): (p: Path)
    ensures WellFormedPath(p)
  {
    var pieces := ExtractText.SplitWhere(s, c => c == '/');
    Path(s != [] && s[0] == '/', Components(pieces))
  }

  /** `str(p)`: the components joined by `/`, behind a `/` when rooted; `.` for the empty relative path. */
  function Render(p: Path): string {
    if p.absolute then "/" + Join("/", p.parts)
    else if p.parts == [] then "."
    else Join("/", p.parts)
  }

  /** Splitting the slash-joined components gives them back. */
  lemma {:induction false} SplitJoined(parts: seq<string>)
    requires parts != [] && forall k :: 0 <= k < |parts| ==> '/' !in parts[k]
    ensures ExtractText.SplitWhere(Join("/", parts), c => c == '/') == parts
    decreases |parts|
  {
    var sep := (c: char) => c == '/';
    if |parts| == 1 {
      assert Join("/", parts) == parts[0];
      ExtractText.SplitWhereNone(parts[0], sep);
    } else {
      SplitJoined(parts[1..]);
      assert Join("/", parts) == parts[0] + "/" + Join("/", parts[1..]);
      ExtractText.SplitWhereConcat(parts[0], '/', Join("/", parts[1..]), sep);
      ExtractText.SplitWhereNone(parts[0], sep);
    }
  }

  /** Components of components are themselves. */
  lemma {:induction false} ComponentsKeep(parts: seq<string>)
    requires forall k :: 0 <= k < |parts| ==> parts[k] != [] && parts[k] != "." && '/' !in parts[k]
    ensures Components(parts) == parts
    decreases |parts|
  {
    if parts != [] {
      ComponentsKeep(parts[1..]);
    }
  }

  /** A well-formed path survives being printed and read back. */
  lemma PathRoundTrip(p: Path)
    requires WellFormedPath(p)
    ensures PathOf(Render(p)) == p
  {
    var sep := (c: char) => c == '/';
    ComponentsKeep(p.parts);
    if p.parts == [] {
      if p.absolute {
        assert Render(p) == [] + "/" + [];
        ExtractText.SplitWhereConcat([], '/', [], sep);
        assert ExtractText.SplitWhere(Render(p), sep) == [[], []];
        assert Components([[], []]) == Components([[]]) == [];
      } else {
        ExtractText.SplitWhereNone(".", sep);
      }
    } else if p.absolute {
      RootedRoundTrip(p);
    } else {
      SplitJoined(p.parts);
      JoinHead(p.parts);
      assert Render(p)[0] == p.parts[0][0];
    }
  }

  lemma RootedRoundTrip(p: Path)
    requires WellFormedPath(p) && p.absolute && p.parts != []
    ensures PathOf(Render(p)) == p
  {
    var sep := (c: char) => c == '/';
    var joined := Join("/", p.parts);
    SplitJoined(p.parts);
    assert Render(p) == [] + "/" + joined;
    ExtractText.SplitWhereConcat([], '/', joined, sep);
    assert ([[]] + p.parts)[1..] == p.parts;
    assert Components([[]] + p.parts) == Components(p.parts);
    ComponentsKeep(p.parts);
  }

  /** A slash-joined list starts with its first item. */
  lemma JoinHead(parts: seq<string>)
    requires parts != []
    ensures |Join("/", parts)| >= |parts[0]| && Join("/", parts)[..|parts[0]|] == parts[0]
  {
    if |parts| > 1 {
      assert Join("/", parts) == parts[0] + "/" + Join("/", parts[1..]);
    }
  }

  /** `p / name`. */
  function Child(p: Path, name: string): Path {
    Path(p.absolute, p.parts + [name])
  }

  /** The three directories of `get_export_paths`. */
  datatype ExportPaths = ExportPaths(exportDir: Path, jpg: Path, webp: Path)

  /**
   * `get_export_paths`: a non-empty explicit base directory, resolved, overrides the
   * configured export path; the images go under `images/jpg` and `images/webp` below it.
   * `resolve` stands for `Path.resolve()`, which consults the working directory.
   */
  function ExportPathsOf(c: AppConfig, base: Option<string>, resolve: string -> Path): (r: Result<ExportPaths, ConfigError>)
    ensures base.Some? && base.value != [] ==> r.Ok? && r.value.exportDir == resolve(base.value)
    ensures !(base.Some? && base.value != []) ==> (r.Ok? <==> c.exportCfg.path.Str?)
    ensures !(base.Some? && base.value != []) && r.Ok? ==> r.value.exportDir == PathOf(c.exportCfg.path.s)
    ensures r.Ok? ==> IsUnder(r.value.jpg, r.value.exportDir) && IsUnder(r.value.webp, r.value.exportDir)
    ensures r.Ok? ==> r.value.jpg == Child(Child(r.value.exportDir, "images"), "jpg")
    ensures r.Ok? ==> r.value.webp == Child(Child(r.value.exportDir, "images"), "webp")
  {
    var exp :- if base.Some? && base.value != [] then Ok(resolve(base.value))
               else if c.exportCfg.path.Str? then Ok(PathOf(c.exportCfg.path.s))
               else Err(WrongType);
    Ok(ExportPaths(exp, Child(Child(exp, "images"), "jpg"), Child(Child(exp, "images"), "webp")))
  }

  /** Printed, the image directories are the export directory's text followed by `/images/jpg` and `/images/webp`. */
  lemma ImageDirsRendered(c: AppConfig, base: Option<string>, resolve: string -> Path)
    requires ExportPathsOf(c, base, resolve).Ok?
    requires ExportPathsOf(c, base, resolve).value.exportDir.parts != []
    ensures var ps := ExportPathsOf(c, base, resolve).value;
      Render(ps.jpg) == Render(ps.exportDir) + "/images/jpg"
      && Render(ps.webp) == Render(ps.exportDir) + "/images/webp"
  {
    var ps := ExportPathsOf(c, base, resolve).value;
    RenderGrandchild(ps.exportDir, "images", "jpg");
    RenderGrandchild(ps.exportDir, "images", "webp");
  }

  lemma RenderGrandchild(p: Path, a: string, b: string)
    requires p.parts != []
    ensures Render(Child(Child(p, a), b)) == Render(p) + "/" + a + "/" + b
  {
    RenderChild(p, a);
    RenderChild(Child(p, a), b);
  }

  /** Printing `p / name` appends `/name` to the printed `p`. */
  lemma RenderChild(p: Path, name: string)
    requires p.parts != []
    ensures Render(Child(p, name)) == Render(p) + "/" + name
  {
    JoinSnoc(p.parts, name);
  }

  lemma {:induction false} JoinSnoc(parts: seq<string>, x: string)
    requires parts != []
    ensures Join("/", parts + [x]) == Join("/", parts) + "/" + x
    decreases |parts|
  {
    if |parts| > 1 {
      assert (parts + [x])[1..] == parts[1..] + [x];
      JoinSnoc(parts[1..], x);
    } else {
      assert (parts + [x])[1..] == [x];
    }
  }

  /** `p` lies strictly below `dir`. */
  predicate IsUnder(p: Path, dir: Path) {
    p.absolute == dir.absolute && |p.parts| > |dir.parts| && p.parts[..|dir.parts|] == dir.parts
  }

  /** The two image directories differ from each other and from the export directory. */
  lemma ExportDirsDistinct(c: AppConfig, base: Option<string>, resolve: string -> Path)
    requires ExportPathsOf(c, base, resolve).Ok?
    ensures var ps := ExportPathsOf(c, base, resolve).value;
      ps.jpg != ps.webp && ps.jpg != ps.exportDir && ps.webp != ps.exportDir
  {
    var ps := ExportPathsOf(c, base, resolve).value;
    assert ps.jpg.parts[|ps.jpg.parts| - 1] == "jpg";
    assert ps.webp.parts[|ps.webp.parts| - 1] == "webp";
  }

  // ------------------------------------------------------------ validation and lookups

  /** The values `validate_config` requires to be non-empty, in its order. */
  function RequiredValues(c: AppConfig): seq<Toml> {
    [c.sourceDb.dsn, c.targetDb.host, c.targetDb.user, c.exportCfg.path]
  }

  /**
   * A configuration `validate_config` accepts: every required value non-empty, an export path
   * `Path()` can take, and a supported target type. A missing export directory only warns.
   */
  predicate ConfigValid(c: AppConfig) {
    (forall v :: v in RequiredValues(c) ==> Truthy(v))
    && c.exportCfg.path.Str?
    && (c.dbType == Str("mysql") || c.dbType == Str("supabase"))
  }

  /** `get_table_primary_keys`: the configured key columns, or `[]` for a table without any. */
  function TablePrimaryKeys(c: AppConfig, table: string): (r: Result<Toml, ConfigError>)
    ensures c.pkConfig.Tab? ==> r.Ok?
    ensures c.pkConfig.Tab? && table !in c.pkConfig.fields ==> r.value == Arr([])
    ensures c.pkConfig.Tab? && table in c.pkConfig.fields ==> r.value == c.pkConfig.fields[table]
    ensures !c.pkConfig.Tab? ==> r.Err?
  {
    GetOr(c.pkConfig, Str(table), Arr([]))
  }

  /** What `load_config` returns given the cached configuration and the outcome of reading the file. */
  function Loaded(cached: Option<AppConfig>, read: Result<Toml, string>): Result<AppConfig, ConfigError> {
    if cached.Some? then Ok(cached.value)
    else if read.Err? then Err(Unreadable(read.error))
    else ParseConfig(read.value)
  }

  /**
   * `ConfigManager`: the raw document and the derived configuration, both loaded once. Every
   * query first loads; `read` is the outcome of reading and parsing the file, which is only
   * consulted while nothing is cached.
   */
  class ConfigManager {
    var configData: Option<Toml>
    var appConfig: Option<AppConfig>

    constructor ()
      ensures configData == None && appConfig == None
    {
      configData := None;
      appConfig := None;
    }

    /**
     * `load_config`: a cached configuration is returned as is, without reading; otherwise the
     * document is read, kept, and parsed, and the configuration cached when parsing succeeds.
     */
    method LoadConfig(read: Result<Toml, string>) returns (r: Result<AppConfig, ConfigError>)
      modifies this
      ensures r == Loaded(old(appConfig), read)
      ensures old(appConfig).Some? ==> configData == old(configData) && appConfig == old(appConfig)
      ensures old(appConfig).None? ==>
        configData == (if read.Ok? then Some(read.value) else old(configData))
        && appConfig == (if r.Ok? then Some(r.value) else None)
    {
      if appConfig.Some? {
        return Ok(appConfig.value);
      }
      if read.Err? {
        return Err(Unreadable(read.error));
      }
      configData := Some(read.value);
      r := ParseConfig(read.value);
      if r.Ok? {
        appConfig := Some(r.value);
      }
    }

    /** `get_target_connection_url`. */
    method TargetConnectionUrl(read: Result<Toml, string>, useDsn: bool) returns (r: Result<string, ConfigError>)
      modifies this
      ensures var c := Loaded(old(appConfig), read); r == if c.Err? then Err(c.error) else TargetUrl(c.value, useDsn)
    {
      var c := LoadConfig(read);
      if c.Err? {
        return Err(c.error);
      }
      r := TargetUrl(c.value, useDsn);
    }

    /** `get_export_paths`. */
    method ExportPaths(read: Result<Toml, string>, base: Option<string>, resolve: string -> Path)
      returns (r: Result<ExportPaths, ConfigError>)
      modifies this
      ensures var c := Loaded(old(appConfig), read);
        r == if c.Err? then Err(c.error) else ExportPathsOf(c.value, base, resolve)
    {
      var c := LoadConfig(read);
      if c.Err? {
        return Err(c.error);
      }
      r := ExportPathsOf(c.value, base, resolve);
    }

    /**
     * `validate_config`: false when loading fails, at the first empty required value, when the
     * export path is not a string, or for an unsupported target type; true otherwise.
     */
    method ValidateConfig(read: Result<Toml, string>) returns (ok: bool)
      modifies this
      ensures var c := Loaded(old(appConfig), read); ok <==> c.Ok? && ConfigValid(c.value)
    {
      var c := LoadConfig(read);
      if c.Err? {
        return false;
      }
      var checks := RequiredValues(c.value);
      var i := 0;
      while i < |checks|
        invariant 0 <= i <= |checks|
        invariant forall k :: 0 <= k < i ==> Truthy(checks[k])
      {
        if !Truthy(checks[i]) {
          return false;
        }
        i := i + 1;
      }
      if !c.value.exportCfg.path.Str? {
        return false;  // `Path()` of a non-string raises, which is caught
      }
      ok := c.value.dbType == Str("mysql") || c.value.dbType == Str("supabase");
    }

    /** `get_table_primary_keys`. */
    method PrimaryKeys(read: Result<Toml, string>, table: string) returns (r: Result<Toml, ConfigError>)
      modifies this
      ensures var c := Loaded(old(appConfig), read);
        r == if c.Err? then Err(c.error) else TablePrimaryKeys(c.value, table)
    {
      var c := LoadConfig(read);
      if c.Err? {
        return Err(c.error);
      }
      r := TablePrimaryKeys(c.value, table);
    }

    /** `update_dsn`: only the source DSN changes, and only when a configuration is loaded. */
    method UpdateDsn(newDsn: string)
      modifies this`appConfig
      ensures old(appConfig).None? ==> appConfig == None
      ensures old(appConfig).Some? ==>
        appConfig == Some(old(appConfig).value.(sourceDb := old(appConfig).value.sourceDb.(dsn := Str(newDsn))))
    {
      if appConfig.Some? {
        var c := appConfig.value;
        appConfig := Some(c.(sourceDb := c.sourceDb.(dsn := Str(newDsn))));
      }
    }
  }
}
