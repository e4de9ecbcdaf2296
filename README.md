# FileMaker to MySQL / Supabase migration tool, modelled in Dafny

This project models the core of a tool that copies a FileMaker database into MySQL or a
Supabase PostgreSQL database. The tool reads each source table over ODBC, does three things
with it, and keeps counters for every step:
- turns the rows into multi-row `INSERT` text (the DML);
- writes that text to `.sql` files or executes it statement by statement against the target;
- exports the container images as JPEG and WebP files.

There are two versions of the tool:
- the older script `filemaker_extract.py`, which keeps its state in module globals;
- the refactored one, made of
  - `data_exporter.py` (the `DataExporter` object);
  - `database_connections.py`;
  - `config_manager.py`;
  - `filemaker_extract_refactored.py` (the command line and the runs it dispatches);
  - the GUI's log buffer `gui/gui_logging.py`.

Both versions are modelled.

Where the code does not do what it evidently means to (see "## Findings"), the model holds
the code as written and a corrected definition beside it, with the intended property proved
about the corrected one. The exporters write values with the literal formatter as written
(`SqlValues.Format` with `AsWritten`), as the code does. They also send the conflict
clause to every target (`Statements.WithConflictFor` with `AlwaysAppend`), a MySQL one
included.

The model is organised as one module per file:

| file | module | what it holds |
|---|---|---|
| `wrappers.dfy` | `Wrappers` | `Option` and `Result` |
| `text.dfy` | `Text` | Python's string builtins used by the tool: `split`, `join`, `replace`, `strip`, `lower`, `find`, `str(int)`, `int(str)` |
| `sql_values.dfy` | `SqlValues` | one cell rendered as an SQL literal per dialect, and readers for what the server makes of the literal |
| `bulk_insert.dfy` | `BulkInsert` | a chunk of rows turned into one multi-row `INSERT` |
| `statements.dfy` | `Statements` | the image number of a statement, the dialect rewrite, the `ON CONFLICT … DO NOTHING` suffix, and an abstract target table that executes one statement |
| `exporter.dfy` | `Exporter` | the `DataExporter` class: stored header, file export, insert loop with its resume latch, image export, summary |
| `extract_text.dfy` | `ExtractText` | the older script's text handling: table names, table selection, `clean_error`, source queries, CREATE TABLE parsing and rewriting |
| `filemaker_extract.dfy` | `FilemakerExtract` | the older script's insert loop, INSERT text and image export over its globals (class `ScriptState`) |
| `config.dfy` | `Config` | the TOML document, the derived configuration, and the `ConfigManager` class |
| `connections.dfy` | `Connections` | row-count dictionaries with their `-1` sentinels, the target's engine cache and connection fallback, database and schema preparation |
| `status.dfy` | `MigrationStatus` | the refactored script: connection validation, table list, status classification and report, count runs, chunking, command-line defaults, the migration loop |
| `log_buffer.dfy` | `GuiLogging` | the `LogManager` class (bounded in-memory log, callbacks, recent-log view) and the `ErrorTracker` summary |

## How the outside world is modelled

Code that changes state step by step is modelled as classes and loop methods. Each of these
is proved against a specification function over sequences:
- `DataExporter`, the older script's globals (`ScriptState`), `ConfigManager`,
  `TargetConnection`, `LogManager` and `ErrorTracker` are classes whose methods state their
  whole new state.
- The insert loops, image exports, count dictionaries, status loop, migration loop,
  chunk-role loop and error summary are `while`/`for` loops. Each is proved equal to a
  recursive function (`DmlRun`, `Run`, `ImagesRun`, `Fill`, `SummaryOf`, `CountSucceeded`,
  `Grouped`). The properties are proved as lemmas about those functions.

What the servers, the filesystem or the clock would answer is an argument of the operation:
- A target table is abstract: the set of primary-key values it holds, and whether it has a key
  constraint. A function `keyOf` reads the key of the row a statement inserts.
- A count query's answer is a function from the query text to an optional count.
- A connection attempt's reply is a function from the URL to `Connected`, `UnknownDatabase`
  or `Refused`.
- The image library is a predicate saying whether some bytes decode.
- The files present are a set of paths.
- Timestamps and session ids are plain strings.

## Model

| member | source | states |
|---|---|---|
| `SqlValues.MySqlLiteralAsWritten` | data_exporter.py:108-114 | The MySQL literal as written. It is double-quoted exactly when the escaped text holds `,` or `'` or the value held a line break. Otherwise it is single-quoted, with no `'` or `,` inside. |
| `SqlValues.MySqlLiteral` | data_exporter.py:108-114 | The corrected MySQL literal has the same quote choice and the same guarantees about what a single-quoted body holds. |
| `SqlValues.KeepsQuoteAndComma` | data_exporter.py:109-111 | Doubling `"` neither adds nor removes a `'` or a `,`, so the quote choice sees the same characters. |
| `SqlValues.MySqlUnquoteBody` | data_exporter.py:108-114 | MySQL reads every character of an escaped literal body back, whichever quote encloses it, provided a single-quoted body holds no `'`. |
| `SqlValues.MySqlLiteralRoundTrip` | data_exporter.py:108-114 | MySQL reads the corrected literal of any string back as exactly that string. |
| `SqlValues.MySqlAsWrittenAgrees` | data_exporter.py:108-114 | The literal as written equals the corrected one unless it is single-quoted around a value containing `"`. |
| `SqlValues.MySqlSingleQuotedDoubledQuote` | data_exporter.py:108-114 | The value `"` is written `'""'`, which MySQL stores as two double quotes (see Findings). |
| `SqlValues.PgLiteralAsWritten` | data_exporter.py:116-122 | The PostgreSQL literal as written. From version 9.0 on it is `E'…'` with `'` doubled. For an older version, and also when the version is unknown, it is `'…'` with `'` doubled and `,` written `\,`. Backslashes are left as they are. |
| `SqlValues.PgUndoubleRoundTrip` | data_exporter.py:118 | Un-doubling the `'` of the doubled text gives back the value. |
| `SqlValues.PgEStringUndoubles` | data_exporter.py:119-120 | The body of the tool's `E'…'` literal is the value's doubled text. |
| `SqlValues.PgUnescapeBody` | data_exporter.py:116-122 | PostgreSQL reads the corrected literal body back character by character when escape processing is on. |
| `SqlValues.PgLiteralRoundTrip` | data_exporter.py:116-122 | The corrected literal reads back as exactly the value. It is an `E'…'` string, read with escape processing on every server, unless the server is known to be older than 9.0. There the `'…'` form is written, and such a server also reads it with escape processing. |
| `SqlValues.PgAsWrittenAgrees` | data_exporter.py:116-122 | For a known server version and a value without a backslash, the literal as written is the corrected one. |
| `SqlValues.PgUnknownVersionComma` | data_exporter.py:118-122 | With the version unknown, `a,b` is written `'a\,b'`. A server from 9.1 on only un-doubles `'` in that literal, so it stores `a\,b` (see Findings). |
| `SqlValues.PgBackslashRead` | data_exporter.py:119-120 | The two-character value `\n` is written `E'\n'`, which PostgreSQL reads as one newline (see Findings). |
| `SqlValues.FormatValueAsWritten` | data_exporter.py:97-122 | `format_value_for_sql` as written. It returns nothing exactly for a string value under a dialect that is neither mysql nor supabase. |
| `SqlValues.FormatValue` | data_exporter.py:97-122 | The corrected formatter fails in exactly the same cases as the code. |
| `SqlValues.FormatNullAndNumbers` | data_exporter.py:102-105 | A missing value is `NULL`. A number is written as decimal text that `int()` reads back as the number, identically in both formatters. |
| `SqlValues.FormatStringRoundTrip` | data_exporter.py:108-122 | For mysql and supabase, the corrected formatter's literal of a string reads back on the target as that string. For supabase the literal is `E'…'` unless the server is known to be older than 9.0, an unknown version included. |
| `SqlValues.Format` | data_exporter.py:97-122 | Choosing a formatter: it fails exactly when a string meets an unknown dialect, and both formatters give the same literal wherever escaping does not matter. |
| `SqlValues.FormattersAgree` | data_exporter.py:108-122 | The as-written and corrected formatters agree on every value except a mysql string holding `"`, and a supabase string holding a backslash or written for an unknown server version. |
| `SqlValues.MySqlEscape` | data_exporter.py:108-114 | A value without backslash, newline or carriage return is left as it is by the escaping. |
| `SqlValues.PgLiteral` | data_exporter.py:116-122 | The corrected PostgreSQL literal opens with `'` only for a server known to be older than 9.0, and with `E'` otherwise, an unknown version included. It closes with `'`. |
| `BulkInsert.ColumnIndex` | data_exporter.py:127 | A column's position is one where that name stands. It is absent exactly when the frame has no such column. |
| `BulkInsert.AssignOne` | data_exporter.py:127 | One keyword of `df.assign` keeps the frame rectangular and the row count. It keeps the existing columns in order and makes the keyword a column. |
| `BulkInsert.AssignOneValues` | data_exporter.py:127 | After one keyword, every row holds the constant in that column, and every other column keeps its value. |
| `BulkInsert.Assign` | data_exporter.py:127 | `df.assign(**kwargs)` keeps the frame rectangular, the row count, and the original columns as a prefix. |
| `BulkInsert.AssignValues` | data_exporter.py:127 | Every row ends with each keyword's constant in the keyword's column, and every column no keyword names keeps its value. |
| `BulkInsert.ReplaceBools` | data_exporter.py:127 | Every `True` cell becomes 1 and every `False` cell 0. Nothing else changes. |
| `BulkInsert.PictureRule` | data_exporter.py:130-131 | The picture rule keeps the columns and the row count. |
| `BulkInsert.PictureRuleValues` | data_exporter.py:130-131 | For ratcatalogue with both columns, each row's picture becomes its image number unless that is empty. Every other column is untouched. |
| `BulkInsert.PictureRuleOtherwise` | data_exporter.py:130-131 | For other tables, or when either column is missing, the frame is unchanged. |
| `BulkInsert.LegacyPictureRule` | filemaker_extract.py:181-183 | The older rule agrees with the new one whenever the `picture` column exists and pandas does not raise. |
| `BulkInsert.FormatRow` | data_exporter.py:134-140 | A row formats to one literal per cell, each the chosen formatter's own. It fails exactly when some cell cannot be formatted. |
| `BulkInsert.Tuples` | data_exporter.py:134-140 | There is one tuple text per row, each that row's tuple under the chosen formatter. |
| `BulkInsert.RowTuple` | data_exporter.py:134-139 | A row's tuple fails exactly when one of its cells cannot be formatted. Otherwise it is parenthesised. |
| `BulkInsert.ValuesText` | data_exporter.py:134-140 | The VALUES list fails exactly when some row's tuple cannot be made. |
| `BulkInsert.InsertHeader` | data_exporter.py:143-149 | The header starts `INSERT INTO <schema>.<table> (` and ends with `)` and a `VALUES` line. |
| `BulkInsert.QuotedColumns` | data_exporter.py:143-152 | The header names each column in the dialect's identifier quotes, in order. |
| `BulkInsert.Prepared` | data_exporter.py:124-140 | The frame the text is built from keeps its shape and row count. |
| `BulkInsert.JoinIndented` | data_exporter.py:138-140 | Joining with `",\n"` plus seven spaces is joining the first tuple and the indented others with `",\n"`. |
| `BulkInsert.SplitValues` | data_exporter.py:321 | Splitting the values text on `",\n"` gives back each row's tuple, later ones indented, when no tuple holds a newline. |
| `BulkInsert.MySqlValueNoNewline` | data_exporter.py:108-114 | Under either formatter, a mysql literal never holds a raw newline. |
| `BulkInsert.MySqlOnePiecePerRow` | data_exporter.py:321 | Under either formatter, for mysql, the insert loop's split of a chunk's text yields exactly one piece per row. |
| `BulkInsert.TuplesSome` | data_exporter.py:134-140 | If every row's tuple can be made, the tuple list can be made. |
| `Statements.FirstMatchCI` | data_exporter.py:322 | The case-blind search returns the first occurrence at or after the start, or reports that there is none. |
| `Statements.HasInsertIntoFound` | data_exporter.py:322 | `re.findall('INSERT INTO', …, re.IGNORECASE)` is non-empty exactly when the search finds a match. |
| `Statements.SkipSpaces` | data_exporter.py:378-379 | `\s*` consumes exactly the whitespace run. |
| `Statements.LastValues` | data_exporter.py:378-379 | The greedy `.*` stops at the last `VALUES (` that still has a `)` after it. |
| `Statements.ImageNoOf` | data_exporter.py:383 | The cleaned first value holds no comma and neither starts nor ends with `'`. |
| `Statements.ImageNoOfValue` | data_exporter.py:383 | A first value made of digits, bare, quoted or `E`-quoted, and followed by nothing or a comma, cleans to exactly those digits, so `'123'` and `E'123'` give `123`. |
| `Statements.ExtractImageNo` | data_exporter.py:376-385 | A number found is the cleaned first value of some `VALUES (…)` group of the statement. |
| `Statements.FirstPieceNoComma` | data_exporter.py:383 | The first piece of `split(',')` holds no comma. |
| `Statements.ExtractImageNoSpec` | data_exporter.py:376-385 | There is no image number exactly when the pattern does not match. Otherwise the number is the cleaned first value of a matched `VALUES (…)` group. |
| `Statements.AdjustSqlSyntax` | data_exporter.py:387-391 | For supabase every backtick becomes `"` and every other character stays where it is. Every other dialect leaves the text as it is. |
| `Statements.AdjustIdempotent` | data_exporter.py:387-391 | Adjusting twice is adjusting once. |
| `Statements.AdjustKeepsOtherChars` | data_exporter.py:387-391 | Any character other than the two quote kinds is present after the rewrite exactly when it was before. |
| `Statements.AdjustRewritesValues` | data_exporter.py:387-391 | The rewrite also reaches string values: a backtick inside a supabase value is stored as `"`. |
| `Statements.WithConflict` | data_exporter.py:336-341 | The clause `ON CONFLICT(<pk>) DO NOTHING` is appended exactly when the joined key columns are non-empty. Otherwise the statement is unchanged. |
| `Statements.WithConflictAdds` | data_exporter.py:338-339 | With key columns configured, the executed statement carries the clause. |
| `Statements.WithConflictIff` | data_exporter.py:336-341 | A statement gets the clause exactly when key columns are configured. |
| `Statements.JoinEmpty` | data_exporter.py:336-338 | The key list joins to empty exactly when it is empty or one empty name. |
| `Statements.Execute` | data_exporter.py:336-369 | The target changes only when a statement commits, and its key constraint never changes. A MySQL server (`supabase` is PostgreSQL, any other type MySQL) rejects a statement carrying `ON CONFLICT` as a syntax error and changes nothing. Integrity errors come from PostgreSQL with `diag` texts, or from MySQL as plain text. |
| `Statements.ErrorText` | data_exporter.py:359 | The text starts with the server's primary message and ends with its detail, so an `already exists` in the message is seen. |
| `Statements.ExecuteKeepsKeysUnique` | data_exporter.py:344-363 | On either server, a keyed target never holds a key twice, whatever is executed. |
| `Statements.ExecuteIntegrityIsDuplicate` | data_exporter.py:359-360 | Every integrity error PostgreSQL raises here says the key already exists, so the duplicate counter sees it. |
| `Statements.PostgresDuplicateSaysAlreadyExists` | data_exporter.py:359-360 | For every key, the duplicate-key error PostgreSQL raises (`Key (k)=(k) already exists.`) is seen by the `already exists` test. |
| `Statements.ExecuteConflictAbsorbs` | data_exporter.py:339-346 | On a keyed PostgreSQL target, a statement with the conflict clause never removes a row, and its key is present afterwards. |
| `Statements.ExecuteConflictPresent` | data_exporter.py:339-346 | On either server, a conflict-clause statement whose key is already present changes nothing and raises no integrity error. |
| `Statements.ExecuteMySqlDuplicateUncounted` | data_exporter.py:350-360 | A MySQL integrity error is the pymysql text `Duplicate entry '<key>' for key 'PRIMARY'`. For a key without an `x` it does not say `already exists`, so it is not counted as a duplicate. |
| `Statements.MySqlDuplicateNotAlreadyExists` | data_exporter.py:359 | MySQL's duplicate-key text holds no `already exists` when the key holds no `x`. |
| `Statements.ExecuteUnclausedAbsorbs` | data_exporter.py:339-346 | On a keyed target of either kind, a statement without the clause keeps every row and leaves its key present. It raises an integrity error exactly when the key was already present. |
| `Statements.AsWrittenClauseRejected` | data_exporter.py:336-346 | As written, with key columns configured a MySQL server is sent `ON CONFLICT`, and the statement fails without changing the target. |
| `Statements.CorrectedClauseAbsorbs` | data_exporter.py:336-346 | With the clause sent only to PostgreSQL, a statement on a keyed target of either kind keeps every row and leaves its key present. |
| `Exporter.MultiFileNamesDistinct` | data_exporter.py:204-211 | In the one-file-per-table layout, two tables never share a file of one type. |
| `Exporter.SingleFileShared` | data_exporter.py:204-211 | In the single-file layout, every table writes the one file of its type. |
| `Exporter.StatementsOf` | data_exporter.py:321-323 | There is one statement per piece, each with the stored header put back when it lacks `INSERT INTO`. |
| `Exporter.Record` | data_exporter.py:344-369 | A commit counts as inserted. Anything else counts as an error. An integrity error is recorded under the new error count, with the `diag` texts or, without `diag`, `str(e)` as both. It is also a duplicate when its text says so. |
| `Exporter.DmlStep` | data_exporter.py:321-369 | Each statement is counted once: as skipped, inserted or error. The latch is set when resuming reaches the start statement. The counters never decrease. |
| `Exporter.DmlRunCounts` | data_exporter.py:321-369 | Over a batch, inserted plus errors plus skipped grows by exactly the number of statements. |
| `Exporter.DmlRun` | data_exporter.py:321-369 | Over a batch, the inserted, error and duplicate counters never go down. |
| `Exporter.DmlRunLatchPersists` | data_exporter.py:326-331 | Once the latch is set it stays set. Without an active latch nothing is skipped. |
| `Exporter.FirstStart` | data_exporter.py:326-331 | The index of the first statement carrying the `start_from` image number, or the batch length when there is none. |
| `Exporter.DmlRunSkipsPrefix` | data_exporter.py:326-331 | When resuming, exactly the statements before the first one with the `start_from` image number are skipped. The latch ends set exactly when that statement exists. |
| `Exporter.DmlRunAbsorbs` | data_exporter.py:336-346 | With key columns on a keyed target, where the server understands what is sent, a run never removes rows and afterwards holds every key of the batch. That is a PostgreSQL target, or a MySQL target under the corrected rule. |
| `Exporter.DmlStepAbsorbs` | data_exporter.py:336-346 | Where the server understands what is sent, one statement keeps every row of a keyed target and adds its own key. |
| `Exporter.DmlRerunIdempotent` | data_exporter.py:336-363 | Re-running a batch whose keys are all present, with the clause appended, changes nothing. Neither the target, nor the duplicate count, nor the error records change: PostgreSQL skips each row, and MySQL rejects each statement. |
| `Exporter.DmlRunTwice` | data_exporter.py:336-363 | With the clause appended, running a batch twice leaves the target as the first run left it, on either server. |
| `Exporter.DmlRunRejected` | data_exporter.py:336-369 | As written, a MySQL target with key columns rejects every statement the latch lets through. Each counts as an error, and nothing is inserted or recorded. |
| `Exporter.MySqlKeyedStatement` | data_exporter.py:336-369 | For `INSERT INTO t VALUES (1)` on an empty keyed MySQL table with key `id`, as written the statement counts as an error and the row is missing. Under the corrected rule the row is inserted. |
| `Exporter.ErrorRecordsRestartPerCall` | data_exporter.py:313-353 | Error records are keyed by the call's own counter, which starts at zero, so a later call's first error overwrites the record stored under key 1. |
| `Exporter.CleanName` | data_exporter.py:433 | A cleaned image name holds no line break and no space. |
| `Exporter.AddFile` | data_exporter.py:436-453 | A file is written only when missing, and counted exactly when written. |
| `Exporter.ImageStepCounts` | data_exporter.py:429-453 | One item only adds files and counts each file it adds. |
| `Exporter.ImagesRunCounts` | data_exporter.py:419-456 | Over a run, files are only added, and the count grows by exactly the number of new files. |
| `Exporter.ImagesRun` | data_exporter.py:419-456 | Over a run, files are only added, and a failed run stays failed. |
| `Exporter.ImagesRunFailed` | data_exporter.py:458-460 | After an exception nothing more is written. |
| `Exporter.ImagesRunDone` | data_exporter.py:429-453 | A run that does not fail leaves every non-skipped item with a file for each requested format. |
| `Exporter.ImagesSecondRunExportsNothing` | data_exporter.py:436-453 | Exporting the same images a second time writes nothing and counts zero. |
| `Exporter.ExportStats.constructor` | data_exporter.py:42-52 | Every counter starts at zero and the file list empty. |
| `Exporter.DataExporter.constructor` | data_exporter.py:58-74 | No version is known, the stored header is empty, no resume latch or error record exists, and the file list is empty. |
| `Exporter.DataExporter.SetPostgresVersion` | data_exporter.py:93-95 | The version becomes the given one and nothing else changes. |
| `Exporter.DataExporter.DfToSqlBulkInsert` | data_exporter.py:124-154 | With a header, the stored header is replaced by the dialect's `INSERT INTO` line and starts the text. Without one the text is the bare values and the header stays. Nothing changes when a value cannot be formatted. Values are written by the as-written formatter. |
| `Exporter.DataExporter.ExportToFile` | data_exporter.py:199-241 | The file is named `<date>_<prefix>_<tag>.sql`. It is overwritten on a header and appended to otherwise. Its new content is the old part plus this call's text. The name is recorded once. |
| `Exporter.DataExporter.WrittenText` | data_exporter.py:217-232 | The pieces written: the banner for a DML header, DDL with `;`, and DML with `;` only on the footer. |
| `Exporter.DataExporter.ExportDml` | data_exporter.py:311-374 | The counters, the latch, the table's error records and the target end exactly as the statement loop `DmlRun` leaves them. |
| `Exporter.DataExporter.PassesLatch` | data_exporter.py:326-331 | A statement runs exactly when the latch does not skip it. The latch is set by the first statement that runs while resuming. |
| `Exporter.DataExporter.Tally` | data_exporter.py:344-369 | One executed statement updates the counters and records as `Record` states. |
| `Exporter.DataExporter.DmlTurn` | data_exporter.py:321-369 | One turn of the loop is one `DmlStep`. |
| `Exporter.DataExporter.ExportImages` | data_exporter.py:414-460 | The files present are those `ImagesRun` leaves. The count is the number written, or 0 when an exception ended the export. |
| `Exporter.DataExporter.ExportChunk` | data_exporter.py:422-453 | The items of a chunk run in order. The state after `k` items is what `ImagesRun` gives, and `k` stops short only when an item raised. |
| `Exporter.DataExporter.ExportItem` | data_exporter.py:429-453 | One item is one `ImageStep`. |
| `Exporter.DataExporter.ExportSummary` | data_exporter.py:462-476 | `files_created` is the length of the file list. A table is listed in `errors_by_table` exactly when it has records, with their number. |
| `ExtractText.SanitiseName` | filemaker_extract.py:537 | Spaces become underscores and letters are lower-cased, position by position. |
| `ExtractText.SanitisedIsClean` | filemaker_extract.py:537 | A sanitised name holds no space and no upper-case letter, and sanitising again changes nothing. |
| `ExtractText.TableList` | filemaker_extract.py:523-541 | Every base-table name is sanitised, in order. |
| `ExtractText.SplitWhere` | filemaker_extract.py:974 | `re.split` on the separators gives at least one piece, and no piece holds a separator. |
| `ExtractText.SplitWhereRoundTrip` | filemaker_extract.py:974 | There is one piece more than there are separators, and interleaving them restores the text. |
| `ExtractText.SplitWhereNone` | filemaker_extract.py:974 | A text without separators is one piece. |
| `ExtractText.SplitWhereConcat` | filemaker_extract.py:974 | Splitting at a separator gives the pieces before it, then the pieces after it. |
| `ExtractText.FoundInIff` | filemaker_extract.py:968-970 | `found_in(l1, l2)` holds exactly when every item of `l2` is in `l1`. |
| `ExtractText.TableExportList` | filemaker_extract.py:972-1001 | The list is all tables for `all`, or the requested names when every one is available. An accepted list holds only available tables. |
| `ExtractText.TableExportListSingle` | filemaker_extract.py:972-1001 | One available table named alone is selected alone. |
| `ExtractText.CleanError` | filemaker_extract.py:655-656 | The cleaned message has no line break and no surrounding whitespace. |
| `ExtractText.CleanErrorIdempotent` | filemaker_extract.py:655-656 | Cleaning twice is cleaning once. |
| `ExtractText.DmlQueryAsWrittenOrdersAfterLimit` | filemaker_extract.py:343-378 | As written, a limited ratcatalogue query ends with `ORDER BY` after its `FETCH FIRST` clause (see Findings). |
| `ExtractText.DmlQueryLimitLast` | filemaker_extract.py:343-378 | The corrected query ends with its `FETCH FIRST` clause, ordered before it. Unlimited queries agree with the code. |
| `ExtractText.DmlQuery` | filemaker_extract.py:343-378 | A limited query ends with its `FETCH FIRST` clause. An unlimited ratcatalogue query ends with its ordering. A given query is kept as the start. |
| `ExtractText.DmlQueryAsWritten` | filemaker_extract.py:343-378 | Outside ratcatalogue the query agrees with the corrected one. For ratcatalogue it ends with `ORDER BY image_no ASC`. |
| `ExtractText.CountQueryNoSelect` | filemaker_extract.py:457 | A query without `SELECT` is left as it is. |
| `ExtractText.CountQueryOneLine` | filemaker_extract.py:457 | A one-line `SELECT cols FROM rest` becomes `SELECT COUNT(*) AS n FROM rest`. |
| `ExtractText.DefaultCountQuery` | filemaker_extract.py:343-347 | The default query counts as `SELECT COUNT(*) AS n FROM "<tab>"`, keeping its limit. |
| `ExtractText.CountQuery` | filemaker_extract.py:457 | A query starting `SELECT` with a `FROM` on its line becomes `SELECT COUNT(*) AS n FROM …`. Other text keeps its first character. |
| `ExtractText.CappedCount` | filemaker_extract.py:462-463 | The count is capped at `int(rows)` unless `rows` is `all`. It fails exactly where `int` raises. |
| `ExtractText.CappedCountOfLimit` | filemaker_extract.py:462-463 | A limit written `str(n)` caps the count at `n`. |
| `ExtractText.TakeWhile` | filemaker_extract.py:304-306 | The longest prefix whose characters qualify. |
| `ExtractText.DateColumns` | filemaker_extract.py:380-386 | A name is listed exactly when some column of type `DATE` has it. |
| `ExtractText.ColumnLines` | filemaker_extract.py:291-317 | There is one rendered line per column: a tab, the name, a space, the type, and `, ` except after the last. |
| `ExtractText.CreateTableRoundTrip` | filemaker_extract.py:291-317 | The corrected parser, whose block starts at the line break before the first column, gives back a rendered CREATE TABLE's name and columns. |
| `ExtractText.RenderedColumns` | filemaker_extract.py:291-317 | The corrected parser reads exactly the rendered columns. |
| `ExtractText.CreateTableToDict` | filemaker_extract.py:291-317 | Fails (Python's unbound `tab`) exactly when columns are found without a table name, gives `{}` exactly when neither is found, and otherwise names the table found in the text. |
| `ExtractText.CreateTableToDictAsWritten` | filemaker_extract.py:302-315 | As written, the parser fails, and names the table, exactly as the corrected one does. Only the columns differ. |
| `ExtractText.RenderedColumnsAsWritten` | filemaker_extract.py:302-315 | As written, the columns read from rendered lines are all the rendered columns but the first. |
| `ExtractText.CreateTableAsWrittenLosesFirst` | filemaker_extract.py:302-315 | As written, a rendered CREATE TABLE parses to its name and every column but the first (see Findings). |
| `ExtractText.LeadingDateColumnLost` | filemaker_extract.py:302-315 | For a table whose one column is a DATE, the corrected parser reports that date column and the as-written parser reports none. |
| `ExtractText.RenderedTableName` | filemaker_extract.py:291-317 | The parser reads the rendered table name. |
| `ExtractText.SchemaDdlHeader` | filemaker_extract.py:444-445 | The DDL rewrite puts the schema in front of the table name in the CREATE TABLE header. |
| `ExtractText.SchemaDdl` | filemaker_extract.py:444-445 | A DDL text that mentions neither `TABLE` nor the table name is left as it is. |
| `ExtractText.KeywordOnlyOnce` | filemaker_extract.py:444-445 | `TABLE` does not start inside the `CREATE` prefix, so the rewrite hits the keyword. |
| `ExtractText.KeywordRewrite` | filemaker_extract.py:444 | The first rewrite turns only the header's `TABLE` into `TABLE IF NOT EXISTS`. |
| `ExtractText.NameRewrite` | filemaker_extract.py:445 | The second rewrite qualifies only the table name after the header. |
| `FilemakerExtract.AdjustedOf` | filemaker_extract.py:850-855 | There is one statement per piece, with the header put back where `INSERT INTO` is missing, then adjusted to `--db-type`. |
| `FilemakerExtract.PkText` | filemaker_extract.py:866-867 | The key columns named in the clause hold no backslash. |
| `FilemakerExtract.ExecutedKeepsClause` | filemaker_extract.py:868-869 | The backslash rewrite never reaches the clause: every executed statement ends in ` DO NOTHING`. |
| `FilemakerExtract.ExecutedAgreesWithExporter` | filemaker_extract.py:866-869 | Without backslashes and with key columns, the older script executes what `DataExporter` does. |
| `FilemakerExtract.Record` | filemaker_extract.py:871-898 | A commit counts as inserted. A PostgreSQL integrity error counts as an error and is recorded with cleaned texts. Any other database error raises, and so does a MySQL integrity error, whose missing `diag` fails the handler at :876. |
| `FilemakerExtract.Step` | filemaker_extract.py:850-898 | After a raise nothing happens. Otherwise a statement before the resume point is skipped, and any other is attempted: it raises without key columns, and runs with the conflict clause otherwise. |
| `FilemakerExtract.StepRaisesOnMySql` | filemaker_extract.py:866-898 | On a MySQL target (the configured `dbt_type`), the first statement past the latch raises without inserting or changing a row: the clause is always sent, and the server rejects it. |
| `FilemakerExtract.RunInsertsNothingOnMySql` | filemaker_extract.py:850-898 | A whole run of the older loop on a MySQL target (the configured `dbt_type`) inserts nothing and changes no row. |
| `FilemakerExtract.StepCounts` | filemaker_extract.py:850-898 | Counters only grow. A statement that does not raise is counted exactly once, and a duplicate is always also an error. |
| `FilemakerExtract.Attempt` | filemaker_extract.py:865-898 | A table without configured key columns raises. Otherwise the statement runs with the conflict clause and is recorded. |
| `FilemakerExtract.RunAppend` | filemaker_extract.py:850-898 | Running two batches is running the first, then the second from where it ended. |
| `FilemakerExtract.Run` | filemaker_extract.py:850-898 | A loop that has raised stays as it is, and the skip counter never goes down. |
| `FilemakerExtract.RunRaised` | filemaker_extract.py:891-898 | Once an exception escapes, the rest of the batch is not run. |
| `FilemakerExtract.RunCounts` | filemaker_extract.py:850-898 | A run that does not raise counts every statement once. The duplicates never exceed the errors. |
| `FilemakerExtract.RunLatchPersists` | filemaker_extract.py:857-863 | `ok_to_insert_from` never resets. Once set, or when not resuming, nothing is skipped. |
| `FilemakerExtract.RunSkipsPrefix` | filemaker_extract.py:857-863 | When resuming, exactly the statements before the first one with the `start_from` image number are skipped. The flag ends set exactly when that statement exists. |
| `FilemakerExtract.RunKeepsRecords` | filemaker_extract.py:875-888 | Records stay keyed at most by the error count, and earlier ones are kept. |
| `FilemakerExtract.KeepsValid` | filemaker_extract.py:840-888 | After a run over one table, every table's records are still keyed at most by the global error count. |
| `FilemakerExtract.ScriptState.constructor` | filemaker_extract.py:1087-1094 | The flags and counters start cleared, no errors are recorded, and the formats are `jpg` and `webp`. |
| `FilemakerExtract.ScriptState.BeginTable` | filemaker_extract.py:319-339 | The insert and duplicate counts are cleared for each table. |
| `FilemakerExtract.ScriptState.DfToSqlBulkInsert` | filemaker_extract.py:160-202 | The same header and text behaviour as the exporter's method, with nothing produced where the older picture rule raises. Values are written by the as-written formatter. |
| `FilemakerExtract.ScriptState.ExportData` | filemaker_extract.py:837-913 | The records restart, with the error count, when the table has none. The globals and target end exactly as the loop `Run` leaves them, including where it raised. The statements are adjusted for `--db-type` and run on the server of the configured target type. |
| `FilemakerExtract.ScriptState.ConfiguredServerRuns` | filemaker_extract.py:213-220 | Whatever `--db-type` says, a configured MySQL target inserts nothing and changes no row over a whole run of the loop, because the engine was built for that target. |
| `FilemakerExtract.ScriptState.Turn` | filemaker_extract.py:850-898 | One turn of the loop is one `Step`. |
| `FilemakerExtract.ScriptState.TryInsert` | filemaker_extract.py:865-898 | A statement past the latch is one `Attempt`, executed on the server of the configured target type. |
| `FilemakerExtract.ScriptState.PassesLatch` | filemaker_extract.py:857-863 | A statement runs exactly when the latch does not skip it. The flag is set for good by the first one that runs while resuming. |
| `FilemakerExtract.ScriptState.Tally` | filemaker_extract.py:871-898 | One executed statement updates the globals as `Record` states. |
| `FilemakerExtract.ScriptState.ExportImages` | filemaker_extract.py:915-966 | The files present end as `ImagesRun` leaves them. The method reports whether a WebP conversion raised. |
| `FilemakerExtract.ScriptState.ExportChunk` | filemaker_extract.py:933-963 | The items of a chunk run in order. The state after `k` items is what `ImagesRun` gives, and `k` stops short only when an item raised. |
| `FilemakerExtract.ScriptState.ExportItem` | filemaker_extract.py:937-963 | One item is one `ImageStep`. |
| `FilemakerExtract.LegacyPrepared` | filemaker_extract.py:179-183 | The older frame keeps the row count whenever pandas does not raise. |
| `FilemakerExtract.LegacyPreparedAgrees` | filemaker_extract.py:179-183 | Where the older rule does not raise and finds both columns, both scripts format the same frame. |
| `Config.PyIndex` | config_manager.py:124-127 | Python indexing accepts exactly `-n <= i < n`, and counts a negative index from the end. |
| `Config.Sub` | config_manager.py:87-127 | `x[k]` on a table returns the value or `KeyError`. On an array it returns one of its items. On an integer it raises. |
| `Config.GetOr` | config_manager.py:124-130 | `x.get(k, d)` on a table returns the value or the default. On anything else it raises. |
| `Config.SourceDb` | config_manager.py:87-97 | `host` defaults to `127.0.0.1`, `port` to empty and `schema` to `[]`. The section is accepted exactly when every required key is present. |
| `Config.SourceMissingKey` | config_manager.py:87-97 | The first missing required key is the one reported. |
| `Config.ParseConfig` | config_manager.py:80-147 | An empty document is refused. A parsed configuration took its source section from the document. Its target type is the target section's `db`, its target settings are that section read for that type, and its export settings are the export section read. It picked the migration and target schemas from the schema list by their indices. Its key-column table is the `pk` entry of the target section's migration-schema section, and `{}` when either is missing. |
| `Config.ParseConfigMissingKey` | config_manager.py:80-147 | A missing target section, export section, `mig_schema` or `tgt_schema` index makes parsing fail with `MissingKey` naming it. |
| `Config.SchemaIndexFromEnd` | config_manager.py:124-127 | A negative schema index counts from the end of the list. |
| `Config.Show` | config_manager.py:154-165 | An f-string shows a string as itself and an integer as decimal text that reads back. Anything else is refused. |
| `Config.TargetUrl` | config_manager.py:154-165 | An unsupported type raises. For a supported type, a URL is made exactly when the user, password, host, port and (when asked for) DSN are strings or integers, and it reads `<scheme>://<user>:<password>@<host>:<port>/<dsn or nothing>`. |
| `Config.TargetUrlPath` | config_manager.py:154-165 | The URL's database path is the DSN when asked for, and empty otherwise. |
| `Config.PathOf` | config_manager.py:167-180 | `Path(s)` keeps only non-empty components other than `.`. |
| `Config.PathRoundTrip` | config_manager.py:167-180 | A well-formed path survives being printed and read back. |
| `Config.ExportPathsOf` | config_manager.py:167-180 | A non-empty base directory, resolved, overrides the configured one. The image directories are `images/jpg` and `images/webp` below the export directory. |
| `Config.ImageDirsRendered` | config_manager.py:167-180 | Written out, the image directories are the export directory followed by `/images/jpg` and `/images/webp`. |
| `Config.ExportDirsDistinct` | config_manager.py:167-180 | The two image directories differ from each other and from the export directory. |
| `Config.TablePrimaryKeys` | config_manager.py:217-220 | A table's configured key columns, or `[]` when it has none. |
| `Config.ConfigManager.constructor` | config_manager.py:53-57 | Nothing is loaded. |
| `Config.ConfigManager.LoadConfig` | config_manager.py:59-78 | A cached configuration is returned without reading. Otherwise the document is read and kept, and the configuration is cached exactly when it parses. |
| `Config.ConfigManager.TargetConnectionUrl` | config_manager.py:154-165 | The loaded configuration's `TargetUrl`, or the load error. |
| `Config.ConfigManager.ExportPaths` | config_manager.py:167-180 | The loaded configuration's `ExportPathsOf`, or the load error. |
| `Config.ConfigManager.ValidateConfig` | config_manager.py:182-215 | True exactly when loading succeeds, every required value is non-empty, the export path is a string and the type is supported. |
| `Config.ConfigManager.PrimaryKeys` | config_manager.py:217-220 | The loaded configuration's `TablePrimaryKeys`, or the load error. |
| `Config.ConfigManager.UpdateDsn` | config_manager.py:222-226 | Only the source DSN changes, and only when a configuration is loaded. |
| `Connections.Put` | database_connections.py:106-108 | `d[k] = v`: a new key goes last, and an existing key keeps its place. |
| `Connections.Fill` | database_connections.py:92-114 | The dictionary holds exactly the requested tables, each with its own value. |
| `Connections.PutTotal` | filemaker_extract_refactored.py:476-477 | Storing a count moves the non-negative total by its non-negative part, less the old entry's. |
| `Connections.AllFailedTotal` | database_connections.py:112-114 | When every count failed the total is zero. |
| `Connections.SourceRowCounts` | database_connections.py:92-114 | There is one entry per requested table. A failing query marks only its own table `-1`. Without a cursor, every table is `-1`. |
| `Connections.SourceCount` | database_connections.py:99-108 | An entry is `-1` exactly when its query raises, and is never below `-1`. |
| `Connections.SchemaFor` | database_connections.py:311-312 | An empty or missing schema falls back to the migration schema. |
| `Connections.TargetRowCounts` | database_connections.py:307-341 | A table the inspector does not find counts 0. A failing query gives `-1`. Without a connection, every table is `-1`. |
| `Connections.TargetCount` | database_connections.py:316-335 | An entry is 0 for a missing table and `-1` exactly when the table is there and its query raises. It is never below `-1`. |
| `Connections.CountTargetTables` | database_connections.py:316-335 | A connected count gives each table the entry `TargetCount` assigns. |
| `Connections.TargetCountsRead` | database_connections.py:314-341 | An entry is `-1` exactly when the connection or that table's query failed. A table that is not found counts 0. |
| `Connections.EngineFor` | database_connections.py:132-154 | An engine exists exactly when the target's URL can be built, and is made for that URL. |
| `Connections.TargetConnection.constructor` | database_connections.py:126-130 | No engine is cached. |
| `Connections.TargetConnection.GetEngine` | database_connections.py:132-154 | A cached engine is returned whatever is asked. Otherwise one is made for the URL and cached. |
| `Connections.TargetConnection.ConnectionAsWritten` | database_connections.py:156-178 | As written, the retry without the database is served the cached engine, so an unknown database is never recovered from (see Findings). |
| `Connections.TargetConnection.EngineOf` | database_connections.py:132-154 | The corrected cache keeps one engine per choice of database path. |
| `Connections.TargetConnection.Connection` | database_connections.py:156-178 | A returned engine connects. An unknown database with the DSN falls back to the server URL. |
| `Connections.EngineUrlsDiffer` | database_connections.py:132-169 | The engines with and without the DSN have different URLs. |
| `Connections.VerifyDatabase` | database_connections.py:220-259 | The result is `Created` exactly when creation was asked and the database was absent or dropped. Dropping alone removes it. Other databases are untouched. |
| `Connections.CreateSchema` | database_connections.py:284-299 | The result is true exactly when the schema was missing. Afterwards it exists. |
| `MigrationStatus.ValidateConnections` | filemaker_extract_refactored.py:198-213 | Validation fails exactly when a required side was tested and failed. |
| `MigrationStatus.ValidateTested` | filemaker_extract_refactored.py:198-213 | With both sides tested, a run passes exactly when every side it requires is up. |
| `MigrationStatus.TestResults` | filemaker_extract_refactored.py:95-196 | Both sides are recorded, each with its own outcome. |
| `MigrationStatus.ValidateMonotone` | filemaker_extract_refactored.py:198-213 | Requiring fewer sides never turns a pass into a failure. |
| `MigrationStatus.KeptStripped` | filemaker_extract_refactored.py:231-233 | The kept names are stripped and non-empty, and free of separators when the pieces are. |
| `MigrationStatus.Kept` | filemaker_extract_refactored.py:233 | No more names are kept than there were pieces. |
| `MigrationStatus.KeptFrom` | filemaker_extract_refactored.py:231-233 | A kept name is the stripped form of one of the pieces. |
| `MigrationStatus.KeptClean` | filemaker_extract_refactored.py:231-233 | Names without whitespace or separators are all kept, unchanged and in order. |
| `MigrationStatus.Requested` | filemaker_extract_refactored.py:231-233 | A requested name is stripped, non-empty, and free of separators. |
| `MigrationStatus.TableListSafe` | filemaker_extract_refactored.py:215-247 | A failure yields the empty list. A disconnected run uses the fallback list. A connected run accepts names only when all are available. |
| `MigrationStatus.ListedAreAvailable` | filemaker_extract_refactored.py:236-241 | Every name a connected run accepts is a source table. |
| `MigrationStatus.RequestedJoined` | filemaker_extract_refactored.py:231-233 | A comma-joined list of clean names requests exactly those names. |
| `MigrationStatus.AgreesWithExportList` | filemaker_extract_refactored.py:226-241 | On a clean list, the refactored selection and the older `get_table_export_list` accept the same names. |
| `MigrationStatus.Classify` | filemaker_extract_refactored.py:484-503 | Each status holds under exactly its condition on the two counts. The manager's classification has no `both_error`. |
| `MigrationStatus.ErrorIffFailedCount` | filemaker_extract_refactored.py:489-494 | A status is an error exactly when a count failed. |
| `MigrationStatus.ClassifiersAgree` | database_connections.py:439-455 | The two classifications differ only where the manager folds `both_error` into `source_error`. |
| `MigrationStatus.MigratedHasRows` | filemaker_extract_refactored.py:495-503 | A migrated table has target rows. A fully migrated one has as many as the source. |
| `MigrationStatus.NameSaysError` | filemaker_extract_refactored.py:505-506 | `'error' in table_status` holds exactly for the error statuses. |
| `MigrationStatus.BucketsPartition` | filemaker_extract_refactored.py:484-506 | The migrated, empty and error counters add up to the number of tables. |
| `MigrationStatus.AllErrorsWhenSideFailed` | filemaker_extract_refactored.py:451-462 | When one side failed, every table is an error. |
| `MigrationStatus.Summarise` | filemaker_extract_refactored.py:464-513 | The report has one entry per table, and the counters are those of `SummaryOf`. |
| `MigrationStatus.Tally` | filemaker_extract_refactored.py:495-506 | One table raises exactly the counters of its buckets: empty for `not_migrated`, migrated for a migrated status, and errors when the status string contains `error`. |
| `MigrationStatus.StatusTables` | filemaker_extract_refactored.py:436-440 | The tables of a status run are never empty. |
| `MigrationStatus.RunMigrationStatus` | filemaker_extract_refactored.py:412-513 | There is no report exactly when both sides are down. An unavailable or raising side counts `-1` for every table. |
| `MigrationStatus.SummariesAgree` | database_connections.py:411-464 | The manager's `get_migration_status` reaches the same counters as the script. |
| `MigrationStatus.SignsPartition` | filemaker_extract_refactored.py:370-377 | The positive, zero and negative counters cover every table once. |
| `MigrationStatus.CountSummaryOf` | filemaker_extract_refactored.py:370-377 | The three counters add up to the number of tables. |
| `MigrationStatus.FailedCountSummary` | filemaker_extract_refactored.py:354-377 | A failed side counts no rows and reports every table as an error. |
| `MigrationStatus.CountRunTables` | filemaker_extract_refactored.py:276-279 | The source count gives up when the list cannot be made. The target count falls back to the fixed list. |
| `MigrationStatus.ExpectedChunksCeil` | filemaker_extract_refactored.py:775-776 | The expected chunk count is the ceiling of rows over chunk size. |
| `MigrationStatus.ExpectedChunks` | filemaker_extract_refactored.py:776 | A row total never needs a negative number of chunks, and a total of up to one chunk needs exactly one. |
| `MigrationStatus.Chunked` | filemaker_extract_refactored.py:781-811 | Every chunk is non-empty and at most the chunk size. |
| `MigrationStatus.ChunkedCovers` | filemaker_extract_refactored.py:775-811 | The reader yields every row in exactly the expected number of chunks. |
| `MigrationStatus.ChunkRoles` | filemaker_extract_refactored.py:781-811 | Only the first chunk is the header. A chunk is a footer once the count reaches the expected number. |
| `MigrationStatus.FooterIsLast` | filemaker_extract_refactored.py:781-811 | Over a full read, the only footer is the last chunk. |
| `MigrationStatus.DataPlan` | filemaker_extract_refactored.py:768-776 | The total is capped at `int(max_rows)` unless that is `all`, and fails where `int` raises. |
| `MigrationStatus.PlanOfLimit` | filemaker_extract_refactored.py:768-776 | A limit of `n` plans `min(count, n)` rows, and the limited read yields as many chunks as planned. |
| `MigrationStatus.DefaultModes` | filemaker_extract_refactored.py:933-937 | With no destination flag, the run exports to the database. Given flags are kept. |
| `MigrationStatus.DefaultSteps` | filemaker_extract_refactored.py:938-942 | Exporting with neither `--ddl` nor `--dml` does both. Given steps are kept. |
| `MigrationStatus.DefaultsIdempotent` | filemaker_extract_refactored.py:933-942 | Filling in the defaults twice changes nothing more. |
| `MigrationStatus.ApplyDefaults` | filemaker_extract_refactored.py:933-942 | After the defaults a destination is named and an export includes a step. Nothing but the destinations and steps changes. |
| `MigrationStatus.DefaultsNameOneMode` | filemaker_extract_refactored.py:933-942 | Accepted arguments name exactly one destination once the defaults are filled in. |
| `MigrationStatus.BareCommandLine` | filemaker_extract_refactored.py:904-942 | With no option, the script migrates schema and data into the database. |
| `MigrationStatus.ExportHasAStep` | filemaker_extract_refactored.py:42-53 | Once the defaults are in, an export includes a DDL step or a data step. |
| `MigrationStatus.MigrateIffExport` | filemaker_extract_refactored.py:947-966 | An accepted command line migrates exactly when it exports and does not ask for the schema. |
| `MigrationStatus.OperationOf` | filemaker_extract_refactored.py:947-966 | Schema export is chosen exactly when it is asked for. Otherwise, with at most one destination flag, the operation is that flag's own. |
| `MigrationStatus.CountSucceededPositive` | filemaker_extract_refactored.py:675-716 | The success count is positive exactly when some table succeeded. |
| `MigrationStatus.DataTables` | filemaker_extract_refactored.py:675-703 | A table's data step runs exactly when data is included and its DDL step passed or was skipped. |
| `MigrationStatus.MigrateTables` | filemaker_extract_refactored.py:675-703 | The loop counts exactly the succeeding tables and runs exactly those data steps. |
| `MigrationStatus.RunMigration` | filemaker_extract_refactored.py:630-720 | The result is true exactly when both connections pass, the list is made, setup succeeds when needed, and some table succeeds. |
| `Text.Split` | data_exporter.py:321 | `str.split` gives at least one piece. |
| `Text.JoinSplit` | data_exporter.py:321 | Joining the pieces of a split restores the text. |
| `Text.SplitPiecesFree` | data_exporter.py:321 | No piece of a split holds the separator. |
| `Text.IntToStringRoundTrip` | data_exporter.py:104-105 | `int(str(i)) == i`. |
| `Text.StripByIdempotent` | filemaker_extract_refactored.py:232 | Stripping twice strips nothing more. |
| `GuiLogging.Tail` | gui/gui_logging.py:85-87 | The last `n` entries, or all of them when there are fewer. |
| `GuiLogging.TailSnoc` | gui/gui_logging.py:85-87 | Appending to a full buffer drops its oldest entry. |
| `GuiLogging.BufferAppend` | gui/gui_logging.py:84-87 | Appending and then dropping the oldest entry when over the limit keeps the buffer the last entries of the history. The new entry is last. |
| `GuiLogging.LogManager.constructor` | gui/gui_logging.py:35-50 | The buffer and callbacks start empty, with a limit of 1000 entries. |
| `GuiLogging.LogManager.AddCallback` | gui/gui_logging.py:69-71 | The callback is appended. The buffer is unchanged. |
| `GuiLogging.LogManager.Log` | gui/gui_logging.py:73-101 | The entry carries the level's name and the session id. The buffer keeps the last 1000 entries, newest last. Every callback is offered the entry, in order, whether or not an earlier one raised. |
| `GuiLogging.Notify` | gui/gui_logging.py:96-101 | Every callback is offered the entry once, in order, and a raising one does not stop the rest. |
| `GuiLogging.LogManager.RecentLogs` | gui/gui_logging.py:103-110 | For a positive limit, at most `limit` entries, all from the buffer. With a level filter, only that level. The view shows, in turn, the window entries at the positions `ShownAt` lists. |
| `GuiLogging.Window` | gui/gui_logging.py:105 | `logs[-limit:]`: the last `limit` entries for a positive limit, all for zero, and the prefix's complement for a negative one. |
| `GuiLogging.KeepLevelMembers` | gui/gui_logging.py:107-108 | An entry is kept exactly when it is there and matches the filter. |
| `GuiLogging.Reversed` | gui/gui_logging.py:110 | The entries in reverse order. |
| `GuiLogging.ReversedMembers` | gui/gui_logging.py:110 | Reversing keeps exactly the same entries. |
| `GuiLogging.RecentNewestFirst` | gui/gui_logging.py:103-110 | Without a filter, the view of a buffer of `n` entries holds `min(n, limit)` of them, newest first. |
| `GuiLogging.ZeroLimitKeepsAll` | gui/gui_logging.py:105 | A zero limit returns the whole buffer. |
| `GuiLogging.FilterComplete` | gui/gui_logging.py:105-110 | With a filter, an entry is in the view exactly when it is in the window and has that level. |
| `GuiLogging.KeepLevel` | gui/gui_logging.py:105-108 | The filtered list is never longer than the window. |
| `GuiLogging.KeptAtEntries` | gui/gui_logging.py:105-108 | The filtered list has one position per kept entry, and its `k`-th entry stands at the `k`-th position. |
| `GuiLogging.KeptAtIncreasing` | gui/gui_logging.py:105-108 | Filtering keeps the window's order: the positions increase, and each holds an entry of the filtered level. |
| `GuiLogging.KeptAtComplete` | gui/gui_logging.py:105-108 | Every window entry of the filtered level is kept. |
| `GuiLogging.ShownEntries` | gui/gui_logging.py:103-110 | The reversed filtered window shows, in turn, the entries at the positions `ShownAt` lists. |
| `GuiLogging.ShownDecreasing` | gui/gui_logging.py:110 | The positions shown decrease: the view runs from the newest entry to the oldest. |
| `GuiLogging.ShownPass` | gui/gui_logging.py:105-108 | Every entry shown passes the filter. |
| `GuiLogging.ShownComplete` | gui/gui_logging.py:105-108 | Every window entry that passes the filter is shown. |
| `GuiLogging.RecentLogsNewestFirst` | gui/gui_logging.py:103-110 | Filtered or not, the view lists the window's passing entries newest first, each at a later window position than every entry after it, and leaves none of them out. |
| `GuiLogging.ErrorLogs` | gui/gui_logging.py:142 | An entry is kept exactly when its level is `ERROR` or `CRITICAL`. |
| `GuiLogging.FromComponentNonEmpty` | gui/gui_logging.py:144-150 | A component has a group exactly when some error entry names it. |
| `GuiLogging.ErrorTracker.constructor` | gui/gui_logging.py:136-137 | The tracker reads the given manager. |
| `GuiLogging.ErrorTracker.GetErrorSummary` | gui/gui_logging.py:139-155 | The total is the number of error entries among the recent 1000. The component counts sum to the total, each counting exactly that component's errors. The recent errors are the first ten. |
| `GuiLogging.GroupByComponent` | gui/gui_logging.py:144-150 | Each component's group holds exactly its error entries, in order. Components are listed once, in order of first appearance. |
| `GuiLogging.CountsOfGroups` | gui/gui_logging.py:152-154 | There is a count exactly for each component with errors. Each count is that component's number of errors, and the counts add up to all errors. |
| `GuiLogging.SumCountsOfSizes` | gui/gui_logging.py:152-154 | Summing the group sizes gives the sum of the counts reported. |

## Left out

- I/O: file handles, ODBC and SQLAlchemy connections, `tqdm`, pandas `read_sql`, PIL and the
  logger are not modelled. Their outcomes are parameters. Logger output and JSON printing are
  not modelled.
- The GUI (`gui_widgets.py`, `gui_filemaker.py`, `gui_logviewer.py`, `gui_operations.py`),
  threads, and the build and deployment scripts are not part of this model.
- `SqlValues.PgUnescape` and `SqlValues.PgUndouble`: the server's `standard_conforming_strings`
  setting is not modelled, only its default. A server older than 9.1 reads `'…'` with backslash
  escapes and a newer one does not. The version is kept as `server_version_num`, where the tool
  divides it by 10000 into a float.
- Floating-point cells are not modelled: a `Cell` is null, an integer, a boolean or a string.
  `migration_percentage` is a float and is left out of the status entries.
- `ExtractText.SanitiseName` and `Text.Lower`: model ASCII lower-casing, where Python lowers all
  of Unicode. Python's `\w` likewise matches Unicode word characters, but the model's
  `IsWordChar` is ASCII only.
- `Text.ParseInt`: accepts an optional sign and ASCII digits. Python's `int()` also accepts
  underscores between digits and non-ASCII digits.
- `ExtractText.CreateTableToDict`: the regular expressions of `convert_create_table_to_dict`
  are not modelled character by character. Both parsers read the CREATE TABLE text SQLAlchemy
  renders line by line: a tab, a name, a space, a type word. Column options and constraints are
  not read. `ExtractText.CreateTableToDictAsWritten` places the start of the block that
  `\(\s*\n(.+)\n\s*\)` captures at the first tab-indented line, which is where it starts for
  that rendering.
- `ExtractText.CreateTableToDict`: the greedy `[\w\s]+` of the column pattern takes everything
  up to the last space before a word of letters. A column `a INTEGER NOT NULL` is therefore
  read by the source as the name `a INTEGER NOT` with the type `NULL`, and names holding
  spaces are read likewise. The model reads the first word as the name and the next as the
  type, which agrees with the source only for columns rendered with one type word.
- `get_date_columns` (filemaker_extract.py:283-289) always returns an empty dictionary and nothing uses it, so it is not modelled. The date columns `get_table_data` builds inline are modelled by `ExtractText.DateColumns`.
- `ExtractText.SchemaDdl`: models the schema-prefix `replace` on the CREATE TABLE header. The
  other DDL rewrites of `get_table_data` are not modelled.
- The file-writing branch (filemaker_extract.py:704-769) and the DDL-to-database branch
  (772-835) of the older `export_data` are not modelled. The DML branch is.
- `FilemakerExtract.ScriptState`: models two type settings. `db_type` (`--db-type`) drives
  `adjust_sql_syntax`, and `dbt_type` (the target's configured type) drives value formatting
  and header quoting, as in the script. `dbt_type` also picks the engine's URL scheme
  (filemaker_extract.py:213-220), so it is the server the insert loop runs on.
- `Exporter.DataExporter.constructor`: the stored `insert_header` starts as `""`. A DML chunk
  without a header that comes before any header chunk therefore executes bare tuples, as the
  code does.
- `FilemakerExtract.Resuming`: as in the script, resuming is on whenever `start_from` is given,
  including the empty string. The refactored exporter ignores an empty `start_from`.
- `Exporter.DataExporter.Valid`: states only that the file list repeats no name. Everything
  else the class keeps is stated by each method's postcondition.
- `Config.Show`: refuses arrays and tables, which Python would format with `repr`. Only
  strings and integers reach the URL.
- `Config.Toml`: booleans, floats and dates of TOML are not modelled.
- The migration schema is passed to the connection helpers as text.
- `Connections.VerifyDatabase` and `Connections.CreateSchema`: model the decisions taken
  against the server's sets of databases and schemas. A connection failure during either is
  not modelled.
- `Config.PathOf`: models `pathlib`'s collapsing of repeated slashes and `.` components. A
  leading `//` and `..` handling are not modelled. `resolve()` is a parameter.
- The per-chunk calls to the exporter inside `process_table_data` are abstract. The chunk
  loop is modelled by its roles (`ChunkRoles`) and its plan (`DataPlan`).
- Fetching the tables when `tables` is None is modelled by `TableListSafe` and
  `StatusTables`. The fetch itself is a parameter.
- `run_info_only`, `process_images` and `run_schema_export` are not modelled beyond their
  dispatch in `OperationOf`. They only print information or call the exporter operations
  modelled above.
- `DatabaseManager` builds its own `ConfigManager`, so the `--dsn` override in
  `filemaker_extract_refactored.py` does not reach it. The model passes configurations
  explicitly and does not state this.
- `run_migration`'s `get_schema` branch cannot be reached from `main`, which dispatches
  schema export itself. `OperationOf` follows `main`.
- `MigrationStatus.MigrateTables`: whether a table's DDL or data step succeeds is a parameter
  (`ddlOk`, `dmlOk`).
- `export_logs`, the file handler set-up and the `logger.error` in a callback's `except` are
  not modelled. Whether a callback raises is a parameter.
- Timestamps, session ids and listeners' behaviour are parameters.
- `GuiLogging.ErrorTracker.GetErrorSummary`: `hours_back` is not used by the source, so the
  model ignores it too.
- `GuiLogging.LogManager.RecentLogs`: states "at most `limit` entries" only for a positive
  limit. Python's `logs[-0:]` is the whole list, so a zero limit does not bound the view
  (`ZeroLimitKeepsAll`). Callers pass 100, 500 or 1000.
- `Statements.Execute`: the target is abstract (a set of primary keys and whether a key
  constraint exists). Column types, NOT NULL and other constraints are not modelled. Every
  integrity error it raises is a duplicate key. The server is PostgreSQL for `supabase` and
  MySQL for any other type, and its whole grammar comes down to one rule: MySQL rejects
  `ON CONFLICT`.
- `Statements.Execute`: a MySQL duplicate is modelled as pymysql's text for error 1062 with
  the key name `PRIMARY` (MySQL 8 writes `<table>.PRIMARY`). The refactored loop records
  that text as both message and detail (data_exporter.py:350-351). The older loop never gets
  to count it: `e.orig.diag` at filemaker_extract.py:876 raises `AttributeError` first.
  In any case the older loop always sends `ON CONFLICT`, so a MySQL target raises earlier.
- `Statements.ErrorText`: leaves out the `[SQL: …]` and background-link parts SQLAlchemy adds
  to `str(e)`. A statement whose own text holds `already exists` would make the source count
  any of its errors as a duplicate; the model does not.
- The insert loop splits a chunk's text at every `,\n` (data_exporter.py:321). A supabase
  string value holding `,\n` is written raw, so the split cuts its statement in two. The
  model performs the same split but states one piece per row only for mysql
  (`BulkInsert.MySqlOnePiecePerRow`).
- `Config.ConfigManager.UpdateDsn`: the configuration is a value held by the manager. In the
  source one `AppConfig` object is shared by the manager, the database manager and the
  exporter (filemaker_extract_refactored.py:32-36, 56), so they all see the new DSN. The
  model does not capture that sharing.

## Findings

| source | as written | input that shows it | evidently intended | confidence | as-written member | corrected member |
|---|---|---|---|---|---|---|
| data_exporter.py:108-114 | `"` is doubled before the quote style is chosen, so a single-quoted MySQL literal also carries doubled `"` | the value `"` is written `'""'`, which MySQL stores as `""` | double `"` only inside a double-quoted literal | not executed | `SqlValues.MySqlSingleQuotedDoubledQuote` | `SqlValues.MySqlLiteralRoundTrip` |
| data_exporter.py:119-122 | with the version unknown (`postgres_version` is None until the target is queried, filemaker_extract.py:1093, and after a failed version query) the plain `'…'` form with `,` written `\,` is used, which only a server older than 9.1 reads with escapes | `a,b` is written `'a\,b'`, which PostgreSQL from 9.1 on stores as `a\,b` | use the escape string `E'…'` unless the server is known to be older than 9.0 | not executed | `SqlValues.PgUnknownVersionComma` | `SqlValues.PgLiteralRoundTrip` |
| data_exporter.py:116-122 | backslashes are left unescaped inside `E'…'` (and inside literals for servers before 9.0) | the two-character value `\n` is written `E'\n'`, which PostgreSQL reads as a newline | double backslashes before writing an escape-processed literal | not executed | `SqlValues.PgBackslashRead` | `SqlValues.PgLiteralRoundTrip` |
| filemaker_extract.py:343-378 | for ratcatalogue `ORDER BY` is appended after the `FETCH FIRST n ROWS ONLY` clause | any limited ratcatalogue query, e.g. `rows = "10"` | place `ORDER BY` before the row limit | not executed | `ExtractText.DmlQueryAsWrittenOrdersAfterLimit` | `ExtractText.DmlQueryLimitLast` |
| filemaker_extract_refactored.py:761-767 | the refactored `process_table_data` likewise appends `ORDER BY image_no ASC` after `FETCH FIRST n ROWS ONLY` | `max_rows = "10"` for ratcatalogue | place `ORDER BY` before the row limit | not executed | `ExtractText.DmlQueryAsWrittenOrdersAfterLimit` | `ExtractText.DmlQueryLimitLast` |
| filemaker_extract.py:302-315 | in the block pattern `\(\s*\n(.+)\n\s*\)` the `\s*` backtracks to nothing, so the captured block starts at the first column's tab with no line break before it, and the column pattern `\n\t…` never matches the first column (data_exporter.py:160-173 is the same) | `CREATE TABLE t (\n\td DATE\n)` gives no columns, so `d` is not parsed as a date | read every column, e.g. capture the block from its opening line break | not executed | `ExtractText.LeadingDateColumnLost` | `ExtractText.CreateTableRoundTrip` |
| data_exporter.py:336-346 | `ON CONFLICT(<pk>) DO NOTHING` is appended whatever the target type, but MySQL has no such clause (filemaker_extract.py:866-869 appends it always) | any statement for a table with key columns on a MySQL target: the refactored loop counts it as an error and inserts nothing, and the older loop raises at its first statement | append the clause only for PostgreSQL, and let MySQL's key constraint refuse a duplicate | not executed | `Exporter.DmlRunRejected` | `Exporter.DmlRunAbsorbs` |
| database_connections.py:132-169 | the retry without a database path after "Unknown database" is served the cached engine, whose URL still names the database | a first `get_connection(use_dsn=True)` against a server without the database | connect to the server URL without the database path | not executed | `Connections.TargetConnection.ConnectionAsWritten` | `Connections.TargetConnection.Connection` |
