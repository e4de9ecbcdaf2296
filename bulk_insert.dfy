/**
 * Turning a chunk of source rows into one multi-row INSERT (`df_to_sql_bulk_insert`):
 * extra constant columns, booleans as 1/0, the ratcatalogue picture rule, one tuple per
 * row and the column header in the dialect's identifier quotes.
 */
module BulkInsert {
  import opened Wrappers
  import opened Text
  import opened SqlValues

  /** A chunk of rows as pandas holds it: named columns, each row one cell per column. */
  datatype Frame = Frame(columns: seq<string>, rows: seq<seq<Cell>>)

  /** Every row has one cell per column, and column names are distinct. */
  predicate WellFormed(f: Frame) {
    (forall i :: 0 <= i < |f.rows| ==> |f.rows[i]| == |f.columns|)
    && (forall a, b :: 0 <= a < b < |f.columns| ==> f.columns[a] != f.columns[b])
  }

  /** The position of a column. */
  function ColumnIndex(cols: seq<string>, name: string): (r: Option<nat>)
    ensures r.Some? ==> r.value < |cols| && cols[r.value] == name
    ensures r.None? <==> name !in cols
  {
    if cols == [] then None
    else if cols[0] == name then Some(0)
    else match ColumnIndex(cols[1..], name)
      case None => None
      case Some(k) => Some(k + 1)
  }

  lemma ColumnIndexUnique(cols: seq<string>, k: nat)
    requires k < |cols|
    requires forall a, b :: 0 <= a < b < |cols| ==> cols[a] != cols[b]
    ensures ColumnIndex(cols, cols[k]) == Some(k)
  {
    var r := ColumnIndex(cols, cols[k]).value;
    assert cols[r] == cols[k];
  }

  /** The cell of row `i` in column `name`, if both exist. */
  function Get(f: Frame, i: nat, name: string): Option<Cell> {
    match ColumnIndex(f.columns, name)
    case None => None
    case Some(k) => if i < |f.rows| && k < |f.rows[i]| then Some(f.rows[i][k]) else None
  }

  // ------------------------------------------------------ assign(**kwargs)

  function SetColumn(rows: seq<seq<Cell>>, k: nat, v: Cell): (out: seq<seq<Cell>>)
    requires forall i :: 0 <= i < |rows| ==> k < |rows[i]|
    ensures |out| == |rows| && forall i :: 0 <= i < |rows| ==> out[i] == rows[i][k := v]
  {
    seq(|rows|, i requires 0 <= i < |rows| => rows[i][k := v])
  }

  function AppendColumn(rows: seq<seq<Cell>>, v: Cell): (out: seq<seq<Cell>>)
    ensures |out| == |rows| && forall i :: 0 <= i < |rows| ==> out[i] == rows[i] + [v]
  {
    seq(|rows|, i requires 0 <= i < |rows| => rows[i] + [v])
  }

  /** One keyword of `df.assign`: an existing column is overwritten in every row, a new one is appended. */
  function AssignOne(f: Frame, name: string, v: Cell): (g: Frame)
    requires WellFormed(f)
    ensures WellFormed(g) && |g.rows| == |f.rows|
    ensures name in g.columns
    ensures |f.columns| <= |g.columns| && g.columns[..|f.columns|] == f.columns
  {
    match ColumnIndex(f.columns, name)
    case Some(k) => Frame(f.columns, SetColumn(f.rows, k, v))
    case None =>
      var g := Frame(f.columns + [name], AppendColumn(f.rows, v));
      assert g.columns[|f.columns|] == name;
      g
  }

  /** After one keyword, every row holds the constant in that column and keeps every other column. */
  lemma AssignOneValues(f: Frame, name: string, v: Cell, i: nat, other: string)
    requires WellFormed(f) && i < |f.rows|
    ensures Get(AssignOne(f, name, v), i, name) == Some(v)
    ensures other != name ==> Get(AssignOne(f, name, v), i, other) == Get(f, i, other)
  {
    if name in f.columns {
      AssignOneExisting(f, name, v, i, other);
    } else {
      AssignOneNew(f, name, v, i, other);
    }
  }

  lemma AssignOneExisting(f: Frame, name: string, v: Cell, i: nat, other: string)
    requires WellFormed(f) && i < |f.rows| && name in f.columns
    ensures Get(AssignOne(f, name, v), i, name) == Some(v)
    ensures other != name ==> Get(AssignOne(f, name, v), i, other) == Get(f, i, other)
  {
    var k := ColumnIndex(f.columns, name).value;
    var g := AssignOne(f, name, v);
    assert g == Frame(f.columns, SetColumn(f.rows, k, v));
    assert g.rows[i] == f.rows[i][k := v];
  }

  lemma AssignOneNew(f: Frame, name: string, v: Cell, i: nat, other: string)
    requires WellFormed(f) && i < |f.rows| && name !in f.columns
    ensures Get(AssignOne(f, name, v), i, name) == Some(v)
    ensures other != name ==> Get(AssignOne(f, name, v), i, other) == Get(f, i, other)
  {
    var g := AssignOne(f, name, v);
    assert g == Frame(f.columns + [name], AppendColumn(f.rows, v));
    assert g.rows[i] == f.rows[i] + [v];
    ColumnIndexUnique(g.columns, |f.columns|);
    if other in f.columns {
      var k := ColumnIndex(f.columns, other).value;
      ColumnIndexUnique(f.columns, k);
      ColumnIndexUnique(g.columns, k);
    } else if other != name {
      assert other !in g.columns;
    }
  }

  /** `df.assign(**kwargs)`, keyword by keyword in order. */
  function Assign(f: Frame, kwargs: seq<(string, Cell)>): (g: Frame)
    requires WellFormed(f)
    ensures WellFormed(g) && |g.rows| == |f.rows|
    ensures |f.columns| <= |g.columns| && g.columns[..|f.columns|] == f.columns
    decreases |kwargs|
  {
    if kwargs == [] then f
    else
      var f1 := AssignOne(f, kwargs[0].0, kwargs[0].1);
      var g := Assign(f1, kwargs[1..]);
      assert g.columns[..|f.columns|] == f1.columns[..|f.columns|];
      g
  }

  /** Python keyword arguments have distinct names. */
  predicate DistinctNames(kwargs: seq<(string, Cell)>) {
    forall a, b :: 0 <= a < b < |kwargs| ==> kwargs[a].0 != kwargs[b].0
  }

  /**
   * Every row ends up with each keyword's constant in the keyword's column, and every
   * column not named by a keyword keeps its value.
   */
  lemma {:induction false} AssignValues(f: Frame, kwargs: seq<(string, Cell)>, i: nat)
    requires WellFormed(f) && DistinctNames(kwargs) && i < |f.rows|
    ensures forall p :: 0 <= p < |kwargs| ==> Get(Assign(f, kwargs), i, kwargs[p].0) == Some(kwargs[p].1)
    ensures forall other :: (forall p :: 0 <= p < |kwargs| ==> kwargs[p].0 != other) ==>
      Get(Assign(f, kwargs), i, other) == Get(f, i, other)
    decreases |kwargs|
  {
    if kwargs != [] {
      var f1 := AssignOne(f, kwargs[0].0, kwargs[0].1);
      var rest := kwargs[1..];
      AssignValues(f1, rest, i);
      forall other | (forall p :: 0 <= p < |kwargs| ==> kwargs[p].0 != other)
        ensures Get(Assign(f, kwargs), i, other) == Get(f, i, other)
      {
        AssignOneValues(f, kwargs[0].0, kwargs[0].1, i, other);
        assert forall p :: 0 <= p < |rest| ==> rest[p].0 == kwargs[p + 1].0;
      }
      forall p | 0 <= p < |kwargs|
        ensures Get(Assign(f, kwargs), i, kwargs[p].0) == Some(kwargs[p].1)
      {
        if p == 0 {
          AssignOneValues(f, kwargs[0].0, kwargs[0].1, i, kwargs[0].0);
          assert forall q :: 0 <= q < |rest| ==> rest[q].0 == kwargs[q + 1].0 != kwargs[0].0;
        } else {
          assert rest[p - 1] == kwargs[p];
        }
      }
    }
  }

  // ------------------------------------------------------ replace({True: 1, False: 0})

  function BoolAsInt(c: Cell): Cell {
    if c.Flag? then Num(if c.b then 1 else 0) else c
  }

  /** `.replace({True: 1, False: 0})`: every boolean cell becomes 1 or 0, nothing else changes. */
  function ReplaceBools(f: Frame): (g: Frame)
    requires WellFormed(f)
    ensures WellFormed(g) && g.columns == f.columns && |g.rows| == |f.rows|
    ensures forall i, k :: 0 <= i < |g.rows| && 0 <= k < |g.rows[i]| ==>
      !g.rows[i][k].Flag? && (f.rows[i][k].Flag? || g.rows[i][k] == f.rows[i][k])
    ensures forall i, k :: 0 <= i < |g.rows| && 0 <= k < |g.rows[i]| ==>
      (f.rows[i][k] == Flag(true) ==> g.rows[i][k] == Num(1))
      && (f.rows[i][k] == Flag(false) ==> g.rows[i][k] == Num(0))
  {
    Frame(f.columns, seq(|f.rows|, i requires 0 <= i < |f.rows| =>
      seq(|f.rows[i]|, k requires 0 <= k < |f.rows[i]| => BoolAsInt(f.rows[i][k]))))
  }

  // ------------------------------------------------------ the ratcatalogue picture rule

  /** `x['image_no'] if x['image_no'] != '' else x['picture']`. */
  function PictureCell(imageNo: Cell, picture: Cell): Cell {
    if imageNo != Str("") then imageNo else picture
  }

  function WithPicture(rows: seq<seq<Cell>>, pk: nat, ik: nat): (out: seq<seq<Cell>>)
    requires forall i :: 0 <= i < |rows| ==> pk < |rows[i]| && ik < |rows[i]|
    ensures |out| == |rows|
    ensures forall i :: 0 <= i < |rows| ==> out[i] == rows[i][pk := PictureCell(rows[i][ik], rows[i][pk])]
  {
    seq(|rows|, i requires 0 <= i < |rows| => rows[i][pk := PictureCell(rows[i][ik], rows[i][pk])])
  }

  /**
   * The exporter's picture rule: for ratcatalogue, when both columns are present, the
   * picture of each row becomes its image number unless that is the empty string.
   */
  function PictureRule(f: Frame, table: string): (g: Frame)
    requires WellFormed(f)
    ensures WellFormed(g) && g.columns == f.columns && |g.rows| == |f.rows|
  {
    if table == "ratcatalogue" && "picture" in f.columns && "image_no" in f.columns then
      var pk := ColumnIndex(f.columns, "picture").value;
      var ik := ColumnIndex(f.columns, "image_no").value;
      Frame(f.columns, WithPicture(f.rows, pk, ik))
    else f
  }

  /** The rule rewrites exactly the picture column, to the image number whenever that is not empty. */
  lemma PictureRuleValues(f: Frame, table: string, i: nat, other: string)
    requires WellFormed(f) && i < |f.rows|
    requires table == "ratcatalogue" && "picture" in f.columns && "image_no" in f.columns
    ensures var g := PictureRule(f, table);
      var im := Get(f, i, "image_no").value;
      Get(g, i, "picture") == Some(if im != Str("") then im else Get(f, i, "picture").value)
      && (other != "picture" ==> Get(g, i, other) == Get(f, i, other))
  {
  }

  /** Other tables, or a frame without both columns, are left as they are. */
  lemma PictureRuleOtherwise(f: Frame, table: string)
    requires WellFormed(f)
    requires table != "ratcatalogue" || "picture" !in f.columns || "image_no" !in f.columns
    ensures PictureRule(f, table) == f
  {
  }

  /**
   * The older script's rule, applied to ratcatalogue without checking the columns:
   * None where pandas raises `KeyError` (no `image_no` column, or no `picture` column
   * while some image number is empty); with no `picture` column and every image number
   * present, the column is created from the image numbers. Frames without rows are
   * left unchanged.
   */
  function LegacyPictureRule(f: Frame, table: string): (r: Option<Frame>)
    requires WellFormed(f)
    ensures r.Some? ==> WellFormed(r.value) && |r.value.rows| == |f.rows|
    ensures r.Some? && table == "ratcatalogue" && "picture" in f.columns ==> r.value == PictureRule(f, table)
  {
    if table != "ratcatalogue" || f.rows == [] then Some(f)
    else match ColumnIndex(f.columns, "image_no")
      case None => None
      case Some(ik) =>
        if "picture" in f.columns then Some(PictureRule(f, table))
        else if exists i :: 0 <= i < |f.rows| && f.rows[i][ik] == Str("") then None
        else
          var g := Frame(f.columns + ["picture"], seq(|f.rows|, i requires 0 <= i < |f.rows| => f.rows[i] + [f.rows[i][ik]]));
          assert g.columns[|f.columns|] == "picture";
          Some(g)
  }

  // ------------------------------------------------------ text

  /** Each value of a row formatted; None when one of them cannot be (Python's `join` then raises). */
  function FormatRow(row: seq<Cell>, dialect: Dialect, version: Option<int>, esc: Escaping): (r: Option<seq<string>>)
    ensures r.Some? ==> |r.value| == |row|
    ensures r.Some? ==> forall k :: 0 <= k < |row| ==> Format(row[k], dialect, version, esc) == Some(r.value[k])
    ensures r.None? ==> exists k :: 0 <= k < |row| && Format(row[k], dialect, version, esc).None?
  {
    if row == [] then Some([])
    else match (Format(row[0], dialect, version, esc), FormatRow(row[1..], dialect, version, esc))
      case (Some(v), Some(vs)) =>
        assert forall k :: 1 <= k < |row| ==> row[k] == row[1..][k - 1];
        Some([v] + vs)
      case (None, _) => None
      case (_, None) =>
        assert forall k :: 0 <= k < |row| - 1 ==> row[1..][k] == row[k + 1];
        None
  }

  /** `'({})'.format(', '.join(...))` for one row. */
  function RowTuple(row: seq<Cell>, dialect: Dialect, version: Option<int>, esc: Escaping): (r: Option<string>)
    ensures r.None? <==> exists k :: 0 <= k < |row| && Format(row[k], dialect, version, esc).None?
    ensures r.Some? ==> StartsWith(r.value, "(") && EndsWith(r.value, ")")
  {
    match FormatRow(row, dialect, version, esc)
    case None => None
    case Some(vs) => Some("(" + Join(", ", vs) + ")")
  }

  function Tuples(rows: seq<seq<Cell>>, dialect: Dialect, version: Option<int>, esc: Escaping): (r: Option<seq<string>>)
    ensures r.Some? ==> |r.value| == |rows|
    ensures r.Some? ==> forall i :: 0 <= i < |rows| ==> RowTuple(rows[i], dialect, version, esc) == Some(r.value[i])
  {
    if rows == [] then Some([])
    else match (RowTuple(rows[0], dialect, version, esc), Tuples(rows[1..], dialect, version, esc))
      case (Some(t), Some(ts)) =>
        assert forall i :: 1 <= i < |rows| ==> rows[i] == rows[1..][i - 1];
        Some([t] + ts)
      case _ => None
  }

  /** Rows are separated by a comma, a newline and seven spaces. */
  const RowIndent := "       "
  const RowSeparator := ",\n" + RowIndent

  /** The identifier quoting of the header: backticks for mysql, double quotes otherwise. */
  function QuoteColumn(c: string, dialect: Dialect): string {
    if dialect == MySql then "`" + c + "`" else "\"" + c + "\""
  }

  function QuotedColumns(cols: seq<string>, dialect: Dialect): (r: seq<string>)
    ensures |r| == |cols| && forall k :: 0 <= k < |cols| ==> r[k] == QuoteColumn(cols[k], dialect)
  {
    seq(|cols|, k requires 0 <= k < |cols| => QuoteColumn(cols[k], dialect))
  }

  /** `INSERT INTO <schema>.<table> (<columns>)\nVALUES`. */
  function InsertHeader(dialect: Dialect, schema: string, table: string, cols: seq<string>): (r: string)
    ensures StartsWith(r, "INSERT INTO " + schema + "." + table + " (") && EndsWith(r, ")\nVALUES")
  {
    "INSERT INTO " + schema + "." + table + " (" + Join(", ", QuotedColumns(cols, dialect)) + ")\nVALUES"
  }

  /** The frame as the text is built from it: keywords assigned, booleans as numbers, the picture rule applied. */
  function Prepared(f: Frame, table: string, kwargs: seq<(string, Cell)>): (g: Frame)
    requires WellFormed(f)
    ensures WellFormed(g) && |g.rows| == |f.rows|
  {
    PictureRule(ReplaceBools(Assign(f, kwargs)), table)
  }

  /** The VALUES list of a prepared frame: one tuple per row. */
  function ValuesText(g: Frame, dialect: Dialect, version: Option<int>, esc: Escaping): (r: Option<string>)
    ensures r.None? <==> exists i :: 0 <= i < |g.rows| && RowTuple(g.rows[i], dialect, version, esc).None?
  {
    TuplesSome(g.rows, dialect, version, esc);
    match Tuples(g.rows, dialect, version, esc)
    case None => None
    case Some(ts) => Some(Join(RowSeparator, ts))
  }

  // ------------------------------------------------------ one row per statement

  function Indented(ts: seq<string>): (r: seq<string>)
    ensures |r| == |ts| && forall i :: 0 <= i < |ts| ==> r[i] == RowIndent + ts[i]
  {
    seq(|ts|, i requires 0 <= i < |ts| => RowIndent + ts[i])
  }

  lemma {:induction false} JoinIndented(ts: seq<string>)
    requires |ts| >= 1
    ensures Join(RowSeparator, ts) == Join(",\n", [ts[0]] + Indented(ts[1..]))
    decreases |ts|
  {
    if |ts| > 1 {
      JoinIndented(ts[1..]);
      var tail := Indented(ts[1..]);
      assert Indented(ts[2..]) == tail[1..];
      var rest := Join(",\n", [ts[1]] + Indented(ts[2..]));
      assert ([ts[0]] + tail)[1..] == tail;
      assert tail == [RowIndent + ts[1]] + tail[1..];
      JoinCons(",\n", RowIndent, ts[1], Indented(ts[2..]));
      assert Join(",\n", tail) == RowIndent + rest;
    }
  }

  /** Splitting the values on `",\n"` gives back each row's tuple, the later ones indented, when no tuple holds a newline. */
  lemma SplitValues(ts: seq<string>)
    requires |ts| >= 1 && forall i :: 0 <= i < |ts| ==> '\n' !in ts[i]
    ensures Split(Join(RowSeparator, ts), ",\n") == [ts[0]] + Indented(ts[1..])
  {
    JoinIndented(ts);
    var parts := [ts[0]] + Indented(ts[1..]);
    IndentedNoNewline(ts);
    SplitJoinPair(parts, ',', '\n');
    assert [',', '\n'] == ",\n";
  }

  lemma IndentedNoNewline(ts: seq<string>)
    requires |ts| >= 1 && forall i :: 0 <= i < |ts| ==> '\n' !in ts[i]
    ensures var parts := [ts[0]] + Indented(ts[1..]); forall k :: 0 <= k < |parts| ==> '\n' !in parts[k]
  {
    var parts := [ts[0]] + Indented(ts[1..]);
    forall k | 0 <= k < |parts| ensures '\n' !in parts[k] {
      if k > 0 {
        assert parts[k] == RowIndent + ts[k];
      }
    }
  }

  lemma {:induction false} MySqlEscapeNoNewline(s: string)
    ensures '\n' !in MySqlEscape(s)
    decreases |s|
  {
    if s != [] {
      assert s == [s[0]] + s[1..];
      MySqlEscapeCons(s[0], s[1..]);
      MySqlEscapeNoNewline(s[1..]);
    }
  }

  lemma IntToStringNoNewline(n: int)
    ensures '\n' !in IntToString(n)
  {
    var m := if n < 0 then -n else n;
    NatToStringDigits(m);
    var t := NatToString(m);
    forall k | 0 <= k < |t| ensures t[k] != '\n' {
      assert IsDigit(t[k]);
    }
  }

  /** A mysql value never holds a raw newline: line breaks are written as `\n`. */
  lemma MySqlValueNoNewline(c: Cell, esc: Escaping)
    ensures Format(c, MySql, None, esc).Some? && '\n' !in Format(c, MySql, None, esc).value
  {
    match c
    case Null =>
    case Num(n) => IntToStringNoNewline(n);
    case Flag(_) =>
    case Str(s) =>
      LiteralAsWrittenNoNewline(s);
      LiteralNoNewline(s);
  }

  /** The mysql literal as written holds no raw newline. */
  lemma LiteralAsWrittenNoNewline(s: string)
    ensures '\n' !in MySqlLiteralAsWritten(s)
  {
    var e := MySqlEscape(s);
    MySqlEscapeNoNewline(s);
    ReplaceCharKeeps(e, '"', "\"\"", '\n');
    assert '\n' !in DoubleQuotes(e);
  }

  /** The corrected mysql literal holds no raw newline. */
  lemma LiteralNoNewline(s: string)
    ensures '\n' !in MySqlLiteral(s)
  {
    var e := MySqlEscape(s);
    MySqlEscapeNoNewline(s);
    ReplaceCharKeeps(e, '"', "\"\"", '\n');
    assert '\n' !in DoubleQuotes(e);
  }

  lemma MySqlTupleNoNewline(row: seq<Cell>, esc: Escaping)
    ensures RowTuple(row, MySql, None, esc).Some? && '\n' !in RowTuple(row, MySql, None, esc).value
  {
    forall k | 0 <= k < |row| ensures Format(row[k], MySql, None, esc).Some? {
      MySqlValueNoNewline(row[k], esc);
    }
    var vs := FormatRow(row, MySql, None, esc).value;
    forall k | 0 <= k < |vs| ensures '\n' !in vs[k] {
      MySqlValueNoNewline(row[k], esc);
    }
    JoinFree(", ", vs, '\n');
  }

  /**
   * For mysql, the text the loop later splits on `",\n"` yields exactly one piece per row:
   * the first row's tuple and, for every later row, its tuple behind seven spaces.
   */
  lemma MySqlOnePiecePerRow(g: Frame, esc: Escaping)
    requires |g.rows| >= 1
    ensures ValuesText(g, MySql, None, esc).Some?
    ensures var ts := Tuples(g.rows, MySql, None, esc).value;
      Split(ValuesText(g, MySql, None, esc).value, ",\n") == [ts[0]] + Indented(ts[1..])
      && |Split(ValuesText(g, MySql, None, esc).value, ",\n")| == |g.rows|
  {
    forall i | 0 <= i < |g.rows| ensures RowTuple(g.rows[i], MySql, None, esc).Some? {
      MySqlTupleNoNewline(g.rows[i], esc);
    }
    assert Tuples(g.rows, MySql, None, esc).Some? by {
      TuplesSome(g.rows, MySql, None, esc);
    }
    var ts := Tuples(g.rows, MySql, None, esc).value;
    forall i | 0 <= i < |ts| ensures '\n' !in ts[i] {
      MySqlTupleNoNewline(g.rows[i], esc);
    }
    SplitValues(ts);
  }

  lemma {:induction false} TuplesSome(rows: seq<seq<Cell>>, dialect: Dialect, version: Option<int>, esc: Escaping)
    ensures (forall i :: 0 <= i < |rows| ==> RowTuple(rows[i], dialect, version, esc).Some?) ==>
      Tuples(rows, dialect, version, esc).Some?
    decreases |rows|
  {
    if rows != [] && forall i :: 0 <= i < |rows| ==> RowTuple(rows[i], dialect, version, esc).Some? {
      assert forall i :: 0 <= i < |rows| - 1 ==> rows[1..][i] == rows[i + 1];
      TuplesSome(rows[1..], dialect, version, esc);
    }
  }
}
