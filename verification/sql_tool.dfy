/** `SQLiteTool` (`agent/Tools/sqlite_tool.py`, and the same class again in
    `agent/graph_simple.py`): identifier quoting, the schema dictionary, the
    result envelope of `run_query` and the sample query. The database itself
    is an oracle: what the catalog query returns, what `PRAGMA table_info`
    returns for each statement text, and what executing a statement
    returns. */
module SqlTool {
  import opened Results
  import opened Text

  /** A value SQLite hands back in a row. */
  datatype Value = Null | Integer(i: int) | Real(repr: string) | TextValue(s: string) | Blob(bytes: seq<int>)

  type Row = seq<Value>

  /** A fetched result: `cursor.description` names and `cursor.fetchall()`. */
  datatype Table = Table(columns: seq<string>, rows: seq<Row>)

  /** The database as the tool sees it. Every failure (connecting, a
      malformed statement, a missing table, a statement with no result
      description) is the oracle's `Failure` with the exception's text. */
  datatype Database = Database(
    catalog: Result<seq<string>>,
    columnsOf: string -> Result<seq<string>>,
    execute: string -> Result<Table>)

  // ---------------------------------------------------------------------
  // Identifier quoting

  /** `' ' in table or '-' in table` */
  predicate NeedsQuotes(t: string)
  {
    ' ' in t || '-' in t
  }

  /** A table name wrapped in double quotes when it holds a space or a hyphen. */
  function Quote(t: string): string
  {
    if NeedsQuotes(t) then "\"" + t + "\"" else t
  }

  /** A name is changed by quoting exactly when it holds a space or a hyphen. */
  lemma QuoteChangesIff(t: string)
    ensures Quote(t) != t <==> NeedsQuotes(t)
  {
    if NeedsQuotes(t) {
      assert |Quote(t)| == |t| + 2;
    }
  }

  /** Different table names are never quoted to the same text. */
  lemma QuoteInjective(a: string, b: string)
    requires Quote(a) == Quote(b)
    ensures a == b
  {
    if NeedsQuotes(a) && !NeedsQuotes(b) {
      QuotedHasMark(a);
    } else if !NeedsQuotes(a) && NeedsQuotes(b) {
      QuotedHasMark(b);
    } else if NeedsQuotes(a) && NeedsQuotes(b) {
      assert a == Quote(a)[1..|Quote(a)| - 1];
    }
  }

  /** A quoted name still holds the space or hyphen it was quoted for, so
      it needs quotes itself. */
  lemma QuotedHasMark(t: string)
    requires NeedsQuotes(t)
    ensures NeedsQuotes(Quote(t))
  {
    var q := Quote(t);
    if ' ' in t {
      var i :| 0 <= i < |t| && t[i] == ' ';
      assert q[i + 1] == ' ';
    } else {
      var i :| 0 <= i < |t| && t[i] == '-';
      assert q[i + 1] == '-';
    }
  }

  /** `f"PRAGMA table_info({table_name})"` */
  function PragmaStatement(t: string): string
  {
    "PRAGMA table_info(" + Quote(t) + ")"
  }

  /** Different tables are introspected by different statements, so the
      database answers for each table separately. */
  lemma PragmaStatementInjective(a: string, b: string)
    requires PragmaStatement(a) == PragmaStatement(b)
    ensures a == b
  {
    var p := PragmaStatement(a);
    assert Quote(a) == p[18..|p| - 1];
    assert Quote(b) == p[18..|p| - 1];
    QuoteInjective(a, b);
  }

  // ---------------------------------------------------------------------
  // get_schema

  /** The columns recorded for one table: the introspected names, or `[]`
      when introspection raised. */
  function ColumnsOrEmpty(db: Database, t: string): (r: seq<string>)
  {
    match db.columnsOf(PragmaStatement(t))
    case Success(cols) => cols
    case Failure(_) => []
  }

  /** The loop over the catalog: one entry per table, under its unquoted
      name. A failing table gets `[]` and the loop goes on. */
  function SchemaOf(db: Database, tables: seq<string>): (m: map<string, seq<string>>)
    ensures m.Keys == set t | t in tables
    ensures forall t :: t in m && db.columnsOf(PragmaStatement(t)).Success? ==>
              m[t] == db.columnsOf(PragmaStatement(t)).value
    ensures forall t :: t in m && db.columnsOf(PragmaStatement(t)).Failure? ==> m[t] == []
    decreases |tables|
  {
    if |tables| == 0 then map[]
    else
      var n := |tables| - 1;
      var m := SchemaOf(db, tables[..n]);
      assert forall t :: t in tables <==> t in tables[..n] || t == tables[n];
      m[tables[n] := ColumnsOrEmpty(db, tables[n])]
  }

  /** `get_schema`. Reading the catalog is not inside the `try`, so a
      failing catalog read raises out of the call. */
  function GetSchema(db: Database): (r: Result<map<string, seq<string>>>)
    ensures r.Failure? <==> db.catalog.Failure?
    ensures r.Failure? ==> r.error == db.catalog.error
    ensures r.Success? ==> r.value.Keys == set t | t in db.catalog.value
    ensures r.Success? ==> forall t :: t in r.value ==>
              r.value[t] == if db.columnsOf(PragmaStatement(t)).Success? then db.columnsOf(PragmaStatement(t)).value else []
  {
    match db.catalog
    case Failure(e) => Failure(e)
    case Success(tables) => Success(SchemaOf(db, tables))
  }

  /** A table whose introspection fails does not stop the others: every
      other table of the catalog still gets its columns. */
  lemma FailingTableIsolated(db: Database, bad: string, good: string)
    requires db.catalog.Success? && bad in db.catalog.value && good in db.catalog.value
    requires db.columnsOf(PragmaStatement(bad)).Failure?
    requires db.columnsOf(PragmaStatement(good)).Success?
    ensures GetSchema(db).Success?
    ensures GetSchema(db).value[bad] == []
    ensures GetSchema(db).value[good] == db.columnsOf(PragmaStatement(good)).value
  {
  }

  // ---------------------------------------------------------------------
  // run_query

  /** The dictionary `run_query` returns. */
  datatype QueryResult = QueryResult(success: bool, columns: seq<string>, rows: seq<Row>, rowCount: nat, error: Option<string>)

  /** What every envelope satisfies: the count is the number of rows, an
      error is present exactly on failure, and a failure carries no data. */
  predicate WellFormedEnvelope(r: QueryResult)
  {
    && r.rowCount == |r.rows|
    && (r.success <==> r.error.None?)
    && (!r.success ==> r.columns == [] && r.rows == [])
  }

  /** `run_query`: never raises; the envelope reports what the database did. */
  function RunQuery(db: Database, query: string): (r: QueryResult)
    ensures WellFormedEnvelope(r)
    ensures r.success <==> db.execute(query).Success?
    ensures r.success ==> Table(r.columns, r.rows) == db.execute(query).value
    ensures !r.success ==> r.error == Some(db.execute(query).error)
  {
    match db.execute(query)
    case Success(table) => QueryResult(true, table.columns, table.rows, |table.rows|, None)
    case Failure(e) => QueryResult(false, [], [], 0, Some(e))
  }

  // ---------------------------------------------------------------------
  // get_sample_data

  /** `f"SELECT * FROM {table_name} LIMIT {limit}"` with the quoted name. */
  function SampleQuery(t: string, limit: int): string
  {
    "SELECT * FROM " + Quote(t) + " LIMIT " + IntToString(limit)
  }

  /** `get_sample_data` runs the sample query through `run_query`: the
      envelope holds what executing exactly that statement gave. */
  function GetSampleData(db: Database, t: string, limit: int): (r: QueryResult)
    ensures WellFormedEnvelope(r)
    ensures r.success <==> db.execute(SampleQuery(t, limit)).Success?
    ensures r.success ==> Table(r.columns, r.rows) == db.execute(SampleQuery(t, limit)).value
    ensures !r.success ==> r.error == Some(db.execute(SampleQuery(t, limit)).error)
  {
    RunQuery(db, SampleQuery(t, limit))
  }

  /** Two texts that each end in a space and a space-free word split the
      same way. */
  lemma LastWordUnique(x: string, d: string, y: string, e: string)
    requires ' ' !in d && ' ' !in e
    requires x + " " + d == y + " " + e
    ensures x == y && d == e
  {
    var s := x + " " + d;
    LastSpaceAt(x, d);
    LastSpaceAt(y, e);
    assert |x| == |y|;
    assert x == s[..|x|] == y;
    assert d == s[|x| + 1..] == e;
  }

  /** In `x + " " + d` with `d` free of spaces, the joining space is the last. */
  lemma LastSpaceAt(x: string, d: string)
    requires ' ' !in d
    ensures var s := x + " " + d;
            s[|x|] == ' ' && forall i :: |x| < i < |s| ==> s[i] != ' '
  {
    var s := x + " " + d;
    forall i | |x| < i < |s|
      ensures s[i] != ' '
    {
      assert s[i] == d[i - |x| - 1];
    }
  }

  /** The sample query names its table and limit unambiguously: different
      (table, limit) pairs give different statements. */
  lemma SampleQueryInjective(t1: string, l1: int, t2: string, l2: int)
    requires SampleQuery(t1, l1) == SampleQuery(t2, l2)
    ensures t1 == t2 && l1 == l2
  {
    var d1 := IntToString(l1);
    var d2 := IntToString(l2);
    NoSpaceInInt(l1);
    NoSpaceInInt(l2);
    var x1 := "SELECT * FROM " + Quote(t1) + " LIMIT";
    var x2 := "SELECT * FROM " + Quote(t2) + " LIMIT";
    assert SampleQuery(t1, l1) == x1 + " " + d1;
    assert SampleQuery(t2, l2) == x2 + " " + d2;
    LastWordUnique(x1, d1, x2, d2);
    IntToStringInjective(l1, l2);
    assert Quote(t1) == x1[14..|x1| - 6] == x2[14..|x2| - 6] == Quote(t2);
    QuoteInjective(t1, t2);
  }

  lemma NoSpaceInInt(i: int)
    ensures ' ' !in IntToString(i)
  {
    var s := IntToString(i);
    if i >= 0 {
      assert forall k :: 0 <= k < |s| ==> s[k] != ' ';
    } else {
      assert forall k :: 1 <= k < |s| ==> s[1..][k - 1] == s[k];
    }
  }
}
