/** The `/run_sql` command of usage_reporting_bot.py (`run_sql_command`,
    lines 494-561): the guard that lets only a single SELECT or
    `PRAGMA TABLE_…` statement through, and the report built from the rows
    the database returns, truncated to `MAX_SQL_ROWS`. The database itself
    is a parameter. */
module Sql {
  import opened Wrappers
  import Text
  import Table

  datatype SqlError = NotSelect | SeveralStatements

  function ErrorText(e: SqlError): string {
    match e
    case NotSelect => "Error: Query must start with SELECT or PRAGMA TABLE_LIST() or PRAGMA TABLE_INFO(table)"
    case SeveralStatements => "Error: Query must not contain multiple semicolons (;)"
  }

  /** `re.match(r'^(SELECT|PRAGMA TABLE_)', q, re.IGNORECASE)`. */
  predicate Admissible(q: string) {
    Text.StartsWithIgnoreCase(q, "SELECT") || Text.StartsWithIgnoreCase(q, "PRAGMA TABLE_")
  }

  /** No semicolon anywhere but possibly as the last character. */
  predicate SingleStatement(q: string) {
    q == [] || ';' !in q[..|q| - 1]
  }

  /** Lines 496-511: strip, require the SELECT/PRAGMA prefix, terminate
      with a semicolon, and refuse a query with more than one. */
  function Guard(query: string): (r: Result<string, SqlError>)
    ensures r == Failure(NotSelect) <==> !Admissible(Text.Strip(query))
    ensures r.Success? <==> Admissible(Text.Strip(query)) && SingleStatement(Text.Strip(query))
    ensures r.Success? ==>
      && (r.value == Text.Strip(query) || r.value == Text.Strip(query) + ";")
      && |r.value| >= 1 && r.value[|r.value| - 1] == ';' && ';' !in r.value[..|r.value| - 1]
  {
    var q := Text.Strip(query);
    if !Admissible(q) then Failure(NotSelect)
    else
      var t := if |q| >= 1 && q[|q| - 1] == ';' then q else q + ";";
      assert |t| >= 1 && t[|t| - 1] == ';';
      assert Text.Count(t, ';') > 1 <==> !SingleStatement(q) by { TerminatedCount(q, t); }
      if Text.Count(t, ';') > 1 then Failure(SeveralStatements)
      else
        assert t[..|t| - 1] == q[..|q| - 1] || t[..|t| - 1] == q;
        Success(t)
  }

  lemma TerminatedCount(q: string, t: string)
    requires t == (if |q| >= 1 && q[|q| - 1] == ';' then q else q + ";")
    ensures Text.Count(t, ';') > 1 <==> !SingleStatement(q)
  {
    var body := t[..|t| - 1];
    assert t == body + [';'];
    Text.CountAppend(body, [';'], ';');
    assert Text.Count([';'], ';') == 1;
    if |q| >= 1 && q[|q| - 1] == ';' {
      assert body == q[..|q| - 1];
    } else {
      assert body == q;
      if q != [] {
        assert q == q[..|q| - 1] + [q[|q| - 1]];
        assert ';' in q[..|q| - 1] <==> ';' in q;
      }
    }
  }

  /** An accepted query passes the guard again unchanged: the guard is
      idempotent. */
  lemma GuardIdempotent(query: string)
    requires Guard(query).Success?
    ensures Guard(Guard(query).value) == Guard(query)
  {
    var q := Text.Strip(query);
    var t := Guard(query).value;
    assert Text.Trimmed(q);
    assert |q| >= 6;
    assert Text.Trimmed(t);
    Text.StripTrimmed(t);
    assert t[..6] == q[..6];
    if Text.StartsWithIgnoreCase(q, "SELECT") {
      assert Text.StartsWithIgnoreCase(t, "SELECT");
    } else {
      assert t[..13] == q[..13];
      assert Text.StartsWithIgnoreCase(t, "PRAGMA TABLE_");
    }
    assert t[..|t| - 1] + [';'] == t;
  }

  // ---------------------------------------------------------------------
  // The report

  /** A result row: its value (already turned into text) for each column
      it has. */
  type Row = map<string, string>

  datatype QueryResult = QueryResult(headers: seq<string>, rows: seq<Row>)

  /** Python's `rows[:m]` for any integer `m`; a negative `m` drops that
      many rows from the end. */
  function Shown<T>(rows: seq<T>, m: int): (r: seq<T>)
    ensures |r| <= |rows| && r == rows[..|r|]
    ensures m >= 0 ==> |r| == if m < |rows| then m else |rows|
    ensures m < 0 ==> |r| == if |rows| + m > 0 then |rows| + m else 0
  {
    if m >= 0 then rows[..if m < |rows| then m else |rows|]
    else rows[..if |rows| + m > 0 then |rows| + m else 0]
  }

  /** Line 533: `[str(getattr(row, col, '')) for col in headers]`. */
  function Format(row: Row, headers: seq<string>): (cells: seq<string>)
    ensures |cells| == |headers|
    ensures forall j :: 0 <= j < |headers| ==>
              cells[j] == (if headers[j] in row then row[headers[j]] else "")
  {
    seq(|headers|, j requires 0 <= j < |headers| => if headers[j] in row then row[headers[j]] else "")
  }

  function FormatAll(rows: seq<Row>, headers: seq<string>): (cells: seq<seq<string>>)
    ensures |cells| == |rows|
    ensures forall i :: 0 <= i < |rows| ==> cells[i] == Format(rows[i], headers)
  {
    seq(|rows|, i requires 0 <= i < |rows| => Format(rows[i], headers))
  }

  // Written in two pieces so that its first characters can be read off.
  const NoResults: string := "Query executed" + " successfully, but returned no results."
  const ResultsHeading: string := "Query results:\n\n"

  /** Line 550. */
  function Note(shown: int, total: nat): (n: string)
    ensures |n| >= 1 && n[|n| - 1] == '*'
  {
    "\n*Note: Results truncated. Showing " + Text.IntToString(shown) + " rows out of "
      + Text.IntToString(total) + " total rows.*"
  }

  lemma HeadingIsNotNoResults(r: string)
    requires Text.StartsWith(r, ResultsHeading)
    ensures r != NoResults
  {
    assert r[6] == ResultsHeading[6] == 'r';
    assert NoResults[6] == 'e';
  }

  /** Lines 519-556 once the rows are fetched. */
  function Report(res: QueryResult, maxRows: int): (r: string)
    ensures res.rows == [] <==> r == NoResults
    ensures res.rows != [] ==> Text.StartsWith(r, ResultsHeading)
    // the note is there exactly when some row is not shown
    ensures res.rows != [] ==>
              (Text.EndsWith(r, Note(maxRows, |res.rows|)) <==> |Shown(res.rows, maxRows)| < |res.rows|)
    // between the heading and the note: the table of the shown rows
    ensures res.rows != [] ==>
              r == ResultsHeading + Table.Render(res.headers, FormatAll(Shown(res.rows, maxRows), res.headers))
                   + (if |Shown(res.rows, maxRows)| < |res.rows| then Note(maxRows, |res.rows|) else "")
  {
    if res.rows == [] then NoResults
    else
      var shown := FormatAll(Shown(res.rows, maxRows), res.headers);
      var table := Table.Render(res.headers, shown);
      var note := if |res.rows| > maxRows then Note(maxRows, |res.rows|) else "";
      var r := ResultsHeading + table + note;
      assert r[..|ResultsHeading|] == ResultsHeading;
      HeadingIsNotNoResults(r);
      assert table[|table| - 1] == '\n';
      assert note == "" ==> r[|r| - 1] == '\n';
      assert note != "" ==> r[|r| - |note|..] == note;
      r
  }

  /** What the command answers: a text, or the database's exception
      propagating out of `run_sql_command` (line 561). */
  datatype Answer = Reply(text: string) | Raised

  /** The statement sent to the database, if any, and the answer. */
  datatype Exchange = Exchange(executed: Option<string>, answer: Answer)

  /** `run_sql_command`; `database` answers a statement with its result, or
      with `None` when executing it raises. */
  function RunSql(query: string, database: string -> Option<QueryResult>, maxRows: int): (x: Exchange)
    // only a guarded, single-statement query reaches the database
    ensures x.executed.Some? <==> Guard(query).Success?
    ensures x.executed.Some? ==> Guard(query) == Success(x.executed.value)
    ensures Guard(query).Failure? ==> x.answer == Reply(ErrorText(Guard(query).error))
    ensures x.answer == Raised <==> x.executed.Some? && database(x.executed.value).None?
    ensures x.executed.Some? && database(x.executed.value).Some? ==>
              x.answer == Reply(Report(database(x.executed.value).value, maxRows))
  {
    match Guard(query)
    case Failure(e) => Exchange(None, Reply(ErrorText(e)))
    case Success(q) =>
      match database(q)
      case None => Exchange(Some(q), Raised)
      case Some(res) => Exchange(Some(q), Reply(Report(res, maxRows)))
  }

  /** `MAX_SQL_ROWS` defaults to 200 (line 46). */
  const DefaultMaxRows: int := 200

  /** With the default limit a result of more than 200 rows shows exactly
      the first 200, as a table, and says so. */
  lemma DefaultLimitTruncates(res: QueryResult)
    requires |res.rows| > DefaultMaxRows
    ensures Shown(res.rows, DefaultMaxRows) == res.rows[..200]
    ensures Report(res, DefaultMaxRows)
              == ResultsHeading + Table.Render(res.headers, FormatAll(res.rows[..200], res.headers)) + Note(200, |res.rows|)
    ensures Text.EndsWith(Report(res, DefaultMaxRows), Note(200, |res.rows|))
  {
  }

  /** No column name and no value contains a line break. */
  predicate SingleLineValues(res: QueryResult) {
    && (forall j :: 0 <= j < |res.headers| ==> '\n' !in res.headers[j])
    && (forall i, c :: 0 <= i < |res.rows| && c in res.rows[i] ==> '\n' !in res.rows[i][c])
  }

  /** The table in a report has one line per shown row after the header
      and separator lines, one column per header, and shows in row `i`,
      column `j` the value the row has under that header (empty when it has
      none), left-justified at the column's offset; read back line by line,
      the table is exactly those lines between two fences. */
  lemma ReportShowsRows(res: QueryResult, maxRows: int)
    requires res.rows != [] && SingleLineValues(res)
    ensures var shown := Shown(res.rows, maxRows);
            var cells := FormatAll(shown, res.headers);
            var ws := Table.Widths(res.headers, cells);
            var ls := Table.Lines(res.headers, cells);
            && |ls| == |shown| + 2
            && |ws| == |res.headers|
            && Text.Split(Table.Render(res.headers, cells), '\n') == ["```"] + ls + ["```", ""]
            && (forall j :: 0 <= j < |ws| ==>
                  Table.PlacedAt(ls[0], Table.Offset(ws, j), Text.PadRight(res.headers[j], ws[j])))
            && (forall i, j :: 0 <= i < |shown| && 0 <= j < |ws| ==>
                  Table.PlacedAt(ls[i + 2], Table.Offset(ws, j),
                    Text.PadRight(if res.headers[j] in shown[i] then shown[i][res.headers[j]] else "", ws[j])))
  {
    var shown := Shown(res.rows, maxRows);
    var cells := FormatAll(shown, res.headers);
    var ws := Table.Widths(res.headers, cells);
    assert |ws| == |res.headers|;
    forall i, j | 0 <= i < |cells| && 0 <= j < |cells[i]| ensures '\n' !in cells[i][j] {
      assert shown[i] == res.rows[i];
    }
    assert Table.SingleLineCells(res.headers, cells);
    Table.RenderReadsBack(res.headers, cells);
    Table.LinesAligned(res.headers, cells);
  }
}
