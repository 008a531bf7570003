/** The fixed-width text table of usage_reporting_bot.py, rendered the
    same way in three places (lines 386-394, 480-488 and 539-547): column
    widths from `zip(headers, *rows)`, cells left-justified to their
    column's width and joined by " | ", a separator of dash runs joined by
    "-|-", all inside a fenced code block. */
module Table {
  import Text

  function Min(a: nat, b: nat): nat { if a <= b then a else b }
  function Max(a: nat, b: nat): nat { if a >= b then a else b }

  /** The number of columns `zip(headers, *rows)` yields: the length of the
      shortest of the header and the rows. */
  function Columns(headers: seq<string>, rows: seq<seq<string>>): (n: nat)
    ensures n <= |headers|
    ensures forall i :: 0 <= i < |rows| ==> n <= |rows[i]|
    ensures n == |headers| || exists i :: 0 <= i < |rows| && n == |rows[i]|
  {
    if rows == [] then |headers|
    else
      var rest := Columns(headers, rows[1..]);
      assert forall i :: 1 <= i < |rows| ==> rows[i] == rows[1..][i - 1];
      Min(|rows[0]|, rest)
  }

  /** `max(len(str(x)) for x in col)` for column `j`: the longest of the
      header and the cells in that column. */
  function ColumnWidth(headers: seq<string>, rows: seq<seq<string>>, j: nat): (w: nat)
    requires j < |headers| && forall i :: 0 <= i < |rows| ==> j < |rows[i]|
    ensures w >= |headers[j]| && forall i :: 0 <= i < |rows| ==> w >= |rows[i][j]|
    ensures w == |headers[j]| || exists i :: 0 <= i < |rows| && w == |rows[i][j]|
  {
    if rows == [] then |headers[j]|
    else
      var rest := ColumnWidth(headers, rows[1..], j);
      assert forall i :: 1 <= i < |rows| ==> rows[i] == rows[1..][i - 1];
      Max(|rows[0][j]|, rest)
  }

  function Widths(headers: seq<string>, rows: seq<seq<string>>): (ws: seq<nat>)
    ensures |ws| == Columns(headers, rows)
    ensures forall j :: 0 <= j < |ws| ==> ws[j] == ColumnWidth(headers, rows, j)
  {
    var n := Columns(headers, rows);
    seq(n, j requires 0 <= j < n => ColumnWidth(headers, rows, j))
  }

  /** One table line: the first `|widths|` cells, each left-justified to
      its column's width, joined by " | ". */
  function Line(cells: seq<string>, widths: seq<nat>): string
    requires |cells| >= |widths|
  {
    Text.Join(Padded(cells, widths), " | ")
  }

  function Padded(cells: seq<string>, widths: seq<nat>): (ps: seq<string>)
    requires |cells| >= |widths|
    ensures |ps| == |widths| && forall j :: 0 <= j < |widths| ==> ps[j] == Text.PadRight(cells[j], widths[j])
  {
    seq(|widths|, j requires 0 <= j < |widths| => Text.PadRight(cells[j], widths[j]))
  }

  /** The line under the header: a run of dashes per column, joined by "-|-". */
  function Separator(widths: seq<nat>): string {
    Text.Join(Dashes(widths), "-|-")
  }

  function Dashes(widths: seq<nat>): (ds: seq<string>)
    ensures |ds| == |widths| && forall j :: 0 <= j < |widths| ==> ds[j] == Text.Repeat('-', widths[j])
  {
    seq(|widths|, j requires 0 <= j < |widths| => Text.Repeat('-', widths[j]))
  }

  /** The header line, the separator, and one line per row. */
  function Lines(headers: seq<string>, rows: seq<seq<string>>): (ls: seq<string>)
    ensures |ls| == |rows| + 2
  {
    var ws := Widths(headers, rows);
    [Line(headers, ws), Separator(ws)]
      + seq(|rows|, i requires 0 <= i < |rows| => Line(rows[i], ws))
  }

  const Fence: string := "```\n"

  /** Each line followed by a newline. */
  function Unlines(ls: seq<string>): string {
    if ls == [] then "" else ls[0] + "\n" + Unlines(ls[1..])
  }

  /** The table as the three renderers build it. */
  function Render(headers: seq<string>, rows: seq<seq<string>>): string {
    Fence + Unlines(Lines(headers, rows)) + Fence
  }

  // ---------------------------------------------------------------------
  // Layout

  /** Where column `j` starts in a line: the widths before it, each with
      its three-character separator. */
  function Offset(widths: seq<nat>, j: nat): nat
    requires j <= |widths|
  {
    if j == 0 then 0 else widths[0] + 3 + Offset(widths[1..], j - 1)
  }

  /** The length of every line of a table with these column widths. */
  function Span(widths: seq<nat>): nat {
    if |widths| == 0 then 0
    else if |widths| == 1 then widths[0]
    else widths[0] + 3 + Span(widths[1..])
  }

  /** `part` appears in `line` starting at offset `o`. */
  predicate PlacedAt(line: string, o: nat, part: string) {
    o + |part| <= |line| && line[o..o + |part|] == part
  }

  lemma {:induction false} JoinLength(parts: seq<string>, widths: seq<nat>, sep: string)
    requires |parts| == |widths| && |sep| == 3
    requires forall j :: 0 <= j < |parts| ==> |parts[j]| == widths[j]
    ensures |Text.Join(parts, sep)| == Span(widths)
    decreases |parts|
  {
    if |parts| >= 2 {
      JoinLength(parts[1..], widths[1..], sep);
    }
  }

  /** Part `j` of a join sits at `Offset(widths, j)`. */
  lemma {:induction false} JoinPart(parts: seq<string>, widths: seq<nat>, sep: string, j: nat)
    requires |parts| == |widths| && |sep| == 3 && j < |parts|
    requires forall k :: 0 <= k < |parts| ==> |parts[k]| == widths[k]
    ensures PlacedAt(Text.Join(parts, sep), Offset(widths, j), parts[j])
    decreases j
  {
    var line := Text.Join(parts, sep);
    if |parts| >= 2 {
      var tail := Text.Join(parts[1..], sep);
      assert line == parts[0] + sep + tail;
      if j == 0 {
        assert line[..|parts[0]|] == parts[0];
      } else {
        JoinPart(parts[1..], widths[1..], sep, j - 1);
        var o := Offset(widths[1..], j - 1);
        var d := |parts[0]| + 3;
        assert parts[j] == parts[1..][j - 1];
        assert line[d + o..d + o + |parts[j]|] == tail[o..o + |parts[j]|];
      }
    }
  }

  /** The separator sits just before part `j`, for every part but the first. */
  lemma {:induction false} JoinSeparator(parts: seq<string>, widths: seq<nat>, sep: string, j: nat)
    requires |parts| == |widths| && |sep| == 3 && 1 <= j < |parts|
    requires forall k :: 0 <= k < |parts| ==> |parts[k]| == widths[k]
    ensures Offset(widths, j) >= 3 && PlacedAt(Text.Join(parts, sep), Offset(widths, j) - 3, sep)
    decreases j
  {
    var line := Text.Join(parts, sep);
    var tail := Text.Join(parts[1..], sep);
    assert line == parts[0] + sep + tail;
    var d := |parts[0]| + 3;
    if j == 1 {
      assert line[d - 3..d] == sep;
    } else {
      JoinSeparator(parts[1..], widths[1..], sep, j - 1);
      var o := Offset(widths[1..], j - 1);
      assert line[d + o - 3..d + o] == tail[o - 3..o];
    }
  }

  /** Joining parts of the given widths with a three-character separator
      gives a string `Span(widths)` long with part `j` at
      `Offset(widths, j)` and the separator just before every part but the
      first. */
  lemma JoinLayout(parts: seq<string>, widths: seq<nat>, sep: string)
    requires |parts| == |widths| && |sep| == 3
    requires forall j :: 0 <= j < |parts| ==> |parts[j]| == widths[j]
    ensures |Text.Join(parts, sep)| == Span(widths)
    ensures forall j :: 0 <= j < |parts| ==> PlacedAt(Text.Join(parts, sep), Offset(widths, j), parts[j])
    ensures forall j :: 1 <= j < |parts| ==>
              Offset(widths, j) >= 3 && PlacedAt(Text.Join(parts, sep), Offset(widths, j) - 3, sep)
  {
    JoinLength(parts, widths, sep);
    forall j | 0 <= j < |parts|
      ensures PlacedAt(Text.Join(parts, sep), Offset(widths, j), parts[j])
    {
      JoinPart(parts, widths, sep, j);
    }
    forall j | 1 <= j < |parts|
      ensures Offset(widths, j) >= 3 && PlacedAt(Text.Join(parts, sep), Offset(widths, j) - 3, sep)
    {
      JoinSeparator(parts, widths, sep, j);
    }
  }

  /** A line of cells that fit their columns: `Span(ws)` long, cell `j`
      left-justified to width `ws[j]` at `Offset(ws, j)`, " | " between
      columns. */
  lemma LineLayout(cells: seq<string>, ws: seq<nat>)
    requires |cells| >= |ws| && forall j :: 0 <= j < |ws| ==> |cells[j]| <= ws[j]
    ensures |Line(cells, ws)| == Span(ws)
    ensures forall j :: 0 <= j < |ws| ==> PlacedAt(Line(cells, ws), Offset(ws, j), Text.PadRight(cells[j], ws[j]))
    ensures forall j :: 1 <= j < |ws| ==> Offset(ws, j) >= 3 && PlacedAt(Line(cells, ws), Offset(ws, j) - 3, " | ")
  {
    LineLength(cells, ws);
    LineCells(cells, ws);
    LineSeparators(cells, ws);
  }

  lemma LineLength(cells: seq<string>, ws: seq<nat>)
    requires |cells| >= |ws| && forall j :: 0 <= j < |ws| ==> |cells[j]| <= ws[j]
    ensures |Line(cells, ws)| == Span(ws)
  {
    PaddedWidths(cells, ws);
    JoinLength(Padded(cells, ws), ws, " | ");
  }

  lemma LineCells(cells: seq<string>, ws: seq<nat>)
    requires |cells| >= |ws| && forall j :: 0 <= j < |ws| ==> |cells[j]| <= ws[j]
    ensures forall j :: 0 <= j < |ws| ==> PlacedAt(Line(cells, ws), Offset(ws, j), Text.PadRight(cells[j], ws[j]))
  {
    var ps := Padded(cells, ws);
    PaddedWidths(cells, ws);
    forall j | 0 <= j < |ws| ensures PlacedAt(Line(cells, ws), Offset(ws, j), Text.PadRight(cells[j], ws[j])) {
      JoinPart(ps, ws, " | ", j);
    }
  }

  lemma LineSeparators(cells: seq<string>, ws: seq<nat>)
    requires |cells| >= |ws| && forall j :: 0 <= j < |ws| ==> |cells[j]| <= ws[j]
    ensures forall j :: 1 <= j < |ws| ==> Offset(ws, j) >= 3 && PlacedAt(Line(cells, ws), Offset(ws, j) - 3, " | ")
  {
    var ps := Padded(cells, ws);
    PaddedWidths(cells, ws);
    forall j | 1 <= j < |ws| ensures Offset(ws, j) >= 3 && PlacedAt(Line(cells, ws), Offset(ws, j) - 3, " | ") {
      JoinSeparator(ps, ws, " | ", j);
    }
  }

  lemma PaddedWidths(cells: seq<string>, ws: seq<nat>)
    requires |cells| >= |ws| && forall j :: 0 <= j < |ws| ==> |cells[j]| <= ws[j]
    ensures forall j :: 0 <= j < |ws| ==> |Padded(cells, ws)[j]| == ws[j]
  {
  }

  /** The separator line is `Span(ws)` long, a run of `ws[j]` dashes at
      each column's offset and "-|-" between columns. */
  lemma SeparatorShape(ws: seq<nat>)
    ensures |Separator(ws)| == Span(ws)
    ensures forall j :: 0 <= j < |ws| ==> PlacedAt(Separator(ws), Offset(ws, j), Text.Repeat('-', ws[j]))
    ensures forall j :: 1 <= j < |ws| ==> Offset(ws, j) >= 3 && PlacedAt(Separator(ws), Offset(ws, j) - 3, "-|-")
  {
    JoinLayout(Dashes(ws), ws, "-|-");
  }

  /** Every cell fits its column's width. */
  lemma CellsFit(headers: seq<string>, rows: seq<seq<string>>, cells: seq<string>)
    requires cells == headers || cells in rows
    ensures var ws := Widths(headers, rows);
            |cells| >= |ws| && forall j :: 0 <= j < |ws| ==> |cells[j]| <= ws[j]
  {
    if cells != headers {
      var i :| 0 <= i < |rows| && rows[i] == cells;
    }
  }

  /** Every line of a rendered table, header, separator and rows alike, has
      the same length, and each header and row cell sits at its column's
      offset, left-justified to the column's width. */
  lemma LinesAligned(headers: seq<string>, rows: seq<seq<string>>)
    ensures var ws := Widths(headers, rows);
            var ls := Lines(headers, rows);
            && (forall k :: 0 <= k < |ls| ==> |ls[k]| == Span(ws))
            && (forall j :: 0 <= j < |ws| ==> PlacedAt(ls[0], Offset(ws, j), Text.PadRight(headers[j], ws[j])))
            && (forall i, j :: 0 <= i < |rows| && 0 <= j < |ws| ==>
                  PlacedAt(ls[i + 2], Offset(ws, j), Text.PadRight(rows[i][j], ws[j])))
  {
    var ws := Widths(headers, rows);
    var ls := Lines(headers, rows);
    CellsFit(headers, rows, headers);
    LineLayout(headers, ws);
    SeparatorShape(ws);
    forall i | 0 <= i < |rows|
      ensures |ls[i + 2]| == Span(ws)
      ensures forall j :: 0 <= j < |ws| ==> PlacedAt(ls[i + 2], Offset(ws, j), Text.PadRight(rows[i][j], ws[j]))
    {
      assert ls[i + 2] == Line(rows[i], ws);
      CellsFit(headers, rows, rows[i]);
      LineLayout(rows[i], ws);
    }
  }

  // ---------------------------------------------------------------------
  // Reading the rendered text back

  /** No cell of the header or of any row contains a line break. */
  predicate SingleLineCells(headers: seq<string>, rows: seq<seq<string>>) {
    && (forall j :: 0 <= j < |headers| ==> '\n' !in headers[j])
    && (forall i, j :: 0 <= i < |rows| && 0 <= j < |rows[i]| ==> '\n' !in rows[i][j])
  }

  lemma {:induction false} UnlinesJoin(ls: seq<string>, tail: seq<string>)
    requires tail != []
    ensures Text.Join(ls + tail, "\n") == Unlines(ls) + Text.Join(tail, "\n")
    decreases |ls|
  {
    if ls != [] {
      assert (ls + tail)[1..] == ls[1..] + tail;
      UnlinesJoin(ls[1..], tail);
    } else {
      assert ls + tail == tail;
    }
  }

  lemma {:induction false} JoinAvoids(parts: seq<string>, sep: string, c: char)
    requires c !in sep && forall k :: 0 <= k < |parts| ==> c !in parts[k]
    ensures c !in Text.Join(parts, sep)
    decreases |parts|
  {
    if |parts| >= 2 {
      JoinAvoids(parts[1..], sep, c);
    }
  }

  lemma LineAvoids(cells: seq<string>, ws: seq<nat>, c: char)
    requires |cells| >= |ws| && c != ' ' && c != '|'
    requires forall j :: 0 <= j < |ws| ==> c !in cells[j]
    ensures c !in Line(cells, ws)
  {
    var ps := Padded(cells, ws);
    forall j | 0 <= j < |ps| ensures c !in ps[j] {
      var p := Text.PadRight(cells[j], ws[j]);
      assert ps[j] == p;
      forall k | 0 <= k < |p| ensures p[k] != c {
        if k < |cells[j]| { assert p[k] == p[..|cells[j]|][k] == cells[j][k]; }
      }
    }
    JoinAvoids(ps, " | ", c);
  }

  lemma LinesAvoidNewline(headers: seq<string>, rows: seq<seq<string>>)
    requires SingleLineCells(headers, rows)
    ensures forall k :: 0 <= k < |Lines(headers, rows)| ==> '\n' !in Lines(headers, rows)[k]
  {
    var ws := Widths(headers, rows);
    var ls := Lines(headers, rows);
    LineAvoids(headers, ws, '\n');
    JoinAvoids(Dashes(ws), "-|-", '\n');
    assert ls[0] == Line(headers, ws) && ls[1] == Separator(ws);
    forall k | 2 <= k < |ls| ensures '\n' !in ls[k] {
      var i := k - 2;
      assert ls[k] == Line(rows[i], ws);
      RowAvoidsNewline(headers, rows, i);
    }
  }

  lemma RowAvoidsNewline(headers: seq<string>, rows: seq<seq<string>>, i: nat)
    requires SingleLineCells(headers, rows) && i < |rows|
    ensures var ws := Widths(headers, rows); |rows[i]| >= |ws| && '\n' !in Line(rows[i], ws)
  {
    var ws := Widths(headers, rows);
    var cells := rows[i];
    assert |ws| <= |cells|;
    forall j | 0 <= j < |ws| ensures '\n' !in cells[j] {
      assert '\n' !in rows[i][j];
    }
    LineAvoids(cells, ws, '\n');
  }

  /** Split at its line breaks, a rendered table is the opening fence, the
      header line, the separator, one line per row, the closing fence, and
      nothing after the final break; so the lines `LinesAligned` describes
      are exactly what the text shows. */
  lemma RenderReadsBack(headers: seq<string>, rows: seq<seq<string>>)
    requires SingleLineCells(headers, rows)
    ensures Text.Split(Render(headers, rows), '\n') == ["```"] + Lines(headers, rows) + ["```", ""]
  {
    var ls := Lines(headers, rows);
    var parts := ["```"] + ls + ["```", ""];
    RenderIsJoin(ls);
    LinesAvoidNewline(headers, rows);
    forall k | 0 <= k < |parts| ensures '\n' !in parts[k] {
      if 1 <= k <= |ls| { assert parts[k] == ls[k - 1]; }
    }
    Text.SplitJoin(parts, '\n');
  }

  /** The fenced text is the fence lines and the table lines joined by
      line breaks, with an empty last line after the closing fence. */
  lemma RenderIsJoin(ls: seq<string>)
    ensures Text.Join(["```"] + ls + ["```", ""], "\n") == Fence + Unlines(ls) + Fence
  {
    var parts := ["```"] + ls + ["```", ""];
    UnlinesJoin(ls, ["```", ""]);
    assert Text.Join(["```", ""], "\n") == "```\n";
    assert parts[1..] == ls + ["```", ""];
  }
}
