/**
 A reader for the Markdown lines the serialiser writes: a left inverse of
 `Markdown.Convert` on tables with no `|` in their cells. `|` is written
 unescaped, so a cell holding `" | "` can make two different tables give the
 same lines; `ConvertNotInjectiveWithPipes` shows such a pair, with the cell in
 a row after the first.
 */
module MarkdownRead {
  import opened Markdown

  datatype Option<T> = None | Some(value: T)

  /** Position of the first `|` in `s`, if there is one. */
  function FirstBar(s: string): (k: Option<nat>)
    ensures k.None? <==> '|' !in s
    ensures k.Some? ==> k.value < |s| && s[k.value] == '|' && '|' !in s[..k.value]
  {
    if |s| == 0 then None
    else if s[0] == '|' then Some(0)
    else
      match FirstBar(s[1..])
      case None => None
      case Some(j) =>
        assert s[..j + 1] == [s[0]] + s[1..][..j];
        Some(j + 1)
  }

  /** Reads `cell + " | "` repeatedly: each cell runs up to the first `|`,
      which must have a space on both sides. */
  function ParseCells(s: string): Option<Row>
    decreases |s|
  {
    if |s| == 0 then Some([])
    else
      match FirstBar(s)
      case None => None
      case Some(k) =>
        if k == 0 || s[k - 1] != ' ' || k + 1 >= |s| || s[k + 1] != ' ' then None
        else
          match ParseCells(s[k + 2..])
          case None => None
          case Some(rest) => Some([s[..k - 1]] + rest)
  }

  /** Reads one line: `"| "` followed by the cells. */
  function ParseRow(line: string): Option<Row>
  {
    if |line| >= 2 && line[..2] == LineStart then ParseCells(line[2..]) else None
  }

  /** Reads every line as a row. */
  function ParseRows(lines: seq<string>): Option<Table>
  {
    if |lines| == 0 then Some([])
    else
      match ParseRow(lines[0])
      case None => None
      case Some(row) =>
        match ParseRows(lines[1..])
        case None => None
        case Some(rest) => Some([row] + rest)
  }

  /** Reads a whole table: a first row, a line that reads as one `---` cell per
      cell of the first row, then the remaining rows. No lines at all is the
      empty table. */
  function ParseTable(lines: seq<string>): Option<Table>
  {
    if |lines| == 0 then Some([])
    else if |lines| == 1 then None
    else
      match ParseRow(lines[0])
      case None => None
      case Some(first) =>
        match ParseRow(lines[1])
        case None => None
        case Some(dashes) =>
          if !DashRow(dashes, |first|) then None
          else
            match ParseRows(lines[2..])
            case None => None
            case Some(rest) => Some([first] + rest)
  }

  /** A row of exactly `n` cells, each reading `---`. */
  predicate DashRow(cells: Row, n: nat)
  {
    |cells| == n && forall i :: 0 <= i < |cells| ==> cells[i] == "---"
  }

  /** No cell of the row contains `|`. */
  predicate BarFree(row: Row)
  {
    forall i :: 0 <= i < |row| ==> '|' !in row[i]
  }

  /** No cell of the table contains `|`. */
  predicate TableBarFree(t: Table)
  {
    forall i :: 0 <= i < |t| ==> BarFree(t[i])
  }

  lemma {:induction false} FirstBarAfter(c: string, t: string)
    requires '|' !in c
    ensures FirstBar(c + "|" + t) == Some(|c|)
    decreases |c|
  {
    var s := c + "|" + t;
    if |c| > 0 {
      assert s[1..] == c[1..] + "|" + t;
      FirstBarAfter(c[1..], t);
    }
  }

  /** One step of the reader: a bar-free cell followed by `" | "`. */
  lemma CellStep(c: string, tail: string, rest: Row)
    requires '|' !in c
    requires ParseCells(tail) == Some(rest)
    ensures ParseCells(c + CellEnd + tail) == Some([c] + rest)
  {
    var s := c + CellEnd + tail;
    assert s == (c + " ") + "|" + (" " + tail);
    assert '|' !in c + " ";
    FirstBarAfter(c + " ", " " + tail);
    var k := |c| + 1;
    assert s[k - 1] == ' ' && s[k + 1] == ' ';
    assert s[..k - 1] == c;
    assert s[k + 2..] == tail;
  }

  /** The cells of a bar-free row read back as that row. */
  lemma {:induction false} CellsRoundTrip(row: Row)
    requires BarFree(row)
    ensures ParseCells(Cells(row)) == Some(row)
    decreases |row|
  {
    if |row| > 0 {
      var tail := row[1..];
      forall i | 0 <= i < |tail|
        ensures '|' !in tail[i]
      {
        assert tail[i] == row[i + 1];
      }
      CellsRoundTrip(tail);
      assert '|' !in row[0];
      assert Cells(row) == row[0] + CellEnd + Cells(tail);
      CellStep(row[0], Cells(tail), tail);
      assert [row[0]] + tail == row;
    }
  }

  /** A formatted bar-free row reads back as that row. */
  lemma RowRoundTrip(row: Row)
    requires BarFree(row)
    ensures ParseRow(FormatRow(row)) == Some(row)
  {
    var line := FormatRow(row);
    assert line[2..] == Cells(row);
    CellsRoundTrip(row);
  }

  /** The separator reads as a row of `n` cells that all say `---`. */
  lemma SeparatorReadsAsDashes(n: nat)
    ensures ParseRow(Separator(n)) == Some(seq(n, _ => "---"))
  {
    SeparatorIsDashRow(n);
    RowRoundTrip(seq(n, _ => "---"));
  }

  /** How the row reader accepts one more line. */
  lemma RowsStep(lines: seq<string>, row: Row, rest: Table)
    requires |lines| > 0
    requires ParseRow(lines[0]) == Some(row)
    requires ParseRows(lines[1..]) == Some(rest)
    ensures ParseRows(lines) == Some([row] + rest)
  {
  }

  lemma {:induction false} RowsRoundTrip(lines: seq<string>, rows: Table)
    requires |lines| == |rows| && TableBarFree(rows)
    requires forall i :: 0 <= i < |rows| ==> lines[i] == FormatRow(rows[i])
    ensures ParseRows(lines) == Some(rows)
    decreases |rows|
  {
    if |rows| > 0 {
      RowRoundTrip(rows[0]);
      var tail := rows[1..];
      forall i | 0 <= i < |tail|
        ensures lines[1..][i] == FormatRow(tail[i])
      {
        assert lines[1..][i] == lines[i + 1] && tail[i] == rows[i + 1];
      }
      assert TableBarFree(tail);
      RowsRoundTrip(lines[1..], tail);
      RowsStep(lines, rows[0], tail);
      assert [rows[0]] + tail == rows;
    }
  }

  /** How the table reader accepts a header, a dash line and the other rows. */
  lemma TableStep(lines: seq<string>, first: Row, rest: Table)
    requires |lines| >= 2
    requires ParseRow(lines[0]) == Some(first)
    requires ParseRow(lines[1]).Some? && DashRow(ParseRow(lines[1]).value, |first|)
    requires ParseRows(lines[2..]) == Some(rest)
    ensures ParseTable(lines) == Some([first] + rest)
  {
  }

  /** Reading back the serialiser's output recovers the table, provided no
      cell contains `|`. */
  lemma TableRoundTrip(t: Table)
    requires TableBarFree(t)
    ensures ParseTable(Convert(t)) == Some(t)
  {
    var lines := Convert(t);
    if |t| > 0 {
      RowRoundTrip(t[0]);
      SeparatorReadsAsDashes(|t[0]|);
      var body := lines[2..];
      var rows := t[1..];
      forall i | 0 <= i < |rows|
        ensures body[i] == FormatRow(rows[i])
      {
        assert body[i] == lines[i + 2];
      }
      assert TableBarFree(rows);
      RowsRoundTrip(body, rows);
      TableStep(lines, t[0], rows);
      assert [t[0]] + rows == t;
    }
  }

  /** A cell holding `" | "` is written exactly like two cells. */
  lemma PipeSplitsCell(a: string, b: string)
    ensures FormatRow([a + CellEnd + b]) == FormatRow([a, b])
  {
    TwoCellsText(a, b);
    assert Cells([a + CellEnd + b]) == a + CellEnd + b + CellEnd + Cells([]) by {
      assert [a + CellEnd + b][1..] == [];
    }
  }

  /** Hence the serialiser is not injective on tables whose cells may contain
      `" | "`: with the cell in a row after the first, two different tables
      give the same lines, and no reader can tell them apart. */
  lemma ConvertNotInjectiveWithPipes(header: Row, a: string, b: string)
    ensures [header, [a + CellEnd + b]] != [header, [a, b]]
    ensures Convert([header, [a + CellEnd + b]]) == Convert([header, [a, b]])
  {
    var t: Table := [header, [a + CellEnd + b]];
    var u: Table := [header, [a, b]];
    assert t[1] != u[1];
    PipeSplitsCell(a, b);
    var r := Convert(t);
    var q := Convert(u);
    assert |r| == 3 == |q|;
    assert r[2] == FormatRow(t[1]) == FormatRow(u[1]) == q[2];
  }
}
