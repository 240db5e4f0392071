/**
 The CSV-to-Markdown serialiser of csv2md (`convert` in main.go).

 A table is a sequence of rows and a row is a sequence of string cells;
 `convert` does not check that rows have the same number of cells. Every row
 becomes one output string, and the first row is followed by a separator
 string with one `---` per cell of that first row.
 */
module Markdown {

  type Row = seq<string>
  type Table = seq<Row>

  /** Every line the serialiser produces begins with this. */
  const LineStart: string := "| "
  /** Written after each cell. */
  const CellEnd: string := " | "
  /** Written once per cell of the first row to build the separator. */
  const DashCell: string := "--- | "

  /** Total number of characters in the cells of a row. */
  function SumLengths(row: Row): nat
  {
    if |row| == 0 then 0 else |row[0]| + SumLengths(row[1..])
  }

  /** The cells of a row, each followed by `" | "`, in order. */
  function Cells(row: Row): (r: string)
    ensures |r| == 3 * |row| + SumLengths(row)
  {
    if |row| == 0 then "" else row[0] + CellEnd + Cells(row[1..])
  }

  /** One Markdown line for one row: `"| "` and then `cell + " | "` per cell.
      Cell text is copied verbatim: no padding, no escaping of `|`. */
  function FormatRow(row: Row): (r: string)
    ensures |r| == 2 + 3 * |row| + SumLengths(row)
    ensures r[..2] == LineStart
    ensures |row| > 0 ==> r[|r| - 3..] == CellEnd
    ensures |row| == 0 ==> r == LineStart
  {
    assert |row| > 0 ==> Cells(row) == Cells(row[..|row| - 1]) + row[|row| - 1] + CellEnd by {
      if |row| > 0 {
        assert row == row[..|row| - 1] + [row[|row| - 1]];
        CellsSnoc(row[..|row| - 1], row[|row| - 1]);
      }
    }
    LineStart + Cells(row)
  }

  /** `n` copies of `"--- | "`. */
  function Dashes(n: nat): (r: string)
    ensures |r| == 6 * n
  {
    if n == 0 then "" else DashCell + Dashes(n - 1)
  }

  /** The separator line written after the first row: it depends only on how
      many cells that row has. */
  function Separator(n: nat): (r: string)
    ensures |r| == 2 + 6 * n
    ensures r[..2] == LineStart
    ensures n > 0 ==> r[|r| - 3..] == CellEnd
  {
    assert n > 0 ==> Dashes(n) == Dashes(n - 1) + DashCell by {
      if n > 0 {
        DashesSnoc(n - 1);
      }
    }
    LineStart + Dashes(n)
  }

  /** The lines the loop body emits for row `idx`: the row itself and, only
      when `idx` is 0, the separator right after it. */
  function RowLines(records: Table, idx: nat): (r: seq<string>)
    requires idx < |records|
    ensures |r| == if idx == 0 then 2 else 1
    ensures r[0] == FormatRow(records[idx])
    ensures idx == 0 ==> r[1] == Separator(|records[idx]|)
  {
    [FormatRow(records[idx])] + (if idx == 0 then [Separator(|records[idx]|)] else [])
  }

  /** The lines produced after the first `n` rows have been visited. */
  function Lines(records: Table, n: nat): (r: seq<string>)
    requires n <= |records|
    ensures |r| == if n == 0 then 0 else n + 1
    ensures n > 0 ==> r[0] == FormatRow(records[0]) && r[1] == Separator(|records[0]|)
    ensures forall i :: 1 <= i < n ==> r[i + 1] == FormatRow(records[i])
  {
    if n == 0 then [] else Lines(records, n - 1) + RowLines(records, n - 1)
  }

  /** The whole serialiser. */
  function Convert(records: Table): (r: seq<string>)
    ensures |records| == 0 <==> r == []
    ensures |records| > 0 ==> |r| == |records| + 1
    ensures |records| > 0 ==> r[0] == FormatRow(records[0]) && r[1] == Separator(|records[0]|)
    ensures forall i :: 1 <= i < |records| ==> r[i + 1] == FormatRow(records[i])
  {
    Lines(records, |records|)
  }

  /** Formatting a concatenation of rows' cells is concatenating their text. */
  lemma {:induction false} CellsAppend(a: Row, b: Row)
    ensures Cells(a + b) == Cells(a) + Cells(b)
    decreases |a|
  {
    if |a| == 0 {
      assert a + b == b;
    } else {
      assert (a + b)[1..] == a[1..] + b;
      CellsAppend(a[1..], b);
    }
  }

  /** Appending one cell to a row appends `cell + " | "` to its line; this is
      the step of the inner loop that builds a row. */
  lemma CellsSnoc(row: Row, cell: string)
    ensures Cells(row + [cell]) == Cells(row) + cell + CellEnd
  {
    CellsAppend(row, [cell]);
    assert Cells([cell]) == cell + CellEnd + Cells([]);
  }

  /** One more `"--- | "` at the end; the step of the separator loop. */
  lemma {:induction false} DashesSnoc(n: nat)
    ensures Dashes(n + 1) == Dashes(n) + DashCell
  {
    if n > 0 {
      DashesSnoc(n - 1);
    }
  }

  /** The separator is exactly the formatted row of `n` cells that all read
      `---`: it has the shape of a row of the table. */
  lemma {:induction false} SeparatorIsDashRow(n: nat)
    ensures Separator(n) == FormatRow(seq(n, _ => "---"))
  {
    DashCellsAreDashes(n);
  }

  lemma {:induction false} DashCellsAreDashes(n: nat)
    ensures Cells(seq(n, _ => "---")) == Dashes(n)
  {
    if n > 0 {
      var s: Row := seq(n, _ => "---");
      assert s[0] == "---";
      assert s[1..] == seq(n - 1, _ => "---");
      DashCellsAreDashes(n - 1);
      assert "---" + CellEnd == DashCell;
    }
  }

  /** Where cell `i` starts inside the formatted row. */
  function CellOffset(row: Row, i: nat): nat
    requires i <= |row|
  {
    2 + 3 * i + SumLengths(row[..i])
  }

  /** Cell `i` appears verbatim, followed by `" | "`, at its offset in the line. */
  lemma CellAt(row: Row, i: nat)
    requires i < |row|
    ensures CellOffset(row, i) + |row[i]| + 3 <= |FormatRow(row)|
    ensures FormatRow(row)[CellOffset(row, i)..CellOffset(row, i) + |row[i]| + 3] == row[i] + CellEnd
  {
    assert row == row[..i] + row[i..];
    CellsAppend(row[..i], row[i..]);
    assert Cells(row[i..]) == row[i] + CellEnd + Cells(row[i + 1..]) by {
      assert row[i..][1..] == row[i + 1..];
    }
  }

  /** Every line of the output starts with `"| "`, and every line that comes
      from a row with at least one cell ends with `" | "`. */
  lemma LinesFramed(records: Table)
    ensures forall i :: 0 <= i < |Convert(records)| ==>
      |Convert(records)[i]| >= 2 && Convert(records)[i][..2] == LineStart
    ensures forall i :: 0 <= i < |records| && |records[i]| > 0 ==>
      var line := Convert(records)[if i == 0 then 0 else i + 1];
      line[|line| - 3..] == CellEnd
  {
    var r := Convert(records);
    forall i | 0 <= i < |r|
      ensures |r[i]| >= 2 && r[i][..2] == LineStart
    {
      if i == 1 {
        assert r[1] == Separator(|records[0]|);
      } else if i == 0 {
        assert r[0] == FormatRow(records[0]);
      } else {
        assert r[i] == FormatRow(records[i - 1]);
      }
    }
  }

  /** The rows after the first are formatted independently: equal rows give
      equal lines wherever they sit after the first row. */
  lemma RowsIndependent(records: Table, i: nat, j: nat)
    requires 1 <= i < |records| && 1 <= j < |records|
    requires records[i] == records[j]
    ensures Convert(records)[i + 1] == Convert(records)[j + 1]
  {
  }

  /** `convert` itself does not check column counts: rows of 1, 0 and 2 cells
      are each written with their own cells, and the separator follows the
      first row only. */
  lemma RaggedTable()
    ensures Convert([["a"], [], ["x", "y"]])
         == ["| a | ", "| --- | ", "| ", "| x | y | "]
  {
    ThreeRows(["a"], [], ["x", "y"]);
    RaggedHeader();
    RaggedBody();
  }

  lemma RaggedHeader()
    ensures FormatRow(["a"]) == "| a | "
    ensures Separator(1) == "| --- | "
  {
    assert Cells(["a"]) == "a" + CellEnd + Cells([]) by {
      assert ["a"][1..] == [];
    }
    assert Dashes(1) == DashCell + Dashes(0);
  }

  lemma RaggedBody()
    ensures FormatRow([]) == "| "
    ensures FormatRow(["x", "y"]) == "| x | y | "
  {
    TwoCells("x", "y", "| x | y | ");
  }

  /** The separator depends only on the number of cells in the first row:
      tables whose first rows have the same width share it. */
  lemma SeparatorOnlyCountsCells(a: Table, b: Table)
    requires |a| > 0 && |b| > 0 && |a[0]| == |b[0]|
    ensures Convert(a)[1] == Convert(b)[1]
  {
  }

  /** A three-row example: a header and two records. */
  lemma NameAgeExample()
    ensures Convert([["name", "age"], ["Alice", "30"], ["Bob", "25"]])
         == ["| name | age | ", "| --- | --- | ", "| Alice | 30 | ", "| Bob | 25 | "]
  {
    ThreeRows(["name", "age"], ["Alice", "30"], ["Bob", "25"]);
    NameAgeHeader();
    NameAgeBody();
  }

  lemma NameAgeHeader()
    ensures FormatRow(["name", "age"]) == "| name | age | "
    ensures Separator(2) == "| --- | --- | "
  {
    TwoCells("name", "age", "| name | age | ");
    assert Dashes(1) == "--- | ";
  }

  lemma NameAgeBody()
    ensures FormatRow(["Alice", "30"]) == "| Alice | 30 | "
    ensures FormatRow(["Bob", "25"]) == "| Bob | 25 | "
  {
    TwoCells("Alice", "30", "| Alice | 30 | ");
    TwoCells("Bob", "25", "| Bob | 25 | ");
  }

  lemma ThreeRows(a: Row, b: Row, c: Row)
    ensures Convert([a, b, c]) == [FormatRow(a), Separator(|a|), FormatRow(b), FormatRow(c)]
  {
    var t: Table := [a, b, c];
    var r := Convert(t);
    assert |r| == 4;
    assert r[0] == FormatRow(a) && r[1] == Separator(|a|);
    assert r[2] == FormatRow(t[1]) && t[1] == b;
    assert r[3] == FormatRow(t[2]) && t[2] == c;
  }

  lemma TwoCells(a: string, b: string, line: string)
    requires line == LineStart + a + CellEnd + b + CellEnd
    ensures FormatRow([a, b]) == line
  {
    TwoCellsText(a, b);
  }

  lemma TwoCellsText(a: string, b: string)
    ensures Cells([a, b]) == a + CellEnd + (b + CellEnd)
  {
    assert [a, b][1..] == [b];
    assert [b][1..] == [];
  }
}
