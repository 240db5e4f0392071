/**
 The serialiser as the program writes it: an outer loop over the rows that
 appends each formatted row, an inner loop that grows the row's line one cell
 at a time, and a second inner loop that builds the separator when the row
 index is 0. Proved to produce exactly the lines of `Markdown.Convert`.
 */
module MarkdownLoop {
  import opened Markdown

  /** Builds the line of one row by appending `cell + " | "` per cell. */
  method FormatRowLoop(row: Row) returns (line: string)
    ensures line == FormatRow(row)
  {
    line := LineStart;
    for j := 0 to |row|
      invariant line == LineStart + Cells(row[..j])
    {
      CellsSnoc(row[..j], row[j]);
      assert row[..j + 1] == row[..j] + [row[j]];
      line := line + row[j] + CellEnd;
    }
    assert row[..|row|] == row;
  }

  /** Builds the separator by appending `"--- | "` once per cell of `row`. */
  method SeparatorLoop(row: Row) returns (line: string)
    ensures line == Separator(|row|)
  {
    line := LineStart;
    for j := 0 to |row|
      invariant line == LineStart + Dashes(j)
    {
      DashesSnoc(j);
      line := line + DashCell;
    }
  }

  /** The whole conversion, row by row; the separator goes in only after
      the row whose index is 0. */
  method ConvertLoop(records: Table) returns (result: seq<string>)
    ensures result == Convert(records)
    ensures |records| > 0 ==> |result| == |records| + 1
  {
    result := [];
    for idx := 0 to |records|
      invariant result == Lines(records, idx)
    {
      var row := records[idx];
      var line := FormatRowLoop(row);
      result := result + [line];
      if idx == 0 {
        var sep := SeparatorLoop(row);
        result := result + [sep];
      }
    }
  }
}
