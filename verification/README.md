# csv2md: the Markdown serialiser, in Dafny

csv2md reads comma-separated values and prints them as a Markdown table. Its
only logic of its own is `convert` in `main.go`. It takes the parsed table, a
sequence of rows of string cells, and returns the Markdown lines:

- each row becomes `"| "` followed by `cell + " | "` for every cell;
- the first row, and only the first row, is followed by a separator line:
  `"| "` followed by `"--- | "` once per cell of that row;
- an empty table gives no lines.

This project models that function and proves what its output looks like.

- `markdown.dfy` (module `Markdown`) defines `FormatRow`, `Separator` and
  `Convert` as pure functions. `Convert` has the same shape as the source:
  it visits the rows in order and adds the separator only when the row index
  is 0. Lemmas then state the output exactly.
- `markdown_loop.dfy` (module `MarkdownLoop`) is the source's double loop
  written as methods with loop invariants. It is proved to return exactly
  `Convert`.
- `markdown_read.dfy` (module `MarkdownRead`) is a reader for the lines the
  serialiser writes. It is a left inverse of `Convert` on tables with no `|`
  in their cells: reading the output back recovers the table. A cell holding
  `" | "` can make two different tables give the same lines;
  `ConvertNotInjectiveWithPipes` shows such a pair, with the cell in a row
  after the first.

`main.go` has no tab delimiter, heading line, column alignment or minimum
dash width. Its only options are `-h`, `-help`, `--help` and `help`.

## Model

| member | source | states |
|---|---|---|
| Markdown.Cells | main.go:111-113 | the cells' text has length 3 per cell plus the sum of the cell lengths |
| Markdown.FormatRow | main.go:110-113 | a row's line starts with `"\| "`; for k cells c1..ck its length is 2 + Σ(\|ci\| + 3); it ends with `" \| "` when the row has a cell; a row with no cells gives exactly `"\| "` |
| Markdown.Separator | main.go:116-119 | the separator starts with `"\| "`, has length 2 + 6n for a first row of n cells, and ends with `" \| "` when n > 0 |
| Markdown.Dashes | main.go:117-118 | the dash run for n cells has length 6n; with `DashesSnoc` it is n copies of `"--- \| "` |
| Markdown.RowLines | main.go:110-121 | one visit of the loop body emits the row's line, followed by the separator only when idx == 0: two lines for row 0, one line for every other row |
| Markdown.Lines | main.go:109-122 | after visiting n ≥ 1 rows there are n + 1 lines: row 0, then the separator, then row i at position i + 1 |
| Markdown.Convert | main.go:107-124 | the output is empty exactly when the table is empty; otherwise it has N + 1 lines; line 0 is the first row, line 1 the separator for its cell count, and line i + 1 is row i for every later row, with no further separator |
| Markdown.CellsAppend | main.go:111-113 | the text for a row split into two parts is the concatenation of the two parts' texts |
| Markdown.CellsSnoc | main.go:112 | one more cell appends exactly `cell + " \| "` to the line, which is one step of the inner loop |
| Markdown.DashesSnoc | main.go:118 | one more cell in the first row appends exactly `"--- \| "` to the separator |
| Markdown.SeparatorIsDashRow | main.go:116-119 | the separator equals the formatted row of n cells that all read `---`, so it depends only on the cell count and not on the cells' contents or widths |
| Markdown.CellAt | main.go:110-113 | cell i appears verbatim, followed by `" \| "`, at offset 2 + 3i + (length of the cells before it), with no padding or escaping |
| Markdown.LinesFramed | main.go:109-121 | every output line starts with `"\| "`; every line for a row with at least one cell ends with `" \| "` |
| Markdown.RowsIndependent | main.go:109-114 | equal rows after the first give equal lines wherever they sit, since each row's line is built afresh |
| Markdown.RaggedTable | main.go:109-114 | `convert` itself does not check column counts: in a table whose rows have 1, 0 and 2 cells, the separator has one `---`, the empty row gives exactly `"\| "`, and the two-cell row gives its own two cells |
| Markdown.SeparatorOnlyCountsCells | main.go:115-119 | two tables whose first rows have the same number of cells get the same separator |
| Markdown.NameAgeExample | main.go:107-124 | the table name/age, Alice/30, Bob/25 becomes `\| name \| age \| `, `\| --- \| --- \| `, `\| Alice \| 30 \| `, `\| Bob \| 25 \| ` |
| MarkdownLoop.FormatRowLoop | main.go:110-113 | the inner loop that appends `col + " \| "` per cell builds exactly `FormatRow` |
| MarkdownLoop.SeparatorLoop | main.go:116-119 | the loop that appends `"--- \| "` per cell of the row builds exactly the separator |
| MarkdownLoop.ConvertLoop | main.go:107-124 | the outer loop, with the separator appended only when idx == 0, returns exactly `Convert`; a table of N ≥ 1 rows gives N + 1 lines |
| MarkdownRead.RowRoundTrip | main.go:110-113 | a formatted row whose cells contain no `\|` reads back as the same row, so the cells are written in order and unchanged |
| MarkdownRead.SeparatorReadsAsDashes | main.go:116-119 | the separator reads back as a row of n cells `---` |
| MarkdownRead.TableRoundTrip | main.go:107-124 | reading back the output of a table with no `\|` in its cells recovers the table: first row, a line that reads as one `---` cell per cell of that row, then the remaining rows in order |
| MarkdownRead.PipeSplitsCell | main.go:112 | `\|` is not escaped: a cell `a + " \| " + b` is written exactly like the two cells `a`, `b` |
| MarkdownRead.ConvertNotInjectiveWithPipes | main.go:109-114 | for every header row, a and b, the tables `[header, [a + " \| " + b]]` and `[header, [a, b]]` differ yet give identical Markdown, so `convert` is not injective on tables whose cells may contain `" \| "` |

## Left out

- CSV reading (`readCsvFile`, `readRawCsv`, main.go:80-104): the quoting rules belong to Go's `encoding/csv` package, which is not part of this model. The model's input is the parsed table.
- Uneven rows: with the reader's default settings (`FieldsPerRecord` left at 0), Go's `encoding/csv` rejects any record whose field count differs from the first record's, and never returns a record with no fields; the error is fatal (main.go:89-91, 100-102, 21-23, 46-48). So uneven rows and rows with no cells never reach `convert` in the command. `RaggedTable` and the empty-row clause of `FormatRow` describe `convert` itself on such inputs.
- `ExpandPath` (main.go:70-77): home-directory lookup and absolute-path resolution are operating-system calls.
- `main`'s argument dispatch and help flags (main.go:16-56), `print` (main.go:59-67), which writes the lines to standard output and the usage text to standard error for an empty table, and `usage` (main.go:127-148): command-line and I/O plumbing. `print` writes each string with `fmt.Println`; a cell holding a line break is copied verbatim, so its printed row spans several lines. `LinesFramed`, the N + 1 count and `TableRoundTrip` are about `convert`'s strings, not printed lines.
- String lengths: Go strings are byte strings and `len` counts bytes. The model's `string` is `seq<char>`, so the length clauses (2 + Σ(\|ci\| + 3) for a row, 2 + 6n for the separator) count one `char` per Go byte. Read that way the results agree; they are not counts of Unicode characters.
- Go distinguishes a nil slice from an empty one; the model has only the empty sequence, and the empty table's result is `[]`.
- `MarkdownRead` is not code from the repository. It is a reference reader used to state that the output keeps the cells in order and unchanged.
