# benchstat report assembly, in Dafny

This project models the part of `cmd/benchstat` that sits between the
statistics engine and standard output. The engine has already turned the
input files into tables of rows, one row per benchmark, with one aggregate
per configuration.

The model covers the command-line side (`cmd/benchstat/main.go`):

- the lookups that turn the `-delta-test`, `-output` and `-units` flags
  into a significance test, an output format and a unit list;
- the usage exit;
- the `-diff` filter, which removes unchanged rows from each table in
  place and then drops the tables left empty;
- the "no significant differences" short-circuit;
- the choice of renderer.

It also covers the JSON report (`cmd/benchstat/json.go`):

- each table is laid out as a grid of text cells: a header row, a
  one-cell separator row whenever the group changes, and one data row per
  benchmark;
- every row is trimmed of trailing empty cells;
- a column-width table is measured over all the grids together.

Modules:

- `Engine`: the engine's output values. `Metrics` and `Row` are values.
  `Table` is a class, because the diff filter shortens its `rows` in
  place and the caller sees the change through its pointer.
- `Strings`: the two library string operations the code relies on.
  `Lower` is ASCII lower-casing. `Split` splits on commas and is proved to
  be undone by `Join`.
- `Grid` models `json.go`:
  - `TextRow` is a class whose `Add` and `Trim` methods update its cells
    in place;
  - `ToText` builds a table's rows as fresh objects and is proved to
    produce the grid that the function `TableGrid` specifies;
  - `ColumnWidths` is the width loop, proved to compute the function
    `Widths`, which in turn is proved to be the unique width table;
  - the layout lemmas (`GridLength`, `GridHeader`, `GridDataRow`,
    `GridSeparator`, `GridFollows`) say where every benchmark lands in
    the grid.
- `Cli` models `main.go`:
  - `FilterDiff` works on `Table` objects with the source's own loops,
    which remove an element and step the index back. It is proved against
    the functions `Changed` (rows) and `NonEmpty` (tables).
  - `Report` is the end of a run.

The mean's rendering (`fmt.Sprintf("%.f", …)`) is float formatting. It is a
parameter `meanText: real -> string` of every layout function. The engine's
`FormatDiff()` result is the `diff` field of `Metrics`.

## Model

| member | source | states |
|---|---|---|
| Grid.Format | cmd/benchstat/json.go:116-127 | a configuration without data (empty unit) gives three empty cells, and only then; otherwise the cells are the rendered mean, the unit and the diff text, the diff left empty when the engine gave none |
| Grid.Trimmed | cmd/benchstat/json.go:65-69 | the trimmed row is a prefix of the row, does not end in an empty cell, and everything removed was empty |
| Grid.TrimmedIdempotent | cmd/benchstat/json.go:65-69 | trimming an already trimmed row changes nothing |
| Grid.TrimmedUnique | cmd/benchstat/json.go:65-69 | any prefix that drops only empty cells and does not end in one is the trimmed row |
| Grid.TextRow.constructor | cmd/benchstat/json.go:57-59 | a new text row holds exactly the given cells |
| Grid.TextRow.Add | cmd/benchstat/json.go:61-63 | add appends one cell at the end and changes nothing else |
| Grid.TextRow.Trim | cmd/benchstat/json.go:65-69 | trim leaves the row's cells equal to the trimmed cells of the row before the call |
| Grid.NewHeader | cmd/benchstat/json.go:75-84 | the header row is freshly allocated and holds the header cells for one, two or any other number of configurations |
| Grid.GridHeader | cmd/benchstat/json.go:75-84 | after trimming, the header is the four-cell one-configuration header, the nine-cell two-configuration header, or "name \ metric" followed by the configuration names up to the last non-empty one |
| Grid.DataCellsShape | cmd/benchstat/json.go:94-106 | a data row is the benchmark name, then three cells per configuration in configuration order, each triple being that configuration's formatted cells, then delta and note exactly when there are two configurations |
| Grid.TwoConfigDataRow | cmd/benchstat/json.go:94-106 | a benchmark with data in both of two configurations yields name, mean, unit, diff, mean, unit, diff, delta, note |
| Grid.NewDataRow | cmd/benchstat/json.go:94-106 | the row built cell by cell is freshly allocated and equals the specified data row before trimming |
| Grid.AddRowLines | cmd/benchstat/json.go:88-107 | one pass of the row loop appends a separator row exactly when the group changes, then the data row; earlier rows are kept and the new rows are fresh and distinct |
| Grid.TrimRows | cmd/benchstat/json.go:109-111 | trimming a list of distinct rows in place leaves every row trimmed and in the same order |
| Grid.ToText | cmd/benchstat/json.go:73-113 | the rows returned are fresh, distinct objects whose cells are exactly the table's grid |
| Grid.GridLength | cmd/benchstat/json.go:86-108 | a table's grid has one header, one row per benchmark and one separator per group change: nothing is dropped or merged |
| Grid.GridDataRow | cmd/benchstat/json.go:86-108 | benchmark k's trimmed data row sits at position 1 + k + the number of group changes up to and including row k |
| Grid.GridSeparator | cmd/benchstat/json.go:89-92 | when benchmark k starts a new group, the line before its data row is the group's separator, empty after trimming for the empty group |
| Grid.GridFollows | cmd/benchstat/json.go:88-107 | when benchmark k continues its group, the line before its data row is the previous benchmark's row, or the header for the first benchmark |
| Grid.EmptyDataRowSkipped | cmd/benchstat/json.go:31-34 | a benchmark with no data in any configuration, in a table without a delta column, trims to its name alone and is skipped by the width pass like a group separator |
| Grid.FirstRowSeparator | cmd/benchstat/json.go:86-92 | the first benchmark is preceded by a separator exactly when its group is not empty |
| Grid.Widen | cmd/benchstat/json.go:31-43 | one row's pass leaves a one-cell row's table alone, otherwise grows the table to the row's length and raises each column to the cell's length |
| Grid.ColumnWidths | cmd/benchstat/json.go:28-45 | the loop over all rows of all tables computes the width table of all the rows together |
| Grid.WidenedKeeps | cmd/benchstat/json.go:31-43 | widening by one more row keeps a width table a width table |
| Grid.WidthsIsWidthTable | cmd/benchstat/json.go:28-45 | the widths measured in order form the width table: every multi-cell row fits, the table is as long as some such row, and each entry is some cell's length |
| Grid.WidthTableUnique | cmd/benchstat/json.go:28-45 | a set of rows has only one width table, so the result does not depend on the order the rows are measured in |
| Grid.WidthTableIgnoresSingleCells | cmd/benchstat/json.go:31-34 | adding a one-cell row neither changes the width table nor stops it being one |
| Grid.FlattenMember | cmd/benchstat/json.go:29-30 | the rows measured are exactly the rows of some table |
| Grid.FormatJson | cmd/benchstat/json.go:22-50 | there is one encoded grid per table, in order, each the table's grid, and the widths are the width table of all the grids together |
| Cli.DeltaTestByName | cmd/benchstat/main.go:132-140 | the lower-cased name selects no test for "none", the U-test for "u", "u-test" and "utest", the t-test for "t", "t-test" and "ttest", and nothing for any other name |
| Cli.Start | cmd/benchstat/main.go:175-178 | usage with exit status 2 exactly when there is no input file or the delta test is unknown; otherwise the run continues with the named test |
| Cli.OutputFormatByName | cmd/benchstat/main.go:148-152 | the lower-cased name selects text, html or json, and any other name selects no format |
| Cli.UnitByName | cmd/benchstat/main.go:142-146 | a token has an alias exactly when its lower case is "b", "ns" or "allocs"; the alias is B/op exactly for "b", ns/op exactly for "ns" and allocs/op exactly for "allocs", whatever the token's case |
| Cli.ResolveUnits | cmd/benchstat/main.go:191-199 | an empty flag resolves to no units; otherwise the flag is split on commas and each token with an alias contributes it, in order |
| Cli.UnitsOfConcat | cmd/benchstat/main.go:194-198 | resolving a list of tokens is resolving its two halves one after the other |
| Cli.UnitsOfContents | cmd/benchstat/main.go:194-198 | every resolved unit is one of the three aliases, with exactly one unit per known token: duplicates are kept and unknown tokens are dropped |
| Cli.DefaultUnits | cmd/benchstat/main.go:126 | the default flag value resolves to B/op, allocs/op, ns/op in that order |
| Cli.UnknownUnitDropped | cmd/benchstat/main.go:195-197 | an unknown unit name resolves to nothing rather than an error |
| Cli.CollectionUnits | cmd/benchstat/main.go:209-211 | the collection's units stay unset exactly when no unit resolved, and are the resolved list otherwise |
| Cli.DropUnchanged | cmd/benchstat/main.go:156-161 | the inner loop leaves the table holding exactly its rows whose change is not zero, in order |
| Cli.ChangedMembers | cmd/benchstat/main.go:156-161 | a row is kept if and only if it was in the table and its change is not zero |
| Cli.ChangedConcat | cmd/benchstat/main.go:156-161 | filtering a concatenation filters each part, so relative order is kept |
| Cli.ChangedDrop | cmd/benchstat/main.go:157-159 | removing one unchanged row does not change the filtered rows, which is what makes removal during the scan sound |
| Cli.ChangedAllKept | cmd/benchstat/main.go:156-161 | rows that all changed are kept exactly as they are |
| Cli.ChangedIdempotent | cmd/benchstat/main.go:156-161 | filtering filtered rows changes nothing |
| Cli.NonEmptyMembers | cmd/benchstat/main.go:162-165 | a table is kept if and only if it was in the list and still has rows |
| Cli.NonEmptyAllKept | cmd/benchstat/main.go:162-165 | tables that all have rows are all kept, in order |
| Cli.FilterStep | cmd/benchstat/main.go:155-166 | one pass of the outer loop filters one table's rows in place and removes it from the list when it is left empty, moving it from the unprocessed tail to the survivors |
| Cli.FilterDiff | cmd/benchstat/main.go:154-168 | every table's rows become its changed rows, in place, and the returned list holds the tables that still have rows, in their original order |
| Cli.SurvivorsSettled | cmd/benchstat/main.go:154-168 | after the filter, every kept table has rows and all of them changed |
| Cli.FilterDiffTwice | cmd/benchstat/main.go:154-168 | filtering the result of the filter returns the same tables and changes no rows |
| Cli.Report | cmd/benchstat/main.go:223-241 | in diff mode the tables are filtered first; the fixed message is printed exactly when diff mode leaves no table and the format is text; otherwise html and text hand the shown tables to their renderer, json encodes each shown table's grid, and an unknown format prints nothing |
| Strings.Lower | cmd/benchstat/main.go:175 | lower-casing keeps the length, maps each character and leaves no upper-case ASCII letter |
| Strings.LowerAsciiLower | cmd/benchstat/main.go:175 | a string without upper-case ASCII letters is its own lower case |
| Strings.Split | cmd/benchstat/main.go:193 | splitting gives at least one piece, no piece holds a comma, and joining the pieces with commas gives back the string |
| Strings.SplitJoin | cmd/benchstat/main.go:193 | splitting the comma-join of comma-free pieces gives back the pieces |

## Left out

- Flag parsing, reading the input files and `log.Fatal` are not modelled. `Start` takes the argument count and the `-delta-test` value, and `Report` takes the `-diff` and `-output` outcomes.
- The exit through `os.Exit(2)` inside `usage` is the `UsageExit(2)` result of `Start`.
- The statistics engine is not part of this model: `Collection`, `AddConfig`, `Tables()`, significance tests and scaling. A run starts from the tables it returns.
- `-split`, `-alpha` and `-geomean` only configure the engine and are not modelled.
- `-raw`, which replaces each row's scaler with `NewNoopScaler`, is not modelled: scaling belongs to the engine.
- `benchstat.FormatHTML`, `benchstat.FormatText` and the `htmlStyle` constant are rendering code outside this model. `Report` states which of them receives which tables.
- The unused `Message` struct of `json.go` is not modelled.
- Grid.FormatJson: models the value handed to the JSON encoder, not the bytes. Left out are the `{"Cols": …}` object wrapping, the two-space indentation, and `null` for an empty list of tables.
- Grid.FormatJson: the source writes to standard output and ignores its writer argument. Standard output then receives the JSON followed by the empty buffer, so the model's output is the same.
- Grid.FormatJson: returns the width table, which the source computes and discards.
- Grid.Format: the mean's `%.f` rendering is the parameter `meanText`, and the engine's `FormatDiff()` is the field `diff`. NaN and infinite means are outside the model.
- Grid.NewDataRow: the source's `if delta == "~" { delta = "~" }` assigns a value the variable already has, and is modelled as such.
- Strings.Lower: lower-cases ASCII letters only; Go's `strings.ToLower` also folds other Unicode letters. Every name the lookups accept is ASCII, so a non-ASCII letter only matters where it would fold onto one of them.
- Grid.Widen: a cell's width is its number of characters. Dafny strings are sequences of valid code points, so `utf8.RuneCountInString` on invalid UTF-8 is not modelled.
- Cli.FilterDiff: returns a new sequence, while Go's `append(tables[:i], tables[i+1:]...)` shifts the caller's backing array. `main` overwrites its slice with the result, so nothing observable is lost.
- Row.change is an unbounded integer. Only its comparison with zero matters here, so Go's `int` width plays no part.

