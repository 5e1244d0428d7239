/**
  The JSON report of cmd/benchstat: each table becomes a grid of text
  cells (a header row, one-cell group separator rows, one data row per
  benchmark, every row trimmed of trailing empty cells), and one width
  table is computed over the grids of all tables together.
 */
module Grid {
  import opened Engine

  /** The three cells one configuration contributes to a data row.
      `meanText` stands for the mean's rendering with no decimals, which
      is float formatting outside this model. */
  function Format(m: Metrics, meanText: real -> string): (r: (string, string, string))
    ensures r == ("", "", "") <==> m.unit == ""
    ensures m.unit != "" ==> r.0 == meanText(m.mean) && r.1 == m.unit && r.2 == m.diff
  {
    if m.unit == "" then ("", "", "")
    else
      var mean := meanText(m.mean);
      var diff := m.diff;
      if diff == "" then (mean, m.unit, "") else (mean, m.unit, diff)
  }

  /** The row with its trailing empty cells removed. */
  function Trimmed(cols: seq<string>): (r: seq<string>)
    ensures r <= cols
    ensures r == [] || r[|r| - 1] != ""
    ensures forall i :: |r| <= i < |cols| ==> cols[i] == ""
    decreases |cols|
  {
    if |cols| > 0 && cols[|cols| - 1] == "" then Trimmed(cols[..|cols| - 1]) else cols
  }

  /** Trimming a row that was already trimmed changes nothing. */
  lemma {:induction false} TrimmedIdempotent(cols: seq<string>)
    ensures Trimmed(Trimmed(cols)) == Trimmed(cols)
  {
  }

  /** Trimmed is the only prefix that drops nothing but empty cells and
      does not itself end in an empty cell. */
  lemma {:induction false} TrimmedUnique(cols: seq<string>, r: seq<string>)
    requires r <= cols
    requires r == [] || r[|r| - 1] != ""
    requires forall i :: |r| <= i < |cols| ==> cols[i] == ""
    ensures r == Trimmed(cols)
  {
  }

  /** A printed row of text cells; it grows and shrinks in place. */
  class TextRow {
    var cols: seq<string>

    constructor (cols: seq<string>)
      ensures this.cols == cols
    {
      this.cols := cols;
    }

    method Add(col: string)
      modifies this
      ensures cols == old(cols) + [col]
    {
      cols := cols + [col];
    }

    method Trim()
      modifies this
      ensures cols == Trimmed(old(cols))
    {
      while |cols| > 0 && cols[|cols| - 1] == ""
        invariant Trimmed(cols) == Trimmed(old(cols))
        decreases |cols|
      {
        cols := cols[..|cols| - 1];
      }
    }
  }

  /** The header row, before trimming, for a table over `configs`. */
  function Header(metric: string, configs: seq<string>): seq<string> {
    if |configs| == 1 then
      ["name", "value", metric, "diff"]
    else if |configs| == 2 then
      ["name", "old value", "old " + metric, "diff", "new value", "new " + metric, "diff", "delta", "significance"]
    else
      ["name \\ " + metric] + configs
  }

  /** The cells of all of a row's metrics, three per configuration. */
  function MetricCells(ms: seq<Metrics>, meanText: real -> string): seq<string>
    decreases |ms|
  {
    if ms == [] then []
    else
      var f := Format(ms[|ms| - 1], meanText);
      MetricCells(ms[..|ms| - 1], meanText) + [f.0, f.1, f.2]
  }

  /** A data row before trimming; delta and note only in a two-configuration table. */
  function DataCells(row: Row, twoConfigs: bool, meanText: real -> string): seq<string> {
    [row.benchmark] + MetricCells(row.metrics, meanText)
      + (if twoConfigs then [row.delta, row.note] else [])
  }

  lemma {:induction false} MetricCellsAt(ms: seq<Metrics>, meanText: real -> string, k: nat)
    requires k < |ms|
    ensures |MetricCells(ms, meanText)| == 3 * |ms|
    ensures var f := Format(ms[k], meanText);
      MetricCells(ms, meanText)[3 * k .. 3 * k + 3] == [f.0, f.1, f.2]
    decreases |ms|
  {
    var init := ms[..|ms| - 1];
    if k < |ms| - 1 {
      MetricCellsAt(init, meanText, k);
      assert init[k] == ms[k];
    } else if init != [] {
      MetricCellsAt(init, meanText, 0);
    }
  }

  /** The layout of a data row: the benchmark name, three cells per
      configuration in configuration order, then delta and note when
      there are exactly two configurations. */
  lemma {:induction false} DataCellsShape(row: Row, twoConfigs: bool, meanText: real -> string)
    ensures var cells := DataCells(row, twoConfigs, meanText);
      && |cells| == 1 + 3 * |row.metrics| + (if twoConfigs then 2 else 0)
      && cells[0] == row.benchmark
      && (forall k :: 0 <= k < |row.metrics| ==>
            var f := Format(row.metrics[k], meanText);
            cells[3 * k + 1] == f.0 && cells[3 * k + 2] == f.1 && cells[3 * k + 3] == f.2)
      && (twoConfigs ==> cells[|cells| - 2] == row.delta && cells[|cells| - 1] == row.note)
  {
    var cells := DataCells(row, twoConfigs, meanText);
    var mc := MetricCells(row.metrics, meanText);
    if row.metrics != [] {
      MetricCellsAt(row.metrics, meanText, 0);
    }
    assert |mc| == 3 * |row.metrics|;
    forall k | 0 <= k < |row.metrics|
      ensures var f := Format(row.metrics[k], meanText);
        cells[3 * k + 1] == f.0 && cells[3 * k + 2] == f.1 && cells[3 * k + 3] == f.2
    {
      MetricCellsAt(row.metrics, meanText, k);
      var part := mc[3 * k .. 3 * k + 3];
      assert mc[3 * k] == part[0] && mc[3 * k + 1] == part[1] && mc[3 * k + 2] == part[2];
      assert cells[3 * k + 1] == mc[3 * k];
      assert cells[3 * k + 2] == mc[3 * k + 1];
      assert cells[3 * k + 3] == mc[3 * k + 2];
    }
  }

  /** A benchmark compared across two configurations that both have data
      yields the nine cells name, mean, unit, diff, mean, unit, diff,
      delta, note. */
  lemma {:induction false} TwoConfigDataRow(row: Row, meanText: real -> string)
    requires |row.metrics| == 2 && row.metrics[0].unit != "" && row.metrics[1].unit != ""
    ensures var m0, m1 := row.metrics[0], row.metrics[1];
      DataCells(row, true, meanText)
        == [row.benchmark, meanText(m0.mean), m0.unit, m0.diff,
            meanText(m1.mean), m1.unit, m1.diff, row.delta, row.note]
  {
    var ms := row.metrics;
    var f0, f1 := Format(ms[0], meanText), Format(ms[1], meanText);
    assert ms[..1][..0] == [];
    assert MetricCells(ms[..1], meanText) == [f0.0, f0.1, f0.2];
    assert MetricCells(ms, meanText) == [f0.0, f0.1, f0.2] + [f1.0, f1.1, f1.2];
  }

  /** The group in force before row k: the previous row's, or "" at the start. */
  function PrevGroup(rows: seq<Row>, k: nat): string
    requires k <= |rows|
  {
    if k == 0 then "" else rows[k - 1].group
  }

  /** Row k is preceded by a separator row naming its group. */
  predicate StartsGroup(rows: seq<Row>, k: nat)
    requires k < |rows|
  {
    rows[k].group != PrevGroup(rows, k)
  }

  /** The untrimmed lines row k produces: an optional separator, then its data row. */
  function RowLines(rows: seq<Row>, k: nat, twoConfigs: bool, meanText: real -> string): seq<seq<string>>
    requires k < |rows|
  {
    (if StartsGroup(rows, k) then [[rows[k].group]] else [])
      + [DataCells(rows[k], twoConfigs, meanText)]
  }

  /** The untrimmed lines of the first n rows. */
  function Body(rows: seq<Row>, n: nat, twoConfigs: bool, meanText: real -> string): seq<seq<string>>
    requires n <= |rows|
  {
    if n == 0 then [] else Body(rows, n - 1, twoConfigs, meanText) + RowLines(rows, n - 1, twoConfigs, meanText)
  }

  /** How many of the first n rows start a new group. */
  function Transitions(rows: seq<Row>, n: nat): nat
    requires n <= |rows|
  {
    if n == 0 then 0 else Transitions(rows, n - 1) + (if StartsGroup(rows, n - 1) then 1 else 0)
  }

  function TrimAll(lines: seq<seq<string>>): seq<seq<string>> {
    seq(|lines|, i requires 0 <= i < |lines| => Trimmed(lines[i]))
  }

  /** The grid of one table, as the JSON report encodes it. */
  function TableGrid(metric: string, configs: seq<string>, rows: seq<Row>, meanText: real -> string): seq<seq<string>> {
    TrimAll([Header(metric, configs)] + Body(rows, |rows|, |configs| == 2, meanText))
  }

  lemma {:induction false} BodyLength(rows: seq<Row>, n: nat, twoConfigs: bool, meanText: real -> string)
    requires n <= |rows|
    ensures |Body(rows, n, twoConfigs, meanText)| == n + Transitions(rows, n)
  {
    if n > 0 {
      BodyLength(rows, n - 1, twoConfigs, meanText);
    }
  }

  /** The lines of the first m rows begin the lines of the first n. */
  lemma {:induction false} BodyPrefix(rows: seq<Row>, m: nat, n: nat, twoConfigs: bool, meanText: real -> string)
    requires m <= n <= |rows|
    ensures Body(rows, m, twoConfigs, meanText) <= Body(rows, n, twoConfigs, meanText)
    decreases n
  {
    if m < n {
      BodyPrefix(rows, m, n - 1, twoConfigs, meanText);
    }
  }

  /** The lines of the first k + 1 rows end with row k's lines. */
  lemma {:induction false} BodyUpTo(rows: seq<Row>, n: nat, twoConfigs: bool, meanText: real -> string, k: nat)
    requires k < n <= |rows|
    ensures var upTo := Body(rows, k + 1, twoConfigs, meanText);
      && |upTo| == k + 1 + Transitions(rows, k + 1)
      && upTo <= Body(rows, n, twoConfigs, meanText)
      && upTo[|upTo| - 1] == DataCells(rows[k], twoConfigs, meanText)
  {
    BodyLength(rows, k + 1, twoConfigs, meanText);
    BodyPrefix(rows, k + 1, n, twoConfigs, meanText);
  }

  /** Row k's data row sits at k plus the number of group changes up to
      and including row k. */
  lemma {:induction false} BodyDataRow(rows: seq<Row>, n: nat, twoConfigs: bool, meanText: real -> string, k: nat)
    requires k < n <= |rows|
    ensures var body := Body(rows, n, twoConfigs, meanText);
      var d := k + Transitions(rows, k + 1);
      d < |body| && body[d] == DataCells(rows[k], twoConfigs, meanText)
  {
    BodyUpTo(rows, n, twoConfigs, meanText, k);
  }

  /** The line before row k's data row is its group's separator when the group changes. */
  lemma {:induction false} BodySeparator(rows: seq<Row>, n: nat, twoConfigs: bool, meanText: real -> string, k: nat)
    requires k < n <= |rows| && StartsGroup(rows, k)
    ensures var body := Body(rows, n, twoConfigs, meanText);
      var d := k + Transitions(rows, k + 1);
      0 < d < |body| && body[d - 1] == [rows[k].group]
  {
    BodyUpTo(rows, n, twoConfigs, meanText, k);
    var upTo := Body(rows, k + 1, twoConfigs, meanText);
    var lines := RowLines(rows, k, twoConfigs, meanText);
    assert upTo == Body(rows, k, twoConfigs, meanText) + lines;
    assert upTo[|upTo| - 2] == lines[0];
  }

  /** Without a group change, the line before row k's data row is row k - 1's. */
  lemma {:induction false} BodyFollows(rows: seq<Row>, n: nat, twoConfigs: bool, meanText: real -> string, k: nat)
    requires 0 < k < n <= |rows| && !StartsGroup(rows, k)
    ensures var body := Body(rows, n, twoConfigs, meanText);
      var d := k + Transitions(rows, k + 1);
      0 < d < |body| && body[d - 1] == DataCells(rows[k - 1], twoConfigs, meanText)
  {
    BodyUpTo(rows, n, twoConfigs, meanText, k);
    BodyUpTo(rows, n, twoConfigs, meanText, k - 1);
  }

  /** A table's grid holds the header, then one line per row plus one
      per group change: nothing is dropped, merged or reordered. */
  lemma {:induction false} GridLength(metric: string, configs: seq<string>, rows: seq<Row>, meanText: real -> string)
    ensures |TableGrid(metric, configs, rows, meanText)| == 1 + |rows| + Transitions(rows, |rows|)
  {
    BodyLength(rows, |rows|, |configs| == 2, meanText);
  }

  /** The header row's final shape for one, two and any other number of configurations. */
  lemma {:induction false} GridHeader(metric: string, configs: seq<string>, rows: seq<Row>, meanText: real -> string)
    ensures var h := TableGrid(metric, configs, rows, meanText)[0];
      && (|configs| == 1 ==> h == ["name", "value", metric, "diff"])
      && (|configs| == 2 ==> h == ["name", "old value", "old " + metric, "diff", "new value", "new " + metric, "diff", "delta", "significance"])
      && (|configs| != 1 && |configs| != 2 ==>
            h == Trimmed(["name \\ " + metric] + configs) && |h| >= 1 && h[0] == "name \\ " + metric
            && h[1..] <= configs && forall i :: |h| - 1 <= i < |configs| ==> configs[i] == "")
  {
    var h := TableGrid(metric, configs, rows, meanText)[0];
    if |configs| != 1 && |configs| != 2 {
      var full := ["name \\ " + metric] + configs;
      assert full[0] != "";
      assert |h| >= 1;
      forall i | |h| - 1 <= i < |configs| ensures configs[i] == "" {
        assert full[i + 1] == configs[i];
      }
    }
  }

  /** Where benchmark k lands in its table's grid, after trimming: at
      1 + k + (group changes up to and including row k); nothing before it
      is dropped or merged. */
  lemma {:induction false} GridDataRow(metric: string, configs: seq<string>, rows: seq<Row>, meanText: real -> string, k: nat)
    requires k < |rows|
    ensures var grid := TableGrid(metric, configs, rows, meanText);
      var d := 1 + k + Transitions(rows, k + 1);
      d < |grid| && grid[d] == Trimmed(DataCells(rows[k], |configs| == 2, meanText))
  {
    BodyDataRow(rows, |rows|, |configs| == 2, meanText, k);
  }

  /** When benchmark k starts a new group, the line just before its data
      row is the group's separator; a separator for the empty group trims
      to no cells. */
  lemma {:induction false} GridSeparator(metric: string, configs: seq<string>, rows: seq<Row>, meanText: real -> string, k: nat)
    requires k < |rows| && StartsGroup(rows, k)
    ensures var grid := TableGrid(metric, configs, rows, meanText);
      var d := 1 + k + Transitions(rows, k + 1);
      1 < d < |grid| && grid[d - 1] == if rows[k].group == "" then [] else [rows[k].group]
  {
    BodySeparator(rows, |rows|, |configs| == 2, meanText, k);
  }

  /** When benchmark k stays in the previous benchmark's group, the line
      just before its data row is that benchmark's data row, or the header
      when k is the first benchmark. */
  lemma {:induction false} GridFollows(metric: string, configs: seq<string>, rows: seq<Row>, meanText: real -> string, k: nat)
    requires k < |rows| && !StartsGroup(rows, k)
    ensures var grid := TableGrid(metric, configs, rows, meanText);
      var d := 1 + k + Transitions(rows, k + 1);
      && d < |grid|
      && (k > 0 ==> grid[d - 1] == Trimmed(DataCells(rows[k - 1], |configs| == 2, meanText)))
      && (k == 0 ==> d == 1)
  {
    if k > 0 {
      BodyFollows(rows, |rows|, |configs| == 2, meanText, k);
    } else {
      BodyDataRow(rows, |rows|, |configs| == 2, meanText, k);
    }
  }

  /** A benchmark with no data in any configuration, in a table without a
      delta column, trims to its name alone, and the width pass skips it
      like a group separator. */
  lemma {:induction false} EmptyDataRowSkipped(row: Row, meanText: real -> string, max: seq<nat>)
    requires row.benchmark != ""
    requires forall k :: 0 <= k < |row.metrics| ==> row.metrics[k].unit == ""
    ensures Trimmed(DataCells(row, false, meanText)) == [row.benchmark]
    ensures Widened(max, Trimmed(DataCells(row, false, meanText))) == max
  {
    var cells := DataCells(row, false, meanText);
    DataCellsShape(row, false, meanText);
    forall i | 1 <= i < |cells| ensures cells[i] == "" {
      var k := (i - 1) / 3;
      assert Format(row.metrics[k], meanText) == ("", "", "");
    }
    TrimmedUnique(cells, [row.benchmark]);
  }

  /** The first row gets a separator exactly when its group is not empty. */
  lemma {:induction false} FirstRowSeparator(rows: seq<Row>)
    requires |rows| > 0
    ensures StartsGroup(rows, 0) <==> rows[0].group != ""
  {
  }

  predicate Distinct(rs: seq<TextRow>) {
    forall i, j :: 0 <= i < j < |rs| ==> rs[i] != rs[j]
  }

  function Cells(rs: seq<TextRow>): seq<seq<string>>
    reads rs
  {
    seq(|rs|, i requires 0 <= i < |rs| reads rs => rs[i].cols)
  }

  /** The header row, freshly allocated. */
  method NewHeader(metric: string, configs: seq<string>) returns (header: TextRow)
    ensures fresh(header) && header.cols == Header(metric, configs)
  {
    if |configs| == 1 {
      header := new TextRow(["name", "value", metric, "diff"]);
    } else if |configs| == 2 {
      header := new TextRow(["name", "old value", "old " + metric, "diff", "new value", "new " + metric, "diff", "delta", "significance"]);
    } else {
      header := new TextRow(["name \\ " + metric]);
      header.cols := header.cols + configs;
    }
  }

  /** One benchmark's data row, freshly allocated, not yet trimmed. */
  method NewDataRow(row: Row, twoConfigs: bool, meanText: real -> string) returns (text: TextRow)
    ensures fresh(text) && text.cols == DataCells(row, twoConfigs, meanText)
  {
    text := new TextRow([row.benchmark]);
    for m := 0 to |row.metrics|
      invariant text.cols == [row.benchmark] + MetricCells(row.metrics[..m], meanText)
    {
      var f := Format(row.metrics[m], meanText);
      text.cols := text.cols + [f.0, f.1, f.2];
      assert row.metrics[..m + 1][..m] == row.metrics[..m];
    }
    assert row.metrics[..|row.metrics|] == row.metrics;
    if twoConfigs {
      var delta := row.delta;
      if delta == "~" {
        delta := "~";
      }
      text.cols := text.cols + [delta];
      text.cols := text.cols + [row.note];
    }
  }

  /** Trim every row of a list of distinct rows in place. */
  method TrimRows(textRows: seq<TextRow>)
    requires Distinct(textRows)
    modifies set r | r in textRows
    ensures Cells(textRows) == TrimAll(old(Cells(textRows)))
  {
    ghost var raw := Cells(textRows);
    for i := 0 to |textRows|
      invariant forall j :: 0 <= j < i ==> textRows[j].cols == Trimmed(raw[j])
      invariant forall j :: i <= j < |textRows| ==> textRows[j].cols == raw[j]
    {
      textRows[i].Trim();
    }
  }

  /** One pass of toText's row loop: a separator row when the group
      changes, then the benchmark's data row. */
  method AddRowLines(textRows: seq<TextRow>, group: string, rows: seq<Row>, k: nat,
                     twoConfigs: bool, meanText: real -> string)
    returns (textRows': seq<TextRow>, group': string)
    requires Distinct(textRows) && k < |rows| && group == PrevGroup(rows, k)
    ensures Distinct(textRows') && |textRows'| >= |textRows| && textRows'[..|textRows|] == textRows
    ensures forall i :: |textRows| <= i < |textRows'| ==> fresh(textRows'[i])
    ensures group' == PrevGroup(rows, k + 1)
    ensures Cells(textRows') == Cells(textRows) + RowLines(rows, k, twoConfigs, meanText)
  {
    var row := rows[k];
    textRows', group' := textRows, group;
    if row.group != group {
      group' := row.group;
      var sep := new TextRow([group']);
      textRows' := textRows' + [sep];
    }
    var text := NewDataRow(row, twoConfigs, meanText);
    textRows' := textRows' + [text];
  }

  /** toText: lay one table out as freshly allocated, trimmed text rows. */
  method ToText(t: Table, meanText: real -> string) returns (textRows: seq<TextRow>)
    ensures forall i :: 0 <= i < |textRows| ==> fresh(textRows[i])
    ensures Distinct(textRows)
    ensures Cells(textRows) == TableGrid(t.metric, t.configs, t.rows, meanText)
  {
    var header := NewHeader(t.metric, t.configs);
    textRows := [header];

    var rows := t.rows;
    var two := |t.configs| == 2;
    var group := "";
    for k := 0 to |rows|
      invariant forall i :: 0 <= i < |textRows| ==> fresh(textRows[i])
      invariant Distinct(textRows)
      invariant group == PrevGroup(rows, k)
      invariant Cells(textRows) == [Header(t.metric, t.configs)] + Body(rows, k, two, meanText)
    {
      textRows, group := AddRowLines(textRows, group, rows, k, two, meanText);
    }
    TrimRows(textRows);
  }

  /** All rows of all grids, table after table. */
  function Flatten(grids: seq<seq<seq<string>>>): seq<seq<string>> {
    if grids == [] then [] else Flatten(grids[..|grids| - 1]) + grids[|grids| - 1]
  }

  lemma {:induction false} FlattenMember(grids: seq<seq<seq<string>>>, row: seq<string>)
    ensures row in Flatten(grids) <==> exists g :: g in grids && row in g
  {
    if grids != [] {
      var init := grids[..|grids| - 1];
      FlattenMember(init, row);
      assert grids == init + [grids[|grids| - 1]];
    }
  }

  /** `w` is the column-width table of `rows`: one entry per column of the
      longest row, each the largest cell length in its column; rows of
      exactly one cell (group separators, and data rows trimmed to the
      benchmark name) do not take part. */
  ghost predicate IsWidthTable(rows: seq<seq<string>>, w: seq<nat>) {
    && (forall r :: r in rows && |r| != 1 ==> |r| <= |w| && forall i :: 0 <= i < |r| ==> |r[i]| <= w[i])
    && (|w| == 0 || exists r :: r in rows && |r| != 1 && |r| == |w|)
    && (forall i :: 0 <= i < |w| ==> w[i] == 0 || exists r :: r in rows && |r| != 1 && i < |r| && w[i] == |r[i]|)
  }

  /** There is only one width table for a given set of rows. */
  lemma {:induction false} WidthTableUnique(rows: seq<seq<string>>, a: seq<nat>, b: seq<nat>)
    requires IsWidthTable(rows, a) && IsWidthTable(rows, b)
    ensures a == b
  {
    if |a| > 0 {
      var r :| r in rows && |r| != 1 && |r| == |a|;
    }
    if |b| > 0 {
      var r :| r in rows && |r| != 1 && |r| == |b|;
    }
    forall i | 0 <= i < |a| ensures a[i] == b[i] {
      if a[i] != 0 {
        var r :| r in rows && |r| != 1 && i < |r| && a[i] == |r[i]|;
      }
      if b[i] != 0 {
        var r :| r in rows && |r| != 1 && i < |r| && b[i] == |r[i]|;
      }
    }
  }

  /** Adding or removing one-cell rows does not change the width table. */
  lemma {:induction false} WidthTableIgnoresSingleCells(rows: seq<seq<string>>, single: seq<string>, w: seq<nat>)
    requires |single| == 1
    ensures IsWidthTable(rows + [single], w) <==> IsWidthTable(rows, w)
  {
    assert forall r :: r in rows + [single] && |r| != 1 <==> r in rows && |r| != 1;
  }

  /** The width table after one more row: a one-cell row changes
      nothing; any other row extends the table to its length and raises
      each column to its cell's length. */
  function Widened(max: seq<nat>, row: seq<string>): (w: seq<nat>) {
    if |row| == 1 then max
    else
      seq(if |max| < |row| then |row| else |max|, i requires 0 <= i < |max| || 0 <= i < |row| =>
        var was := if i < |max| then max[i] else 0;
        if i < |row| && was < |row[i]| then |row[i]| else was)
  }

  /** The width table of a list of rows, measured in order. */
  function Widths(rows: seq<seq<string>>): seq<nat> {
    if rows == [] then [] else Widened(Widths(rows[..|rows| - 1]), rows[|rows| - 1])
  }

  /** Widening keeps a width table a width table. */
  lemma {:induction false} WidenedKeeps(seen: seq<seq<string>>, max: seq<nat>, row: seq<string>)
    requires IsWidthTable(seen, max)
    ensures IsWidthTable(seen + [row], Widened(max, row))
  {
    var all := seen + [row];
    var w := Widened(max, row);
    if |row| == 1 {
      WidthTableIgnoresSingleCells(seen, row, max);
      return;
    }
    assert row in all;
    forall r | r in all && |r| != 1
      ensures |r| <= |w| && forall i :: 0 <= i < |r| ==> |r[i]| <= w[i]
    {
      if r != row {
        assert r in seen;
      }
    }
    forall i | 0 <= i < |w| && w[i] != 0
      ensures exists r :: r in all && |r| != 1 && i < |r| && w[i] == |r[i]|
    {
      if i < |row| && w[i] == |row[i]| {
      } else {
        var r :| r in seen && |r| != 1 && i < |r| && max[i] == |r[i]|;
        assert r in all;
      }
    }
    if |w| > 0 && |w| != |row| {
      var r :| r in seen && |r| != 1 && |r| == |max|;
      assert r in all;
    }
  }

  /** Widths measures exactly the width table of its rows. */
  lemma {:induction false} WidthsIsWidthTable(rows: seq<seq<string>>)
    ensures IsWidthTable(rows, Widths(rows))
  {
    if rows != [] {
      var init := rows[..|rows| - 1];
      WidthsIsWidthTable(init);
      WidenedKeeps(init, Widths(init), rows[|rows| - 1]);
      assert init + [rows[|rows| - 1]] == rows;
    }
  }

  /** The width pass of FormatJson: for every row that is not a one-cell
      separator, grow the table to the row's length, then raise each
      column's entry to the cell's length in code points. */
  method ColumnWidths(grids: seq<seq<seq<string>>>) returns (max: seq<nat>)
    ensures max == Widths(Flatten(grids))
    ensures IsWidthTable(Flatten(grids), max)
  {
    max := [];
    for ti := 0 to |grids|
      invariant max == Widths(Flatten(grids[..ti]))
    {
      var table := grids[ti];
      StartTable(grids, ti);
      for ri := 0 to |table|
        invariant max == Widths(Flatten(grids[..ti]) + table[..ri])
      {
        max := Widen(max, table[ri]);
        WidthsStep(Flatten(grids[..ti]), table, ri);
      }
      FinishTable(grids, ti);
    }
    FinishGrids(grids);
  }

  /** Before a table's first row, the rows measured are those of the tables before it. */
  lemma {:induction false} StartTable(grids: seq<seq<seq<string>>>, ti: nat)
    requires ti < |grids|
    ensures Flatten(grids[..ti]) + grids[ti][..0] == Flatten(grids[..ti])
  {
    assert grids[ti][..0] == [];
  }

  /** After a table's last row, the rows measured are those of the tables up to it. */
  lemma {:induction false} FinishTable(grids: seq<seq<seq<string>>>, ti: nat)
    requires ti < |grids|
    ensures Flatten(grids[..ti]) + grids[ti][..|grids[ti]|] == Flatten(grids[..ti + 1])
  {
    assert grids[..ti + 1][..ti] == grids[..ti];
    assert grids[ti][..|grids[ti]|] == grids[ti];
  }

  /** After the last table, every row has been measured, and the result is a width table. */
  lemma {:induction false} FinishGrids(grids: seq<seq<seq<string>>>)
    ensures Flatten(grids[..|grids|]) == Flatten(grids)
    ensures IsWidthTable(Flatten(grids), Widths(Flatten(grids)))
  {
    assert grids[..|grids|] == grids;
    WidthsIsWidthTable(Flatten(grids));
  }

  /** Measuring one more row of a table widens the table measured so far. */
  lemma {:induction false} WidthsStep(before: seq<seq<string>>, table: seq<seq<string>>, ri: nat)
    requires ri < |table|
    ensures Widths(before + table[..ri + 1]) == Widened(Widths(before + table[..ri]), table[ri])
  {
    assert before + table[..ri + 1] == (before + table[..ri]) + [table[ri]];
    assert (before + table[..ri + 1])[..|before| + ri] == before + table[..ri];
  }

  /** The body of the width pass for one row. */
  method Widen(max: seq<nat>, row: seq<string>) returns (max': seq<nat>)
    ensures max' == Widened(max, row)
  {
    if |row| == 1 {
      // one cell: a group separator, or a data row trimmed to its benchmark name
      return max;
    }
    max' := max;
    while |max'| < |row|
      invariant |max| <= |max'| && max'[..|max|] == max
      invariant |max'| == |max| || |max'| <= |row|
      invariant forall i :: |max| <= i < |max'| ==> max'[i] == 0
    {
      max' := max' + [0];
    }
    for i := 0 to |row|
      invariant |max'| == |Widened(max, row)|
      invariant forall j :: 0 <= j < i ==> max'[j] == Widened(max, row)[j]
      invariant forall j :: i <= j < |max'| ==> max'[j] == if j < |max| then max[j] else 0
    {
      var n := |row[i]|;
      if max'[i] < n {
        max' := max'[i := n];
      }
    }
  }

  /** FormatJson: lay out every table as text rows, then measure the
      columns of all the grids together. `encoded` is the value the JSON
      encoder serialises (each table's rows' cells, rows not padded);
      the width table is computed but never written. */
  method FormatJson(tables: seq<Table>, meanText: real -> string)
    returns (encoded: seq<seq<seq<string>>>, widths: seq<nat>)
    ensures |encoded| == |tables|
    ensures forall i :: 0 <= i < |tables| ==>
      encoded[i] == TableGrid(tables[i].metric, tables[i].configs, tables[i].rows, meanText)
    ensures IsWidthTable(Flatten(encoded), widths)
  {
    var textTables: seq<seq<TextRow>> := [];
    encoded := [];
    for i := 0 to |tables|
      invariant |textTables| == |encoded| == i
      invariant forall j :: 0 <= j < i ==>
        encoded[j] == TableGrid(tables[j].metric, tables[j].configs, tables[j].rows, meanText)
    {
      var rows := ToText(tables[i], meanText);
      textTables := textTables + [rows];
      encoded := encoded + [Cells(rows)];
    }
    widths := ColumnWidths(encoded);
  }
}
