/**
  The values benchstat's statistics engine hands to the report code.
  The engine itself (parsing, outlier removal, significance tests,
  scaling) is not part of this model: a report starts from a list of
  tables it has already computed.
 */
module Engine {

  /** One configuration's aggregate for one benchmark.
      `unit == ""` means the configuration has no data for the benchmark;
      `diff` is the text the engine's FormatDiff() produces for it. */
  datatype Metrics = Metrics(mean: real, unit: string, diff: string)

  /** One benchmark's line in a table: one Metrics per configuration,
      the two-configuration delta text ("~" when not significant), the
      numeric change indicator (0 when not significant) and a note. */
  datatype Row = Row(
    benchmark: string,
    group: string,
    metrics: seq<Metrics>,
    delta: string,
    change: int,
    note: string)

  /** A table is shared by pointer: the diff filter shortens its rows in place. */
  class Table {
    const metric: string
    const configs: seq<string>
    var rows: seq<Row>

    constructor (metric: string, configs: seq<string>, rows: seq<Row>)
      ensures this.metric == metric && this.configs == configs && this.rows == rows
    {
      this.metric := metric;
      this.configs := configs;
      this.rows := rows;
    }
  }
}
