/**
  The decisions benchstat's main function takes around the statistics
  engine: which delta test and output format the flags name, which
  units to show, and, in -diff mode, which rows and tables to keep.
  Flag parsing, file reading and process exit are left to the caller;
  only their outcomes are modelled.
 */
module Cli {
  import opened Engine
  import opened Strings
  import Grid

  datatype Option<T> = None | Some(value: T)

  datatype DeltaTest = NoDeltaTest | UTest | TTest

  const DeltaTestNames: map<string, DeltaTest> := map[
    "none" := NoDeltaTest,
    "u" := UTest, "u-test" := UTest, "utest" := UTest,
    "t" := TTest, "t-test" := TTest, "ttest" := TTest]

  const UnitNames: map<string, string> := map["b" := "B/op", "ns" := "ns/op", "allocs" := "allocs/op"]

  const Text := "text"
  const Html := "html"
  const Json := "json"

  const OutputFormatNames: map<string, string> := map["text" := Text, "html" := Html, "json" := Json]

  const NoDifferencesMessage := "No significant differences in benchmarks\n"

  /** The -delta-test lookup; a name missing from the table gives None
      (the nil test that sends the command to its usage message). */
  function DeltaTestByName(name: string): (r: Option<DeltaTest>)
    ensures r.Some? <==> Lower(name) in {"none", "u", "u-test", "utest", "t", "t-test", "ttest"}
    ensures r == Some(NoDeltaTest) <==> Lower(name) == "none"
    ensures r == Some(UTest) <==> Lower(name) in {"u", "u-test", "utest"}
    ensures r == Some(TTest) <==> Lower(name) in {"t", "t-test", "ttest"}
  {
    var key := Lower(name);
    if key in DeltaTestNames then Some(DeltaTestNames[key]) else None
  }

  /** What the command does before reading any file. */
  datatype Startup = UsageExit(status: int) | Proceed(deltaTest: DeltaTest)

  /** With no input file or an unknown delta test, usage is printed and
      the process exits with status 2; otherwise the run goes on with
      the named test. */
  function Start(nargs: nat, deltaTestFlag: string): (r: Startup)
    ensures r.UsageExit? <==> nargs < 1 || DeltaTestByName(deltaTestFlag).None?
    ensures r.UsageExit? ==> r.status == 2
    ensures r.Proceed? ==> Some(r.deltaTest) == DeltaTestByName(deltaTestFlag)
  {
    var test := DeltaTestByName(deltaTestFlag);
    if nargs < 1 || test.None? then UsageExit(2) else Proceed(test.value)
  }

  /** The -output lookup; an unknown name gives "", which no renderer takes. */
  function OutputFormatByName(name: string): (r: string)
    ensures r in {Text, Html, Json, ""}
    ensures r != "" <==> Lower(name) in {"text", "html", "json"}
    ensures r != "" ==> r == Lower(name)
  {
    var key := Lower(name);
    if key in OutputFormatNames then OutputFormatNames[key] else ""
  }

  /** The -units alias of one token, if it has one. */
  function UnitByName(token: string): (r: Option<string>)
    ensures r.Some? <==> Lower(token) in {"b", "ns", "allocs"}
    ensures r == Some("B/op") <==> Lower(token) == "b"
    ensures r == Some("ns/op") <==> Lower(token) == "ns"
    ensures r == Some("allocs/op") <==> Lower(token) == "allocs"
  {
    var key := Lower(token);
    if key in UnitNames then Some(UnitNames[key]) else None
  }

  /** The aliases of the known tokens, in token order; unknown tokens are dropped. */
  function UnitsOf(tokens: seq<string>): seq<string> {
    if tokens == [] then []
    else
      var last := tokens[|tokens| - 1];
      UnitsOf(tokens[..|tokens| - 1]) + (if UnitByName(last).Some? then [UnitByName(last).value] else [])
  }

  /** Resolving a list of tokens is resolving its parts one after the other. */
  lemma {:induction false} UnitsOfConcat(a: seq<string>, b: seq<string>)
    ensures UnitsOf(a + b) == UnitsOf(a) + UnitsOf(b)
    decreases |b|
  {
    if b != [] {
      var b' := b[..|b| - 1];
      assert (a + b)[..|a + b| - 1] == a + b';
      UnitsOfConcat(a, b');
    } else {
      assert a + b == a;
    }
  }

  /** Every resolved unit is one of the three aliases, one per known
      token: duplicates are kept and unknown tokens contribute nothing. */
  lemma {:induction false} UnitsOfContents(tokens: seq<string>)
    ensures forall u :: u in UnitsOf(tokens) ==> u in {"B/op", "ns/op", "allocs/op"}
    ensures |UnitsOf(tokens)| == |set i | 0 <= i < |tokens| && UnitByName(tokens[i]).Some?|
    decreases |tokens|
  {
    if tokens != [] {
      var n := |tokens| - 1;
      var init := tokens[..n];
      UnitsOfContents(init);
      var known := set i | 0 <= i < |tokens| && UnitByName(tokens[i]).Some?;
      var knownInit := set i | 0 <= i < n && UnitByName(init[i]).Some?;
      if UnitByName(tokens[n]).Some? {
        assert known == knownInit + {n};
      } else {
        assert known == knownInit;
      }
    }
  }

  /** The -units flag: split on commas, look each token up, keep the hits. */
  method ResolveUnits(flagUnits: string) returns (units: seq<string>)
    ensures flagUnits == "" ==> units == []
    ensures flagUnits != "" ==> units == UnitsOf(Split(flagUnits))
  {
    units := [];
    if flagUnits != "" {
      var unitSet := Split(flagUnits);
      for k := 0 to |unitSet|
        invariant units == UnitsOf(unitSet[..k])
      {
        var u := unitSet[k];
        assert unitSet[..k + 1][..k] == unitSet[..k];
        var n := UnitByName(u);
        if n.Some? {
          units := units + [n.value];
        }
      }
      assert unitSet[..|unitSet|] == unitSet;
    }
  }

  /** The default flag value selects bytes, allocations and time, in that order. */
  lemma {:induction false} DefaultUnits()
    ensures UnitsOf(Split("b,allocs,ns")) == ["B/op", "allocs/op", "ns/op"]
  {
    DefaultTokens();
    DefaultTokensResolve();
  }

  lemma {:induction false} DefaultTokens()
    ensures Split("b,allocs,ns") == ["b", "allocs", "ns"]
  {
    SplitJoin(["b", "allocs", "ns"]);
    assert Join(["b", "allocs", "ns"]) == "b,allocs,ns";
  }

  lemma {:induction false} DefaultTokensResolve()
    ensures UnitsOf(["b", "allocs", "ns"]) == ["B/op", "allocs/op", "ns/op"]
  {
    LowerAsciiLower("b");
    LowerAsciiLower("allocs");
    LowerAsciiLower("ns");
    UnitsOfConcat(["b"], ["allocs"]);
    UnitsOfConcat(["b", "allocs"], ["ns"]);
    assert ["b", "allocs", "ns"] == ["b", "allocs"] + ["ns"];
  }

  /** An unknown name resolves to nothing rather than an error. */
  lemma {:induction false} UnknownUnitDropped()
    ensures UnitsOf(Split("foo")) == []
  {
    SplitNoComma("foo");
  }

  /** The collection's unit list: unset (the engine's default) when no
      unit resolved, the resolved list otherwise. */
  function CollectionUnits(units: seq<string>): (r: Option<seq<string>>)
    ensures r.None? <==> units == []
    ensures r.Some? ==> r.value == units
  {
    if |units| > 0 then Some(units) else None
  }

  /** The rows whose change is not zero, in their original order. */
  function Changed(rows: seq<Row>): seq<Row> {
    if rows == [] then []
    else
      var last := rows[|rows| - 1];
      Changed(rows[..|rows| - 1]) + (if last.change != 0 then [last] else [])
  }

  /** Filtering a concatenation filters each part: relative order is kept. */
  lemma {:induction false} ChangedConcat(a: seq<Row>, b: seq<Row>)
    ensures Changed(a + b) == Changed(a) + Changed(b)
    decreases |b|
  {
    if b != [] {
      var b' := b[..|b| - 1];
      assert (a + b)[..|a + b| - 1] == a + b';
      ChangedConcat(a, b');
    } else {
      assert a + b == a;
    }
  }

  /** Removing an unchanged row does not change the filtered rows. */
  lemma {:induction false} ChangedDrop(rows: seq<Row>, j: nat)
    requires j < |rows| && rows[j].change == 0
    ensures Changed(rows[..j] + rows[j + 1..]) == Changed(rows)
  {
    var a, x, b := rows[..j], [rows[j]], rows[j + 1..];
    assert Changed(x) == [] by {
      assert x[..0] == [];
    }
    calc {
      Changed(rows);
      { assert rows == a + (x + b); }
      Changed(a + (x + b));
      { ChangedConcat(a, x + b); }
      Changed(a) + Changed(x + b);
      { ChangedConcat(x, b); }
      Changed(a) + Changed(b);
      { ChangedConcat(a, b); }
      Changed(a + b);
    }
  }

  /** A row survives exactly when it is in the input and its change is not zero. */
  lemma {:induction false} ChangedMembers(rows: seq<Row>)
    ensures forall r :: r in Changed(rows) <==> r in rows && r.change != 0
    decreases |rows|
  {
    if rows != [] {
      var init := rows[..|rows| - 1];
      ChangedMembers(init);
      assert rows == init + [rows[|rows| - 1]];
    }
  }

  /** Rows that all changed are kept as they are. */
  lemma {:induction false} ChangedAllKept(rows: seq<Row>)
    requires forall k :: 0 <= k < |rows| ==> rows[k].change != 0
    ensures Changed(rows) == rows
    decreases |rows|
  {
    if rows != [] {
      ChangedAllKept(rows[..|rows| - 1]);
    }
  }

  /** Filtering twice filters once. */
  lemma {:induction false} ChangedIdempotent(rows: seq<Row>)
    ensures Changed(Changed(rows)) == Changed(rows)
  {
    ChangedMembers(rows);
    var c := Changed(rows);
    forall k | 0 <= k < |c| ensures c[k].change != 0 {
      assert c[k] in c;
    }
    ChangedAllKept(c);
  }

  /** The tables that still have rows, in their original order. */
  function NonEmpty(tables: seq<Table>): seq<Table>
    reads tables
  {
    if tables == [] then []
    else
      var last := tables[|tables| - 1];
      NonEmpty(tables[..|tables| - 1]) + (if last.rows != [] then [last] else [])
  }

  lemma {:induction false} NonEmptyMembers(tables: seq<Table>)
    ensures forall t :: t in NonEmpty(tables) <==> t in tables && t.rows != []
    decreases |tables|
  {
    if tables != [] {
      var init := tables[..|tables| - 1];
      NonEmptyMembers(init);
      assert tables == init + [tables[|tables| - 1]];
    }
  }

  /** Tables that all have rows are all kept. */
  lemma {:induction false} NonEmptyAllKept(tables: seq<Table>)
    requires forall t :: t in tables ==> t.rows != []
    ensures NonEmpty(tables) == tables
    decreases |tables|
  {
    if tables != [] {
      NonEmptyAllKept(tables[..|tables| - 1]);
    }
  }

  /** After filtering, every kept table has rows, all of them changed, so
      filtering again keeps every table and every row as it is. */
  lemma {:induction false} SurvivorsSettled(tables: seq<Table>, kept: seq<Table>)
    requires forall t :: t in tables ==> forall r :: r in t.rows ==> r.change != 0
    requires kept == NonEmpty(tables)
    ensures forall t :: t in kept ==> t.rows != [] && forall r :: r in t.rows ==> r.change != 0
    ensures forall t :: t in kept ==> Changed(t.rows) == t.rows
    ensures NonEmpty(kept) == kept
  {
    NonEmptyMembers(tables);
    forall t | t in kept ensures Changed(t.rows) == t.rows {
      ChangedAllKept(t.rows);
    }
    NonEmptyAllKept(kept);
  }

  twostate lemma {:induction false} NonEmptyFramed(tables: seq<Table>)
    requires forall t :: t in tables ==> t.rows == old(t.rows)
    ensures NonEmpty(tables) == old(NonEmpty(tables))
    decreases |tables|
  {
    if tables != [] {
      NonEmptyFramed(tables[..|tables| - 1]);
    }
  }

  /** The inner loop of filterDiff: remove each unchanged row in place,
      stepping the index back after a removal. */
  method DropUnchanged(t: Table)
    modifies t
    ensures t.rows == Changed(old(t.rows))
  {
    var j := 0;
    while j < |t.rows|
      invariant 0 <= j <= |t.rows|
      invariant Changed(t.rows) == Changed(old(t.rows))
      invariant forall k :: 0 <= k < j ==> t.rows[k].change != 0
      decreases |t.rows| - j
    {
      if t.rows[j].change == 0 {
        ChangedDrop(t.rows, j);
        t.rows := t.rows[..j] + t.rows[j + 1..];
        j := j - 1;
      }
      j := j + 1;
    }
    ChangedAllKept(t.rows);
  }

  /** The tables whose rows, filtered, are not empty, in their original order. */
  ghost function Survivors(tables: seq<Table>, rows: map<Table, seq<Row>>): seq<Table>
    requires forall t :: t in tables ==> t in rows
  {
    if tables == [] then []
    else
      var last := tables[|tables| - 1];
      Survivors(tables[..|tables| - 1], rows) + (if Changed(rows[last]) != [] then [last] else [])
  }

  /** Once every table holds its filtered rows, the tables that still have
      rows are the survivors. */
  lemma {:induction false} SurvivorsNonEmpty(tables: seq<Table>, rows: map<Table, seq<Row>>)
    requires forall t :: t in tables ==> t in rows && t.rows == Changed(rows[t])
    ensures NonEmpty(tables) == Survivors(tables, rows)
    decreases |tables|
  {
    if tables != [] {
      SurvivorsNonEmpty(tables[..|tables| - 1], rows);
    }
  }

  /** The row lists the tables hold now, by table. */
  ghost function Snapshot(tables: seq<Table>): (m: map<Table, seq<Row>>)
    reads tables
    ensures forall k :: 0 <= k < |tables| ==> tables[k] in m && m[tables[k]] == tables[k].rows
  {
    map t | t in tables :: t.rows
  }

  /** How one pass of filterDiff's outer loop moves the table at position p
      from the unprocessed tail to the survivors. */
  lemma {:induction false} SurvivorsStep(tables: seq<Table>, p: nat, rows: map<Table, seq<Row>>,
                                         kept: seq<Table>, kept': seq<Table>, next: nat)
    requires p < |tables| && forall k :: 0 <= k < |tables| ==> tables[k] in rows
    requires kept == Survivors(tables[..p], rows) + tables[p..]
    requires var i := |Survivors(tables[..p], rows)|;
      if Changed(rows[tables[p]]) != [] then kept' == kept && next == i + 1
      else i < |kept| && kept' == kept[..i] + kept[i + 1..] && next == i
    ensures next == |Survivors(tables[..p + 1], rows)|
    ensures kept' == Survivors(tables[..p + 1], rows) + tables[p + 1..]
  {
    var prefix := Survivors(tables[..p], rows);
    var t := tables[p];
    assert tables[..p + 1][..p] == tables[..p];
    assert Survivors(tables[..p + 1], rows) == prefix + (if Changed(rows[t]) != [] then [t] else []);
    assert tables[p..] == [t] + tables[p + 1..];
    if Changed(rows[t]) == [] {
      assert kept[..|prefix|] == prefix;
      assert kept[|prefix| + 1..] == tables[p + 1..];
    }
  }

  /** One pass of filterDiff's outer loop, at position i of the list being
      filtered, which holds the table at position p of the original list:
      filter that table's rows, then drop it from the list when it has no
      rows left, stepping back so that the next pass looks at the same
      position. orig holds every table's rows before filterDiff began. */
  method FilterStep(kept: seq<Table>, i: nat, ghost tables: seq<Table>, ghost p: nat,
                    ghost orig: map<Table, seq<Row>>)
      returns (kept': seq<Table>, next: nat)
    requires p < |tables| && forall k :: 0 <= k < |tables| ==> tables[k] in orig
    requires i == |Survivors(tables[..p], orig)| && kept == Survivors(tables[..p], orig) + tables[p..]
    requires forall k :: 0 <= k < p ==> tables[k].rows == Changed(orig[tables[k]])
    requires forall k :: 0 <= k < |tables| ==>
      tables[k].rows == orig[tables[k]] || tables[k].rows == Changed(orig[tables[k]])
    modifies tables[p]
    ensures next == |Survivors(tables[..p + 1], orig)| && kept' == Survivors(tables[..p + 1], orig) + tables[p + 1..]
    ensures forall k :: 0 <= k <= p ==> tables[k].rows == Changed(orig[tables[k]])
    ensures forall k :: 0 <= k < |tables| ==>
      tables[k].rows == orig[tables[k]] || tables[k].rows == Changed(orig[tables[k]])
  {
    assert kept[i] == tables[p];
    var t := kept[i];
    DropUnchanged(t);
    ChangedIdempotent(orig[t]);
    kept', next := kept, i + 1;
    if |t.rows| == 0 {
      kept' := kept[..i] + kept[i + 1..];
      next := i;
    }
    SurvivorsStep(tables, p, orig, kept, kept', next);
  }

  /** filterDiff: drop, in place, every row whose change is zero, then
      every table left without rows. The tables' own row lists are
      shortened (the caller sees this through its pointers); the
      returned list holds the surviving tables in their original order. */
  method FilterDiff(tables: seq<Table>) returns (kept: seq<Table>)
    modifies set t | t in tables
    ensures forall t :: t in tables ==> t.rows == Changed(old(t.rows))
    ensures kept == NonEmpty(tables)
  {
    ghost var orig := Snapshot(tables);
    kept := tables;
    ghost var p := 0;
    var i := 0;
    while i < |kept|
      invariant p <= |tables|
      invariant forall k :: 0 <= k < |tables| ==> tables[k] in orig && orig[tables[k]] == old(tables[k].rows)
      invariant i == |Survivors(tables[..p], orig)| && kept == Survivors(tables[..p], orig) + tables[p..]
      invariant forall k :: 0 <= k < p ==> tables[k].rows == Changed(orig[tables[k]])
      invariant forall k :: 0 <= k < |tables| ==>
        tables[k].rows == orig[tables[k]] || tables[k].rows == Changed(orig[tables[k]])
      decreases |tables| - p
    {
      kept, i := FilterStep(kept, i, tables, p, orig);
      p := p + 1;
    }
    assert tables[..p] == tables;
    SurvivorsNonEmpty(tables, orig);
  }

  /** Filtering the result of a filter changes nothing. */
  method FilterDiffTwice(tables: seq<Table>) returns (once: seq<Table>, twice: seq<Table>)
    modifies set t | t in tables
    ensures twice == once
    ensures forall t :: t in tables ==> t.rows == Changed(old(t.rows))
  {
    once := FilterDiff(tables);
    forall t | t in tables ensures forall r :: r in t.rows ==> r.change != 0 {
      ChangedMembers(old(t.rows));
    }
    SurvivorsSettled(tables, once);
    NonEmptyMembers(tables);
    label filtered:
    twice := FilterDiff(once);
    assert forall t :: t in once ==> t.rows == old@filtered(t.rows);
    NonEmptyFramed@filtered(once);
  }

  /** What reaches standard output at the end of a run. */
  datatype Output =
    | Message(text: string)                      // written directly; nothing is rendered
    | HtmlReport(tables: seq<Table>)             // the style sheet, then the engine's HTML rendering
    | JsonReport(value: seq<seq<seq<string>>>)   // the encoded grids
    | TextReport(tables: seq<Table>)             // the engine's fixed-width text rendering
    | Nothing                                    // an output format no case takes: an empty buffer

  /** The end of a run: in -diff mode filter the tables, and if none is
      left and the format is text, print the fixed message instead of a
      report; otherwise hand the tables to the renderer `format` names. */
  method Report(tables: seq<Table>, onlyDiff: bool, format: string, meanText: real -> string)
    returns (out: Output)
    modifies set t | t in tables
    ensures onlyDiff ==> forall t :: t in tables ==> t.rows == Changed(old(t.rows))
    ensures !onlyDiff ==> forall t :: t in tables ==> t.rows == old(t.rows)
    ensures var shown := if onlyDiff then NonEmpty(tables) else tables;
      && (out.Message? <==> onlyDiff && shown == [] && format == Text)
      && (out.Message? ==> out.text == NoDifferencesMessage)
      && (!out.Message? && format == Html ==> out == HtmlReport(shown))
      && (!out.Message? && format == Text ==> out == TextReport(shown))
      && (format == Json ==> out.JsonReport? && |out.value| == |shown|)
      && (format == Json ==> forall i :: 0 <= i < |shown| ==>
            out.value[i] == Grid.TableGrid(shown[i].metric, shown[i].configs, shown[i].rows, meanText))
      && (format !in {Text, Html, Json} ==> out == Nothing)
  {
    var shown := tables;
    if onlyDiff {
      shown := FilterDiff(tables);
      if |shown| == 0 && format == Text {
        return Message(NoDifferencesMessage);
      }
    }
    if format == Html {
      out := HtmlReport(shown);
    } else if format == Json {
      var encoded, _ := Grid.FormatJson(shown, meanText);
      out := JsonReport(encoded);
    } else if format == Text {
      out := TextReport(shown);
    } else {
      out := Nothing;
    }
  }
}
