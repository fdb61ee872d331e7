/** `scrapeTable` of the content script (extension/contentScript.js): picks
    the rows of a table, drops the leading rows before the first sample row,
    and reads each column's cell by position. The DOM is abstracted: a table
    is its row and section containers in document order, and a row is whether
    it belongs to this table (rather than to a nested one), whether it sits
    inside a `thead`, and the `innerText` of its `td`/`th` cells. */
module Scrape {
  import opened Common
  import opened Schema

  /** A `tr` element. */
  datatype RowDom = RowDom(ownedByTable: bool, inThead: bool, cells: seq<string>)

  /** A `tbody`, `thead` or `tfoot` element below the table, with its `tr`
      descendants in document order. */
  datatype SectionDom = SectionDom(tag: string, rows: seq<RowDom>)

  /** A `table` element: its section elements and all its `tr` descendants,
      each in document order. */
  datatype TableDom = TableDom(sections: seq<SectionDom>, rows: seq<RowDom>)

  /** The reply of the content script to `PERFORM_SCRAPE`. */
  datatype ScrapeResult = ScrapeError(error: string) | ScrapeRows(rows: seq<Row>)

  /** `container.matches('tbody, thead, tfoot')`. */
  predicate IsSectionTag(tag: string)
  {
    tag == "tbody" || tag == "thead" || tag == "tfoot"
  }

  /** The containers `querySelectorAll(section)` returns that also are section
      elements, for a section named by its tag. */
  predicate Gathers(s: SectionDom, section: string)
  {
    s.tag == section && IsSectionTag(s.tag)
  }

  /** The rows the `forEach` has concatenated after visiting `sections`. */
  function Gathered(sections: seq<SectionDom>, section: string): (r: seq<RowDom>)
    ensures forall x :: x in r ==> exists k :: 0 <= k < |sections| && Gathers(sections[k], section) && x in sections[k].rows
  {
    if sections == [] then []
    else
      var last := sections[|sections| - 1];
      var before := Gathered(sections[..|sections| - 1], section);
      before + (if Gathers(last, section) then last.rows else [])
  }

  /** The candidate rows: gathered from the matching sections, or every row
      of the table when nothing was gathered or the section is `table`. */
  function Candidates(t: TableDom, section: string): (r: seq<RowDom>)
    ensures section == "table" ==> r == t.rows
    ensures section != "table" && Gathered(t.sections, section) != [] ==> r == Gathered(t.sections, section)
    ensures Gathered(t.sections, section) == [] ==> r == t.rows
  {
    var gathered := if section != "table" then Gathered(t.sections, section) else [];
    if gathered == [] then t.rows else gathered
  }

  /** The candidate-row step of `scrapeTable`: a loop over the section
      containers, concatenating the rows of each match. */
  method CandidateRows(t: TableDom, section: string) returns (rows: seq<RowDom>)
    ensures rows == Candidates(t, section)
  {
    rows := [];
    if section != "table" {
      var i := 0;
      while i < |t.sections|
        invariant 0 <= i <= |t.sections|
        invariant rows == Gathered(t.sections[..i], section)
      {
        var container := t.sections[i];
        assert t.sections[..i + 1][..i] == t.sections[..i];
        if container.tag == section && IsSectionTag(container.tag) {
          rows := rows + container.rows;
        }
        i := i + 1;
      }
      assert t.sections[..i] == t.sections;
    }
    if |rows| == 0 {
      rows := t.rows;
    }
  }

  /** The rows kept: of this table, outside `thead`, with at least one cell. */
  predicate IsDataRow(row: RowDom)
  {
    row.ownedByTable && !row.inThead && |row.cells| > 0
  }

  function DataRows(rows: seq<RowDom>): (r: seq<RowDom>)
    ensures |r| <= |rows|
    ensures forall x :: x in r <==> x in rows && IsDataRow(x)
  {
    Filter(rows, IsDataRow)
  }

  /** A column's sample row: its `sampleRowIndex`, or 0 when that is not a number. */
  function SampleIndex(c: Column): int
  {
    match c.sampleRowIndex case Some(i) => i case None => 0
  }

  /** `Math.min(...)` over the sample rows; None stands for the Infinity of an
      empty argument list. */
  function MinSampleIndex(columns: seq<Column>): (m: Option<int>)
    ensures m.None? <==> columns == []
    ensures m.Some? ==> forall j :: 0 <= j < |columns| ==> m.value <= SampleIndex(columns[j])
    ensures m.Some? ==> exists j :: 0 <= j < |columns| && m.value == SampleIndex(columns[j])
  {
    if columns == [] then None
    else
      match MinSampleIndex(columns[1..])
      case None => Some(SampleIndex(columns[0]))
      case Some(rest) =>
        Some(if SampleIndex(columns[0]) <= rest then SampleIndex(columns[0]) else rest)
  }

  /** `rows.slice(minSampleIndex >= 0 ? minSampleIndex : 0)`: Infinity leaves nothing. */
  function Window<T>(rows: seq<T>, m: Option<int>): (r: seq<T>)
    ensures m.None? ==> r == []
    ensures m.Some? ==> |r| == (if m.value <= 0 then |rows| else if m.value >= |rows| then 0 else |rows| - m.value)
    ensures r == rows[|rows| - |r|..]
  {
    match m
    case None => []
    case Some(i) =>
      var start := if i >= 0 then i else 0;
      if start >= |rows| then [] else rows[start..]
  }

  /** The text of the cell at a column's position, trimmed, or "" when the row
      has no cell there. */
  function CellText(cells: seq<string>, c: Column): string
  {
    if 0 <= c.columnIndex < |cells| then Trim(cells[c.columnIndex]) else ""
  }

  /** No column after the `j`-th has its name. */
  predicate LastOfName(columns: seq<Column>, j: int)
    requires 0 <= j < |columns|
  {
    forall k :: j < k < |columns| ==> columns[k].name != columns[j].name
  }

  /** The names of the columns. */
  function Names(columns: seq<Column>): set<string>
  {
    set j | 0 <= j < |columns| :: columns[j].name
  }

  /** The record of one row: columns are written in order, so a later column
      wins over an earlier one of the same name. */
  function Record(cells: seq<string>, columns: seq<Column>): (r: Row)
    ensures r.Keys == Names(columns)
    ensures forall j :: 0 <= j < |columns| && LastOfName(columns, j) ==> r[columns[j].name] == CellText(cells, columns[j])
  {
    if columns == [] then map[]
    else
      var before := columns[..|columns| - 1];
      var prev := Record(cells, before);
      RecordStepKeys(columns, prev.Keys);
      RecordStepValues(cells, columns, prev);
      prev[columns[|columns| - 1].name := CellText(cells, columns[|columns| - 1])]
  }

  lemma RecordStepKeys(columns: seq<Column>, keys: set<string>)
    requires columns != []
    requires keys == Names(columns[..|columns| - 1])
    ensures keys + {columns[|columns| - 1].name} == Names(columns)
  {
    var n := |columns| - 1;
    var before := columns[..n];
    var all := Names(columns);
    forall x | x in keys ensures x in all {
      var j :| 0 <= j < n && before[j].name == x;
      assert columns[j].name == x;
    }
    assert columns[n].name in all;
    forall x | x in all ensures x in keys + {columns[n].name} {
      var j :| 0 <= j < |columns| && columns[j].name == x;
      if j < n {
        assert before[j].name == x;
      }
    }
  }

  /** A column that is the last of its name, other than the final column, is
      the last of its name among the columns before the final one. */
  lemma LastOfNameBefore(columns: seq<Column>, j: int)
    requires 0 <= j < |columns| - 1 && LastOfName(columns, j)
    ensures LastOfName(columns[..|columns| - 1], j)
    ensures columns[|columns| - 1].name != columns[j].name
  {
    var before := columns[..|columns| - 1];
    forall k | j < k < |before| ensures before[k].name != before[j].name {
      assert before[k] == columns[k] && before[j] == columns[j];
    }
  }

  lemma RecordStepValues(cells: seq<string>, columns: seq<Column>, prev: Row)
    requires columns != []
    requires forall j :: 0 <= j < |columns| - 1 && LastOfName(columns[..|columns| - 1], j) ==>
               columns[..|columns| - 1][j].name in prev && prev[columns[..|columns| - 1][j].name] == CellText(cells, columns[j])
    ensures var r := prev[columns[|columns| - 1].name := CellText(cells, columns[|columns| - 1])];
      forall j :: 0 <= j < |columns| && LastOfName(columns, j) ==> columns[j].name in r && r[columns[j].name] == CellText(cells, columns[j])
  {
    var n := |columns| - 1;
    var before := columns[..n];
    var r := prev[columns[n].name := CellText(cells, columns[n])];
    forall j | 0 <= j < |columns| && LastOfName(columns, j)
      ensures columns[j].name in r && r[columns[j].name] == CellText(cells, columns[j])
    {
      if j < n {
        LastOfNameBefore(columns, j);
        assert before[j] == columns[j];
      }
    }
  }

  function Records(rows: seq<RowDom>, columns: seq<Column>): (r: seq<Row>)
    ensures |r| == |rows|
    ensures forall i :: 0 <= i < |rows| ==> r[i] == Record(rows[i].cells, columns)
  {
    seq(|rows|, i requires 0 <= i < |rows| => Record(rows[i].cells, columns))
  }

  const SelectorMissing: string := "Table selector missing in configuration."

  function TableNotFound(selector: string): string
  {
    "Table not found for selector " + selector
  }

  /** `scrapeTable(tableConfig)`. `query` is `document.querySelector`,
      restricted to the table elements it may find. */
  method ScrapeTable(config: Table, query: string -> Option<TableDom>) returns (r: ScrapeResult)
    ensures config.tableSelector == "" ==> r == ScrapeError(SelectorMissing)
    ensures config.tableSelector != "" && query(config.tableSelector).None? ==>
      r == ScrapeError(TableNotFound(config.tableSelector))
    ensures config.tableSelector != "" && query(config.tableSelector).Some? ==>
      var t := query(config.tableSelector).value;
      var section := if config.dataSection == "" then "tbody" else config.dataSection;
      r == ScrapeRows(Records(Window(DataRows(Candidates(t, section)), MinSampleIndex(config.columns)), config.columns))
  {
    if config.tableSelector == "" {
      return ScrapeError(SelectorMissing);
    }
    var found := query(config.tableSelector);
    if found.None? {
      return ScrapeError(TableNotFound(config.tableSelector));
    }
    var t := found.value;
    var section := if config.dataSection == "" then "tbody" else config.dataSection;
    var rows := CandidateRows(t, section);
    rows := DataRows(rows);
    var bodyRows := Window(rows, MinSampleIndex(config.columns));
    r := ScrapeRows(Records(bodyRows, config.columns));
  }

  // ---------------------------------------------------------------------
  // Properties of the pipeline.

  /** The filter keeps the data rows in their original relative order:
      filtering a concatenation is the concatenation of the filtered parts. */
  lemma DataRowsKeepOrder(a: seq<RowDom>, b: seq<RowDom>)
    ensures DataRows(a + b) == DataRows(a) + DataRows(b)
  {
    FilterAppend(a, b, IsDataRow);
  }

  /** The number of records: none without columns, otherwise the data rows
      less the smallest sample index (taken as 0 when negative), and never
      fewer than none. */
  lemma RecordCount(rows: seq<RowDom>, columns: seq<Column>)
    ensures var n := |Records(Window(rows, MinSampleIndex(columns)), columns)|;
      && (columns == [] ==> n == 0)
      && (columns != [] ==>
           var m := MinSampleIndex(columns).value;
           var start := if m >= 0 then m else 0;
           n == if |rows| - start >= 0 then |rows| - start else 0)
  {
  }

  /** The records are the rows of the window, in order, each row giving one. */
  lemma RecordsAreWindowRows(rows: seq<RowDom>, columns: seq<Column>, i: nat)
    requires columns != []
    requires MinSampleIndex(columns).value >= 0
    requires MinSampleIndex(columns).value + i < |rows|
    ensures var w := Window(rows, MinSampleIndex(columns));
      w[i] == rows[MinSampleIndex(columns).value + i]
      && Records(w, columns)[i] == Record(rows[MinSampleIndex(columns).value + i].cells, columns)
  {
  }

  /** Example: one column sampled at row 2, over five data rows, gives three records. */
  lemma WindowExample(rows: seq<RowDom>, c: Column)
    requires |rows| == 5 && c.sampleRowIndex == Some(2)
    ensures |Records(Window(rows, MinSampleIndex([c])), [c])| == 3
  {
    RecordCount(rows, [c]);
  }

  /** Every record maps each column name to the trimmed cell text, or "" when
      the row is too short; the later of two same-named columns wins. */
  lemma RecordDuplicateName(cells: seq<string>, first: Column, second: Column)
    requires first.name == second.name
    ensures Record(cells, [first, second]) == map[first.name := CellText(cells, second)]
  {
    assert [first, second][..1] == [first];
    assert [first][..0] == [];
  }

  /** A scrape that finds the table never reports an error. */
  lemma FoundTableGivesRows(config: Table, query: string -> Option<TableDom>, r: ScrapeResult)
    requires config.tableSelector != "" && query(config.tableSelector).Some?
    requires r == ScrapeRows(Records(Window(DataRows(Candidates(query(config.tableSelector).value,
                  if config.dataSection == "" then "tbody" else config.dataSection)),
                  MinSampleIndex(config.columns)), config.columns))
    ensures r.ScrapeRows?
    ensures forall i :: 0 <= i < |r.rows| ==> r.rows[i].Keys == set j | 0 <= j < |config.columns| :: config.columns[j].name
  {
  }
}
