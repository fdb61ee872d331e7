/** The schema repository of the background script (extension/background.js):
    the message handlers that read the stored list of tables, change it and
    write it back. `storage.local` is the field `stored` of a `TableStore`;
    `createId` is a fresh identifier the caller supplies. */
module Repository {
  import opened Common
  import opened Url
  import opened Schema

  /** The one error the handlers throw: `Table not found`. */
  datatype StoreError = TableNotFound

  /** `tables.findIndex((table) => table.id === tableId)`. */
  function FindTableIndex(tables: seq<Table>, id: string): (r: int)
    ensures -1 <= r < |tables|
    ensures r == -1 <==> forall i :: 0 <= i < |tables| ==> tables[i].id != id
    ensures r >= 0 ==> tables[r].id == id && forall i :: 0 <= i < r ==> tables[i].id != id
  {
    if |tables| == 0 then -1
    else if tables[0].id == id then 0
    else
      var k := FindTableIndex(tables[1..], id);
      if k == -1 then -1 else k + 1
  }

  /** The match rule of `handleSaveColumn`: same id or same name. */
  predicate SameColumn(existing: Column, incoming: Column)
  {
    existing.id == incoming.id || existing.name == incoming.name
  }

  /** `table.columns.findIndex((col) => col.id === column.id || col.name === column.name)`. */
  function FindColumnIndex(columns: seq<Column>, incoming: Column): (r: int)
    ensures -1 <= r < |columns|
    ensures r == -1 <==> forall j :: 0 <= j < |columns| ==> !SameColumn(columns[j], incoming)
    ensures r >= 0 ==> SameColumn(columns[r], incoming) && forall j :: 0 <= j < r ==> !SameColumn(columns[j], incoming)
  {
    if |columns| == 0 then -1
    else if SameColumn(columns[0], incoming) then 0
    else
      var k := FindColumnIndex(columns[1..], incoming);
      if k == -1 then -1 else k + 1
  }

  /** The column list after saving `incoming`: the first column with the same
      id or the same name is replaced in place (the stored object is spread
      under the incoming one, which defines all six fields, so nothing of the
      old column survives), otherwise the column is appended. */
  function UpsertColumn(columns: seq<Column>, incoming: Column): (r: seq<Column>)
    ensures (forall j :: 0 <= j < |columns| ==> !SameColumn(columns[j], incoming)) ==> r == columns + [incoming]
    ensures (exists j :: 0 <= j < |columns| && SameColumn(columns[j], incoming)) ==>
      && |r| == |columns|
      && exists k ::
           && 0 <= k < |columns| && SameColumn(columns[k], incoming)
           && (forall j :: 0 <= j < k ==> !SameColumn(columns[j], incoming))
           && r[k] == incoming
           && (forall j :: 0 <= j < |columns| && j != k ==> r[j] == columns[j])
  {
    var k := FindColumnIndex(columns, incoming);
    if k == -1 then columns + [incoming] else columns[k := incoming]
  }

  /** The invariant the design asks for: no two columns share a name. */
  predicate NamesUnique(columns: seq<Column>)
  {
    forall i, j :: 0 <= i < j < |columns| ==> columns[i].name != columns[j].name
  }

  /** Saving a column whose id is new keeps column names unique. */
  lemma UpsertKeepsNamesUnique(columns: seq<Column>, incoming: Column)
    requires NamesUnique(columns)
    requires forall j :: 0 <= j < |columns| ==> columns[j].id != incoming.id
    ensures NamesUnique(UpsertColumn(columns, incoming))
  {
    var r := UpsertColumn(columns, incoming);
    var k := FindColumnIndex(columns, incoming);
    if k != -1 {
      assert columns[k].name == incoming.name;
      forall i, j | 0 <= i < j < |r| ensures r[i].name != r[j].name {
        assert r[i].name == columns[i].name && r[j].name == columns[j].name;
      }
    }
  }

  /** Matching by id as well as by name can break that invariant: an incoming
      column carrying the id of one column and the name of another replaces
      the first and leaves two columns with the same name. */
  lemma UpsertByIdCanDuplicateName()
    ensures var columns := [Column("col-a", "x", 0, "", Some(0), "tbody"),
                            Column("col-b", "y", 1, "", Some(0), "tbody")];
            NamesUnique(columns)
            && !NamesUnique(UpsertColumn(columns, Column("col-a", "y", 2, "", Some(0), "tbody")))
  {
    var columns := [Column("col-a", "x", 0, "", Some(0), "tbody"),
                    Column("col-b", "y", 1, "", Some(0), "tbody")];
    var incoming := Column("col-a", "y", 2, "", Some(0), "tbody");
    assert FindColumnIndex(columns, incoming) == 0;
    var r := UpsertColumn(columns, incoming);
    assert r[0].name == r[1].name;
  }

  /** A column saved under the name of a stored column takes that column's
      place and brings its own id: with no id in the message the stored id
      is replaced by the freshly generated one. */
  lemma SaveByNameReplacesId(columns: seq<Column>, incoming: Column, k: nat)
    requires k < |columns| && columns[k].name == incoming.name
    requires forall j :: 0 <= j < |columns| ==> columns[j].id != incoming.id
    requires forall j :: 0 <= j < k ==> columns[j].name != incoming.name
    ensures |UpsertColumn(columns, incoming)| == |columns|
    ensures UpsertColumn(columns, incoming)[k].id == incoming.id
  {
    assert FindColumnIndex(columns, incoming) == k;
  }

  /** `table.columns.filter((col) => col.id !== columnId)`: the columns with
      another id, in their stored order and multiplicity. */
  function WithoutColumn(columns: seq<Column>, columnId: string): (r: seq<Column>)
    ensures r == Filter(columns, (c: Column) => c.id != columnId)
    ensures forall c :: c in r <==> c in columns && c.id != columnId
    ensures (forall j :: 0 <= j < |columns| ==> columns[j].id != columnId) ==> r == columns
  {
    var keep := (c: Column) => c.id != columnId;
    if forall j :: 0 <= j < |columns| ==> columns[j].id != columnId then
      FilterKeepsAll(columns, keep);
      Filter(columns, keep)
    else
      Filter(columns, keep)
  }

  /** `tables.filter((table) => table.id !== tableId)`: the tables with
      another id, in their stored order and multiplicity. */
  function WithoutTable(tables: seq<Table>, tableId: string): (r: seq<Table>)
    ensures r == Filter(tables, (t: Table) => t.id != tableId)
    ensures forall t :: t in r <==> t in tables && t.id != tableId
    ensures (forall j :: 0 <= j < |tables| ==> tables[j].id != tableId) ==> r == tables
  {
    var keep := (t: Table) => t.id != tableId;
    if forall j :: 0 <= j < |tables| ==> tables[j].id != tableId then
      FilterKeepsAll(tables, keep);
      Filter(tables, keep)
    else
      Filter(tables, keep)
  }

  /** `handleGetTablesForUrl`: the tables recorded for the page at `url`, in
      stored order; none at all when the address gives no origin or no path. */
  function TablesForUrl(tables: seq<Table>, url: string, api: UrlApi): (r: seq<Table>)
    ensures match NormalizeUrlInfo(api, url)
      case None => r == []
      case Some(loc) =>
        if loc.origin == "" || loc.pathname == "" then r == []
        else r == Filter(tables, AtPage(loc)) && forall t :: t in r <==> t in tables && t.page == loc
  {
    match NormalizeUrlInfo(api, url)
    case None => []
    case Some(loc) =>
      if loc.origin == "" || loc.pathname == "" then []
      else Filter(tables, AtPage(loc))
  }

  /** The filter of `handleGetTablesForUrl`: the record's page has the origin
      and path of the address. */
  function AtPage(loc: Location): Table -> bool
  {
    (t: Table) => t.page.origin == loc.origin && t.page.pathname == loc.pathname
  }

  /** The fields of a `CREATE_TABLE` message. */
  datatype CreateTableMessage = CreateTableMessage(
    name: Option<string>, sourceUrl: Option<string>,
    tableSelector: Option<string>, dataSection: Option<string>)

  /** The record `handleCreateTable` appends when `count` tables exist. */
  function CreatedTable(count: nat, id: string, msg: CreateTableMessage, api: UrlApi): (t: Table)
    ensures t.id == id
    ensures t.name == Some(if Given(msg.name) then msg.name.value else "Table " + NatToString(count + 1))
    ensures t.urlTemplate == OrElse(msg.sourceUrl, "")
    ensures t.page == match NormalizeUrlInfo(api, OrElse(msg.sourceUrl, "")) case Some(l) => l case None => EmptyLocation
    ensures t.tableSelector == OrElse(msg.tableSelector, "")
    ensures t.dataSection == OrElse(msg.dataSection, "tbody")
    ensures t.columns == []
  {
    var normalized := NormalizeUrlInfo(api, OrElse(msg.sourceUrl, ""));
    EnsureTableDefaults(
      RawTable(
        id,
        Some(OrElse(msg.name, "Table " + NatToString(count + 1))),
        Some(OrElse(msg.sourceUrl, "")),
        Some(match normalized case Some(l) => l case None => EmptyLocation),
        Some(OrElse(msg.tableSelector, "")),
        Some(OrElse(msg.dataSection, "tbody")),
        Some([])),
      msg.sourceUrl, api)
  }

  /** The `column` of a `SAVE_COLUMN` message. */
  datatype ColumnInput = ColumnInput(
    id: Option<string>, name: string, columnIndex: int,
    sampleCellSelector: string, sampleRowIndex: Option<int>, section: Option<string>)

  /** The fields of a `SAVE_COLUMN` message. */
  datatype SaveColumnMessage = SaveColumnMessage(
    tableId: string, tableSelector: Option<string>, dataSection: Option<string>, column: ColumnInput)

  /** The column object `handleSaveColumn` builds; `freshId` stands for `createId('col')`. */
  function NewColumn(input: ColumnInput, freshId: string): (c: Column)
    ensures c.id == (if Given(input.id) then input.id.value else freshId)
    ensures c.name == input.name && c.columnIndex == input.columnIndex
    ensures c.sampleCellSelector == input.sampleCellSelector && c.sampleRowIndex == input.sampleRowIndex
    ensures c.section == (if Given(input.section) then input.section.value else "tbody")
  {
    Column(OrElse(input.id, freshId), input.name, input.columnIndex,
           input.sampleCellSelector, input.sampleRowIndex, OrElse(input.section, "tbody"))
  }

  /** The fields an `UPDATE_TABLE` message carries, each present or absent. */
  datatype TablePatch = TablePatch(
    id: string, name: Option<string>, urlTemplate: Option<string>,
    tableSelector: Option<string>, dataSection: Option<string>, columns: Option<seq<Column>>)

  /** `ensureTableDefaults({ ...table, ...patch, page })` of `handleUpdateTable`,
      where the page is re-derived from the (new or old) template when that
      parses and kept otherwise. */
  function ApplyUpdate(table: Table, patch: TablePatch, api: UrlApi): (r: Table)
    ensures r.id == patch.id
    ensures r.name == if patch.name.Some? then patch.name else table.name
    ensures r.urlTemplate == if patch.urlTemplate.Some? then patch.urlTemplate.value else table.urlTemplate
    ensures r.page == match NormalizeUrlInfo(api, OrElse(patch.urlTemplate, table.urlTemplate))
                      case Some(l) => l case None => table.page
    ensures r.tableSelector == if patch.tableSelector.Some? then patch.tableSelector.value else table.tableSelector
    ensures Given(patch.dataSection) ==> r.dataSection == patch.dataSection.value
    ensures patch.dataSection == Some("") ==> r.dataSection == "tbody"
    ensures patch.dataSection.None? && IsPopulated(table) ==> r.dataSection == table.dataSection
    ensures r.columns == if patch.columns.Some? then patch.columns.value else table.columns
  {
    var page := match NormalizeUrlInfo(api, OrElse(patch.urlTemplate, table.urlTemplate))
                case Some(l) => l case None => table.page;
    EnsureTableDefaults(
      RawTable(
        patch.id,
        if patch.name.Some? then patch.name else table.name,
        Some(if patch.urlTemplate.Some? then patch.urlTemplate.value else table.urlTemplate),
        Some(page),
        Some(if patch.tableSelector.Some? then patch.tableSelector.value else table.tableSelector),
        Some(if patch.dataSection.Some? then patch.dataSection.value else table.dataSection),
        Some(if patch.columns.Some? then patch.columns.value else table.columns)),
      None, api)
  }

  /** The persisted list of tables (`storage.local`, key `tables`) and the
      handlers that read, change and write it back. Handlers run one at a
      time, each as a single state transition. */
  class TableStore {
    /** The stored records, as they were written. */
    var stored: seq<RawTable>
    /** The browser's URL parser, used by `ensureTableDefaults`. */
    const api: UrlApi

    /** A store holding the default value `{ tables: [] }`. */
    constructor (api: UrlApi)
      ensures stored == [] && this.api == api
    {
      stored := [];
      this.api := api;
    }

    /** `getTables`: the stored records with their defaults applied. */
    function Tables(): (r: seq<Table>)
      reads this
      ensures |r| == |stored|
      ensures forall i :: 0 <= i < |r| ==> IsPopulated(r[i])
    {
      Populate(stored, api)
    }

    /** `saveTables`. */
    method SaveTables(tables: seq<Table>)
      requires forall i :: 0 <= i < |tables| ==> IsPopulated(tables[i])
      modifies this
      ensures stored == Unpopulate(tables)
      ensures Tables() == tables
    {
      stored := Unpopulate(tables);
      ReadBackAll(tables, api);
    }

    /** `handleCreateTable`: appends one new record and returns it. */
    method CreateTable(msg: CreateTableMessage, freshId: string) returns (t: Table)
      modifies this
      ensures t == CreatedTable(|old(Tables())|, freshId, msg, api)
      ensures Tables() == old(Tables()) + [t]
    {
      var tables := Tables();
      t := CreatedTable(|tables|, freshId, msg, api);
      tables := tables + [t];
      SaveTables(tables);
    }

    /** `handleSaveColumn`; `freshId` stands for `createId('col')`, used only
      when the message carries no column id. */
    method SaveColumn(msg: SaveColumnMessage, freshId: string) returns (r: Result<Table, StoreError>)
      modifies this
      ensures FindTableIndex(old(Tables()), msg.tableId) == -1 ==>
        r == Failure(TableNotFound) && stored == old(stored)
      ensures FindTableIndex(old(Tables()), msg.tableId) >= 0 ==>
        var i := FindTableIndex(old(Tables()), msg.tableId);
        var before := old(Tables())[i];
        && r.Success?
        && Tables() == old(Tables())[i := r.value]
        && r.value.id == before.id && r.value.name == before.name
        && r.value.urlTemplate == before.urlTemplate && r.value.page == before.page
        && r.value.tableSelector == OrElse(msg.tableSelector, before.tableSelector)
        && r.value.dataSection == OrElse(msg.dataSection, before.dataSection)
        && r.value.columns == UpsertColumn(before.columns, NewColumn(msg.column, freshId))
    {
      var tables := Tables();
      var index := FindTableIndex(tables, msg.tableId);
      if index == -1 {
        return Failure(TableNotFound);
      }
      var table := tables[index];
      var column := NewColumn(msg.column, freshId);
      table := table.(tableSelector := OrElse(msg.tableSelector, table.tableSelector));
      table := table.(dataSection := OrElse(msg.dataSection, OrElse(Some(table.dataSection), "tbody")));
      var existingIndex := FindColumnIndex(table.columns, column);
      if existingIndex != -1 {
        table := table.(columns := table.columns[existingIndex := column]);
      } else {
        table := table.(columns := table.columns + [column]);
      }
      tables := tables[index := table];
      SaveTables(tables);
      return Success(table);
    }

    /** `handleRemoveColumn`. */
    method RemoveColumn(tableId: string, columnId: string) returns (r: Result<Table, StoreError>)
      modifies this
      ensures FindTableIndex(old(Tables()), tableId) == -1 ==>
        r == Failure(TableNotFound) && stored == old(stored)
      ensures FindTableIndex(old(Tables()), tableId) >= 0 ==>
        var i := FindTableIndex(old(Tables()), tableId);
        && r == Success(old(Tables())[i].(columns := WithoutColumn(old(Tables())[i].columns, columnId)))
        && Tables() == old(Tables())[i := r.value]
    {
      var tables := Tables();
      var index := FindTableIndex(tables, tableId);
      if index == -1 {
        return Failure(TableNotFound);
      }
      var table := tables[index];
      table := table.(columns := WithoutColumn(table.columns, columnId));
      tables := tables[index := table];
      SaveTables(tables);
      return Success(table);
    }

    /** `handleUpdateTable`. */
    method UpdateTable(patch: TablePatch) returns (r: Result<Table, StoreError>)
      modifies this
      ensures FindTableIndex(old(Tables()), patch.id) == -1 ==>
        r == Failure(TableNotFound) && stored == old(stored)
      ensures FindTableIndex(old(Tables()), patch.id) >= 0 ==>
        var i := FindTableIndex(old(Tables()), patch.id);
        && r == Success(ApplyUpdate(old(Tables())[i], patch, api))
        && Tables() == old(Tables())[i := r.value]
    {
      var tables := Tables();
      var index := FindTableIndex(tables, patch.id);
      if index == -1 {
        return Failure(TableNotFound);
      }
      tables := tables[index := ApplyUpdate(tables[index], patch, api)];
      SaveTables(tables);
      return Success(tables[index]);
    }

    /** `handleDeleteTable`: always writes the filtered list back. */
    method DeleteTable(tableId: string) returns (deleted: string)
      modifies this
      ensures deleted == tableId
      ensures Tables() == WithoutTable(old(Tables()), tableId)
    {
      var tables := Tables();
      var filtered := WithoutTable(tables, tableId);
      forall i | 0 <= i < |filtered| ensures IsPopulated(filtered[i]) {
        assert filtered[i] in tables;
      }
      SaveTables(filtered);
      return tableId;
    }
  }

  /** Deleting is idempotent. */
  lemma {:induction false} DeleteIdempotent(tables: seq<Table>, tableId: string)
    ensures WithoutTable(WithoutTable(tables, tableId), tableId) == WithoutTable(tables, tableId)
  {
    var once := WithoutTable(tables, tableId);
    forall j | 0 <= j < |once| ensures once[j].id != tableId {
      assert once[j] in once;
    }
  }
}
