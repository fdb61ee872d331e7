/** The table schema and its column rules, as the background script stores
    them (extension/background.js), and `ensureTableDefaults`, which turns a
    stored record whose fields may be missing into a fully populated one. */
module Schema {
  import opened Common
  import opened Url

  /** One column rule. `sampleRowIndex` is None when the stored value is not a number. */
  datatype Column = Column(
    id: string,
    name: string,
    columnIndex: int,
    sampleCellSelector: string,
    sampleRowIndex: Option<int>,
    section: string)

  /** A table record as it sits in `storage.local`: any field but the id may be missing. */
  datatype RawTable = RawTable(
    id: string,
    name: Option<string>,
    urlTemplate: Option<string>,
    page: Option<Location>,
    tableSelector: Option<string>,
    dataSection: Option<string>,
    columns: Option<seq<Column>>)

  /** A fully populated table record, as `ensureTableDefaults` returns it. */
  datatype Table = Table(
    id: string,
    name: Option<string>,
    urlTemplate: string,
    page: Location,
    tableSelector: string,
    dataSection: string,
    columns: seq<Column>)

  /** One scraped record, or one aggregated row: field name to text. */
  type Row = map<string, string>

  const EmptyLocation := Location("", "")

  /** A string the JavaScript code treats as supplied: present and not empty. */
  predicate Given(o: Option<string>)
  {
    o.Some? && o.value != ""
  }

  /** `normalizeUrlInfo`: the empty string (and `undefined`, which the callers
      turn into it here) never parses, so only other strings reach the URL parser. */
  function NormalizeUrlInfo(api: UrlApi, s: string): (r: Option<Location>)
    ensures s == "" ==> r == None
  {
    if s == "" then None else api.normalize(s)
  }

  /** The address `ensureTableDefaults` normalises when the record has no page. */
  function DefaultsAddress(t: RawTable, sourceUrl: Option<string>): string
  {
    OrElse(sourceUrl, OrElse(t.urlTemplate,
      match t.page case Some(p) => p.origin + p.pathname case None => ""))
  }

  /** `ensureTableDefaults(table, sourceUrl)`. */
  function EnsureTableDefaults(t: RawTable, sourceUrl: Option<string>, api: UrlApi): (r: Table)
    ensures r.id == t.id && r.name == t.name
    ensures Given(t.urlTemplate) ==> r.urlTemplate == t.urlTemplate.value
    ensures !Given(t.urlTemplate) ==> r.urlTemplate == OrElse(sourceUrl, "")
    ensures t.page.Some? ==> r.page == t.page.value
    ensures t.page.None? ==>
      r.page == match NormalizeUrlInfo(api, DefaultsAddress(t, sourceUrl)) case Some(l) => l case None => EmptyLocation
    ensures r.tableSelector == OrElse(t.tableSelector, "")
    ensures r.dataSection != ""
    ensures Given(t.dataSection) ==> r.dataSection == t.dataSection.value
    ensures !Given(t.dataSection) ==> r.dataSection == "tbody"
    ensures t.columns.Some? ==> r.columns == t.columns.value
    ensures t.columns.None? ==> r.columns == []
  {
    var normalized := NormalizeUrlInfo(api, DefaultsAddress(t, sourceUrl));
    Table(
      t.id,
      t.name,
      OrElse(t.urlTemplate, OrElse(sourceUrl, "")),
      match t.page case Some(p) => p case None => (match normalized case Some(l) => l case None => EmptyLocation),
      OrElse(t.tableSelector, ""),
      OrElse(t.dataSection, "tbody"),
      match t.columns case Some(cs) => cs case None => [])
  }

  /** A populated record written back to storage: every field is present. */
  function ToRaw(t: Table): RawTable
  {
    RawTable(t.id, t.name, Some(t.urlTemplate), Some(t.page), Some(t.tableSelector),
             Some(t.dataSection), Some(t.columns))
  }

  /** What every populated record satisfies: its data section is not empty. */
  predicate IsPopulated(t: Table)
  {
    t.dataSection != ""
  }

  /** Reading back a populated record that was written gives the same record. */
  lemma ReadBackPopulated(t: Table, api: UrlApi)
    requires IsPopulated(t)
    ensures EnsureTableDefaults(ToRaw(t), None, api) == t
  {
  }

  /** `ensureTableDefaults` is idempotent. */
  lemma DefaultsIdempotent(t: RawTable, sourceUrl: Option<string>, api: UrlApi)
    ensures EnsureTableDefaults(ToRaw(EnsureTableDefaults(t, sourceUrl, api)), None, api)
            == EnsureTableDefaults(t, sourceUrl, api)
  {
    ReadBackPopulated(EnsureTableDefaults(t, sourceUrl, api), api);
  }

  /** `getTables`: every stored record with its defaults applied. */
  function Populate(stored: seq<RawTable>, api: UrlApi): (r: seq<Table>)
    ensures |r| == |stored|
    ensures forall i :: 0 <= i < |r| ==> r[i] == EnsureTableDefaults(stored[i], None, api)
  {
    seq(|stored|, i requires 0 <= i < |stored| => EnsureTableDefaults(stored[i], None, api))
  }

  /** `saveTables`: the records as they are written. */
  function Unpopulate(tables: seq<Table>): (r: seq<RawTable>)
    ensures |r| == |tables|
    ensures forall i :: 0 <= i < |r| ==> r[i] == ToRaw(tables[i])
  {
    seq(|tables|, i requires 0 <= i < |tables| => ToRaw(tables[i]))
  }

  /** Writing a list of populated records and reading it back gives that list. */
  lemma {:induction false} ReadBackAll(tables: seq<Table>, api: UrlApi)
    requires forall i :: 0 <= i < |tables| ==> IsPopulated(tables[i])
    ensures Populate(Unpopulate(tables), api) == tables
  {
    var r := Populate(Unpopulate(tables), api);
    forall i | 0 <= i < |tables| ensures r[i] == tables[i] {
      ReadBackPopulated(tables[i], api);
    }
  }
}
