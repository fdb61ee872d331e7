# Eva Table Reactor, modelled in Dafny

Eva Table Reactor is a browser extension. The user points at a table on a web
page and names its columns. The extension stores that schema, and later
exports the table for a list of dates as one CSV file: it opens the page
once per date, scrapes the rows and tags each row with its date.

This project models the logic of the extension and proves properties of it:

- **Schema repository** (`extension/background.js`). A stored list of tables
  is a `TableStore` class whose field `stored` is what `storage.local`
  holds. Each handler that writes is a method that reads the list with its
  defaults applied, changes it and writes it back; `handleGetTablesForUrl`,
  which only reads, is the function `TablesForUrl` over that list.
  - `ensureTableDefaults`, `getTables` and `saveTables`.
  - `findTableIndex`.
  - `handleGetTablesForUrl`, `handleCreateTable`, `handleSaveColumn`,
    `handleRemoveColumn`, `handleUpdateTable` and `handleDeleteTable`.
- **CSV writer** (`csvEscape`, `buildCsv`). It is proved against a reader for
  the same lenient dialect. A quoted field is RFC 4180's, with doubled
  quotes inside; a bare field is any text without a comma or a line feed,
  and a line feed separates records. Whatever `buildCsv` writes reads back as its
  header and its records.
- **URL templating** (`buildUrlFromTemplate`). The browser's URL parser,
  `searchParams.set` and `encodeURIComponent` are opaque functions of a
  `UrlApi` value.
- **Export orchestration** (`exportTable`). The browser is a `Browser` class
  that logs every call it receives: open a tab, wait for it, send the scrape
  request, close it, download. Scrape replies come from an oracle. The
  per-date loop is a method proved against a recursive specification `Run`,
  and the proofs about the call log are stated over `Run`.
- **Scraping in the content script** (`extension/contentScript.js`):
  - `scrapeTable`, over an abstract table: its section containers and rows
    in document order, each row with an owner flag, an in-`thead` flag and
    its cell texts.
  - `buildSelector` and `uniqueSelector`, over the chain of ancestors of an
    element. Each ancestor is its tag name, its id and the tag names of its
    earlier siblings.
  - The fallback of `cssEscape`.
- **Date list parsing** (`parseDates`, in `extension/popup.js`).

Files and modules:

| file | module | contents |
|---|---|---|
| common.dfy | Common | `Option`/`Result`/`Outcome`, JavaScript `\|\|` on optional strings, `filter`, `trim`, decimal digits, `join` |
| url.dfy | Url | `Location`, `UrlApi`, `replace(/…/g)`, `buildUrlFromTemplate` |
| schema.dfy | Schema | `Column`, `RawTable`, `Table`, `Row`, `ensureTableDefaults`, reading back what was written |
| repository.dfy | Repository | column matching and upsert, the filters, `TableStore` and its handlers |
| csv.dfy | Csv | writer, reader, round trip |
| scrape.dfy | Scrape | `scrapeTable` |
| export.dfy | Export | `Browser`, `exportTable`, properties of the call log |
| selector.dfy | Selector | `cssEscape` fallback, `buildSelector`, `uniqueSelector` |
| dates.dfy | Dates | `parseDates` |

Two consequences of the code as written that the model keeps:

- `handleSaveColumn` matches a stored column by id OR by name. The incoming
  column object defines all six fields, so the spread
  `{...existing, ...column}` replaces the stored column entirely. The
  content script never sends an id, so saving under an existing name swaps
  in a freshly generated id (`SaveByNameReplacesId`).
- Matching by id as well as by name can produce two columns with the same
  name (`UpsertByIdCanDuplicateName`).

## Model

| member | source | states |
|---|---|---|
| Common.Filter | extension/background.js:149 | the kept elements are exactly those of the input that satisfy the predicate, and there are no more of them than in the input |
| Common.FilterCount | extension/background.js:149 | every kept element is kept exactly as often as it occurs in the input, and a rejected one not at all |
| Common.FilterAppend | extension/contentScript.js:473-482 | filtering keeps relative order: the filter of a concatenation is the concatenation of the filters |
| Common.Trim | extension/contentScript.js:492 | `trim` returns the slice of the input left after removing the white space at its front and at its back: no white space at either end of the result, only white space outside it; a trimmed string is unchanged; the result is empty exactly when the input is all white space |
| Common.NatToString | extension/background.js:75 | `String(n)` is a non-empty run of decimal digits with no leading zero unless `n` is 0 |
| Common.NatToStringValue | extension/background.js:75 | the digits written for `n` denote `n` |
| Schema.NormalizeUrlInfo | extension/background.js:12-22 | the empty address never normalises to a location |
| Schema.EnsureTableDefaults | extension/background.js:24-35 | every field is populated: id and name pass through; the template, page, selector, data section (default `tbody`) and columns (default `[]`) each take the stored value when there is one and the default otherwise |
| Schema.DefaultsIdempotent | extension/background.js:24-35 | applying the defaults to a defaulted record once more changes nothing |
| Schema.ReadBackAll | extension/background.js:37-44 | writing populated tables with `saveTables` and reading them back with `getTables` gives the same list |
| Repository.FindTableIndex | extension/background.js:46-48 | -1 exactly when no table has the id; otherwise the first table with that id |
| Repository.FindColumnIndex | extension/background.js:107 | -1 exactly when no column matches by id or name; otherwise the first match |
| Repository.UpsertColumn | extension/background.js:107-112 | with no match the column is appended; otherwise the length is unchanged, the first match is replaced by the incoming column and every other column is kept |
| Repository.UpsertKeepsNamesUnique | extension/background.js:107-112 | saving a column with a new id keeps column names unique |
| Repository.UpsertByIdCanDuplicateName | extension/background.js:107-112 | a column carrying one stored column's id and another's name leaves two columns with the same name |
| Repository.SaveByNameReplacesId | extension/background.js:96-112 | a column saved under a stored name takes that column's place and brings its own id |
| Repository.WithoutColumn | extension/background.js:125 | the result is the `Filter` of the columns by another id, so (with `FilterCount` and `FilterAppend`) the kept columns keep their stored order and multiplicity; its members are exactly the columns with another id; an unknown id changes nothing |
| Repository.WithoutTable | extension/background.js:149 | the result is the `Filter` of the tables by another id: stored order and multiplicity kept; its members are exactly the tables with another id; an unknown id changes nothing |
| Repository.TablesForUrl | extension/background.js:54-66 | nothing when the address does not normalise, or normalises without an origin or path; otherwise the `Filter` of the stored list by that origin and path, so in stored order and with repeats kept, whose members are exactly the tables recorded for that page |
| Repository.CreatedTable | extension/background.js:68-83 | the new record has the fresh id, the given name or `Table n+1`, the source address as template, its normalised page, the given selector, the data section (default `tbody`) and no columns |
| Repository.NewColumn | extension/background.js:96-103 | the column takes the message's fields; the id is the given id or a fresh one, the section is the given section or `tbody` |
| Repository.ApplyUpdate | extension/background.js:137-143 | each field the patch supplies wins and each one it omits is kept; the page is re-derived from the template when that parses; an empty data section falls back to `tbody` |
| Repository.DeleteIdempotent | extension/background.js:147-152 | deleting twice is deleting once |
| Repository.TableStore.Tables | extension/background.js:37-40 | `getTables` returns one populated record per stored one |
| Repository.TableStore.SaveTables | extension/background.js:42-44 | after `saveTables`, `getTables` returns exactly the list written |
| Repository.TableStore.CreateTable | extension/background.js:68-87 | exactly one record is appended at the end, built as `CreatedTable` for the current count; earlier records are unchanged |
| Repository.TableStore.SaveColumn | extension/background.js:89-116 | an unknown table gives `Table not found` and nothing is written; otherwise only that table changes: its selector and data section change only when the message supplies them, and its columns are the upsert of the new column |
| Repository.TableStore.RemoveColumn | extension/background.js:118-129 | an unknown table gives `Table not found` and nothing is written; otherwise only that table's columns change, losing those with the id |
| Repository.TableStore.UpdateTable | extension/background.js:131-145 | an unknown table gives `Table not found` and nothing is written; otherwise only that table changes, to `ApplyUpdate` of it |
| Repository.TableStore.DeleteTable | extension/background.js:147-152 | the stored list becomes the list without the tables of that id |
| Url.ReplaceAllAbsent | extension/background.js:224 | the global replace leaves a string without the pattern unchanged |
| Url.ReplaceAllLeftmost | extension/background.js:224 | `replace(/{{date}}/g, …)` replaces the leftmost occurrence and continues after it |
| Url.JoinToOriginSlashes | extension/background.js:231 | origin and a relative template are joined with exactly one `/`, whether or not the origin ends with one or the template starts with one |
| Url.BuildUrlFromTemplate | extension/background.js:218-241 | an empty template gives `''`; a template holding `{{date}}` has every occurrence replaced by the encoded date; otherwise an `http(s):` template, or a relative one joined to a non-empty page origin, is handed to the serialiser with the `date` parameter (`''` when it does not parse), and a relative one without an origin gives `''` |
| Url.EmptyTemplateGivesNothing | extension/background.js:219-221 | an empty template gives `''` whatever the date, origin and URL facilities |
| Url.AbsoluteTemplateIgnoresOrigin | extension/background.js:226-237 | an `http(s):` template without `{{date}}` is the serialiser's result for the template itself with the `date` parameter, or `''` when it does not parse, for any page origin |
| Url.PlaceholderTemplateIsVerbatim | extension/background.js:222-225 | an explicit template depends neither on the page origin nor on the URL parser |
| Url.RelativeTemplateNeedsOrigin | extension/background.js:227-231 | a relative template without a page origin yields no address |
| Url.SinglePlaceholderTemplate | extension/background.js:222-225 | a template with one placeholder becomes the text around it with the encoded date in its place |
| Url.ExplicitTemplateExample | extension/background.js:222-225 | `https://x.test/{{date}}/report` for `2024-01-02` becomes `https://x.test/2024-01-02/report` |
| Url.RelativeTemplateExample | extension/background.js:227-240 | `report` under `https://x.test` is the parser's result for `https://x.test/report` with the date parameter |
| Csv.CsvEscape | extension/background.js:158-160 | a value without quote, comma or line feed is unchanged; any other value is wrapped in quotes |
| Csv.CsvEscapeValue | extension/background.js:154-161 | a null value gives the empty field; every field reads back as its value |
| Csv.EscapedFieldParses | extension/background.js:154-161 | an escaped field followed by a separator or the end reads back as exactly the original value |
| Csv.HeaderFields | extension/background.js:164 | the header is `Date` followed by the column names in schema order |
| Csv.RowFields | extension/background.js:167 | a row's record is its `__date` (or `''`), then its value under each column name (or `''`), in column order |
| Csv.CsvRecords | extension/background.js:163-171 | the records are the header followed by one record per row, in row order |
| Csv.BuildCsv | extension/background.js:163-171 | the text written is the encoded records joined by single line feeds, with no trailing one |
| Csv.RecordParses | extension/background.js:167-168 | the escaped fields of one record joined by commas, followed by a line feed or the end, read back as exactly those fields |
| Csv.CsvParses | extension/background.js:163-171 | any non-empty list of records, encoded and joined by line feeds, reads back as that list |
| Csv.BuildCsvRoundTrip | extension/background.js:163-171 | what `buildCsv` writes reads back as the header and one record per row |
| Scrape.Candidates | extension/contentScript.js:460-472 | for a section other than `table`, the rows gathered from matching section containers when there are any; every row of the table otherwise |
| Scrape.CandidateRows | extension/contentScript.js:460-472 | the loop over the containers concatenates the rows of the matching `tbody`/`thead`/`tfoot` containers in document order, and falls back to all rows |
| Scrape.DataRows | extension/contentScript.js:473-482 | exactly the candidate rows that belong to this table, are outside a `thead` and have a cell |
| Scrape.DataRowsKeepOrder | extension/contentScript.js:473-482 | the filter keeps the rows' relative order |
| Scrape.MinSampleIndex | extension/contentScript.js:483-485 | none (Infinity) exactly when there are no columns; otherwise the least sample index, a non-number counting as 0 |
| Scrape.Window | extension/contentScript.js:486 | no rows for Infinity; otherwise the suffix that starts at the index, or at 0 when it is negative |
| Scrape.RecordCount | extension/contentScript.js:483-496 | no records without columns; otherwise max(0, rows − max(0, min index)) records |
| Scrape.WindowExample | extension/contentScript.js:483-496 | one column with sample index 2 over five rows gives three records |
| Scrape.Record | extension/contentScript.js:488-495 | the keys are the column names; each name maps to the trimmed text of the cell at its column's index (or `''`), taken from the last column with that name |
| Scrape.RecordDuplicateName | extension/contentScript.js:490-494 | of two columns with the same name the later one wins |
| Scrape.RecordsAreWindowRows | extension/contentScript.js:486-496 | the i-th record is the record of the i-th row after the skipped ones |
| Scrape.FoundTableGivesRows | extension/contentScript.js:460-497 | once the table is found the result is rows, and the keys of every row are exactly the column names |
| Scrape.ScrapeTable | extension/contentScript.js:452-497 | a missing selector and a missing table are error values with their messages; otherwise the records of the filtered window of the candidate rows |
| Export.Message | extension/background.js:256-293 | only an error passed on from the scrape or the send can have an empty message; a scrape or send error carries exactly that text |
| Export.RunFailureMessage | extension/background.js:266-289 | a run fails exactly when one of its dates fails, and then its error's message is the text thrown at the first failing date: `'Table URL template is invalid'`, `'Unable to scrape table'` for no response, the rejection's or the content script's error text, or the failure to iterate missing rows |
| Export.ExportFailureMessage | extension/background.js:256-293 | a failed export reports the first failed validation's message in the source's order, or else the message of the first requested date that fails |
| Export.RequestedDates | extension/background.js:265 | the `Filter` of the message's dates (none when it has no list) by non-emptiness, so in their listed order and with a repeated date kept as often as it is listed; its members are exactly the non-empty dates |
| Export.Validate | extension/background.js:257-268 | validation fails only with one of the three validation errors; it succeeds with a table of the requested id that has columns, and with the non-empty requested dates, of which there is at least one |
| Export.ValidationOrder | extension/background.js:257-268 | a missing table is reported first, then no columns, then no dates; a run starts only with the first table of that id and the non-empty dates |
| Export.ReplyRows | extension/background.js:284-290 | a reply gives rows exactly when the content script answered with rows; a missing reply, a rejection or an error aborts |
| Export.Tag | extension/background.js:290-292 | each row is tagged with its date under `__date` |
| Export.Browser.CreateTab | extension/background.js:189-193 | a new tab with the next id is opened at the address |
| Export.Browser.WaitForTabComplete | extension/background.js:173-187 | waiting logs the tab's load and changes no tab |
| Export.Browser.SendScrape | extension/background.js:201-216 | the reply is the oracle's answer for the tab's address, the table and the date |
| Export.Browser.CloseTab | extension/background.js:195-199 | closing logs the tab's removal and changes no tab |
| Export.Browser.Download | extension/background.js:243-254 | the download is logged under the table name, or `table` when it has none, with the CSV text |
| Export.Visit | extension/background.js:275-287 | one date opens a tab, waits for it, sends the scrape request and closes that tab whatever the reply |
| Export.AppendTagged | extension/background.js:290-292 | the inner loop appends the reply's rows, each tagged with the date, in order |
| Export.RunDates | extension/background.js:269-293 | the per-date loop's rows, error and calls are those of `Run` |
| Export.ExportTable | extension/background.js:256-305 | the outcome and the calls are those of the `Export` specification: validation, the run, then one download of the CSV |
| Export.SessionsPaired | extension/background.js:275-287 | a run closes every tab it opens, once and in the same order, and the tabs have consecutive ids |
| Export.OneTabAtATime | extension/background.js:269-293 | at every point of a run at most one tab is open, and none at its end |
| Export.RunAppend | extension/background.js:269-293 | the rows and calls of a run over two lists of dates are those of the first list followed by those of the second |
| Export.RowsCarryTheirDate | extension/background.js:290-292 | every aggregated row carries one of the requested dates as `__date` |
| Export.EmptyTemplateOpensNothing | extension/background.js:270-273 | an empty template aborts at the first date before any tab is opened |
| Export.FailureDownloadsNothing | extension/background.js:256-305 | a failed export downloads nothing, and one that fails validation makes no call at all |
| Export.SuccessDownloadsOnce | extension/background.js:294-295 | a successful export's last call is its only download, and its CSV reads back as the header and the aggregated rows |
| Selector.CssEscapeFallback | extension/contentScript.js:16 | the output is no shorter than the input, and a string without characters of the class is unchanged |
| Selector.CssEscape | extension/contentScript.js:12-17 | without a native `CSS.escape` the fallback is used |
| Selector.FallbackAppend | extension/contentScript.js:16 | the fallback works character by character |
| Selector.FallbackRoundTrip | extension/contentScript.js:16 | removing one backslash before each escaped character gives the identifier back |
| Selector.FallbackExample | extension/contentScript.js:16 | `a.b` becomes `a\.b`; `x-1\y` is unchanged |
| Selector.CountTag | extension/contentScript.js:38-42 | the count of a tag among the earlier siblings is its multiplicity |
| Selector.SiblingIndex | extension/contentScript.js:35-44 | the inner loop returns 1 plus the number of earlier siblings with the same tag |
| Selector.BuildSelector | extension/contentScript.js:19-50 | the walk's result is `SelectorOf` the chain: its segments, outermost first, joined by ` > ` |
| Selector.WalkSegments | extension/contentScript.js:28-47 | the `while` loop collects, outermost first, the segments of exactly the elements the walk visits |
| Selector.ElementSegment | extension/contentScript.js:29-45 | one pass of the loop body yields the element's segment: `#` and its escaped id, or its lower-cased tag and sibling index |
| Selector.SelectorEmptyIff | extension/contentScript.js:19-50 | the selector is empty exactly for a null element or the `stopAt` element |
| Selector.SelectorOfIdElement | extension/contentScript.js:23-25 | an element with an id is selected by `#` and its escaped id alone |
| Selector.SelectorSegments | extension/contentScript.js:26-49 | the selector joins the visited segments; the last is the element's, the first the outermost's |
| Selector.WalkVisits | extension/contentScript.js:28-47 | the walk never passes `stopAt`, and every element it passes on the way up has no id |
| Selector.WalkEnds | extension/contentScript.js:28-47 | the walk ends at the top of the chain, at `stopAt`, or right after the first ancestor with an id |
| Selector.SegmentExample | extension/contentScript.js:29-45 | a `TD` after one other `TD` is `td:nth-of-type(2)`; a `TABLE` with id `t1` is `#t1` |
| Selector.UniqueSelector | extension/contentScript.js:52-62 | `''` for a null element; the selector up to `body` when that is not empty; the lower-cased tag name otherwise |
| Dates.Split | extension/popup.js:20 | splitting gives at least one piece |
| Dates.SplitPieces | extension/popup.js:20 | no piece holds a comma or a line feed, with CR LF split as one separator |
| Dates.SplitAround | extension/popup.js:20 | the pieces around a separator are the pieces of each side, in order |
| Dates.SplitJoin | extension/popup.js:20 | pieces joined by commas split back into the same pieces |
| Dates.TrimAll | extension/popup.js:21 | every piece is trimmed in place |
| Dates.ParseDates | extension/popup.js:18-23 | every date is non-empty, trimmed, and free of commas and line feeds |
| Dates.ParseDatesAround | extension/popup.js:18-23 | dates keep their input order: parsing around a separator is parsing each side |
| Dates.BlankGivesNone | extension/popup.js:18-23 | input made only of separators and white space gives no dates |
| Dates.ParseDatesJoin | extension/popup.js:18-23 | well-formed dates joined by commas parse back as the same list, so parsing is idempotent on its own output |

## Left out

- Browser plumbing is reduced to host operations. This covers `storage.local`, `tabs.create/get/onUpdated/remove/sendMessage`, `downloads` and the Blob URL, which become state-changing methods of `TableStore` and `Browser`.
- Notifications are left out, both the completion notice and the failure notice. They have no effect on the outcome or on the tabs.
- The scrape oracle `reply` answers by address, table and date, not by tab. So a date listed twice gets the same answer both times, and a page that answers differently on a second load is not modelled.
- Strings are sequences of Unicode scalar values, not UTF-16 code units. So a lone surrogate cannot occur, and the `URIError` that `encodeURIComponent` would throw on one is not modelled.
- Export.Message: `'response.rows is not iterable'` stands for the `TypeError` raised when a response has neither rows nor an error. Its exact wording depends on the JavaScript engine.
- Export.Browser.CreateTab: always opens a tab with a fresh id. In the source, a failed `tabs.create` (no window, say) hands `undefined` to the callback. Reading `tab.id` then throws a `TypeError`, and `exportTable` rejects without opening or closing a tab. That failure is not modelled.
- `waitForTabComplete` always resolves here. In the source it has no timeout and can wait forever.
- The message dispatcher and its fire-and-forget `started` reply are left out. So is concurrency: the handlers are sequential state transitions, and interleaved read-modify-write handlers are not modelled.
- These are opaque functions of `UrlApi`:
  - `new URL`: the WHATWG URL parser behind `normalizeUrlInfo`.
  - `searchParams.set` in `buildUrlFromTemplate`.
  - `encodeURIComponent`.
- `CSS.escape` is an opaque function when the host has one. Only the fallback is specified.
- Some inputs to handlers are parameters:
  - `createId` uses `Math.random`, so the id is a fresh-id parameter. Uniqueness is never checked by the code and is not assumed.
  - The timestamp in the download file name comes from the clock. Only its table-name prefix is logged.
  - Tab ids come from the browser and are modelled as a counter.
- `scrapeTable` runs over an abstract table, and the content script's reply to a scrape request is an oracle of the export model:
  - `innerText` is layout-dependent, so cell texts are given strings.
  - `querySelector` is assumed to return a table element when it returns anything; an invalid selector, which would throw, is not modelled.
  - `querySelectorAll(section)` is modelled for a section named by its tag. Compound selectors are not modelled.
- The `nodeType` test in `buildSelector` is left out: its chain holds only elements.
- `toLowerCase` is modelled for ASCII letters only.
- `sampleRowIndex` is an integer or absent. NaN and fractional numbers, which `Math.min` and `slice` would treat differently, are not modelled.
- Scrape results always come as values: an error string, or rows whose values are strings. `String(value)` in `buildCsv` is therefore the identity.
- A record key such as `__proto__`, which a plain JavaScript object handles specially, is an ordinary key here.
- Csv.BuildCsvRoundTrip: the round trip holds against the lenient reader, not a strict RFC 4180 one. `csvEscape` quotes only for `"`, `,` and line feed, so a carriage return, which a date can carry, is written bare. Section 2 of RFC 4180 allows no carriage return in a bare field. The reader also takes a quote in a bare field, which the writer never produces.
- Only the writer half of CSV comes from the source. The reader `ParseCsv` exists in the model only to state the round trip.
- The DOM, overlay and UI code of the content script is left out: highlighting, `captureCell`, prompts and listeners.
- The popup's export and download UI is left out, and so is `extension/options.js`. Both are UI.
