/** `exportTable` of the background script (extension/background.js): for
    each requested date it opens a background tab at the table's address,
    waits for it to load, asks its content script to scrape, closes the tab
    whatever happened, and either aborts or appends the date-tagged rows;
    at the end it writes one CSV file. The browser is an abstract host that
    logs what it is asked to do and answers scrape requests from an oracle. */
module Export {
  import opened Common
  import opened Url
  import opened Schema
  import Repository
  import Scrape
  import Csv

  /** What the host is asked to do, in order. */
  datatype Event =
    | Opened(tab: nat, url: string)
    | Loaded(tab: nat)
    | ScrapeSent(tab: nat, date: string)
    | Closed(tab: nat)
    | Downloaded(baseName: string, csv: string)

  /** How `sendMessageToTab` settles: no response, a response from the
      content script, or a rejection carrying `runtime.lastError`. */
  datatype Reply = NoReply | Replied(result: Scrape.ScrapeResult) | Rejected(message: string)

  /** The errors `exportTable` throws. */
  datatype ExportError =
    | NoTable
    | NoColumns
    | NoDates
    | BadUrlTemplate
    | ScrapeFailed(message: string)
    | SendFailed(message: string)
    | RowsMissing

  /** The `message` of each thrown error. */
  function Message(e: ExportError): (m: string)
    ensures e.ScrapeFailed? ==> m == e.message
    ensures e.SendFailed? ==> m == e.message
    ensures m == "" ==> e.ScrapeFailed? || e.SendFailed?
  {
    match e
    case NoTable => "Table not found"
    case NoColumns => "Table has no columns defined"
    case NoDates => "No dates provided"
    case BadUrlTemplate => "Table URL template is invalid"
    case ScrapeFailed(m) => m
    case SendFailed(m) => m
    case RowsMissing => "response.rows is not iterable"
  }

  /** The `EXPORT_TABLE` message. */
  datatype ExportMessage = ExportMessage(tableId: string, dates: Option<seq<string>>)

  /** `filter(Boolean)` on strings. */
  function Truthy(s: string): bool
  {
    s != ""
  }

  /** `message.dates || []`. */
  function GivenDates(msg: ExportMessage): seq<string>
  {
    match msg.dates case Some(ds) => ds case None => []
  }

  /** The requested dates: `(message.dates || []).filter(Boolean)`, the
      non-empty dates of the message in their order, a repeated one as often
      as it is listed. */
  function RequestedDates(msg: ExportMessage): (r: seq<string>)
    ensures r == Filter(GivenDates(msg), Truthy)
    ensures forall d :: d in r <==> (msg.dates.Some? && d in msg.dates.value && d != "")
  {
    Filter(GivenDates(msg), Truthy)
  }

  /** The validation steps, in the order `exportTable` makes them: the table,
      then its columns, then the dates. */
  function Validate(tables: seq<Table>, msg: ExportMessage): (r: Result<(Table, seq<string>), ExportError>)
    ensures r.Failure? ==> r.error == NoTable || r.error == NoColumns || r.error == NoDates
    ensures r.Success? ==> r.value.0.id == msg.tableId && r.value.0.columns != []
    ensures r.Success? ==> r.value.1 == RequestedDates(msg) && r.value.1 != []
  {
    var i := Repository.FindTableIndex(tables, msg.tableId);
    if i < 0 then Failure(NoTable)
    else if tables[i].columns == [] then Failure(NoColumns)
    else if RequestedDates(msg) == [] then Failure(NoDates)
    else Success((tables[i], RequestedDates(msg)))
  }

  /** The validation order: a missing table wins over missing columns, and
      missing columns over missing dates; a run starts only with the first
      table of that id, its columns and the non-empty dates. */
  lemma ValidationOrder(tables: seq<Table>, msg: ExportMessage)
    ensures Repository.FindTableIndex(tables, msg.tableId) < 0 <==> Validate(tables, msg) == Failure(NoTable)
    ensures Repository.FindTableIndex(tables, msg.tableId) >= 0 ==>
      var t := tables[Repository.FindTableIndex(tables, msg.tableId)];
      && (t.columns == [] <==> Validate(tables, msg) == Failure(NoColumns))
      && (t.columns != [] && RequestedDates(msg) == [] <==> Validate(tables, msg) == Failure(NoDates))
      && (t.columns != [] && RequestedDates(msg) != [] <==> Validate(tables, msg) == Success((t, RequestedDates(msg))))
    ensures Validate(tables, msg).Success? ==> Validate(tables, msg).value.0 in tables && Validate(tables, msg).value.0.id == msg.tableId
  {
  }

  /** The rows a reply delivers, or the error it aborts the run with:
      `!response || response.error` throws `response?.error || 'Unable to
      scrape table'`, and a response whose error is empty has no rows to walk. */
  function ReplyRows(reply: Reply): (r: Result<seq<Row>, ExportError>)
    ensures r.Success? <==> reply.Replied? && reply.result.ScrapeRows?
    ensures r.Success? ==> r.value == reply.result.rows
  {
    match reply
    case NoReply => Failure(ScrapeFailed("Unable to scrape table"))
    case Rejected(m) => Failure(SendFailed(m))
    case Replied(result) =>
      if result.ScrapeRows? then Success(result.rows)
      else if result.error != "" then Failure(ScrapeFailed(result.error))
      else Failure(RowsMissing)
  }

  /** `{ ...row, __date: date }` for each row. */
  function Tag(rows: seq<Row>, date: string): (r: seq<Row>)
    ensures |r| == |rows|
    ensures forall i :: 0 <= i < |rows| ==> r[i] == rows[i]["__date" := date]
  {
    seq(|rows|, i requires 0 <= i < |rows| => rows[i]["__date" := date])
  }

  /** The host calls of one date: open, wait, scrape, close. */
  function Session(tab: nat, url: string, date: string): seq<Event>
  {
    [Opened(tab, url), Loaded(tab), ScrapeSent(tab, date), Closed(tab)]
  }

  /** The outcome of a run over some dates, with the host calls it makes. */
  datatype Trace = Trace(rows: Result<seq<Row>, ExportError>, events: seq<Event>)

  /** Rows and calls made earlier, before a trace. */
  function Prepend(rows: seq<Row>, events: seq<Event>, t: Trace): Trace
  {
    Trace(match t.rows case Success(more) => Success(rows + more) case Failure(e) => Failure(e),
          events + t.events)
  }

  /** The per-date loop of `exportTable`, as a specification: `tab` is the id
      the host gives the next tab it opens. */
  function Run(table: Table, dates: seq<string>, reply: (string, Table, string) -> Reply, api: UrlApi, tab: nat): Trace
    decreases |dates|
  {
    if dates == [] then Trace(Success([]), [])
    else
      var url := BuildUrlFromTemplate(table.urlTemplate, dates[0], table.page.origin, api);
      if url == "" then Trace(Failure(BadUrlTemplate), [])
      else
        var session := Session(tab, url, dates[0]);
        match ReplyRows(reply(url, table, dates[0]))
        case Failure(e) => Trace(Failure(e), session)
        case Success(rows) => Prepend(Tag(rows, dates[0]), session, Run(table, dates[1..], reply, api, tab + 1))
  }

  /** The outcome of `exportTable` and the host calls it makes. */
  datatype ExportTrace = ExportTrace(outcome: Outcome<ExportError>, events: seq<Event>)

  /** `exportTable(message)` over the tables `getTables` returns. */
  function Export(tables: seq<Table>, msg: ExportMessage, reply: (string, Table, string) -> Reply, api: UrlApi, tab: nat): ExportTrace
  {
    match Validate(tables, msg)
    case Failure(e) => ExportTrace(Fail(e), [])
    case Success((table, dates)) =>
      var run := Run(table, dates, reply, api, tab);
      match run.rows
      case Failure(e) => ExportTrace(Fail(e), run.events)
      case Success(aggregated) =>
        ExportTrace(Pass, run.events + [Downloaded(OrElse(table.name, "table"),
                                                   Csv.CsvText(Csv.CsvRecords(table.columns, aggregated)))])
  }

  /** The browser as `exportTable` uses it. `reply` stands for the page a tab
      shows and its content script: what a scrape request for a table and a
      date gets back from the tab opened at an address. */
  class Browser {
    /** The id the next tab will get. */
    var nextTab: nat
    /** The address each tab was opened at. */
    var tabUrl: map<nat, string>
    /** Every call made so far. */
    var events: seq<Event>
    const reply: (string, Table, string) -> Reply

    constructor (reply: (string, Table, string) -> Reply)
      ensures nextTab == 0 && tabUrl == map[] && events == [] && this.reply == reply
    {
      nextTab := 0;
      tabUrl := map[];
      events := [];
      this.reply := reply;
    }

    /** `createTab(url)`: a new inactive tab. */
    method CreateTab(url: string) returns (tab: nat)
      modifies this
      ensures tab == old(nextTab) && nextTab == old(nextTab) + 1
      ensures tabUrl == old(tabUrl)[tab := url]
      ensures events == old(events) + [Opened(tab, url)]
    {
      tab := nextTab;
      nextTab := nextTab + 1;
      tabUrl := tabUrl[tab := url];
      events := events + [Opened(tab, url)];
    }

    /** `waitForTabComplete(tabId)`, which here always resolves. */
    method WaitForTabComplete(tab: nat)
      modifies this
      ensures nextTab == old(nextTab) && tabUrl == old(tabUrl)
      ensures events == old(events) + [Loaded(tab)]
    {
      events := events + [Loaded(tab)];
    }

    /** `sendMessageToTab(tab.id, { type: 'PERFORM_SCRAPE', table, date })`. */
    method SendScrape(tab: nat, table: Table, date: string) returns (r: Reply)
      requires tab in tabUrl
      modifies this
      ensures r == reply(old(tabUrl)[tab], table, date)
      ensures nextTab == old(nextTab) && tabUrl == old(tabUrl)
      ensures events == old(events) + [ScrapeSent(tab, date)]
    {
      r := reply(tabUrl[tab], table, date);
      events := events + [ScrapeSent(tab, date)];
    }

    /** `closeTab(tabId)`. */
    method CloseTab(tab: nat)
      modifies this
      ensures nextTab == old(nextTab) && tabUrl == old(tabUrl)
      ensures events == old(events) + [Closed(tab)]
    {
      events := events + [Closed(tab)];
    }

    /** `downloadCsv(tableName, csv)`; the file is named after the table, or
        `table`, followed by a timestamp that is not modelled. */
    method Download(tableName: Option<string>, csv: string)
      modifies this
      ensures nextTab == old(nextTab) && tabUrl == old(tabUrl)
      ensures events == old(events) + [Downloaded(OrElse(tableName, "table"), csv)]
    {
      events := events + [Downloaded(OrElse(tableName, "table"), csv)];
    }
  }

  /** Rows and calls prepended twice are prepended once, concatenated. */
  lemma PrependPrepend(a: seq<Row>, ea: seq<Event>, b: seq<Row>, eb: seq<Event>, t: Trace)
    ensures Prepend(a, ea, Prepend(b, eb, t)) == Prepend(a + b, ea + eb, t)
  {
    assert ea + (eb + t.events) == ea + eb + t.events;
    if t.rows.Success? {
      assert a + (b + t.rows.value) == a + b + t.rows.value;
    }
  }

  /** After `k` dates of the loop: what is left of the run, preceded by the
      rows gathered and the calls made so far, is the whole run. */
  predicate Progress(table: Table, dates: seq<string>, reply: (string, Table, string) -> Reply, api: UrlApi,
                     tab0: nat, k: nat, aggregated: seq<Row>, trail: seq<Event>)
  {
    k <= |dates| &&
    Run(table, dates, reply, api, tab0) == Prepend(aggregated, trail, Run(table, dates[k..], reply, api, tab0 + k))
  }

  /** `exportTable` after validation, when the run aborts: its error and calls. */
  lemma ExportAfterFailedRun(tables: seq<Table>, msg: ExportMessage, reply: (string, Table, string) -> Reply, api: UrlApi,
                             tab: nat, table: Table, dates: seq<string>, e: ExportError, events: seq<Event>)
    requires Validate(tables, msg) == Success((table, dates))
    requires Run(table, dates, reply, api, tab) == Trace(Failure(e), events)
    ensures Export(tables, msg, reply, api, tab) == ExportTrace(Fail(e), events)
  {
  }

  /** `exportTable` after validation, when every date succeeds: the calls,
      then the download of the CSV of the aggregated rows. */
  lemma ExportAfterRun(tables: seq<Table>, msg: ExportMessage, reply: (string, Table, string) -> Reply, api: UrlApi,
                       tab: nat, table: Table, dates: seq<string>, aggregated: seq<Row>, events: seq<Event>)
    requires Validate(tables, msg) == Success((table, dates))
    requires Run(table, dates, reply, api, tab) == Trace(Success(aggregated), events)
    ensures Export(tables, msg, reply, api, tab)
      == ExportTrace(Pass, events + [Downloaded(OrElse(table.name, "table"),
                                                Csv.CsvText(Csv.CsvRecords(table.columns, aggregated)))])
  {
  }

  /** Nothing prepended changes nothing. */
  lemma PrependNothing(t: Trace)
    ensures Prepend([], [], t) == t
  {
    assert [] + t.events == t.events;
    if t.rows.Success? {
      assert [] + t.rows.value == t.rows.value;
    }
  }

  lemma ProgressStart(table: Table, dates: seq<string>, reply: (string, Table, string) -> Reply, api: UrlApi, tab0: nat)
    ensures Progress(table, dates, reply, api, tab0, 0, [], [])
  {
    assert dates[0..] == dates;
    PrependNothing(Run(table, dates, reply, api, tab0));
  }

  lemma ProgressEnd(table: Table, dates: seq<string>, reply: (string, Table, string) -> Reply, api: UrlApi,
                    tab0: nat, aggregated: seq<Row>, trail: seq<Event>)
    requires Progress(table, dates, reply, api, tab0, |dates|, aggregated, trail)
    ensures Run(table, dates, reply, api, tab0) == Trace(Success(aggregated), trail)
  {
    assert dates[|dates|..] == [];
    assert aggregated + [] == aggregated && trail + [] == trail;
  }

  /** One step of the per-date loop, unfolded: a date whose scrape succeeds
      moves its session and its tagged rows in front of the rest of the run. */
  lemma RunStep(table: Table, dates: seq<string>, reply: (string, Table, string) -> Reply, api: UrlApi,
                tab0: nat, k: nat, aggregated: seq<Row>, trail: seq<Event>, url: string, rows: seq<Row>)
    requires k < |dates|
    requires url == BuildUrlFromTemplate(table.urlTemplate, dates[k], table.page.origin, api) && url != ""
    requires ReplyRows(reply(url, table, dates[k])) == Success(rows)
    requires Progress(table, dates, reply, api, tab0, k, aggregated, trail)
    ensures Progress(table, dates, reply, api, tab0, k + 1, aggregated + Tag(rows, dates[k]),
                     trail + Session(tab0 + k, url, dates[k]))
  {
    assert dates[k..][0] == dates[k];
    assert dates[k..][1..] == dates[k + 1..];
    PrependPrepend(aggregated, trail, Tag(rows, dates[k]), Session(tab0 + k, url, dates[k]),
                   Run(table, dates[k + 1..], reply, api, tab0 + k + 1));
  }

  /** A date without an address ends the run before its tab is opened. */
  lemma RunAbortUrl(table: Table, dates: seq<string>, reply: (string, Table, string) -> Reply, api: UrlApi,
                    tab0: nat, k: nat, aggregated: seq<Row>, trail: seq<Event>)
    requires k < |dates|
    requires BuildUrlFromTemplate(table.urlTemplate, dates[k], table.page.origin, api) == ""
    requires Progress(table, dates, reply, api, tab0, k, aggregated, trail)
    ensures Run(table, dates, reply, api, tab0) == Trace(Failure(BadUrlTemplate), trail)
  {
    assert dates[k..][0] == dates[k];
    assert trail + [] == trail;
  }

  /** A date whose reply carries no rows ends the run after its tab is closed. */
  lemma RunAbortReply(table: Table, dates: seq<string>, reply: (string, Table, string) -> Reply, api: UrlApi,
                      tab0: nat, k: nat, aggregated: seq<Row>, trail: seq<Event>, url: string, e: ExportError)
    requires k < |dates|
    requires url == BuildUrlFromTemplate(table.urlTemplate, dates[k], table.page.origin, api) && url != ""
    requires ReplyRows(reply(url, table, dates[k])) == Failure(e)
    requires Progress(table, dates, reply, api, tab0, k, aggregated, trail)
    ensures Run(table, dates, reply, api, tab0) == Trace(Failure(e), trail + Session(tab0 + k, url, dates[k]))
  {
    assert dates[k..][0] == dates[k];
  }

  lemma EventsRegroup(a: seq<Event>, b: seq<Event>, c: seq<Event>)
    ensures (a + b) + c == a + (b + c)
  {
  }

  /** The inner loop of `exportTable`: `aggregated.push({ ...row, __date: date })`
      for each row of a reply. */
  method AppendTagged(aggregated: seq<Row>, rows: seq<Row>, date: string) returns (r: seq<Row>)
    ensures r == aggregated + Tag(rows, date)
  {
    r := aggregated;
    var j := 0;
    while j < |rows|
      invariant 0 <= j <= |rows|
      invariant r == aggregated + Tag(rows[..j], date)
    {
      assert rows[..j + 1] == rows[..j] + [rows[j]];
      r := r + [rows[j]["__date" := date]];
      j := j + 1;
    }
    assert rows[..j] == rows;
  }

  /** One date's tab: opened, waited for, asked to scrape, and closed in
      `finally` whatever the reply. */
  method Visit(browser: Browser, url: string, table: Table, date: string) returns (reply: Reply)
    modifies browser
    ensures reply == browser.reply(url, table, date)
    ensures browser.nextTab == old(browser.nextTab) + 1
    ensures browser.events == old(browser.events) + Session(old(browser.nextTab), url, date)
  {
    var tab := browser.CreateTab(url);
    browser.WaitForTabComplete(tab);
    reply := browser.SendScrape(tab, table, date);
    browser.CloseTab(tab);
  }

  /** The per-date loop of `exportTable`: the rows gathered when every date
      succeeds, or the error that stopped it. */
  method RunDates(browser: Browser, table: Table, dates: seq<string>, api: UrlApi) returns (rows: Result<seq<Row>, ExportError>)
    modifies browser
    ensures var run := Run(table, dates, browser.reply, api, old(browser.nextTab));
      rows == run.rows && browser.events == old(browser.events) + run.events
  {
    ghost var tab0 := browser.nextTab;
    ghost var start := browser.events;
    ghost var run := Run(table, dates, browser.reply, api, tab0);
    ghost var trail: seq<Event> := [];
    var aggregated: seq<Row> := [];
    var k := 0;
    ProgressStart(table, dates, browser.reply, api, tab0);
    while k < |dates|
      invariant 0 <= k <= |dates|
      invariant browser.nextTab == tab0 + k
      invariant browser.events == start + trail
      invariant Progress(table, dates, browser.reply, api, tab0, k, aggregated, trail)
    {
      var date := dates[k];
      var url := BuildUrlFromTemplate(table.urlTemplate, date, table.page.origin, api);
      if url == "" {
        RunAbortUrl(table, dates, browser.reply, api, tab0, k, aggregated, trail);
        assert browser.events == start + run.events;
        return Failure(BadUrlTemplate);
      }
      ghost var session := Session(tab0 + k, url, date);
      ghost var before := browser.events;
      var reply := Visit(browser, url, table, date);
      assert browser.events == before + session;
      EventsRegroup(start, trail, session);
      var got := ReplyRows(reply);
      if got.Failure? {
        RunAbortReply(table, dates, browser.reply, api, tab0, k, aggregated, trail, url, got.error);
        assert browser.events == start + run.events;
        return Failure(got.error);
      }
      RunStep(table, dates, browser.reply, api, tab0, k, aggregated, trail, url, got.value);
      trail := trail + session;
      aggregated := AppendTagged(aggregated, got.value, date);
      k := k + 1;
    }
    ProgressEnd(table, dates, browser.reply, api, tab0, aggregated, trail);
    rows := Success(aggregated);
  }

  /** `exportTable`: validation, then the per-date loop, then the CSV. */
  method ExportTable(store: Repository.TableStore, browser: Browser, msg: ExportMessage) returns (r: Outcome<ExportError>)
    modifies browser
    ensures var x := Export(store.Tables(), msg, browser.reply, store.api, old(browser.nextTab));
      r == x.outcome && browser.events == old(browser.events) + x.events
  {
    var tables := store.Tables();
    var found := Validate(tables, msg);
    if found.Failure? {
      return Fail(found.error);
    }
    var table := found.value.0;
    ghost var tab0 := browser.nextTab;
    ghost var run := Run(table, found.value.1, browser.reply, store.api, tab0);
    var rows := RunDates(browser, table, found.value.1, store.api);
    if rows.Failure? {
      ExportAfterFailedRun(tables, msg, browser.reply, store.api, tab0, table, found.value.1, rows.error, run.events);
      return Fail(rows.error);
    }
    ExportAfterRun(tables, msg, browser.reply, store.api, tab0, table, found.value.1, rows.value, run.events);
    var csv := Csv.BuildCsv(table.columns, rows.value);
    EventsRegroup(old(browser.events), run.events, [Downloaded(OrElse(table.name, "table"), csv)]);
    browser.Download(table.name, csv);
    r := Pass;
  }

  // ---------------------------------------------------------------------
  // Properties of a run.

  /** The tabs opened, in order. */
  function OpenedTabs(events: seq<Event>): seq<nat>
  {
    if events == [] then []
    else (if events[0].Opened? then [events[0].tab] else []) + OpenedTabs(events[1..])
  }

  /** The tabs closed, in order. */
  function ClosedTabs(events: seq<Event>): seq<nat>
  {
    if events == [] then []
    else (if events[0].Closed? then [events[0].tab] else []) + ClosedTabs(events[1..])
  }

  lemma {:induction false} OpenedAppend(a: seq<Event>, b: seq<Event>)
    ensures OpenedTabs(a + b) == OpenedTabs(a) + OpenedTabs(b)
    decreases |a|
  {
    if a == [] {
      assert a + b == b;
    } else {
      var ab := a + b;
      assert ab[0] == a[0];
      assert ab[1..] == a[1..] + b;
      OpenedAppend(a[1..], b);
      var h: seq<nat> := if a[0].Opened? then [a[0].tab] else [];
      assert OpenedTabs(ab) == h + OpenedTabs(a[1..] + b);
      assert OpenedTabs(a) == h + OpenedTabs(a[1..]);
    }
  }

  lemma {:induction false} ClosedAppend(a: seq<Event>, b: seq<Event>)
    ensures ClosedTabs(a + b) == ClosedTabs(a) + ClosedTabs(b)
    decreases |a|
  {
    if a == [] {
      assert a + b == b;
    } else {
      var ab := a + b;
      assert ab[0] == a[0];
      assert ab[1..] == a[1..] + b;
      ClosedAppend(a[1..], b);
      var h: seq<nat> := if a[0].Closed? then [a[0].tab] else [];
      assert ClosedTabs(ab) == h + ClosedTabs(a[1..] + b);
      assert ClosedTabs(a) == h + ClosedTabs(a[1..]);
    }
  }

  /** Every tab a run opens it also closes, once, in the same order; the tabs
      are the consecutive ids from the first one, so no id repeats. */
  lemma {:induction false} SessionsPaired(table: Table, dates: seq<string>, reply: (string, Table, string) -> Reply, api: UrlApi, tab: nat)
    ensures var ev := Run(table, dates, reply, api, tab).events;
      && OpenedTabs(ev) == ClosedTabs(ev)
      && |OpenedTabs(ev)| <= |dates|
      && forall i :: 0 <= i < |OpenedTabs(ev)| ==> OpenedTabs(ev)[i] == tab + i
    decreases |dates|
  {
    if dates != [] {
      var url := BuildUrlFromTemplate(table.urlTemplate, dates[0], table.page.origin, api);
      if url != "" {
        var session := Session(tab, url, dates[0]);
        SessionTabs(tab, url, dates[0]);
        var rest := Run(table, dates[1..], reply, api, tab + 1);
        SessionsPaired(table, dates[1..], reply, api, tab + 1);
        OpenedAppend(session, rest.events);
        ClosedAppend(session, rest.events);
      }
    }
  }

  /** The tabs open after a sequence of calls, starting from `open`. */
  function OpenAfter(open: set<nat>, events: seq<Event>): set<nat>
    decreases |events|
  {
    if events == [] then open
    else
      var e := events[0];
      var next := if e.Opened? then open + {e.tab} else if e.Closed? then open - {e.tab} else open;
      OpenAfter(next, events[1..])
  }

  lemma {:induction false} OpenAfterAppend(open: set<nat>, a: seq<Event>, b: seq<Event>)
    ensures OpenAfter(open, a + b) == OpenAfter(OpenAfter(open, a), b)
    decreases |a|
  {
    if a == [] {
      assert a + b == b;
    } else {
      assert (a + b)[1..] == a[1..] + b;
      var e := a[0];
      var next := if e.Opened? then open + {e.tab} else if e.Closed? then open - {e.tab} else open;
      OpenAfterAppend(next, a[1..], b);
    }
  }

  /** A session opens its tab and closes it. */
  lemma SessionTabs(tab: nat, url: string, date: string)
    ensures OpenedTabs(Session(tab, url, date)) == [tab]
    ensures ClosedTabs(Session(tab, url, date)) == [tab]
  {
    var s := Session(tab, url, date);
    assert s[1..][1..][1..][1..] == [];
    assert OpenedTabs(s[1..][1..][1..]) == [] && ClosedTabs(s[1..][1..][1..]) == [tab];
    assert OpenedTabs(s[1..]) == [] && ClosedTabs(s[1..]) == [tab];
  }

  /** The tabs open after one more call. */
  lemma OpenAfterLast(open: set<nat>, a: seq<Event>, e: Event)
    ensures OpenAfter(open, a + [e]) == var o := OpenAfter(open, a);
      if e.Opened? then o + {e.tab} else if e.Closed? then o - {e.tab} else o
  {
    OpenAfterAppend(open, a, [e]);
    assert [e][1..] == [];
  }

  /** Within one session at most its own tab is open, and none after it. */
  lemma SessionOpenTabs(tab: nat, url: string, date: string)
    ensures forall n :: 0 <= n <= 4 ==> |OpenAfter({}, Session(tab, url, date)[..n])| <= 1
    ensures OpenAfter({}, Session(tab, url, date)) == {}
  {
    var s := Session(tab, url, date);
    assert s[..0] == [];
    assert s[..1] == s[..0] + [s[0]];
    assert s[..2] == s[..1] + [s[1]];
    assert s[..3] == s[..2] + [s[2]];
    assert s[..4] == s[..3] + [s[3]];
    OpenAfterLast({}, s[..0], s[0]);
    OpenAfterLast({}, s[..1], s[1]);
    OpenAfterLast({}, s[..2], s[2]);
    OpenAfterLast({}, s[..3], s[3]);
    assert OpenAfter({}, s[..1]) == {tab};
    assert OpenAfter({}, s[..2]) == {tab};
    assert OpenAfter({}, s[..3]) == {tab};
    assert OpenAfter({}, s[..4]) == {};
    assert s[..4] == s;
  }

  /** At every point of a run at most one tab is open, and none at its end. */
  lemma {:induction false} OneTabAtATime(table: Table, dates: seq<string>, reply: (string, Table, string) -> Reply, api: UrlApi, tab: nat)
    ensures var ev := Run(table, dates, reply, api, tab).events;
      && (forall n :: 0 <= n <= |ev| ==> |OpenAfter({}, ev[..n])| <= 1)
      && OpenAfter({}, ev) == {}
    decreases |dates|
  {
    var ev := Run(table, dates, reply, api, tab).events;
    if dates == [] {
      assert ev == [];
      assert forall n :: 0 <= n <= |ev| ==> ev[..n] == [];
    } else {
      var url := BuildUrlFromTemplate(table.urlTemplate, dates[0], table.page.origin, api);
      if url == "" {
        assert ev == [];
        assert forall n :: 0 <= n <= |ev| ==> ev[..n] == [];
      } else {
        var session := Session(tab, url, dates[0]);
        SessionOpenTabs(tab, url, dates[0]);
        var rest: seq<Event> := [];
        if ReplyRows(reply(url, table, dates[0])).Success? {
          rest := Run(table, dates[1..], reply, api, tab + 1).events;
          OneTabAtATime(table, dates[1..], reply, api, tab + 1);
        }
        assert ev == session + rest;
        forall n | 0 <= n <= |ev| ensures |OpenAfter({}, ev[..n])| <= 1 {
          if n <= 4 {
            assert ev[..n] == session[..n];
          } else {
            assert ev[..n] == session + rest[..n - 4];
            OpenAfterAppend({}, session, rest[..n - 4]);
          }
        }
        OpenAfterAppend({}, session, rest);
        if rest == [] {
          assert session + rest == session;
        }
      }
    }
  }

  /** A run only opens, waits for, scrapes and closes tabs: it never downloads. */
  lemma {:induction false} RunNeverDownloads(table: Table, dates: seq<string>, reply: (string, Table, string) -> Reply, api: UrlApi, tab: nat)
    ensures forall i :: 0 <= i < |Run(table, dates, reply, api, tab).events| ==> !Run(table, dates, reply, api, tab).events[i].Downloaded?
    decreases |dates|
  {
    if dates != [] {
      RunNeverDownloads(table, dates[1..], reply, api, tab + 1);
    }
  }

  /** Runs over consecutive lists of dates chain: when the first list
      succeeds, the whole run is its rows and calls followed by those of the
      second, whose tabs start where the first run's ended. */
  lemma {:induction false} RunAppend(table: Table, d1: seq<string>, d2: seq<string>, reply: (string, Table, string) -> Reply, api: UrlApi, tab: nat)
    requires Run(table, d1, reply, api, tab).rows.Success?
    ensures var first := Run(table, d1, reply, api, tab);
      Run(table, d1 + d2, reply, api, tab)
      == Prepend(first.rows.value, first.events, Run(table, d2, reply, api, tab + |d1|))
    decreases |d1|
  {
    if d1 == [] {
      assert d1 + d2 == d2;
      PrependNothing(Run(table, d2, reply, api, tab));
    } else {
      assert (d1 + d2)[0] == d1[0];
      assert (d1 + d2)[1..] == d1[1..] + d2;
      var url := BuildUrlFromTemplate(table.urlTemplate, d1[0], table.page.origin, api);
      var rows := ReplyRows(reply(url, table, d1[0])).value;
      var rest := Run(table, d1[1..], reply, api, tab + 1);
      RunAppend(table, d1[1..], d2, reply, api, tab + 1);
      PrependPrepend(Tag(rows, d1[0]), Session(tab, url, d1[0]), rest.rows.value, rest.events,
                     Run(table, d2, reply, api, tab + |d1|));
    }
  }

  /** Every aggregated row carries the date it was scraped for, as `__date`. */
  lemma {:induction false} RowsCarryTheirDate(table: Table, dates: seq<string>, reply: (string, Table, string) -> Reply, api: UrlApi, tab: nat)
    requires Run(table, dates, reply, api, tab).rows.Success?
    ensures forall r :: r in Run(table, dates, reply, api, tab).rows.value ==> "__date" in r && r["__date"] in dates
    decreases |dates|
  {
    if dates != [] {
      var url := BuildUrlFromTemplate(table.urlTemplate, dates[0], table.page.origin, api);
      var rows := ReplyRows(reply(url, table, dates[0])).value;
      RowsCarryTheirDate(table, dates[1..], reply, api, tab + 1);
      assert forall d :: d in dates[1..] ==> d in dates;
      var tagged := Tag(rows, dates[0]);
      assert forall r :: r in tagged ==> "__date" in r && r["__date"] == dates[0];
    }
  }

  /** An empty address template stops an export at its first date, before any
      tab is opened. */
  lemma EmptyTemplateOpensNothing(tables: seq<Table>, msg: ExportMessage, reply: (string, Table, string) -> Reply, api: UrlApi, tab: nat)
    requires Validate(tables, msg).Success?
    requires Validate(tables, msg).value.0.urlTemplate == ""
    ensures Export(tables, msg, reply, api, tab) == ExportTrace(Fail(BadUrlTemplate), [])
  {
    var table := Validate(tables, msg).value.0;
    var dates := Validate(tables, msg).value.1;
    assert dates != [];
    assert BuildUrlFromTemplate(table.urlTemplate, dates[0], table.page.origin, api) == "";
  }

  /** The text `exportTable` throws at one date, or None when the date's rows
      are collected: an empty address means an invalid template; no response
      means `'Unable to scrape table'`; a rejected send carries the runtime's
      text; a response with an error carries that error; and a response with
      neither rows nor an error fails when its rows are iterated. */
  function DateFailure(table: Table, date: string, reply: (string, Table, string) -> Reply, api: UrlApi): Option<string>
  {
    var url := BuildUrlFromTemplate(table.urlTemplate, date, table.page.origin, api);
    if url == "" then Some("Table URL template is invalid")
    else match reply(url, table, date)
      case NoReply => Some("Unable to scrape table")
      case Rejected(m) => Some(m)
      case Replied(result) =>
        if result.ScrapeRows? then None
        else if result.error != "" then Some(result.error)
        else Some("response.rows is not iterable")
  }

  /** A run fails exactly when one of its dates fails, and then with the
      message of the first date that fails. */
  lemma {:induction false} RunFailureMessage(table: Table, dates: seq<string>, reply: (string, Table, string) -> Reply, api: UrlApi, tab: nat)
    ensures Run(table, dates, reply, api, tab).rows.Failure? <==>
              exists k :: 0 <= k < |dates| && DateFailure(table, dates[k], reply, api).Some?
    ensures Run(table, dates, reply, api, tab).rows.Failure? ==>
              exists k ::
                && 0 <= k < |dates|
                && (forall j :: 0 <= j < k ==> DateFailure(table, dates[j], reply, api).None?)
                && DateFailure(table, dates[k], reply, api) == Some(Message(Run(table, dates, reply, api, tab).rows.error))
    decreases |dates|
  {
    if dates != [] {
      var t := Run(table, dates, reply, api, tab);
      var url := BuildUrlFromTemplate(table.urlTemplate, dates[0], table.page.origin, api);
      if url == "" {
        assert t.rows == Failure(BadUrlTemplate);
        assert DateFailure(table, dates[0], reply, api) == Some(Message(t.rows.error));
      } else {
        match ReplyRows(reply(url, table, dates[0]))
        case Failure(e) =>
          assert t.rows == Failure(e);
          assert DateFailure(table, dates[0], reply, api) == Some(Message(e));
        case Success(rows) =>
          var rest := Run(table, dates[1..], reply, api, tab + 1);
          RunFailureMessage(table, dates[1..], reply, api, tab + 1);
          assert t == Prepend(Tag(rows, dates[0]), Session(tab, url, dates[0]), rest);
          assert DateFailure(table, dates[0], reply, api).None?;
          RunFailureShift(table, dates, reply, api, t.rows, rest.rows);
      }
    }
  }

  /** The step of `RunFailureMessage` past a date whose rows were collected. */
  lemma RunFailureShift(table: Table, dates: seq<string>, reply: (string, Table, string) -> Reply, api: UrlApi,
                        rows: Result<seq<Row>, ExportError>, restRows: Result<seq<Row>, ExportError>)
    requires dates != [] && DateFailure(table, dates[0], reply, api).None?
    requires rows.Failure? <==> restRows.Failure?
    requires rows.Failure? ==> rows.error == restRows.error
    requires restRows.Failure? <==> exists k :: 0 <= k < |dates[1..]| && DateFailure(table, dates[1..][k], reply, api).Some?
    requires restRows.Failure? ==>
               exists k ::
                 && 0 <= k < |dates[1..]|
                 && (forall j :: 0 <= j < k ==> DateFailure(table, dates[1..][j], reply, api).None?)
                 && DateFailure(table, dates[1..][k], reply, api) == Some(Message(restRows.error))
    ensures rows.Failure? <==> exists k :: 0 <= k < |dates| && DateFailure(table, dates[k], reply, api).Some?
    ensures rows.Failure? ==>
              exists k ::
                && 0 <= k < |dates|
                && (forall j :: 0 <= j < k ==> DateFailure(table, dates[j], reply, api).None?)
                && DateFailure(table, dates[k], reply, api) == Some(Message(rows.error))
  {
    if k :| 0 <= k < |dates| && DateFailure(table, dates[k], reply, api).Some? {
      assert dates[1..][k - 1] == dates[k];
    }
    if rows.Failure? {
      var k :| && 0 <= k < |dates[1..]|
               && (forall j :: 0 <= j < k ==> DateFailure(table, dates[1..][j], reply, api).None?)
               && DateFailure(table, dates[1..][k], reply, api) == Some(Message(restRows.error));
      assert dates[k + 1] == dates[1..][k];
      forall j | 0 <= j < k + 1
        ensures DateFailure(table, dates[j], reply, api).None?
      {
        if j > 0 {
          assert dates[j] == dates[1..][j - 1];
        }
      }
    }
  }

  /** The message a failed export reports: a validation failure's, in the
      order the checks are made, or else that of the first requested date
      that fails. */
  lemma ExportFailureMessage(tables: seq<Table>, msg: ExportMessage, reply: (string, Table, string) -> Reply, api: UrlApi, tab: nat)
    requires Export(tables, msg, reply, api, tab).outcome.Fail?
    ensures var m := Message(Export(tables, msg, reply, api, tab).outcome.error);
      match Validate(tables, msg)
      case Failure(_) =>
        var i := Repository.FindTableIndex(tables, msg.tableId);
        m == if i < 0 then "Table not found"
             else if tables[i].columns == [] then "Table has no columns defined"
             else "No dates provided"
      case Success((table, dates)) =>
        exists k ::
          && 0 <= k < |dates|
          && (forall j :: 0 <= j < k ==> DateFailure(table, dates[j], reply, api).None?)
          && DateFailure(table, dates[k], reply, api) == Some(m)
  {
    if Validate(tables, msg).Success? {
      RunFailureMessage(Validate(tables, msg).value.0, Validate(tables, msg).value.1, reply, api, tab);
    }
  }

  /** A failed export downloads nothing; it makes no call at all when it
      fails validation. */
  lemma FailureDownloadsNothing(tables: seq<Table>, msg: ExportMessage, reply: (string, Table, string) -> Reply, api: UrlApi, tab: nat)
    ensures var x := Export(tables, msg, reply, api, tab);
      x.outcome.Fail? ==> forall i :: 0 <= i < |x.events| ==> !x.events[i].Downloaded?
    ensures Validate(tables, msg).Failure? ==> Export(tables, msg, reply, api, tab) == ExportTrace(Fail(Validate(tables, msg).error), [])
  {
    if Validate(tables, msg).Success? {
      RunNeverDownloads(Validate(tables, msg).value.0, Validate(tables, msg).value.1, reply, api, tab);
    }
  }

  /** A successful export ends with exactly one download, the last call, whose
      CSV reads back as the header and one record per aggregated row. */
  lemma SuccessDownloadsOnce(tables: seq<Table>, msg: ExportMessage, reply: (string, Table, string) -> Reply, api: UrlApi, tab: nat)
    requires Export(tables, msg, reply, api, tab).outcome.Pass?
    ensures var x := Export(tables, msg, reply, api, tab);
      var table := Validate(tables, msg).value.0;
      var run := Run(table, Validate(tables, msg).value.1, reply, api, tab);
      && run.rows.Success?
      && x.events == run.events + [x.events[|x.events| - 1]]
      && x.events[|x.events| - 1].Downloaded?
      && Csv.ParseCsv(x.events[|x.events| - 1].csv) == Some(Csv.CsvRecords(table.columns, run.rows.value))
      && (forall i :: 0 <= i < |x.events| - 1 ==> !x.events[i].Downloaded?)
  {
    var table := Validate(tables, msg).value.0;
    var run := Run(table, Validate(tables, msg).value.1, reply, api, tab);
    RunNeverDownloads(table, Validate(tables, msg).value.1, reply, api, tab);
    Csv.BuildCsvRoundTrip(table.columns, run.rows.value);
  }
}
