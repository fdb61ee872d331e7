/** The CSV writer of the background script (`csvEscape`, `buildCsv` in
    extension/background.js) and a reader for the lenient dialect it writes:
    a quoted field as in RFC 4180, with doubled quotes inside; a bare field
    is any text without a comma or a line feed, carriage returns and quotes
    included; a line feed separates records. The reader is the partner the writer is proved
    against: whatever `buildCsv` writes reads back as the fields it was given. */
module Csv {
  import opened Common
  import opened Url
  import opened Schema

  /** `/[",\n]/.test(value)`. */
  predicate NeedsQuotes(value: string)
  {
    '"' in value || ',' in value || '\n' in value
  }

  /** `csvEscape` on a string: every quote doubled, and the whole wrapped in
      quotes when it holds a quote, a comma or a line feed. */
  function CsvEscape(value: string): (r: string)
    ensures !NeedsQuotes(value) ==> r == value
    ensures NeedsQuotes(value) ==> |r| >= 2 && r[0] == '"' && r[|r| - 1] == '"'
  {
    var escaped := ReplaceAll(value, "\"", "\"\"");
    if NeedsQuotes(value) then
      "\"" + escaped + "\""
    else
      NoQuoteUnchanged(value);
      escaped
  }

  /** Doubling the quotes of a string without quotes changes nothing. */
  lemma NoQuoteUnchanged(value: string)
    requires '"' !in value
    ensures ReplaceAll(value, "\"", "\"\"") == value
  {
    NotContainsWithoutFirst(value, "\"");
    ReplaceAllAbsent(value, "\"", "\"\"");
  }

  /** `csvEscape(value)` for a value that may be `null` or `undefined`: those
      give the empty field. Either way the field reads back as the value, with
      a missing value read as the empty string. */
  function CsvEscapeValue(value: Option<string>): (r: string)
    ensures value.None? ==> r == ""
    ensures value.Some? ==> r == CsvEscape(value.value)
    ensures ParseField(r) == Some((match value case Some(v) => v case None => "", ""))
  {
    match value
    case None => ""
    case Some(v) =>
      EscapedFieldParses(v, "");
      assert CsvEscape(v) + "" == CsvEscape(v);
      CsvEscape(v)
  }

  /** The fields of one record, escaped and joined by commas. */
  function EncodeRecord(fields: seq<string>): string
  {
    Join(seq(|fields|, i requires 0 <= i < |fields| => CsvEscape(fields[i])), ",")
  }

  /** The header record: `['Date', ...columns.map((col) => col.name)]`. */
  function HeaderFields(columns: seq<Column>): (r: seq<string>)
    ensures |r| == |columns| + 1 && r[0] == "Date"
    ensures forall i :: 0 <= i < |columns| ==> r[i + 1] == columns[i].name
  {
    ["Date"] + seq(|columns|, i requires 0 <= i < |columns| => columns[i].name)
  }

  /** One data record: the row's `__date`, then the row's value under each
      column name, in column order, with the empty string for a missing one. */
  function RowFields(columns: seq<Column>, row: Row): (r: seq<string>)
    ensures |r| == |columns| + 1
    ensures r[0] == if "__date" in row then row["__date"] else ""
    ensures forall i :: 0 <= i < |columns| ==>
      r[i + 1] == if columns[i].name in row then row[columns[i].name] else ""
  {
    [if "__date" in row then row["__date"] else ""]
    + seq(|columns|, i requires 0 <= i < |columns| =>
            if columns[i].name in row then row[columns[i].name] else "")
  }

  /** The records `buildCsv` writes: the header, then one per row, in order. */
  function CsvRecords(columns: seq<Column>, rows: seq<Row>): (r: seq<seq<string>>)
    ensures |r| == |rows| + 1 && r[0] == HeaderFields(columns)
    ensures forall i :: 0 <= i < |rows| ==> r[i + 1] == RowFields(columns, rows[i])
  {
    [HeaderFields(columns)] + seq(|rows|, i requires 0 <= i < |rows| => RowFields(columns, rows[i]))
  }

  /** The text of a list of records: encoded records joined by line feeds. */
  function CsvText(records: seq<seq<string>>): string
  {
    Join(seq(|records|, i requires 0 <= i < |records| => EncodeRecord(records[i])), "\n")
  }

  /** `buildCsv(columns, rows)`. */
  method BuildCsv(columns: seq<Column>, rows: seq<Row>) returns (csv: string)
    ensures csv == CsvText(CsvRecords(columns, rows))
  {
    var lines := [EncodeRecord(HeaderFields(columns))];
    var i := 0;
    while i < |rows|
      invariant 0 <= i <= |rows|
      invariant |lines| == i + 1
      invariant forall k :: 0 <= k < i + 1 ==> lines[k] == EncodeRecord(CsvRecords(columns, rows)[k])
    {
      var line := RowFields(columns, rows[i]);
      lines := lines + [EncodeRecord(line)];
      i := i + 1;
    }
    var records := CsvRecords(columns, rows);
    assert lines == seq(|records|, k requires 0 <= k < |records| => EncodeRecord(records[k]));
    csv := Join(lines, "\n");
  }

  // ---------------------------------------------------------------------
  // The reader.

  /** The remainder of a quoted field after its opening quote: characters up
      to the closing quote, with `""` read as one quote. Returns the field and
      what follows the closing quote, or None when the quote never closes. */
  function ParseQuoted(s: string): (r: Option<(string, string)>)
    ensures r.Some? ==> |r.value.1| < |s|
  {
    if s == [] then None
    else if s[0] == '"' then
      if |s| >= 2 && s[1] == '"' then
        match ParseQuoted(s[2..])
        case None => None
        case Some((f, rest)) => Some(("\"" + f, rest))
      else Some(("", s[1..]))
    else
      match ParseQuoted(s[1..])
      case None => None
      case Some((f, rest)) => Some(([s[0]] + f, rest))
  }

  /** An unquoted field: everything up to the next comma or line feed. */
  function ParseBare(s: string): (r: (string, string))
    ensures |r.1| <= |s|
    ensures r.0 + r.1 == s
    ensures r.1 == [] || r.1[0] == ',' || r.1[0] == '\n'
  {
    if s == [] || s[0] == ',' || s[0] == '\n' then ("", s)
    else
      var (f, rest) := ParseBare(s[1..]);
      ([s[0]] + f, rest)
  }

  function ParseField(s: string): (r: Option<(string, string)>)
    ensures r.Some? ==> |r.value.1| <= |s|
  {
    if |s| > 0 && s[0] == '"' then ParseQuoted(s[1..]) else Some(ParseBare(s))
  }

  /** One record and what follows it: None when the text ended, or the text
      after the line feed that closed the record. */
  function ParseRecord(s: string): (r: Option<(seq<string>, Option<string>)>)
    ensures r.Some? ==> |r.value.0| >= 1
    ensures r.Some? && r.value.1.Some? ==> |r.value.1.value| < |s|
    decreases |s|
  {
    match ParseField(s)
    case None => None
    case Some((f, rest)) =>
      if rest == [] then Some(([f], None))
      else if rest[0] == '\n' then Some(([f], Some(rest[1..])))
      else if rest[0] == ',' then
        match ParseRecord(rest[1..])
        case None => None
        case Some((fs, after)) => Some(([f] + fs, after))
      else None
  }

  /** Every record of a text. */
  function ParseCsv(s: string): Option<seq<seq<string>>>
    decreases |s|
  {
    match ParseRecord(s)
    case None => None
    case Some((fields, None)) => Some([fields])
    case Some((fields, Some(rest))) =>
      match ParseCsv(rest)
      case None => None
      case Some(more) => Some([fields] + more)
  }

  // ---------------------------------------------------------------------
  // The writer reads back.

  /** What may follow a field: nothing, or a separator. */
  predicate FieldEnd(tail: string)
  {
    tail == [] || tail[0] == ',' || tail[0] == '\n'
  }

  /** The doubled-quote body of a quoted field, followed by the closing
      quote, reads back as the value. */
  lemma {:induction false} QuotedBodyParses(v: string, tail: string)
    requires FieldEnd(tail)
    ensures ParseQuoted(ReplaceAll(v, "\"", "\"\"") + "\"" + tail) == Some((v, tail))
    decreases |v|
  {
    if v == [] {
      var s := ReplaceAll(v, "\"", "\"\"") + "\"" + tail;
      assert s == "\"" + tail;
      assert s[1..] == tail;
    } else {
      QuotedBodyParses(v[1..], tail);
      var body := ReplaceAll(v[1..], "\"", "\"\"");
      DoubleQuotesCons(v);
      if v[0] == '"' {
        QuotedStepQuote(body, v[1..], tail);
        assert v == "\"" + v[1..];
      } else {
        QuotedStepPlain(v[0], body, v[1..], tail);
        assert v == [v[0]] + v[1..];
      }
    }
  }

  /** Doubling quotes works character by character. */
  lemma DoubleQuotesCons(v: string)
    requires v != []
    ensures ReplaceAll(v, "\"", "\"\"") == (if v[0] == '"' then "\"\"" else [v[0]]) + ReplaceAll(v[1..], "\"", "\"\"")
  {
    if v[0] == '"' {
      assert v[..1] == "\"";
    } else {
      assert v[..1] != "\"";
    }
  }

  /** A doubled quote inside a quoted field reads as one quote. */
  lemma QuotedStepQuote(body: string, w: string, tail: string)
    requires ParseQuoted(body + "\"" + tail) == Some((w, tail))
    ensures ParseQuoted("\"\"" + body + "\"" + tail) == Some(("\"" + w, tail))
  {
    var s := "\"\"" + body + "\"" + tail;
    assert s[0] == '"' && s[1] == '"';
    assert s[2..] == body + "\"" + tail;
  }

  /** Any other character inside a quoted field reads as itself. */
  lemma QuotedStepPlain(c: char, body: string, w: string, tail: string)
    requires c != '"'
    requires ParseQuoted(body + "\"" + tail) == Some((w, tail))
    ensures ParseQuoted([c] + body + "\"" + tail) == Some(([c] + w, tail))
  {
    var s := [c] + body + "\"" + tail;
    assert s[0] == c;
    assert s[1..] == body + "\"" + tail;
  }

  /** A field with no quote, comma or line feed reads back bare. */
  lemma {:induction false} BareParses(v: string, tail: string)
    requires !NeedsQuotes(v) && FieldEnd(tail)
    ensures ParseBare(v + tail) == (v, tail)
    decreases |v|
  {
    if v != [] {
      assert (v + tail)[1..] == v[1..] + tail;
      assert (v + tail)[0] == v[0];
      assert !NeedsQuotes(v[1..]) by {
        assert forall c :: c in v[1..] ==> c in v;
      }
      BareParses(v[1..], tail);
      assert v == [v[0]] + v[1..];
    } else {
      assert v + tail == tail;
    }
  }

  /** Every escaped field reads back as the value it escaped. */
  lemma EscapedFieldParses(v: string, tail: string)
    requires FieldEnd(tail)
    ensures ParseField(CsvEscape(v) + tail) == Some((v, tail))
  {
    if NeedsQuotes(v) {
      QuotedFieldParses(v, tail);
    } else {
      BareFieldParses(v, tail);
    }
  }

  lemma QuotedFieldParses(v: string, tail: string)
    requires FieldEnd(tail) && NeedsQuotes(v)
    ensures ParseField(CsvEscape(v) + tail) == Some((v, tail))
  {
    var body := ReplaceAll(v, "\"", "\"\"");
    var s := CsvEscape(v) + tail;
    assert s == "\"" + (body + "\"" + tail);
    QuotedBodyParses(v, tail);
    FieldAfterQuote(s, body + "\"" + tail);
  }

  /** A field that opens with a quote is read as a quoted field. */
  lemma FieldAfterQuote(s: string, rest: string)
    requires s == "\"" + rest
    ensures ParseField(s) == ParseQuoted(rest)
  {
    assert s[0] == '"' && s[1..] == rest;
  }

  lemma BareFieldParses(v: string, tail: string)
    requires FieldEnd(tail) && !NeedsQuotes(v)
    ensures ParseField(CsvEscape(v) + tail) == Some((v, tail))
  {
    BareParses(v, tail);
    if |v| > 0 {
      assert (v + tail)[0] == v[0];
    }
  }

  lemma EncodeRecordCons(fields: seq<string>)
    requires |fields| >= 1
    ensures |fields| == 1 ==> EncodeRecord(fields) == CsvEscape(fields[0])
    ensures |fields| >= 2 ==> EncodeRecord(fields) == CsvEscape(fields[0]) + "," + EncodeRecord(fields[1..])
  {
    var parts := seq(|fields|, i requires 0 <= i < |fields| => CsvEscape(fields[i]));
    if |fields| >= 2 {
      assert parts[1..] == seq(|fields| - 1, i requires 0 <= i < |fields| - 1 => CsvEscape(fields[1..][i]));
    }
  }

  lemma CsvTextCons(records: seq<seq<string>>)
    requires |records| >= 1
    ensures |records| == 1 ==> CsvText(records) == EncodeRecord(records[0])
    ensures |records| >= 2 ==> CsvText(records) == EncodeRecord(records[0]) + "\n" + CsvText(records[1..])
  {
    var lines := seq(|records|, i requires 0 <= i < |records| => EncodeRecord(records[i]));
    if |records| >= 2 {
      assert lines[1..] == seq(|records| - 1, i requires 0 <= i < |records| - 1 => EncodeRecord(records[1..][i]));
    }
  }

  /** How a record that continues after a comma is read. */
  lemma ParseRecordComma(s: string, f: string, rest: string)
    requires ParseField(s) == Some((f, rest))
    requires rest != [] && rest[0] == ','
    ensures ParseRecord(s) == match ParseRecord(rest[1..])
                              case None => None
                              case Some((fs, after)) => Some(([f] + fs, after))
  {
  }

  /** The record result for a record ending where its last field ends. */
  function RecordEnd(fields: seq<string>, after: string): Option<(seq<string>, Option<string>)>
  {
    Some((fields, if after == [] then None else Some(after[1..])))
  }

  lemma LastFieldParses(f: string, after: string)
    requires after == [] || after[0] == '\n'
    ensures ParseRecord(CsvEscape(f) + after) == RecordEnd([f], after)
  {
    EscapedFieldParses(f, after);
  }

  /** A field followed by a comma and a record reads as one longer record. */
  lemma RecordAfterComma(s: string, f: string, next: string, fs: seq<string>, after: string)
    requires ParseField(s) == Some((f, "," + next))
    requires ParseRecord(next) == RecordEnd(fs, after)
    ensures ParseRecord(s) == RecordEnd([f] + fs, after)
  {
    var rest := "," + next;
    assert rest[1..] == next;
    ParseRecordComma(s, f, rest);
  }

  /** An encoded record reads back as its fields, followed by nothing or by
      a line feed and the next record. */
  lemma {:induction false} RecordParses(fields: seq<string>, after: string)
    requires |fields| >= 1
    requires after == [] || after[0] == '\n'
    ensures ParseRecord(EncodeRecord(fields) + after) == RecordEnd(fields, after)
    decreases |fields|
  {
    if |fields| == 1 {
      EncodeRecordCons(fields);
      LastFieldParses(fields[0], after);
      assert fields == [fields[0]];
    } else {
      RecordParses(fields[1..], after);
      RecordParsesStep(fields, after);
    }
  }

  /** The step of `RecordParses`: the first field, a comma, and the rest. */
  lemma RecordParsesStep(fields: seq<string>, after: string)
    requires |fields| >= 2
    requires ParseRecord(EncodeRecord(fields[1..]) + after) == RecordEnd(fields[1..], after)
    ensures ParseRecord(EncodeRecord(fields) + after) == RecordEnd(fields, after)
  {
    var e, next := CsvEscape(fields[0]), EncodeRecord(fields[1..]) + after;
    EscapedFieldParses(fields[0], "," + next);
    RecordAfterComma(e + ("," + next), fields[0], next, fields[1..], after);
    assert [fields[0]] + fields[1..] == fields;
    EncodeRecordAfter(fields, after);
    Transport(ParseRecord, EncodeRecord(fields) + after, e + ("," + next), RecordEnd(fields, after));
  }

  /** Equal texts read alike; `f` is the reader, left uninterpreted here. */
  lemma Transport<R>(f: string -> R, u: string, v: string, r: R)
    requires u == v && f(v) == r
    ensures f(u) == r
  {
  }

  /** The text of a record of two or more fields is its first field, a comma
      and the rest, whatever follows it. */
  lemma EncodeRecordAfter(fields: seq<string>, after: string)
    requires |fields| >= 2
    ensures EncodeRecord(fields) + after == CsvEscape(fields[0]) + ("," + (EncodeRecord(fields[1..]) + after))
  {
    EncodeRecordCons(fields);
    Regroup(CsvEscape(fields[0]), EncodeRecord(fields[1..]), after);
  }

  lemma Regroup(e: string, m: string, after: string)
    ensures e + "," + m + after == e + ("," + (m + after))
  {
  }

  /** A text of records, each with at least one field, reads back as those records. */
  lemma {:induction false} CsvParses(records: seq<seq<string>>)
    requires |records| >= 1
    requires forall i :: 0 <= i < |records| ==> |records[i]| >= 1
    ensures ParseCsv(CsvText(records)) == Some(records)
    decreases |records|
  {
    if |records| == 1 {
      CsvTextCons(records);
      var e := EncodeRecord(records[0]);
      RecordParses(records[0], "");
      assert e + "" == e;
      CsvLast(e, records[0]);
      assert [records[0]] == records;
    } else {
      CsvParses(records[1..]);
      CsvParsesStep(records);
    }
  }

  /** The step of `CsvParses`: the first record, a line feed, and the rest. */
  lemma CsvParsesStep(records: seq<seq<string>>)
    requires |records| >= 2 && |records[0]| >= 1
    requires ParseCsv(CsvText(records[1..])) == Some(records[1..])
    ensures ParseCsv(CsvText(records)) == Some(records)
  {
    var e, rest := EncodeRecord(records[0]), CsvText(records[1..]);
    var after := "\n" + rest;
    RecordParses(records[0], after);
    assert after[1..] == rest;
    CsvStep(e + after, records[0], rest, records[1..]);
    assert [records[0]] + records[1..] == records;
    CsvTextAfter(records);
    Transport(ParseCsv, CsvText(records), e + after, Some(records));
  }

  lemma CsvTextAfter(records: seq<seq<string>>)
    requires |records| >= 2
    ensures CsvText(records) == EncodeRecord(records[0]) + ("\n" + CsvText(records[1..]))
  {
    CsvTextCons(records);
    LineRegroup(EncodeRecord(records[0]), CsvText(records[1..]));
  }

  lemma LineRegroup(e: string, rest: string)
    ensures e + "\n" + rest == e + ("\n" + rest)
  {
  }

  /** A last record reads as a text of one record. */
  lemma CsvLast(s: string, first: seq<string>)
    requires ParseRecord(s) == Some((first, None))
    ensures ParseCsv(s) == Some([first])
  {
  }

  /** A record closed by a line feed, then the records after it. */
  lemma CsvStep(s: string, first: seq<string>, next: string, more: seq<seq<string>>)
    requires ParseRecord(s) == Some((first, Some(next)))
    requires ParseCsv(next) == Some(more)
    ensures ParseCsv(s) == Some([first] + more)
  {
  }

  /** Every value survives an export: the text `buildCsv` writes reads back
      as the header and, for each row, its date and its column values. */
  lemma BuildCsvRoundTrip(columns: seq<Column>, rows: seq<Row>)
    ensures ParseCsv(CsvText(CsvRecords(columns, rows))) == Some(CsvRecords(columns, rows))
  {
    CsvParses(CsvRecords(columns, rows));
  }
}
