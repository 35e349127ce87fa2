/**
 * The CSV export of an assessment: the quoting of one field (embedded double
 * quotes doubled, the whole field enclosed in double quotes, as rules 5 to 7
 * of section 2 of RFC 4180 describe), the fixed header line, the data row and
 * the text that is handed to the browser.  A reader for quoted fields and
 * records is defined beside the writer so that the export can be shown to
 * lose nothing.
 */
module CsvExport {
  import opened Wrappers
  import opened JsStrings

  /** The fields of the results view that are exported; `likelihood` and `impact` are text here. */
  datatype ResultsData = ResultsData(
    technology: string,
    controlDeficiencies: string,
    riskStatement: string,
    riskDescription: string,
    likelihood: string,
    impact: string)

  const Quote: char := '"'

  /** Number of double quotes in `s`. */
  function QuoteCount(s: string): nat {
    if s == [] then 0 else (if s[0] == Quote then 1 else 0) + QuoteCount(s[1..])
  }

  /** Double quotes occur only in adjacent pairs. */
  predicate QuotesPaired(t: string)
    decreases |t|
  {
    if t == [] then true
    else if t[0] != Quote then QuotesPaired(t[1..])
    else |t| >= 2 && t[1] == Quote && QuotesPaired(t[2..])
  }

  /** `.replace(/"/g, '""')`: each double quote doubled, every other character as it was. */
  function DoubleQuotes(s: string): (r: string)
    ensures |r| == |s| + QuoteCount(s)
    ensures QuotesPaired(r)
    ensures Quote !in s ==> r == s
  {
    if s == [] then ""
    else if s[0] == Quote then [Quote, Quote] + DoubleQuotes(s[1..])
    else [s[0]] + DoubleQuotes(s[1..])
  }

  /** Collapses each pair of double quotes into one: the reading direction of `DoubleQuotes`. */
  function CollapseQuotes(t: string): string
    decreases |t|
  {
    if t == [] then ""
    else if |t| >= 2 && t[0] == Quote && t[1] == Quote then [Quote] + CollapseQuotes(t[2..])
    else [t[0]] + CollapseQuotes(t[1..])
  }

  lemma {:induction false} CollapseDoubleQuotes(s: string)
    ensures CollapseQuotes(DoubleQuotes(s)) == s
  {
    if s != [] {
      CollapseDoubleQuotes(s[1..]);
      var d := DoubleQuotes(s[1..]);
      if s[0] == Quote {
        assert ([Quote, Quote] + d)[2..] == d;
      } else {
        assert ([s[0]] + d)[1..] == d;
      }
      assert s == [s[0]] + s[1..];
    }
  }

  lemma {:induction false} DoubleCollapseQuotes(t: string)
    requires QuotesPaired(t)
    ensures DoubleQuotes(CollapseQuotes(t)) == t
    decreases |t|
  {
    if t != [] {
      if t[0] == Quote {
        DoubleCollapseQuotes(t[2..]);
        assert t == [Quote, Quote] + t[2..];
      } else {
        DoubleCollapseQuotes(t[1..]);
        assert t == [t[0]] + t[1..];
      }
    }
  }

  /** `escapeCsvField`; an empty (falsy) field is quoted as `""`. */
  function EscapeCsvField(field: string): (r: string)
    ensures |r| >= 2 && r[0] == Quote && r[|r| - 1] == Quote
    ensures QuotesPaired(r[1..|r| - 1])
    ensures field == "" ==> r == [Quote, Quote]
  {
    assert ([Quote] + DoubleQuotes(field) + [Quote])[1..|DoubleQuotes(field)| + 1] == DoubleQuotes(field);
    [Quote] + DoubleQuotes(field) + [Quote]
  }

  /** Reads one quoted field written by hand: strips the outer quotes and collapses the pairs. */
  function UnquoteField(t: string): Option<string> {
    if |t| >= 2 && t[0] == Quote && t[|t| - 1] == Quote && QuotesPaired(t[1..|t| - 1])
    then Some(CollapseQuotes(t[1..|t| - 1]))
    else None
  }

  /** Quoting is a bijection between strings and well-formed quoted fields. */
  lemma EscapeUnquoteRoundTrip(field: string, t: string)
    ensures UnquoteField(EscapeCsvField(field)) == Some(field)
    ensures UnquoteField(t) == Some(field) ==> EscapeCsvField(field) == t
  {
    var e := EscapeCsvField(field);
    assert e[1..|e| - 1] == DoubleQuotes(field);
    CollapseDoubleQuotes(field);
    if UnquoteField(t) == Some(field) {
      DoubleCollapseQuotes(t[1..|t| - 1]);
      assert t == [Quote] + t[1..|t| - 1] + [Quote];
    }
  }

  /**
   * Reads the body of a quoted field up to its closing quote (a quote not
   * followed by another): the value and the text after the closing quote,
   * or `None` when the closing quote is missing.
   */
  function ReadQuotedBody(t: string): (r: Option<(string, string)>)
    ensures r.Some? ==> |r.value.1| < |t|
    decreases |t|
  {
    if t == [] then None
    else if t[0] == Quote then
      if |t| >= 2 && t[1] == Quote then
        match ReadQuotedBody(t[2..])
        case None => None
        case Some((v, rest)) => Some(([Quote] + v, rest))
      else Some(("", t[1..]))
    else
      match ReadQuotedBody(t[1..])
      case None => None
      case Some((v, rest)) => Some(([t[0]] + v, rest))
  }

  lemma {:induction false} ReadQuotedBodyOfEscaped(v: string, rest: string)
    requires rest == [] || rest[0] != Quote
    ensures ReadQuotedBody(DoubleQuotes(v) + [Quote] + rest) == Some((v, rest))
    decreases |v|
  {
    var t := DoubleQuotes(v) + [Quote] + rest;
    if v == [] {
      assert t == [Quote] + rest;
      assert t[1..] == rest;
    } else {
      ReadQuotedBodyOfEscaped(v[1..], rest);
      if v[0] == Quote {
        assert t[2..] == DoubleQuotes(v[1..]) + [Quote] + rest;
      } else {
        assert t[1..] == DoubleQuotes(v[1..]) + [Quote] + rest;
      }
      assert v == [v[0]] + v[1..];
    }
  }

  /** Reads a record of quoted fields separated by commas, up to the end of the text. */
  function ParseRecord(s: string): Option<seq<string>>
    decreases |s|
  {
    if s == [] || s[0] != Quote then None
    else
      match ReadQuotedBody(s[1..])
      case None => None
      case Some((v, rest)) =>
        if rest == [] then Some([v])
        else if rest[0] != ',' then None
        else
          match ParseRecord(rest[1..])
          case None => None
          case Some(vs) => Some([v] + vs)
  }

  function EscapeAll(fields: seq<string>): (r: seq<string>)
    ensures |r| == |fields|
  {
    seq(|fields|, i requires 0 <= i < |fields| => EscapeCsvField(fields[i]))
  }

  lemma ParseRecordSingle(v: string)
    ensures ParseRecord(EscapeCsvField(v)) == Some([v])
  {
    var e := EscapeCsvField(v);
    assert e[1..] == DoubleQuotes(v) + [Quote] + "";
    ReadQuotedBodyOfEscaped(v, "");
  }

  lemma ParseRecordCons(v: string, rest: string)
    ensures ParseRecord(EscapeCsvField(v) + "," + rest)
         == if ParseRecord(rest).Some? then Some([v] + ParseRecord(rest).value) else None
  {
    var e := EscapeCsvField(v) + "," + rest;
    assert e[1..] == DoubleQuotes(v) + [Quote] + ("," + rest);
    ReadQuotedBodyOfEscaped(v, "," + rest);
    assert ("," + rest)[1..] == rest;
  }

  /** Reading back a row of quoted fields gives the fields that were written. */
  lemma {:induction false} ParseRecordOfRow(fields: seq<string>)
    requires |fields| >= 1
    ensures ParseRecord(Join(EscapeAll(fields), ",")) == Some(fields)
    decreases |fields|
  {
    var escaped := EscapeAll(fields);
    assert escaped[0] == EscapeCsvField(fields[0]);
    if |fields| == 1 {
      ParseRecordSingle(fields[0]);
      assert fields == [fields[0]];
    } else {
      assert escaped[1..] == EscapeAll(fields[1..]);
      ParseRecordOfRow(fields[1..]);
      ParseRecordCons(fields[0], Join(EscapeAll(fields[1..]), ","));
      assert fields == [fields[0]] + fields[1..];
    }
  }

  /** The column titles of the export, in order. */
  const HeaderColumns: seq<string> :=
    ["Technology", "Control Deficiencies", "Risk Statement", "Risk Description", "Likelihood", "Impact"]

  /** The header line: the six titles joined by commas; split on commas it gives the titles back. */
  function ExportHeader(): (h: string)
    ensures h == "Technology" + "," + "Control Deficiencies" + "," + "Risk Statement" + ","
              + "Risk Description" + "," + "Likelihood" + "," + "Impact"
    ensures SplitOnChar(h, ',') == HeaderColumns
    ensures '\n' !in h
  {
    var c := HeaderColumns;
    assert c[5..] == ["Impact"];
    assert c[4..][1..] == c[5..];
    assert c[3..][1..] == c[4..];
    assert c[2..][1..] == c[3..];
    assert c[1..][1..] == c[2..];
    HeaderColumnsPlain();
    SplitOnCharJoin(c, ',');
    NoCharInJoin(c, ",", '\n');
    Join(c, ",")
  }

  /** No column title holds a comma or a line feed. */
  lemma HeaderColumnsPlain()
    ensures forall i :: 0 <= i < |HeaderColumns| ==> ',' !in HeaderColumns[i] && '\n' !in HeaderColumns[i]
  {
    forall i | 0 <= i < |HeaderColumns|
      ensures ',' !in HeaderColumns[i] && '\n' !in HeaderColumns[i]
    {
      var t := HeaderColumns[i];
      assert forall k :: 0 <= k < |t| ==> t[k] != ',' && t[k] != '\n';
    }
  }

  /** The exported values, in column order. */
  function ExportedFields(d: ResultsData): (fs: seq<string>)
    ensures |fs| == |HeaderColumns|
  {
    [d.technology, d.controlDeficiencies, d.riskStatement, d.riskDescription, d.likelihood, d.impact]
  }

  /** The data row: the six quoted fields joined by commas. */
  function ExportRow(d: ResultsData): string {
    Join(EscapeAll(ExportedFields(d)), ",")
  }

  /** The row reads back as the six exported values, in column order. */
  lemma ExportRowRoundTrip(d: ResultsData)
    ensures ParseRecord(ExportRow(d)) == Some([d.technology, d.controlDeficiencies, d.riskStatement,
                                              d.riskDescription, d.likelihood, d.impact])
  {
    ParseRecordOfRow(ExportedFields(d));
  }

  const DataUriPrefix: string := "data:text/csv;charset=utf-8,"

  /** `csvContent`: the data-URI prefix, the header, a line feed and the data row. */
  function CsvContent(d: ResultsData): string {
    DataUriPrefix + ExportHeader() + "\n" + ExportRow(d)
  }

  /** Index of the first line feed, if any. */
  function FirstLineFeed(s: string): (r: Option<nat>)
    ensures r.Some? ==> r.value < |s| && s[r.value] == '\n' && '\n' !in s[..r.value]
    ensures r.None? ==> '\n' !in s
  {
    if s == [] then None
    else if s[0] == '\n' then Some(0)
    else
      match FirstLineFeed(s[1..])
      case None => None
      case Some(k) => assert s[..k + 1] == [s[0]] + s[1..][..k]; Some(k + 1)
  }

  /** Reads an exported text: the prefix, the header split on commas, the record after the first line feed. */
  function ParseCsvContent(s: string): Option<(seq<string>, seq<string>)> {
    if !(DataUriPrefix <= s) then None
    else
      var body := s[|DataUriPrefix|..];
      match FirstLineFeed(body)
      case None => None
      case Some(k) =>
        match ParseRecord(body[k + 1..])
        case None => None
        case Some(values) => Some((SplitOnChar(body[..k], ','), values))
  }

  /** The exported text reads back as the six column titles and the six values, even when values hold line feeds. */
  lemma CsvContentRoundTrip(d: ResultsData)
    ensures ParseCsvContent(CsvContent(d)) == Some((HeaderColumns, ExportedFields(d)))
  {
    ExportRowRoundTrip(d);
    ParseCsvContentOf(ExportHeader(), ExportRow(d));
  }

  lemma ParseCsvContentOf(h: string, row: string)
    requires '\n' !in h
    requires ParseRecord(row).Some?
    ensures ParseCsvContent(DataUriPrefix + h + "\n" + row) == Some((SplitOnChar(h, ','), ParseRecord(row).value))
  {
    var body := h + "\n" + row;
    assert (DataUriPrefix + h + "\n" + row)[|DataUriPrefix|..] == body;
    FirstLineFeedAfter(h, row);
    assert body[..|h|] == h;
    assert body[|h| + 1..] == row;
  }

  lemma {:induction false} NoCharInJoin(parts: seq<string>, sep: string, c: char)
    requires forall i :: 0 <= i < |parts| ==> c !in parts[i]
    requires c !in sep
    ensures c !in Join(parts, sep)
    decreases |parts|
  {
    if |parts| > 1 {
      NoCharInJoin(parts[1..], sep, c);
    }
  }

  lemma {:induction false} FirstLineFeedAfter(h: string, rest: string)
    requires '\n' !in h
    ensures FirstLineFeed(h + "\n" + rest) == Some(|h|)
    decreases |h|
  {
    if h != [] {
      assert (h + "\n" + rest)[1..] == h[1..] + "\n" + rest;
      FirstLineFeedAfter(h[1..], rest);
    }
  }
}
