/**
 The CSV export (src/modules/admin/admin-export.util.ts) and an RFC 4180 reader: what is printed is read
 back cell by cell.
 */
module Csv {
  import opened Common

  /** A cell value as JavaScript sees it; texts are what `toISOString`, `String` and `JSON.stringify` return. */
  datatype Value =
    | Null
    | Undefined
    | Date(iso: string)
    | Number(text: string)
    | Boolean(b: bool)
    | Text(s: string)
    | Json(json: Option<string>)  // None: `JSON.stringify` of a function or symbol is undefined

  type Row = seq<Value>

  /** The text of a cell; a missing value is an empty cell. */
  function CellText(v: Value): string {
    match v
    case Null => ""
    case Undefined => ""
    case Date(iso) => iso
    case Number(text) => text
    case Boolean(b) => if b then "true" else "false"
    case Text(s) => s
    case Json(None) => "undefined"
    case Json(Some(json)) => json
  }

  predicate Special(c: char) { c == '"' || c == ',' || c == '\n' || c == '\r' }

  predicate NeedsQuotes(s: string) { exists i :: 0 <= i < |s| && Special(s[i]) }

  function DoubleQuotes(s: string): string {
    if s == "" then "" else (if s[0] == '"' then "\"\"" else [s[0]]) + DoubleQuotes(s[1..])
  }

  function Escape(s: string): string {
    if NeedsQuotes(s) then "\"" + DoubleQuotes(s) + "\"" else s
  }

  function CsvEscape(v: Value): string {
    match v
    case Null => ""
    case Undefined => ""
    case _ => Escape(CellText(v))
  }

  function Join(parts: seq<string>, separator: string): string {
    if parts == [] then ""
    else if |parts| == 1 then parts[0]
    else parts[0] + (separator + Join(parts[1..], separator))
  }

  function PrintRow(row: Row): string {
    Join(seq(|row|, i requires 0 <= i < |row| => CsvEscape(row[i])), ",")
  }

  /** The CSV branch of `buildAdminExport`: the header, then the rows. */
  function Print(header: seq<string>, rows: seq<Row>): string {
    var head: Row := seq(|header|, i requires 0 <= i < |header| => Text(header[i]));
    var printed := seq(|rows|, i requires 0 <= i < |rows| => PrintRow(rows[i]));
    Join([PrintRow(head)] + printed, "\r\n")
  }

  // ----- Reading, as section 2 of RFC 4180 defines -----

  /** How far an unquoted field reaches. */
  function PlainEnd(s: string): (n: nat)
    ensures n <= |s|
  {
    if s == "" || s[0] in {'"', ',', '\n', '\r'} then 0 else 1 + PlainEnd(s[1..])
  }

  /** The rest of a quoted field, after its opening quote; a doubled quote stands for one. */
  function ReadQuoted(s: string): (r: Option<(string, string)>)
    ensures r.Some? ==> |r.value.1| < |s|
    decreases |s|
  {
    if s == "" then None
    else if s[0] == '"' && (|s| == 1 || s[1] != '"') then Some(("", s[1..]))
    else
      var r := ReadQuoted(if s[0] == '"' then s[2..] else s[1..]);
      if r.None? then None else Some(([s[0]] + r.value.0, r.value.1))
  }

  function ReadField(s: string): (r: Option<(string, string)>)
    ensures r.Some? ==> |r.value.1| <= |s|
  {
    if s != "" && s[0] == '"' then ReadQuoted(s[1..])
    else Some((s[..PlainEnd(s)], s[PlainEnd(s)..]))
  }

  function ReadRecord(s: string): (r: Option<(seq<string>, string)>)
    ensures r.Some? ==> |r.value.1| <= |s|
    decreases |s|
  {
    var field := ReadField(s);
    if field.None? then None
    else
      var (text, rest) := field.value;
      if rest == "" || rest[0] != ',' then Some(([text], rest))
      else
        var more := ReadRecord(rest[1..]);
        if more.None? then None else Some(([text] + more.value.0, more.value.1))
  }

  /** The records of a text, separated by line breaks. */
  function Read(s: string): Option<seq<seq<string>>>
    decreases |s|
  {
    var record := ReadRecord(s);
    if record.None? then None
    else
      var (texts, rest) := record.value;
      if rest == "" then Some([texts])
      else if |rest| < 2 || rest[0] != '\r' || rest[1] != '\n' then None
      else
        var more := Read(rest[2..]);
        if more.None? then None else Some([texts] + more.value)
  }

  // ----- One field -----

  lemma {:induction false} QuotedReadsBack(s: string, after: string)
    requires FieldEnd(after)
    ensures ReadQuoted(DoubleQuotes(s) + ("\"" + after)) == Some((s, after))
  {
    var closing := "\"" + after;
    if s == "" {
      assert DoubleQuotes(s) + closing == closing && closing[1..] == after;
    } else {
      var rest := DoubleQuotes(s[1..]) + closing;
      QuotedReadsBack(s[1..], after);
      DoubleQuotesStep(s, closing);
      if s[0] == '"' {
        QuoteStep(rest);
      } else {
        LetterStep(s[0], rest);
      }
    }
  }

  lemma DoubleQuotesStep(s: string, closing: string)
    requires s != ""
    ensures s == [s[0]] + s[1..]
    ensures DoubleQuotes(s) + closing
         == (if s[0] == '"' then "\"\"" else [s[0]]) + (DoubleQuotes(s[1..]) + closing)
  {
  }

  lemma QuoteStep(rest: string)
    requires ReadQuoted(rest).Some?
    ensures var r := ReadQuoted(rest).value; ReadQuoted("\"\"" + rest) == Some((['"'] + r.0, r.1))
  {
    assert ("\"\"" + rest)[2..] == rest;
  }

  lemma LetterStep(c: char, rest: string)
    requires c != '"' && ReadQuoted(rest).Some?
    ensures var r := ReadQuoted(rest).value; ReadQuoted([c] + rest) == Some(([c] + r.0, r.1))
  {
    assert ([c] + rest)[1..] == rest;
  }

  /** What may follow a field: nothing, a comma or a line break. */
  predicate FieldEnd(after: string) {
    after == "" || after[0] == ',' || after[0] == '\r'
  }

  lemma {:induction false} PlainEndStops(s: string, after: string)
    requires !NeedsQuotes(s) && FieldEnd(after)
    ensures PlainEnd(s + after) == |s|
  {
    if s == "" {
      assert s + after == after;
    } else {
      assert !Special(s[0]);
      assert (s + after)[1..] == s[1..] + after;
      forall i | 0 <= i < |s[1..]|
        ensures !Special(s[1..][i])
      {
        assert s[1..][i] == s[i + 1];
      }
      PlainEndStops(s[1..], after);
    }
  }

  lemma QuotedField(s: string, after: string)
    requires NeedsQuotes(s) && FieldEnd(after)
    ensures ReadField(Escape(s) + after) == Some((s, after))
  {
    var inner := DoubleQuotes(s) + ("\"" + after);
    assert Escape(s) + after == ['"'] + inner && (['"'] + inner)[1..] == inner;
    QuotedReadsBack(s, after);
  }

  lemma PlainField(s: string, after: string)
    requires !NeedsQuotes(s) && FieldEnd(after)
    ensures ReadField(Escape(s) + after) == Some((s, after))
  {
    PlainEndStops(s, after);
    assert s != "" ==> !Special(s[0]);
    assert (s + after)[..|s|] == s && (s + after)[|s|..] == after;
  }

  /** A text is printed as it is unless it holds a quote, a comma or a line break. */
  lemma PlainExactly(s: string)
    ensures Escape(s) == s <==> forall i :: 0 <= i < |s| ==> s[i] !in {'"', ',', '\n', '\r'}
  {
    if NeedsQuotes(s) {
      DoubledIsLonger(s);
      assert |Escape(s)| > |s|;
    }
  }

  lemma {:induction false} DoubledIsLonger(s: string)
    ensures |DoubleQuotes(s)| >= |s|
  {
    if s != "" {
      DoubledIsLonger(s[1..]);
    }
  }

  /** A printed cell is read back as its text, whatever field end follows it. */
  lemma FieldReadsBack(s: string, after: string)
    requires FieldEnd(after)
    ensures ReadField(Escape(s) + after) == Some((s, after))
  {
    if NeedsQuotes(s) {
      QuotedField(s, after);
    } else {
      PlainField(s, after);
    }
  }

  // ----- Records -----

  function EscapeAll(texts: seq<string>): seq<string> {
    seq(|texts|, i requires 0 <= i < |texts| => Escape(texts[i]))
  }

  /** One record of texts, as printed. */
  function Line(texts: seq<string>): string { Join(EscapeAll(texts), ",") }

  function Lines(records: seq<seq<string>>): seq<string> {
    seq(|records|, i requires 0 <= i < |records| => Line(records[i]))
  }

  lemma LineStep(texts: seq<string>, after: string)
    requires |texts| > 1
    ensures Line(texts) + after == Escape(texts[0]) + ("," + (Line(texts[1..]) + after))
  {
    assert EscapeAll(texts)[1..] == EscapeAll(texts[1..]);
    assert Line(texts) == Escape(texts[0]) + ("," + Line(texts[1..]));
  }

  lemma RecordStep(first: string, rest: string, texts: seq<string>, after: string)
    requires ReadRecord(rest) == Some((texts, after))
    ensures ReadRecord(Escape(first) + ("," + rest)) == Some(([first] + texts, after))
  {
    FieldReadsBack(first, "," + rest);
    assert ("," + rest)[1..] == rest;
  }

  lemma {:induction false} LineReadsBack(texts: seq<string>, after: string)
    requires texts != [] && (after == "" || after[0] == '\r')
    ensures ReadRecord(Line(texts) + after) == Some((texts, after))
    decreases |texts|
  {
    if |texts| == 1 {
      assert Line(texts) == Escape(texts[0]);
      FieldReadsBack(texts[0], after);
      assert [texts[0]] == texts;
    } else {
      LineReadsBack(texts[1..], after);
      LineStep(texts, after);
      RecordStep(texts[0], Line(texts[1..]) + after, texts[1..], after);
      assert [texts[0]] + texts[1..] == texts;
    }
  }

  lemma ReadStep(texts: seq<string>, rest: string, records: seq<seq<string>>)
    requires texts != [] && Read(rest) == Some(records)
    ensures Read(Line(texts) + ("\r\n" + rest)) == Some([texts] + records)
  {
    LineReadsBack(texts, "\r\n" + rest);
    assert ("\r\n" + rest)[2..] == rest;
  }

  lemma LinesStep(records: seq<seq<string>>)
    requires |records| > 1
    ensures Join(Lines(records), "\r\n") == Line(records[0]) + ("\r\n" + Join(Lines(records[1..]), "\r\n"))
  {
    assert Lines(records)[1..] == Lines(records[1..]);
  }

  lemma OneRecordReadsBack(records: seq<seq<string>>)
    requires |records| == 1 && records[0] != []
    ensures Read(Join(Lines(records), "\r\n")) == Some(records)
  {
    LineReadsBack(records[0], "");
    assert Join(Lines(records), "\r\n") == Line(records[0]) + "";
    assert [records[0]] == records;
  }

  lemma {:induction false} TextsReadBack(records: seq<seq<string>>)
    requires records != [] && forall i :: 0 <= i < |records| ==> records[i] != []
    ensures Read(Join(Lines(records), "\r\n")) == Some(records)
    decreases |records|
  {
    if |records| == 1 {
      OneRecordReadsBack(records);
    } else {
      TextsReadBack(records[1..]);
      LinesStep(records);
      ReadStep(records[0], Join(Lines(records[1..]), "\r\n"), records[1..]);
      assert [records[0]] + records[1..] == records;
    }
  }

  // ----- Tables -----

  function RowTexts(row: Row): seq<string> {
    seq(|row|, i requires 0 <= i < |row| => CellText(row[i]))
  }

  /** The texts of a table: its header and its rows. */
  function TableTexts(header: seq<string>, rows: seq<Row>): seq<seq<string>> {
    [header] + seq(|rows|, i requires 0 <= i < |rows| => RowTexts(rows[i]))
  }

  lemma EscapeOfCell(v: Value)
    ensures CsvEscape(v) == Escape(CellText(v))
  {
    assert !NeedsQuotes("");
  }

  lemma PrintRowTexts(row: Row, texts: seq<string>)
    requires texts == RowTexts(row)
    ensures PrintRow(row) == Line(texts)
  {
    forall i | 0 <= i < |row|
      ensures CsvEscape(row[i]) == Escape(texts[i])
    {
      EscapeOfCell(row[i]);
    }
    assert seq(|row|, i requires 0 <= i < |row| => CsvEscape(row[i])) == EscapeAll(texts);
  }

  lemma PrintIsLines(header: seq<string>, rows: seq<Row>)
    ensures Print(header, rows) == Join(Lines(TableTexts(header, rows)), "\r\n")
  {
    var head: Row := seq(|header|, i requires 0 <= i < |header| => Text(header[i]));
    var printed := seq(|rows|, i requires 0 <= i < |rows| => PrintRow(rows[i]));
    PrintRowTexts(head, header);
    forall i | 0 <= i < |rows|
      ensures printed[i] == Line(RowTexts(rows[i]))
    {
      PrintRowTexts(rows[i], RowTexts(rows[i]));
    }
    LinesOfTable(header, rows, printed);
  }

  lemma LinesOfTable(header: seq<string>, rows: seq<Row>, printed: seq<string>)
    requires |printed| == |rows| && forall i :: 0 <= i < |rows| ==> printed[i] == Line(RowTexts(rows[i]))
    ensures [Line(header)] + printed == Lines(TableTexts(header, rows))
  {
    var texts := TableTexts(header, rows);
    forall i | 0 <= i < |texts|
      ensures ([Line(header)] + printed)[i] == Line(texts[i])
    {
      if i > 0 {
        assert texts[i] == RowTexts(rows[i - 1]);
      }
    }
  }

  /** What a reader sees of a cell: nothing of a missing value, a text as it is, a truth value by its name. */
  predicate Shows(text: string, v: Value) {
    && (v.Null? || v.Undefined? ==> text == "")
    && (v.Date? ==> text == v.iso) && (v.Number? ==> text == v.text) && (v.Text? ==> text == v.s)
    && (v.Boolean? ==> text == if v.b then "true" else "false")
    && (v.Json? ==> text == if v.json.Some? then v.json.value else "undefined")
  }

  predicate ShowsRow(texts: seq<string>, row: Row) {
    |texts| == |row| && forall j :: 0 <= j < |row| ==> Shows(texts[j], row[j])
  }

  lemma NoEmptyRecord(header: seq<string>, rows: seq<Row>)
    requires header != [] && forall i :: 0 <= i < |rows| ==> |rows[i]| == |header|
    ensures forall i :: 0 <= i < |TableTexts(header, rows)| ==> TableTexts(header, rows)[i] != []
  {
    forall i | 0 < i < |TableTexts(header, rows)|
      ensures TableTexts(header, rows)[i] == RowTexts(rows[i - 1])
    {
    }
  }

  lemma TableShows(header: seq<string>, rows: seq<Row>)
    ensures var records := TableTexts(header, rows);
            && |records| == |rows| + 1 && records[0] == header
            && forall i :: 0 <= i < |rows| ==> ShowsRow(records[i + 1], rows[i])
  {
    forall i | 0 <= i < |rows|
      ensures ShowsRow(RowTexts(rows[i]), rows[i])
    {
    }
  }

  /** Reading an export gives back the header and every row's cells, for every table with a column. */
  lemma CsvRoundTrip(header: seq<string>, rows: seq<Row>)
    requires header != [] && forall i :: 0 <= i < |rows| ==> |rows[i]| == |header|
    ensures Read(Print(header, rows)) == Some(TableTexts(header, rows))
    ensures var records := TableTexts(header, rows);
            && |records| == |rows| + 1 && records[0] == header
            && forall i :: 0 <= i < |rows| ==> ShowsRow(records[i + 1], rows[i])
  {
    PrintIsLines(header, rows);
    TableShows(header, rows);
    NoEmptyRecord(header, rows);
    TextsReadBack(TableTexts(header, rows));
  }

  /** So two tables that print alike have the same header, the same number of rows and the same texts. */
  lemma PrintInjective(header: seq<string>, rows: seq<Row>, header': seq<string>, rows': seq<Row>)
    requires header != [] && forall i :: 0 <= i < |rows| ==> |rows[i]| == |header|
    requires header' != [] && forall i :: 0 <= i < |rows'| ==> |rows'[i]| == |header'|
    requires Print(header, rows) == Print(header', rows')
    ensures header == header' && |rows| == |rows'|
    ensures forall i :: 0 <= i < |rows| ==> RowTexts(rows[i]) == RowTexts(rows'[i])
  {
    CsvRoundTrip(header, rows);
    CsvRoundTrip(header', rows');
    var texts, texts' := TableTexts(header, rows), TableTexts(header', rows');
    assert texts[0] == texts'[0];
    forall i | 0 <= i < |rows|
      ensures RowTexts(rows[i]) == RowTexts(rows'[i])
    {
      assert texts[i + 1] == texts'[i + 1];
    }
  }
}
