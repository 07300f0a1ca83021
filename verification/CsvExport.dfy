/** arrayToCSV, read back as section 2 of RFC 4180 reads it, but with the newline as record separator: a quote in an
    unquoted field or text after a closing quote is an error, and a carriage return is ordinary text. */
module CsvExport {
  import opened Wrappers

  predicate Special(c: char) {
    c == ',' || c == '"' || c == '\n'
  }

  predicate Clean(s: string) {
    forall i :: 0 <= i < |s| ==> !Special(s[i])
  }

  /** Date.toISOString prints digits, letters and punctuation other than comma and quote. */
  type IsoText = s: string | Clean(s) witness "1970-01-01T00:00:00.000Z"

  /** A value of a row; Text holds String(value). */
  datatype Cell = Null | Undefined | Date(iso: IsoText) | Text(text: string)

  /** An object: its own keys in their order, and their values. */
  datatype Row = Row(keys: seq<string>, cells: map<string, Cell>)

  // ---------- The printer ----------

  function ValueAt(row: Row, header: string): Cell {
    if header in row.cells then row.cells[header] else Undefined
  }

  function Doubled(s: string): string {
    if s == "" then "" else (if s[0] == '"' then "\"\"" else [s[0]]) + Doubled(s[1..])
  }

  function PrintText(s: string): string {
    if Clean(s) then s else "\"" + Doubled(s) + "\""
  }

  function PrintCell(c: Cell): string {
    match c
    case Null => ""
    case Undefined => ""
    case Date(iso) => iso
    case Text(text) => PrintText(text)
  }

  function Join(parts: seq<string>, separator: char): string {
    if parts == [] then ""
    else if |parts| == 1 then parts[0]
    else parts[0] + [separator] + Join(parts[1..], separator)
  }

  function PrintRow(row: Row, headers: seq<string>): string {
    Join(seq(|headers|, j requires 0 <= j < |headers| => PrintCell(ValueAt(row, headers[j]))), ',')
  }

  function ColumnHeaders(data: seq<Row>, headers: Option<seq<string>>): seq<string>
    requires data != []
  {
    if headers.Some? then headers.value else data[0].keys
  }

  function ArrayToCsv(data: seq<Row>, headers: Option<seq<string>>): string {
    if data == [] then ""
    else
      var columns := ColumnHeaders(data, headers);
      Join([Join(columns, ',')] + seq(|data|, i requires 0 <= i < |data| => PrintRow(data[i], columns)), '\n')
  }

  // ---------- The reader ----------

  /** The inside of a quoted field, after its opening quote, and what follows its closing quote. */
  function ReadQuoted(s: string): Option<(string, string)> {
    if s == "" then None
    else if s[0] != '"' then
      match ReadQuoted(s[1..])
      case None => None
      case Some((field, rest)) => Some(([s[0]] + field, rest))
    else if |s| >= 2 && s[1] == '"' then
      match ReadQuoted(s[2..])
      case None => None
      case Some((field, rest)) => Some((['"'] + field, rest))
    else Some(("", s[1..]))
  }

  /** An unquoted field, up to a separator or the end; a quote inside it is an error. */
  function ReadPlain(s: string): Option<(string, string)> {
    if s == "" || s[0] == ',' || s[0] == '\n' then Some(("", s))
    else if s[0] == '"' then None
    else match ReadPlain(s[1..])
      case None => None
      case Some((field, rest)) => Some(([s[0]] + field, rest))
  }

  predicate AtSeparator(s: string) {
    s == "" || s[0] == ',' || s[0] == '\n'
  }

  function ReadField(s: string): Option<(string, string)> {
    if s != "" && s[0] == '"' then
      match ReadQuoted(s[1..])
      case None => None
      case Some((field, rest)) => if AtSeparator(rest) then Some((field, rest)) else None
    else ReadPlain(s)
  }

  lemma ReadQuotedShortens(s: string)
    ensures ReadQuoted(s).Some? ==> |ReadQuoted(s).value.1| < |s|
  {
  }

  lemma ReadPlainShortens(s: string)
    ensures ReadPlain(s).Some? ==> |ReadPlain(s).value.1| <= |s|
    ensures ReadPlain(s).Some? ==> AtSeparator(ReadPlain(s).value.1)
  {
  }

  /** A field before the first record. */
  function Prepend(field: string, records: seq<seq<string>>): seq<seq<string>>
    requires records != []
  {
    [[field] + records[0]] + records[1..]
  }

  /** All records of a text; every text that can be read has at least one. */
  function ReadRecords(s: string): (records: Option<seq<seq<string>>>)
    ensures records.Some? ==> |records.value| > 0
    decreases |s|
  {
    match ReadField(s)
    case None => None
    case Some((field, rest)) =>
      ReadQuotedShortens(if s == "" then "" else s[1..]);
      ReadPlainShortens(s);
      if rest == "" then Some([[field]])
      else
        match ReadRecords(rest[1..])
        case None => None
        case Some(records) =>
          if rest[0] == ',' then Some(Prepend(field, records)) else Some([[field]] + records)
  }

  // ---------- What is printed is read back ----------

  lemma {:induction false} QuotedReadsBack(s: string, tail: string)
    requires AtSeparator(tail)
    ensures ReadQuoted(Doubled(s) + "\"" + tail) == Some((s, tail))
  {
    var printed := Doubled(s) + "\"" + tail;
    if s == "" {
      assert printed == "\"" + tail;
      assert printed[1..] == tail;
    } else {
      QuotedReadsBack(s[1..], tail);
      var inner := Doubled(s[1..]) + "\"" + tail;
      if s[0] == '"' {
        assert printed == "\"\"" + inner;
        assert printed[2..] == inner;
      } else {
        assert printed == [s[0]] + inner;
        assert printed[1..] == inner;
      }
      assert [s[0]] + s[1..] == s;
    }
  }

  lemma {:induction false} PlainReadsBack(s: string, tail: string)
    requires AtSeparator(tail) && Clean(s)
    ensures ReadPlain(s + tail) == Some((s, tail))
  {
    if s == "" {
      assert s + tail == tail;
    } else {
      PlainReadsBack(s[1..], tail);
      assert (s + tail)[1..] == s[1..] + tail;
      assert [s[0]] + s[1..] == s;
    }
  }

  lemma CleanFieldReadsBack(s: string, tail: string)
    requires AtSeparator(tail) && Clean(s)
    ensures ReadField(s + tail) == Some((s, tail))
  {
    PlainReadsBack(s, tail);
    if s == "" {
      assert s + tail == tail;
    } else {
      assert (s + tail)[0] == s[0] && !Special(s[0]);
    }
  }

  lemma QuotedFieldReadsBack(s: string, tail: string)
    requires AtSeparator(tail)
    ensures ReadField("\"" + (Doubled(s) + "\"" + tail)) == Some((s, tail))
  {
    QuotedReadsBack(s, tail);
    var inner := Doubled(s) + "\"" + tail;
    assert ("\"" + inner)[1..] == inner;
  }

  lemma FieldReadsBack(s: string, tail: string)
    requires AtSeparator(tail)
    ensures ReadField(PrintText(s) + tail) == Some((s, tail))
  {
    if Clean(s) {
      CleanFieldReadsBack(s, tail);
    } else {
      QuotedFieldReadsBack(s, tail);
      assert PrintText(s) + tail == "\"" + (Doubled(s) + "\"" + tail);
    }
  }

  predicate Prints(printed: seq<string>, fields: seq<string>) {
    |printed| == |fields| && forall j :: 0 <= j < |fields| ==> printed[j] == PrintText(fields[j])
  }

  /** What a text reads as when a record is put before it; "" is the end of the text. */
  function RecordThen(record: seq<string>, tail: string): Option<seq<seq<string>>>
    requires tail == "" || tail[0] == '\n'
  {
    if tail == "" then Some([record])
    else match ReadRecords(tail[1..])
      case None => None
      case Some(records) => Some([record] + records)
  }

  function PrependIfRead(field: string, read: Option<seq<seq<string>>>): Option<seq<seq<string>>>
    requires read.Some? ==> read.value != []
  {
    match read
    case None => None
    case Some(records) => Some(Prepend(field, records))
  }

  /** A printed field and a comma before a text put the field before its first record. */
  lemma FieldThenComma(field: string, more: string)
    ensures ReadRecords(PrintText(field) + ([','] + more)) == PrependIfRead(field, ReadRecords(more))
  {
    var rest := [','] + more;
    FieldReadsBack(field, rest);
    assert rest[1..] == more;
  }

  lemma PrependToRecord(field: string, record: seq<string>, tail: string)
    requires tail == "" || tail[0] == '\n'
    ensures PrependIfRead(field, RecordThen(record, tail)) == RecordThen([field] + record, tail)
  {
    if tail == "" {
      assert Prepend(field, [record]) == [[field] + record];
    } else if ReadRecords(tail[1..]).Some? {
      var records := ReadRecords(tail[1..]).value;
      assert ([record] + records)[1..] == records;
    }
  }

  lemma LastFieldReadsBack(field: string, tail: string)
    requires tail == "" || tail[0] == '\n'
    ensures ReadRecords(PrintText(field) + tail) == RecordThen([field], tail)
  {
    FieldReadsBack(field, tail);
  }

  lemma JoinSplits(parts: seq<string>, separator: char, tail: string)
    requires |parts| > 1
    ensures Join(parts, separator) + tail == parts[0] + ([separator] + (Join(parts[1..], separator) + tail))
  {
  }

  lemma {:induction false} RecordReadsBack(printed: seq<string>, fields: seq<string>, tail: string)
    requires fields != [] && Prints(printed, fields) && (tail == "" || tail[0] == '\n')
    ensures ReadRecords(Join(printed, ',') + tail) == RecordThen(fields, tail)
  {
    if |fields| == 1 {
      LastFieldReadsBack(fields[0], tail);
      assert fields == [fields[0]];
    } else {
      var more := Join(printed[1..], ',') + tail;
      JoinSplits(printed, ',', tail);
      FieldThenComma(fields[0], more);
      RecordReadsBack(printed[1..], fields[1..], tail);
      PrependToRecord(fields[0], fields[1..], tail);
      assert [fields[0]] + fields[1..] == fields;
    }
  }

  /** Each line prints a non-empty record. */
  predicate PrintsTable(lines: seq<string>, records: seq<seq<string>>) {
    && |lines| == |records|
    && forall i :: 0 <= i < |records| ==> records[i] != [] && PrintsLine(lines[i], records[i])
  }

  predicate PrintsLine(line: string, record: seq<string>) {
    line == Join(seq(|record|, j requires 0 <= j < |record| => PrintText(record[j])), ',')
  }

  lemma LineReadsBack(line: string, record: seq<string>, tail: string)
    requires record != [] && PrintsLine(line, record) && (tail == "" || tail[0] == '\n')
    ensures ReadRecords(line + tail) == RecordThen(record, tail)
  {
    RecordReadsBack(seq(|record|, j requires 0 <= j < |record| => PrintText(record[j])), record, tail);
  }

  lemma LineThenText(line: string, record: seq<string>, more: string)
    requires record != [] && PrintsLine(line, record) && ReadRecords(more).Some?
    ensures ReadRecords(line + (['\n'] + more)) == Some([record] + ReadRecords(more).value)
  {
    LineReadsBack(line, record, ['\n'] + more);
    assert (['\n'] + more)[1..] == more;
  }

  lemma {:induction false} TableReadsBack(lines: seq<string>, records: seq<seq<string>>)
    requires records != [] && PrintsTable(lines, records)
    ensures ReadRecords(Join(lines, '\n')) == Some(records)
  {
    if |records| == 1 {
      LineReadsBack(lines[0], records[0], "");
      assert lines[0] + "" == lines[0];
      assert records == [records[0]];
    } else {
      TableReadsBack(lines[1..], records[1..]);
      LineThenText(lines[0], records[0], Join(lines[1..], '\n'));
      JoinSplits(lines, '\n', "");
      assert Join(lines, '\n') + "" == Join(lines, '\n') && Join(lines[1..], '\n') + "" == Join(lines[1..], '\n');
      assert [records[0]] + records[1..] == records;
    }
  }

  // ---------- A header is printed raw: only a clean one is read back ----------

  lemma {:induction false} ReadQuotedConsumes(s: string)
    requires ReadQuoted(s).Some?
    ensures s == Doubled(ReadQuoted(s).value.0) + "\"" + ReadQuoted(s).value.1
  {
    var (field, rest) := ReadQuoted(s).value;
    if s[0] != '"' {
      ReadQuotedConsumes(s[1..]);
      assert field[1..] == ReadQuoted(s[1..]).value.0;
      assert s == [s[0]] + s[1..];
    } else if |s| >= 2 && s[1] == '"' {
      ReadQuotedConsumes(s[2..]);
      assert field[1..] == ReadQuoted(s[2..]).value.0;
      assert s == "\"\"" + s[2..];
    } else {
      assert s == "\"" + s[1..];
    }
  }

  lemma {:induction false} ReadPlainConsumes(s: string)
    requires ReadPlain(s).Some?
    ensures s == ReadPlain(s).value.0 + ReadPlain(s).value.1 && Clean(ReadPlain(s).value.0)
  {
    if !AtSeparator(s) {
      ReadPlainConsumes(s[1..]);
    }
  }

  lemma {:induction false} QuotesDoubled(s: string, n: nat)
    requires n <= |s| && forall i :: 0 <= i < n ==> s[i] == '"'
    ensures 2 * n <= |Doubled(s)| && forall k :: 0 <= k < 2 * n ==> Doubled(s)[k] == '"'
  {
    if n > 0 {
      QuotesDoubled(s[1..], n - 1);
    }
  }

  lemma {:induction false} LeadingQuotes(field: string, n: nat, separator: char, more: string, rest: string)
    requires field + [separator] + more == "\"" + Doubled(field) + "\"" + rest
    requires n <= |field|
    ensures forall i :: 0 <= i < n ==> field[i] == '"'
  {
    var raw, quoted := field + [separator] + more, "\"" + Doubled(field) + "\"" + rest;
    if n > 0 {
      LeadingQuotes(field, n - 1, separator, more, rest);
      QuotesDoubled(field, n - 1);
      assert raw[n - 1] == field[n - 1];
      assert n > 1 ==> quoted[n - 1] == Doubled(field)[n - 2];
    }
  }

  /** If a text reads both as a raw field before a separator and as that field quoted, the separator is a quote:
      quoting makes a field longer. */
  lemma RawAndQuoted(field: string, separator: char, more: string, rest: string)
    requires field + [separator] + more == "\"" + Doubled(field) + "\"" + rest
    ensures separator == '"'
  {
    var raw, quoted := field + [separator] + more, "\"" + Doubled(field) + "\"" + rest;
    LeadingQuotes(field, |field|, separator, more, rest);
    QuotesDoubled(field, |field|);
    assert raw[|field|] == separator;
    assert |field| > 0 ==> quoted[|field|] == Doubled(field)[|field| - 1];
  }

  lemma {:induction false} RawHeadersAreClean(headers: seq<string>, rest: string)
    requires headers != []
    requires ReadRecords(Join(headers, ',') + "\n" + rest).Some?
    requires ReadRecords(Join(headers, ',') + "\n" + rest).value[0] == headers
    ensures forall j :: 0 <= j < |headers| ==> Clean(headers[j])
  {
    var text, h := Join(headers, ',') + "\n" + rest, headers[0];
    var separator := if |headers| == 1 then '\n' else ',';
    var more := if |headers| == 1 then rest else Join(headers[1..], ',') + "\n" + rest;
    assert text == h + [separator] + more;
    var (field, tail) := ReadField(text).value;
    assert field == headers[0];
    if text[0] == '"' {
      ReadQuotedConsumes(text[1..]);
      assert text == "\"" + text[1..];
      assert text == "\"" + Doubled(field) + "\"" + tail;
      RawAndQuoted(field, separator, more, tail);
      assert false;
    } else {
      ReadPlainConsumes(text);
      assert tail == [separator] + more by {
        assert text[|field|..] == tail && (h + [separator] + more)[|h|..] == [separator] + more;
      }
      assert tail[1..] == more;
      if |headers| > 1 {
        assert headers[1..] == ReadRecords(more).value[0];
        RawHeadersAreClean(headers[1..], rest);
      }
    }
  }

  // ---------- Main results ----------

  function CellText(c: Cell): string {
    match c
    case Null => ""
    case Undefined => ""
    case Date(iso) => iso
    case Text(text) => text
  }

  /** The string of the row's own value under the header, "" if it has none. */
  function TextAt(row: Row, header: string): string {
    if header in row.cells then CellText(row.cells[header]) else ""
  }

  /** The header and the cell strings, record by record. */
  function Records(data: seq<Row>, columns: seq<string>): seq<seq<string>> {
    [columns] + seq(|data|, i requires 0 <= i < |data| =>
                      seq(|columns|, j requires 0 <= j < |columns| => TextAt(data[i], columns[j])))
  }

  /** What is read back at row i under column j: nothing for a missing, null or undefined value, the ISO form of a date,
      the string of anything else. A table without rows prints as nothing. */
  lemma RecordsTell(data: seq<Row>, columns: seq<string>, i: nat, j: nat)
    requires i < |data| && j < |columns|
    ensures var read, row, h := Records(data, columns), data[i], columns[j];
            && |read| == |data| + 1 && read[0] == columns && |read[i + 1]| == |columns|
            && (h !in row.cells ==> read[i + 1][j] == "")
            && (h in row.cells ==>
                  && (row.cells[h].Null? || row.cells[h].Undefined? ==> read[i + 1][j] == "")
                  && (row.cells[h].Date? ==> read[i + 1][j] == row.cells[h].iso)
                  && (row.cells[h].Text? ==> read[i + 1][j] == row.cells[h].text))
    ensures ArrayToCsv([], Some(columns)) == ""
  {
  }

  lemma CellsPrintTheirText(c: Cell)
    ensures PrintCell(c) == PrintText(CellText(c))
  {
  }

  lemma RowPrintsItsTexts(row: Row, columns: seq<string>)
    ensures PrintsLine(PrintRow(row, columns), seq(|columns|, j requires 0 <= j < |columns| => TextAt(row, columns[j])))
  {
    var texts := seq(|columns|, j requires 0 <= j < |columns| => TextAt(row, columns[j]));
    forall j | 0 <= j < |columns|
      ensures PrintCell(ValueAt(row, columns[j])) == PrintText(texts[j])
    {
      CellsPrintTheirText(ValueAt(row, columns[j]));
    }
    assert seq(|columns|, j requires 0 <= j < |columns| => PrintCell(ValueAt(row, columns[j])))
        == seq(|texts|, j requires 0 <= j < |texts| => PrintText(texts[j]));
  }

  /** For a table with at least one row and one column, the reader gives back exactly the header and every cell
      string if and only if every header is free of comma, quote and newline; the cells may hold anything. */
  lemma CsvReadsBack(data: seq<Row>, headers: Option<seq<string>>)
    requires data != [] && (if headers.Some? then headers.value else data[0].keys) != []
    ensures var columns := if headers.Some? then headers.value else data[0].keys;
            ReadRecords(ArrayToCsv(data, headers)) == Some(Records(data, columns))
            <==> forall j :: 0 <= j < |columns| ==> Clean(columns[j])
  {
    var columns := ColumnHeaders(data, headers);
    var body := seq(|data|, i requires 0 <= i < |data| => PrintRow(data[i], columns));
    var lines, records := [Join(columns, ',')] + body, Records(data, columns);
    if forall j :: 0 <= j < |columns| ==> Clean(columns[j]) {
      assert columns == seq(|columns|, j requires 0 <= j < |columns| => PrintText(columns[j]));
      forall i | 0 <= i < |records|
        ensures records[i] != [] && PrintsLine(lines[i], records[i])
      {
        if i > 0 {
          RowPrintsItsTexts(data[i - 1], columns);
        }
      }
      TableReadsBack(lines, records);
    } else if ReadRecords(ArrayToCsv(data, headers)) == Some(records) {
      var rest := Join(body, '\n');
      assert lines[1..] == body;
      assert Join(lines, '\n') == Join(columns, ',') + "\n" + rest;
      RawHeadersAreClean(columns, rest);
    }
  }

  /** Two tables under the same clean headers that print alike have the same cell strings. */
  lemma DifferentTablesPrintDifferently(data: seq<Row>, data': seq<Row>, headers: seq<string>)
    requires data != [] && data' != [] && headers != [] && forall j :: 0 <= j < |headers| ==> Clean(headers[j])
    requires ArrayToCsv(data, Some(headers)) == ArrayToCsv(data', Some(headers))
    ensures Records(data, headers) == Records(data', headers)
  {
    CsvReadsBack(data, Some(headers));
    CsvReadsBack(data', Some(headers));
  }

  /** A header with a comma: the one column "a,b" reads back as two. */
  lemma HeaderWithCommaReadsAsTwo()
    ensures var data, headers := [Row(["a,b"], map["a,b" := Text("x")])], Some(["a,b"]);
            && Records(data, ["a,b"]) == [["a,b"], ["x"]]
            && ReadRecords(ArrayToCsv(data, headers)) == Some([["a", "b"], ["x"]])
  {
    var data, lines := [Row(["a,b"], map["a,b" := Text("x")])], ["a,b", "x"];
    assert seq(1, j requires 0 <= j < 1 => TextAt(data[0], ["a,b"][j])) == ["x"];
    RowPrintsItsTexts(data[0], ["a,b"]);
    assert seq(1, j requires 0 <= j < 1 => PrintText(["x"][j])) == ["x"];
    assert seq(2, j requires 0 <= j < 2 => PrintText(["a", "b"][j])) == ["a", "b"];
    assert ["a", "b"][1..] == ["b"];
    TableReadsBack(lines, [["a", "b"], ["x"]]);
    assert [Join(["a,b"], ',')] + seq(1, i requires 0 <= i < 1 => PrintRow(data[i], ["a,b"])) == lines;
  }
}
