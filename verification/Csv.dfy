/** CSV output of analytics queries (`toCsv` in indexer/src/analyticsSql.js) and a reader after section 2 of RFC 4180. */
module Csv {
  import opened Wrappers

  /** A cell: null, or a value with the text that `String` or `JSON.stringify` gives it. */
  datatype Value = Null | Text(text: string)

  /** A result row: its own columns in order, and their values. */
  datatype Row = Row(columns: seq<string>, values: map<string, Value>)

  type Record = seq<string>

  function CellText(v: Value): string {
    if v.Null? then "" else v.text
  }

  /** `row[column]`, which is undefined for a column the row does not have. */
  function Lookup(row: Row, column: string): Value {
    if column in row.values then row.values[column] else Null
  }

  function Escaped(c: char): string {
    if c == '"' then "\"\"" else [c]
  }

  /** `text.replaceAll('"', '""')` */
  function Doubled(s: string): string {
    if s == "" then "" else Escaped(s[0]) + Doubled(s[1..])
  }

  function Encode(text: string): string {
    "\"" + Doubled(text) + "\""
  }

  function Join(parts: seq<string>, separator: string): string {
    if parts == [] then ""
    else if |parts| == 1 then parts[0]
    else parts[0] + separator + Join(parts[1..], separator)
  }

  function Line(record: Record): string {
    Join(seq(|record|, i requires 0 <= i < |record| => Encode(record[i])), ",")
  }

  function Cells(row: Row, columns: seq<string>): Record {
    seq(|columns|, i requires 0 <= i < |columns| => CellText(Lookup(row, columns[i])))
  }

  /** The records of the output: the first row's columns, then every row under those columns. */
  function Table(rows: seq<Row>): seq<Record>
    requires rows != []
  {
    [rows[0].columns] + seq(|rows|, i requires 0 <= i < |rows| => Cells(rows[i], rows[0].columns))
  }

  function Lines(table: seq<Record>): string {
    Join(seq(|table|, i requires 0 <= i < |table| => Line(table[i])), "\r\n")
  }

  function ToCsv(rows: seq<Row>): string {
    if rows == [] then "" else Lines(Table(rows))
  }

  // ---------- the reader ----------

  datatype Token = Token(text: string, rest: string)

  /** After an opening quote: text up to the closing quote, a doubled quote standing for one. */
  function ReadQuoted(s: string): Option<Token> {
    if s == "" then None
    else if s[0] != '"' then Prepend(s[0], ReadQuoted(s[1..]))
    else if |s| > 1 && s[1] == '"' then Prepend('"', ReadQuoted(s[2..]))
    else Some(Token("", s[1..]))
  }

  function Prepend(c: char, t: Option<Token>): Option<Token> {
    if t.None? then None else Some(Token([c] + t.value.text, t.value.rest))
  }

  /** An unquoted field: TEXTDATA up to a comma or a line break. */
  function ReadPlain(s: string): Option<Token> {
    if s == "" || s[0] == ',' || s[0] == '\r' then Some(Token("", s))
    else if s[0] == '"' || s[0] == '\n' then None
    else Prepend(s[0], ReadPlain(s[1..]))
  }

  function ReadField(s: string): Option<Token> {
    if s != "" && s[0] == '"' then ReadQuoted(s[1..]) else ReadPlain(s)
  }

  lemma ReadQuotedShrinks(s: string)
    ensures ReadQuoted(s).Some? ==> |ReadQuoted(s).value.rest| < |s|
  {
  }

  lemma ReadPlainShrinks(s: string)
    ensures ReadPlain(s).Some? ==> |ReadPlain(s).value.rest| <= |s|
  {
  }

  lemma ReadFieldShrinks(s: string)
    ensures ReadField(s).Some? ==> |ReadField(s).value.rest| <= |s|
  {
    if s != "" { ReadQuotedShrinks(s[1..]); }
    ReadPlainShrinks(s);
  }

  /** Reads the rest of the text, `record` being the fields of the current line before it. */
  function ReadRecords(s: string, record: Record): Option<seq<Record>>
    decreases |s|
  {
    ReadFieldShrinks(s);
    match ReadField(s)
    case None => None
    case Some(t) =>
      var record' := record + [t.text];
      if t.rest == "" then Some([record'])
      else if t.rest[0] == ',' then ReadRecords(t.rest[1..], record')
      else if |t.rest| > 1 && t.rest[..2] == "\r\n" then
        match ReadRecords(t.rest[2..], [])
        case None => None
        case Some(more) => Some([record'] + more)
      else None
  }

  function ReadCsv(text: string): Option<seq<Record>> {
    ReadRecords(text, [])
  }

  // ---------- round trip ----------

  lemma {:induction false} ReadsQuoted(text: string, rest: string)
    requires rest == "" || rest[0] != '"'
    ensures ReadQuoted(Doubled(text) + "\"" + rest) == Some(Token(text, rest))
  {
    if text == "" {
      assert Doubled(text) + "\"" + rest == "\"" + rest;
    } else {
      ReadsQuoted(text[1..], rest);
      var tail := Doubled(text[1..]) + "\"" + rest;
      ReadsEscaped(text[0], tail);
      assert Doubled(text) == Escaped(text[0]) + Doubled(text[1..]);
      hide ReadQuoted, Doubled, Escaped;
      assert Escaped(text[0]) + Doubled(text[1..]) + "\"" + rest == Escaped(text[0]) + tail;
      assert [text[0]] + text[1..] == text;
    }
  }

  lemma ReadsEscaped(c: char, tail: string)
    ensures ReadQuoted(Escaped(c) + tail) == Prepend(c, ReadQuoted(tail))
  {
    assert (Escaped(c) + tail)[|Escaped(c)|..] == tail;
  }

  lemma ReadsField(text: string, rest: string)
    requires rest == "" || rest[0] != '"'
    ensures ReadField(Encode(text) + rest) == Some(Token(text, rest))
  {
    ReadsQuoted(text, rest);
    hide ReadQuoted, Doubled;
    assert (Encode(text) + rest)[1..] == Doubled(text) + "\"" + rest;
  }

  lemma LineCons(record: Record)
    requires record != []
    ensures Line(record) ==
            if |record| == 1 then Encode(record[0]) else Encode(record[0]) + "," + Line(record[1..])
  {
    var all := seq(|record|, i requires 0 <= i < |record| => Encode(record[i]));
    if |record| > 1 {
      var tail := record[1..];
      assert all[1..] == seq(|tail|, i requires 0 <= i < |tail| => Encode(tail[i]));
    }
  }

  lemma LinesCons(table: seq<Record>)
    requires table != []
    ensures Lines(table) ==
            if |table| == 1 then Line(table[0]) else Line(table[0]) + "\r\n" + Lines(table[1..])
  {
    var all := seq(|table|, i requires 0 <= i < |table| => Line(table[i]));
    if |table| > 1 {
      var tail := table[1..];
      assert all[1..] == seq(|tail|, i requires 0 <= i < |tail| => Line(tail[i]));
    }
  }

  /** What a reader makes of the text behind a finished record: the end, or a line break and more records. */
  function Finish(record: Record, rest: string): Option<seq<Record>> {
    if rest == "" then Some([record])
    else if |rest| > 1 && rest[..2] == "\r\n" then
      match ReadRecords(rest[2..], [])
      case None => None
      case Some(more) => Some([record] + more)
    else None
  }

  /** Reading one printed line: its fields join `done`, and reading goes on behind the line. */
  lemma {:induction false} ReadsLine(record: Record, done: Record, rest: string)
    requires record != [] && (rest == "" || (|rest| > 1 && rest[..2] == "\r\n"))
    ensures ReadRecords(Line(record) + rest, done) == Finish(done + record, rest)
    decreases |record|
  {
    hide ReadRecords, Line, Encode, Finish;
    LineCons(record);
    if |record| == 1 {
      LastField(record[0], done, rest);
      assert done + record == done + [record[0]];
    } else {
      var done', tail := done + [record[0]], Line(record[1..]) + rest;
      FieldThenComma(record[0], done, tail);
      assert Line(record) + rest == Encode(record[0]) + ("," + tail);
      ReadsLine(record[1..], done', rest);
      assert done' + record[1..] == done + record;
    }
  }

  lemma LastField(text: string, done: Record, rest: string)
    requires rest == "" || (|rest| > 1 && rest[..2] == "\r\n")
    ensures ReadRecords(Encode(text) + rest, done) == Finish(done + [text], rest)
  {
    assert rest != "" ==> rest[0] == rest[..2][0];
    ReadsField(text, rest);
    hide ReadField, Encode;
  }

  lemma FieldThenComma(text: string, done: Record, tail: string)
    ensures ReadRecords(Encode(text) + ("," + tail), done) == ReadRecords(tail, done + [text])
  {
    ReadsField(text, "," + tail);
    hide ReadField, Encode;
    assert ("," + tail)[1..] == tail;
  }

  lemma {:induction false} ReadsLines(table: seq<Record>)
    requires table != [] && forall i :: 0 <= i < |table| ==> table[i] != []
    ensures ReadCsv(Lines(table)) == Some(table)
    decreases |table|
  {
    hide ReadRecords, Line, Lines, Finish;
    LinesCons(table);
    assert [] + table[0] == table[0];
    if |table| == 1 {
      ReadsLine(table[0], [], "");
      FinishEnds(table[0]);
      assert Line(table[0]) + "" == Line(table[0]);
      assert [table[0]] == table;
    } else {
      var more := Lines(table[1..]);
      ReadsLines(table[1..]);
      ReadsLine(table[0], [], "\r\n" + more);
      FinishContinues(table[0], more);
      assert Line(table[0]) + ("\r\n" + more) == Line(table[0]) + "\r\n" + more;
      assert [table[0]] + table[1..] == table;
    }
  }

  lemma FinishEnds(record: Record)
    ensures Finish(record, "") == Some([record])
  {
  }

  lemma FinishContinues(record: Record, more: string)
    ensures Finish(record, "\r\n" + more) ==
            match ReadCsv(more) case None => None case Some(table) => Some([record] + table)
  {
    hide ReadRecords;
    assert ("\r\n" + more)[2..] == more;
  }

  /** The text of column `c` in a row: empty where the row has no such column, or null in it. */
  ghost predicate Shows(row: Row, c: string, text: string) {
    if c in row.values && row.values[c].Text? then text == row.values[c].text else text == ""
  }

  /** The records are the first row's columns, and for each row its texts under these columns, in their order. */
  ghost predicate ReadsAs(rows: seq<Row>, read: seq<Record>)
    requires rows != []
  {
    var columns := rows[0].columns;
    && |read| == |rows| + 1 && read[0] == columns
    && forall i :: 0 <= i < |rows| ==>
      |read[i + 1]| == |columns| && forall j :: 0 <= j < |columns| ==> Shows(rows[i], columns[j], read[i + 1][j])
  }

  lemma TableReadsAs(rows: seq<Row>)
    requires rows != []
    ensures ReadsAs(rows, Table(rows))
  {
  }

  /**
   * A reader of the output finds the header and under it, row by row and column by column, the text of every
   * cell, if and only if the result has a row, and that row a column.
   */
  lemma RoundTrip(rows: seq<Row>)
    ensures rows == [] ==> ToCsv(rows) == ""
    ensures rows != [] ==>
      var read := ReadCsv(ToCsv(rows));
      (read.Some? && ReadsAs(rows, read.value)) <==> rows[0].columns != []
  {
    if rows != [] {
      if rows[0].columns != [] {
        ReadsLines(Table(rows));
        TableReadsAs(rows);
      } else {
        NeverEmptyRecord(ToCsv(rows), []);
      }
    }
  }

  /** The grammar has no record without a field. */
  lemma {:induction false} NeverEmptyRecord(s: string, record: Record)
    ensures ReadRecords(s, record).Some? ==> ReadRecords(s, record).value != [] && ReadRecords(s, record).value[0] != []
    decreases |s|
  {
    ReadFieldShrinks(s);
    var t := ReadField(s);
    if t.Some? && t.value.rest != "" && t.value.rest[0] == ',' {
      NeverEmptyRecord(t.value.rest[1..], record + [t.value.text]);
    }
  }
}
