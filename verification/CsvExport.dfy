/** The audit log's CSV export, read back by a parser of section 2 of RFC 4180 that takes LF as the record break. */
module CsvExport {
  import opened Common

  const HEADER := "id,action,resource,resourceId,ip,createdAt\n"

  const HEADER_CELLS := ["id", "action", "resource", "resourceId", "ip", "createdAt"]

  /** A row's six values, already turned into strings. */
  type Row = cells: seq<string> | |cells| == 6 witness ["", "", "", "", "", ""]

  // ---------- the writer ----------

  /** Spreadsheet formula triggers. */
  predicate Dangerous(c: char) {
    c in {'=', '+', '-', '@', '\t', '\r'}
  }

  /** What a reader of the file gets for a value: dangerous values start with a quote mark. */
  function Neutralise(value: string): string {
    if value != "" && Dangerous(value[0]) then "'" + value else value
  }

  function DoubleQuotes(text: string): string {
    if text == "" then ""
    else (if text[0] == '"' then "\"\"" else [text[0]]) + DoubleQuotes(text[1..])
  }

  function SanitizeField(value: string): string {
    "\"" + DoubleQuotes(Neutralise(value)) + "\""
  }

  function Join(parts: seq<string>, sep: string): string {
    if parts == [] then "" else if |parts| == 1 then parts[0] else parts[0] + sep + Join(parts[1..], sep)
  }

  function SanitizeAll(row: seq<string>): seq<string> {
    if row == [] then [] else [SanitizeField(row[0])] + SanitizeAll(row[1..])
  }

  function RowText(row: Row): string {
    Join(SanitizeAll(row), ",")
  }

  function RowTexts(rows: seq<Row>): seq<string> {
    if rows == [] then [] else [RowText(rows[0])] + RowTexts(rows[1..])
  }

  function ExportCsv(rows: seq<Row>): string {
    HEADER + Join(RowTexts(rows), "\n")
  }

  // ---------- the reader ----------

  /** Where a parser is: at the start of a field, inside a plain or a quoted field, or after a quote inside quotes. */
  datatype Mode = FieldStart | InPlain | InQuoted | QuoteSeen

  /** The table read so far: finished records, the finished fields of the current record, the current field. */
  datatype Parser = Parser(records: seq<seq<string>>, fields: seq<string>, field: string, mode: Mode)

  datatype Parsed = Table(records: seq<seq<string>>) | Malformed

  const START := Parser([], [], "", FieldStart)

  function EndField(p: Parser): Parser {
    Parser(p.records, p.fields + [p.field], "", FieldStart)
  }

  function EndRecord(p: Parser): Parser {
    Parser(p.records + [p.fields + [p.field]], [], "", FieldStart)
  }

  /** One character; none when the text is not well formed. */
  function Consume(p: Parser, c: char): (r: (bool, Parser)) {
    match p.mode
    case InQuoted => (true, if c == '"' then p.(mode := QuoteSeen) else p.(field := p.field + [c]))
    case QuoteSeen =>
      if c == '"' then (true, p.(field := p.field + [c], mode := InQuoted))
      else if c == ',' then (true, EndField(p))
      else if c == '\n' then (true, EndRecord(p))
      else (false, p)
    case _ =>
      if c == ',' then (true, EndField(p))
      else if c == '\n' then (true, EndRecord(p))
      else if c == '"' then (if p.mode == FieldStart then (true, p.(mode := InQuoted)) else (false, p))
      else (true, p.(field := p.field + [c], mode := InPlain))
  }

  /** At the end of the text: the last record may or may not have been ended by a line break. */
  function Finish(p: Parser): Parsed {
    if p.mode == InQuoted then Malformed
    else if p.mode == FieldStart && p.fields == [] && p.records != [] then Table(p.records)
    else Table(EndRecord(p).records)
  }

  function Parse(p: Parser, text: string): Parsed
    decreases |text|
  {
    if text == "" then Finish(p)
    else
      var (ok, next) := Consume(p, text[0]);
      if ok then Parse(next, text[1..]) else Malformed
  }

  // ---------- reading back ----------

  lemma ParseChar(p: Parser, c: char, rest: string)
    requires Consume(p, c).0
    ensures Parse(p, [c] + rest) == Parse(Consume(p, c).1, rest)
  {
    assert ([c] + rest)[1..] == rest;
  }

  /** A doubled-quote text inside quotes is read as the text itself. */
  lemma {:induction false} QuotedReadsBack(p: Parser, text: string, rest: string)
    requires p.mode == InQuoted
    ensures Parse(p, DoubleQuotes(text) + rest) == Parse(p.(field := p.field + text), rest)
    decreases |text|
  {
    if text == "" {
      assert DoubleQuotes(text) + rest == rest && p.field + text == p.field;
    } else {
      var next := p.(field := p.field + [text[0]]);
      var more := DoubleQuotes(text[1..]) + rest;
      QuotedCharacter(p, text[0], DoubleQuotes(text[1..]), rest);
      QuotedReadsBack(next, text[1..], rest);
      assert p.field + [text[0]] + text[1..] == p.field + text;
    }
  }

  lemma QuotedCharacter(p: Parser, c: char, inner: string, rest: string)
    requires p.mode == InQuoted
    ensures Parse(p, (if c == '"' then "\"\"" else [c]) + inner + rest) == Parse(p.(field := p.field + [c]), inner + rest)
  {
    if c == '"' {
      assert "\"\"" + inner + rest == ['"'] + (['"'] + (inner + rest));
      ParseChar(p, '"', ['"'] + (inner + rest));
      ParseChar(p.(mode := QuoteSeen), '"', inner + rest);
    } else {
      assert [c] + inner + rest == [c] + (inner + rest);
      ParseChar(p, c, inner + rest);
    }
  }

  /** A sanitized field is read as its value, whatever quotes, commas or line breaks the value holds. */
  lemma FieldReadsBack(p: Parser, value: string, rest: string)
    requires p.mode == FieldStart && p.field == ""
    ensures Parse(p, SanitizeField(value) + rest) == Parse(p.(field := Neutralise(value), mode := QuoteSeen), rest)
  {
    var inner := DoubleQuotes(Neutralise(value));
    var text := SanitizeField(value) + rest;
    assert text[1..] == inner + ("\"" + rest);
    var inside := p.(mode := InQuoted);
    assert Parse(p, text) == Parse(inside, text[1..]);
    QuotedReadsBack(inside, Neutralise(value), "\"" + rest);
    assert "" + Neutralise(value) == Neutralise(value);
    assert ("\"" + rest)[1..] == rest;
  }

  function Cells(row: seq<string>): (cells: seq<string>)
    ensures |cells| == |row|
  {
    if row == [] then [] else [Neutralise(row[0])] + Cells(row[1..])
  }

  function AllCells(rows: seq<Row>): seq<seq<string>> {
    if rows == [] then [] else [Cells(rows[0])] + AllCells(rows[1..])
  }

  /** A parser at a field start, having read some fields of a record. */
  function At(records: seq<seq<string>>, fields: seq<string>): Parser {
    Parser(records, fields, "", FieldStart)
  }

  lemma JoinCons(head: string, tail: seq<string>, sep: string, rest: string)
    ensures Join([head] + tail, sep) + rest == if tail == [] then head + rest else head + (sep + (Join(tail, sep) + rest))
  {
    var parts := [head] + tail;
    assert parts[1..] == tail;
  }

  lemma {:induction false} RowReadsBack(records: seq<seq<string>>, fields: seq<string>, row: seq<string>, rest: string)
    requires row != [] && (rest == "" || rest[0] == '\n')
    ensures Parse(At(records, fields), Join(SanitizeAll(row), ",") + rest)
            == if rest == "" then Table(records + [fields + Cells(row)])
               else Parse(At(records + [fields + Cells(row)], []), rest[1..])
    decreases |row|
  {
    JoinCons(SanitizeField(row[0]), SanitizeAll(row[1..]), ",", rest);
    Assoc(fields, [Neutralise(row[0])], Cells(row[1..]));
    if |row| == 1 {
      LastFieldReadsBack(records, fields, row[0], rest);
      assert Cells(row) == [Neutralise(row[0])];
    } else {
      var tail := Join(SanitizeAll(row[1..]), ",") + rest;
      FieldAndCommaReadBack(records, fields, row[0], tail);
      RowReadsBack(records, fields + [Neutralise(row[0])], row[1..], rest);
    }
  }

  lemma FieldAndCommaReadBack(records: seq<seq<string>>, fields: seq<string>, value: string, tail: string)
    ensures Parse(At(records, fields), SanitizeField(value) + ("," + tail))
            == Parse(At(records, fields + [Neutralise(value)]), tail)
  {
    var p := At(records, fields);
    FieldReadsBack(p, value, "," + tail);
    ParseChar(p.(field := Neutralise(value), mode := QuoteSeen), ',', tail);
  }

  lemma LastFieldReadsBack(records: seq<seq<string>>, fields: seq<string>, value: string, rest: string)
    requires rest == "" || rest[0] == '\n'
    ensures Parse(At(records, fields), SanitizeField(value) + rest)
            == if rest == "" then Table(records + [fields + [Neutralise(value)]])
               else Parse(At(records + [fields + [Neutralise(value)]], []), rest[1..])
  {
    var p := At(records, fields);
    FieldReadsBack(p, value, rest);
    if rest != "" {
      assert rest == [rest[0]] + rest[1..];
      ParseChar(p.(field := Neutralise(value), mode := QuoteSeen), '\n', rest[1..]);
    }
  }

  lemma {:induction false} RowsReadBack(records: seq<seq<string>>, rows: seq<Row>)
    requires records != []
    ensures Parse(At(records, []), Join(RowTexts(rows), "\n")) == Table(records + AllCells(rows))
    decreases |rows|
  {
    if rows == [] {
      assert records + AllCells(rows) == records;
    } else {
      var row: seq<string> := rows[0];
      var tail := Join(RowTexts(rows[1..]), "\n");
      assert [] + Cells(row) == Cells(row);
      JoinCons(RowText(row), RowTexts(rows[1..]), "\n", "");
      assert tail + "" == tail && Join(RowTexts(rows), "\n") + "" == Join(RowTexts(rows), "\n");
      Assoc(records, [Cells(row)], AllCells(rows[1..]));
      if |rows| == 1 {
        RowReadsBack(records, [], row, "");
        assert AllCells(rows) == [Cells(row)];
      } else {
        RowReadsBack(records, [], row, "\n" + tail);
        assert ("\n" + tail)[1..] == tail;
        RowsReadBack(records + [Cells(row)], rows[1..]);
      }
    }
  }

  predicate PlainCell(text: string) {
    text != "" && forall i | 0 <= i < |text| :: text[i] != ',' && text[i] != '\n' && text[i] != '"'
  }

  /** Reading the characters of an unquoted field. */
  lemma {:induction false} PlainReadsBack(p: Parser, text: string, rest: string)
    requires (p.mode == FieldStart || p.mode == InPlain) && PlainCell(text)
    ensures Parse(p, text + rest) == Parse(p.(field := p.field + text, mode := InPlain), rest)
    decreases |text|
  {
    assert text + rest == [text[0]] + (text[1..] + rest);
    ParseChar(p, text[0], text[1..] + rest);
    var next := p.(field := p.field + [text[0]], mode := InPlain);
    if |text| == 1 {
      assert text[1..] + rest == rest && [text[0]] == text;
    } else {
      PlainReadsBack(next, text[1..], rest);
      assert p.field + [text[0]] + text[1..] == p.field + text;
    }
  }

  lemma {:induction false} PlainRowReadsBack(fields: seq<string>, cells: seq<string>, rest: string)
    requires cells != [] && forall i | 0 <= i < |cells| :: PlainCell(cells[i])
    ensures Parse(At([], fields), Join(cells, ",") + "\n" + rest) == Parse(At([fields + cells], []), rest)
    decreases |cells|
  {
    var p, read := At([], fields), Parser([], fields, cells[0], InPlain);
    assert "" + cells[0] == cells[0];
    if |cells| == 1 {
      assert Join(cells, ",") + "\n" + rest == cells[0] + (['\n'] + rest);
      PlainReadsBack(p, cells[0], ['\n'] + rest);
      ParseChar(read, '\n', rest);
      assert [cells[0]] == cells && [] + [fields + cells] == [fields + cells];
    } else {
      var tail := Join(cells[1..], ",") + "\n" + rest;
      assert Join(cells, ",") + "\n" + rest == cells[0] + ([','] + tail);
      PlainReadsBack(p, cells[0], [','] + tail);
      ParseChar(read, ',', tail);
      PlainRowReadsBack(fields + [cells[0]], cells[1..], rest);
      assert fields + [cells[0]] + cells[1..] == fields + cells;
    }
  }

  lemma HeaderIsJoin()
    ensures HEADER == Join(HEADER_CELLS, ",") + "\n"
  {
    var c5 := ["createdAt"];
    var c4, c3, c2, c1 := ["ip"] + c5, ["resourceId", "ip"] + c5, ["resource", "resourceId", "ip"] + c5, ["action", "resource", "resourceId", "ip"] + c5;
    JoinCons("createdAt", [], ",", "\n");
    JoinCons("ip", c5, ",", "\n");
    assert c3 == ["resourceId"] + c4 && c2 == ["resource"] + c3 && c1 == ["action"] + c2 && HEADER_CELLS == ["id"] + c1;
    JoinCons("resourceId", c4, ",", "\n");
    JoinCons("resource", c3, ",", "\n");
    JoinCons("action", c2, ",", "\n");
    JoinCons("id", c1, ",", "\n");
    HeaderText();
  }

  lemma HeaderText()
    ensures HEADER == "id" + ("," + ("action" + ("," + ("resource" + ("," + ("resourceId" + ("," + ("ip" + ("," + ("createdAt" + "\n"))))))))))
  {
  }

  lemma HeaderIsPlain()
    ensures forall i | 0 <= i < |HEADER_CELLS| :: PlainCell(HEADER_CELLS[i])
  {
  }

  /** The exported file is read back as the header and exactly the sanitized values, row by row. */
  lemma ExportReadsBack(rows: seq<Row>)
    ensures Parse(START, ExportCsv(rows)) == Table([HEADER_CELLS] + AllCells(rows))
  {
    var body := Join(RowTexts(rows), "\n");
    HeaderIsJoin();
    HeaderIsPlain();
    PlainRowReadsBack([], HEADER_CELLS, body);
    assert [] + HEADER_CELLS == HEADER_CELLS;
    RowsReadBack([HEADER_CELLS], rows);
  }

  /** No cell a reader gets starts with a formula trigger, and values without one are unchanged. */
  lemma {:induction false} NoFormulaCells(row: seq<string>, i: nat)
    requires i < |row|
    ensures Cells(row)[i] == "" || Cells(row)[i][0] !in "=+-@\t\r"
    ensures Cells(row)[i] == row[i] <==> row[i] == "" || row[i][0] !in "=+-@\t\r"
    ensures Cells(row)[i] == row[i] || Cells(row)[i] == "'" + row[i]
  {
    if i > 0 {
      NoFormulaCells(row[1..], i - 1);
    } else if row[0] != "" && Dangerous(row[0][0]) {
      assert Cells(row)[0] == "'" + row[0] && |Cells(row)[0]| == |row[0]| + 1;
    }
  }
}
