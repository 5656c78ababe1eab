/** CSV export, and an RFC 4180 section 2 reader to hold it against. */
module Csv {
  import opened Common

  const BOM := '\U{FEFF}'
  const QUOTE := '"'
  const COMMA := ','
  const CRLF := "\r\n"

  const LEADERS: set<char> := {'=', '+', '-', '@', '\t', '\r'}

  // ---------------------------------------------------------------------------
  // The printer
  // ---------------------------------------------------------------------------

  /** What a cell accessor can yield; `Other` is a number or boolean with its text. */
  datatype Raw = Nullish | Str(s: string) | Other(text: string)

  function Neutralise(s: string): string {
    if s != "" && s[0] in LEADERS then "'" + s else s
  }

  /** `s.replaceAll('"', '""')`. */
  function DoubleQuotes(s: string): string {
    if s == "" then "" else (if s[0] == QUOTE then [QUOTE, QUOTE] else [s[0]]) + DoubleQuotes(s[1..])
  }

  function Quoted(s: string): string { [QUOTE] + DoubleQuotes(s) + [QUOTE] }

  /** `escapeCsvCell`: only strings are neutralised. */
  function EscapeCell(raw: Raw): string {
    match raw
    case Nullish => Quoted("")
    case Str(s) => Quoted(Neutralise(s))
    case Other(text) => Quoted(text)
  }

  function Join(parts: seq<string>, sep: string): string {
    if parts == [] then "" else if |parts| == 1 then parts[0] else parts[0] + sep + Join(parts[1..], sep)
  }

  function Cells(cells: seq<string>): seq<string> {
    if cells == [] then [] else [EscapeCell(Str(cells[0]))] + Cells(cells[1..])
  }

  function Line(cells: seq<string>): string { Join(Cells(cells), [COMMA]) }

  function Lines(rows: seq<seq<string>>): seq<string> {
    if rows == [] then [] else [Line(rows[0])] + Lines(rows[1..])
  }

  /** `buildCsv`. */
  function BuildCsv(headers: seq<string>, rows: seq<seq<string>>): string {
    [BOM] + Line(headers) + CRLF + Join(Lines(rows), CRLF)
  }

  // ---------------------------------------------------------------------------
  // The reader: RFC 4180 section 2
  // ---------------------------------------------------------------------------

  /** A value read off the front of a text, and what follows it. */
  datatype Read<T> = Read(value: T, rest: string)

  /** `escaped`, past its opening quote: text in which a doubled quote stands for one, up to a closing quote. */
  function ReadEscaped(s: string): (r: Option<Read<string>>)
    ensures r.Some? ==> |r.value.rest| < |s|
  {
    if s == "" then None
    else if s[0] != QUOTE then
      match ReadEscaped(s[1..])
      case None => None
      case Some(more) => Some(Read([s[0]] + more.value, more.rest))
    else if |s| > 1 && s[1] == QUOTE then
      match ReadEscaped(s[2..])
      case None => None
      case Some(more) => Some(Read([QUOTE] + more.value, more.rest))
    else Some(Read("", s[1..]))
  }

  /** `non-escaped`: text without quotes, commas or line ends. */
  function ReadPlain(s: string): (r: Read<string>)
    ensures |r.rest| <= |s|
  {
    if s == "" || s[0] in {QUOTE, COMMA, '\r', '\n'} then Read("", s)
    else var more := ReadPlain(s[1..]); Read([s[0]] + more.value, more.rest)
  }

  function ReadField(s: string): (r: Option<Read<string>>)
    ensures r.Some? ==> |r.value.rest| <= |s|
  {
    if s != "" && s[0] == QUOTE then ReadEscaped(s[1..]) else Some(ReadPlain(s))
  }

  /** `record = field *(COMMA field)`. */
  function ReadRecord(s: string): (r: Option<Read<seq<string>>>)
    ensures r.Some? ==> |r.value.rest| <= |s| && r.value.value != []
    decreases |s|
  {
    match ReadField(s)
    case None => None
    case Some(field) =>
      if field.rest != "" && field.rest[0] == COMMA then
        match ReadRecord(field.rest[1..])
        case None => None
        case Some(more) => Some(Read([field.value] + more.value, more.rest))
      else Some(Read([field.value], field.rest))
  }

  /** `file`: records separated by CRLF, the last one with or without it. */
  function ReadFile(s: string): Option<seq<seq<string>>>
    decreases |s|
  {
    match ReadRecord(s)
    case None => None
    case Some(record) =>
      if record.rest == "" || record.rest == CRLF then Some([record.value])
      else if CRLF <= record.rest then
        match ReadFile(record.rest[2..])
        case None => None
        case Some(more) => Some([record.value] + more)
      else None
  }

  // ---------------------------------------------------------------------------
  // Round trip
  // ---------------------------------------------------------------------------

  lemma {:induction false} QuotedReadsBack(s: string, tail: string)
    requires tail == "" || tail[0] != QUOTE
    ensures ReadEscaped(DoubleQuotes(s) + [QUOTE] + tail) == Some(Read(s, tail))
  {
    var text := DoubleQuotes(s) + [QUOTE] + tail;
    if s == "" {
      assert text == [QUOTE] + tail;
      assert text[1..] == tail;
    } else {
      var rest := DoubleQuotes(s[1..]) + [QUOTE] + tail;
      QuotedReadsBack(s[1..], tail);
      if s[0] == QUOTE {
        assert text == [QUOTE, QUOTE] + rest;
        assert text[2..] == rest;
      } else {
        assert text == [s[0]] + rest;
        assert text[1..] == rest;
      }
      assert s == [s[0]] + s[1..];
    }
  }

  lemma CellReadsBack(cell: string, tail: string)
    requires tail == "" || tail[0] != QUOTE
    ensures ReadField(EscapeCell(Str(cell)) + tail) == Some(Read(Neutralise(cell), tail))
  {
    var text := EscapeCell(Str(cell)) + tail;
    QuotedReadsBack(Neutralise(cell), tail);
    assert text[1..] == DoubleQuotes(Neutralise(cell)) + [QUOTE] + tail;
  }

  function NeutraliseAll(cells: seq<string>): seq<string> {
    if cells == [] then [] else [Neutralise(cells[0])] + NeutraliseAll(cells[1..])
  }

  function NeutraliseRows(rows: seq<seq<string>>): seq<seq<string>> {
    if rows == [] then [] else [NeutraliseAll(rows[0])] + NeutraliseRows(rows[1..])
  }

  lemma LastCellReadsBack(cell: string, tail: string)
    requires tail == "" || CRLF <= tail
    ensures ReadRecord(EscapeCell(Str(cell)) + tail) == Some(Read([Neutralise(cell)], tail))
  {
    assert tail != "" ==> tail[0] == CRLF[0];
    CellReadsBack(cell, tail);
  }

  lemma NextCellReadsBack(cell: string, rest: string, more: Read<seq<string>>)
    requires ReadRecord(rest) == Some(more)
    ensures ReadRecord(EscapeCell(Str(cell)) + ([COMMA] + rest))
         == Some(Read([Neutralise(cell)] + more.value, more.rest))
  {
    CellReadsBack(cell, [COMMA] + rest);
    assert ([COMMA] + rest)[1..] == rest;
  }

  /** `Line` and `Join(Lines(..))` cell by cell and row by row. */
  function Printed(cells: seq<string>): string {
    if cells == [] then ""
    else if |cells| == 1 then EscapeCell(Str(cells[0]))
    else EscapeCell(Str(cells[0])) + ([COMMA] + Printed(cells[1..]))
  }

  function PrintedRows(rows: seq<seq<string>>): string {
    if rows == [] then ""
    else if |rows| == 1 then Printed(rows[0])
    else Printed(rows[0]) + (CRLF + PrintedRows(rows[1..]))
  }

  lemma {:induction false} PrintedIsLine(cells: seq<string>)
    ensures Printed(cells) == Line(cells)
  {
    if |cells| == 1 {
      assert Cells(cells) == [EscapeCell(Str(cells[0]))];
    } else if |cells| > 1 {
      PrintedIsLine(cells[1..]);
      assert Cells(cells)[1..] == Cells(cells[1..]) && |Cells(cells[1..])| > 0;
    }
  }

  lemma JoinMore(first: string, more: seq<string>, sep: string)
    requires more != []
    ensures Join([first] + more, sep) == first + (sep + Join(more, sep))
  {
    assert ([first] + more)[1..] == more;
  }

  lemma {:induction false} PrintedRowsIsJoin(rows: seq<seq<string>>)
    ensures PrintedRows(rows) == Join(Lines(rows), CRLF)
    ensures |Lines(rows)| == |rows|
  {
    if rows != [] {
      PrintedIsLine(rows[0]);
      PrintedRowsIsJoin(rows[1..]);
      if |rows| > 1 { JoinMore(Line(rows[0]), Lines(rows[1..]), CRLF); }
    }
  }

  lemma {:induction false} LineReadsBack(cells: seq<string>, tail: string)
    requires cells != []
    requires tail == "" || CRLF <= tail
    ensures ReadRecord(Printed(cells) + tail) == Some(Read(NeutraliseAll(cells), tail))
    decreases |cells|
  {
    var first := EscapeCell(Str(cells[0]));
    if |cells| == 1 {
      LastCellReadsBack(cells[0], tail);
      assert NeutraliseAll(cells) == [Neutralise(cells[0])];
    } else {
      var rest := Printed(cells[1..]) + tail;
      LineReadsBack(cells[1..], tail);
      NextCellReadsBack(cells[0], rest, Read(NeutraliseAll(cells[1..]), tail));
      assert Printed(cells) + tail == first + ([COMMA] + rest) by {
        assert Printed(cells) == first + ([COMMA] + Printed(cells[1..]));
        Reassociate(first, [COMMA], Printed(cells[1..]), tail);
      }
    }
  }

  lemma Reassociate(a: string, b: string, c: string, d: string)
    ensures (a + (b + c)) + d == a + (b + (c + d))
  {
  }

  ghost predicate HasCells(rows: seq<seq<string>>) {
    forall i :: 0 <= i < |rows| ==> rows[i] != []
  }

  /** One record in front of a file. */
  lemma FileCons(cells: seq<string>, rest: string)
    requires cells != []
    ensures rest == "" ==> ReadFile(Printed(cells) + (CRLF + rest)) == Some([NeutraliseAll(cells)])
    ensures rest != "" && ReadFile(rest).Some? ==>
              ReadFile(Printed(cells) + (CRLF + rest)) == Some([NeutraliseAll(cells)] + ReadFile(rest).value)
  {
    var after := CRLF + rest;
    LineReadsBack(cells, after);
    assert after[2..] == rest;
    assert rest == "" ==> after == CRLF;
    assert rest != "" ==> |after| > 2;
  }

  lemma PrintedIsNotEmpty(cells: seq<string>)
    requires cells != []
    ensures Printed(cells) != ""
  {
    assert EscapeCell(Str(cells[0]))[0] == QUOTE;
  }

  lemma OneLineFile(cells: seq<string>)
    requires cells != []
    ensures ReadFile(Printed(cells)) == Some([NeutraliseAll(cells)])
  {
    LineReadsBack(cells, "");
    assert Printed(cells) + "" == Printed(cells);
  }

  lemma {:induction false} LinesReadBack(rows: seq<seq<string>>)
    requires rows != [] && HasCells(rows)
    ensures ReadFile(PrintedRows(rows)) == Some(NeutraliseRows(rows))
    ensures PrintedRows(rows) != ""
    decreases |rows|
  {
    PrintedIsNotEmpty(rows[0]);
    if |rows| == 1 {
      OneLineFile(rows[0]);
      assert NeutraliseRows(rows) == [NeutraliseAll(rows[0])];
    } else {
      LinesReadBack(rows[1..]);
      FileCons(rows[0], PrintedRows(rows[1..]));
    }
  }

  /** Every record that is read has at least one field. */
  lemma {:induction false} RecordsHaveFields(s: string)
    ensures ReadFile(s).Some? ==> HasCells(ReadFile(s).value)
    decreases |s|
  {
    var record := ReadRecord(s);
    if record.Some? && CRLF <= record.value.rest && record.value.rest != CRLF {
      RecordsHaveFields(record.value.rest[2..]);
    }
  }

  lemma HasCellsCons(row: seq<string>, rows: seq<seq<string>>)
    ensures HasCells([row] + rows) <==> row != [] && HasCells(rows)
  {
    var all := [row] + rows;
    if HasCells(all) {
      assert all[0] == row;
      forall i | 0 <= i < |rows| ensures rows[i] != [] { assert all[i + 1] == rows[i]; }
    }
  }

  lemma {:induction false} NeutraliseRowsShape(rows: seq<seq<string>>)
    ensures HasCells(NeutraliseRows(rows)) <==> HasCells(rows)
  {
    if rows != [] {
      NeutraliseRowsShape(rows[1..]);
      HasCellsCons(rows[0], rows[1..]);
      HasCellsCons(NeutraliseAll(rows[0]), NeutraliseRows(rows[1..]));
      assert rows == [rows[0]] + rows[1..];
    }
  }

  /** What follows the byte-order mark reads back as the headers and rows, each cell neutralised, exactly when
      there is at least one column: a row without cells prints as nothing a reader could tell apart. */
  lemma CsvRoundTripIff(headers: seq<string>, rows: seq<seq<string>>)
    ensures BuildCsv(headers, rows)[0] == BOM
    ensures ReadFile(BuildCsv(headers, rows)[1..]) == Some([NeutraliseAll(headers)] + NeutraliseRows(rows))
       <==> headers != [] && HasCells(rows)
  {
    var all := [headers] + rows;
    assert all[1..] == rows;
    HasCellsCons(headers, rows);
    if HasCells(all) {
      FileReadsBack(headers, rows);
    } else {
      RecordsHaveFields(BuildCsv(headers, rows)[1..]);
      NeutraliseRowsShape(all);
    }
  }

  lemma FileReadsBack(headers: seq<string>, rows: seq<seq<string>>)
    requires headers != [] && HasCells(rows)
    ensures ReadFile(BuildCsv(headers, rows)[1..]) == Some([NeutraliseAll(headers)] + NeutraliseRows(rows))
  {
    if rows != [] { LinesReadBack(rows); }
    BuildIsPrinted(headers, rows);
    FileCons(headers, PrintedRows(rows));
    if rows == [] { assert [NeutraliseAll(headers)] + NeutraliseRows(rows) == [NeutraliseAll(headers)]; }
  }

  lemma BuildIsPrinted(headers: seq<string>, rows: seq<seq<string>>)
    ensures BuildCsv(headers, rows)[1..] == Printed(headers) + (CRLF + PrintedRows(rows))
  {
    PrintedIsLine(headers);
    PrintedRowsIsJoin(rows);
    DropBom(Line(headers), CRLF, Join(Lines(rows), CRLF));
  }

  lemma DropBom(a: string, b: string, c: string)
    ensures ([BOM] + a + b + c)[1..] == a + (b + c)
  {
  }

  // ---------------------------------------------------------------------------
  // Formula neutralisation
  // ---------------------------------------------------------------------------

  lemma NeutraliseFacts(s: string)
    ensures Neutralise(Neutralise(s)) == Neutralise(s)
    ensures Neutralise(s) != "" ==> Neutralise(s)[0] !in LEADERS
    ensures s <= Neutralise(s) || Neutralise(s)[1..] == s
  {
  }

  /** The only cells that become alike are a risky one and the same text already quoted by hand. */
  lemma NeutraliseMergesIff(a: string, b: string)
    ensures Neutralise(a) == Neutralise(b) <==>
            a == b || (a != "" && a[0] in LEADERS && b == "'" + a) || (b != "" && b[0] in LEADERS && a == "'" + b)
  {
    if a != "" && a[0] in LEADERS && b != "" && b[0] in LEADERS && Neutralise(a) == Neutralise(b) {
      assert Neutralise(a)[1..] == a && Neutralise(b)[1..] == b;
    }
  }

  lemma {:induction false} AllNeutral(cells: seq<string>)
    ensures forall c <- NeutraliseAll(cells) :: c != "" ==> c[0] !in LEADERS
  {
    if cells != [] {
      NeutraliseFacts(cells[0]);
      AllNeutral(cells[1..]);
    }
  }

  lemma {:induction false} AllRowsNeutral(rows: seq<seq<string>>)
    ensures forall row <- NeutraliseRows(rows), c <- row :: c != "" ==> c[0] !in LEADERS
  {
    if rows != [] {
      AllNeutral(rows[0]);
      AllRowsNeutral(rows[1..]);
      var out := NeutraliseRows(rows);
      assert forall row :: row in out ==> row == NeutraliseAll(rows[0]) || row in NeutraliseRows(rows[1..]);
    }
  }

  /** No cell a reader gets out of an export starts with a formula leader. */
  lemma NoCellStartsAFormula(headers: seq<string>, rows: seq<seq<string>>)
    requires headers != [] && HasCells(rows)
    ensures var read := ReadFile(BuildCsv(headers, rows)[1..]);
            read.Some? && forall row <- read.value, c <- row :: c != "" ==> c[0] !in LEADERS
  {
    CsvRoundTripIff(headers, rows);
    AllNeutral(headers);
    AllRowsNeutral(rows);
  }
}
