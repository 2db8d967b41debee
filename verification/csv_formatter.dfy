/** The CSV formatter (src/formatters/csv-formatter.ts): a fixed header and
    one row per finding, every string cell quoted with inner quotes
    doubled, numbers bare, and absent optional texts as empty cells. */
module CsvFormatter {
  import opened Wrappers
  import opened Strings
  import opened Digests
  import opened CsvGrammar

  const HeaderNames: seq<string> := [
    "RuleId", "StartRow", "StartColumn", "StartIndex", "EndRow", "EndColumn", "EndIndex",
    "Message", "Suggestion", "Severity", "Category", "Context", "NodeText"]

  /** The header cells, each name in quotation marks. */
  function HeaderCells(): (r: seq<Cell>)
    ensures |r| == |HeaderNames| == 13
    ensures forall i :: 0 <= i < |r| ==> r[i] == Quoted(HeaderNames[i])
  {
    seq(|HeaderNames|, i requires 0 <= i < |HeaderNames| => Quoted(HeaderNames[i]))
  }

  /** The header line. None of the names contains a quotation mark, so
      quoting them as data cells are quoted gives the source's plain
      `"${header}"` text. */
  function HeaderLine(): string {
    RenderRecord(HeaderCells())
  }

  /** The header is the thirteen names, each individually quoted, joined
      by commas. */
  lemma HeaderLineText()
    ensures HeaderLine() == Join(QuotedNames(), ",")
  {
    HeaderCellsRender();
  }

  lemma HeaderCellsRender()
    ensures RenderCells(HeaderCells()) == QuotedNames()
  {
    HeaderNamesLetters();
    WordsRender(HeaderCells(), HeaderNames);
  }

  /** Cells quoting words of letters render as the words between
      quotation marks. */
  lemma WordsRender(cells: seq<Cell>, words: seq<string>)
    requires |cells| == |words|
    requires forall i :: 0 <= i < |cells| ==> cells[i] == Quoted(words[i])
    requires forall i :: 0 <= i < |words| ==> Letters(words[i])
    ensures forall i :: 0 <= i < |cells| ==> RenderCells(cells)[i] == "\"" + words[i] + "\""
  {
    forall i | 0 <= i < |cells|
      ensures RenderCells(cells)[i] == "\"" + words[i] + "\""
    {
      CountNone(words[i], '"');
    }
  }

  predicate Letters(s: string) {
    forall k :: 0 <= k < |s| ==> 'A' <= s[k] <= 'Z' || 'a' <= s[k] <= 'z'
  }

  /** The header names are plain words: no quotation mark, no line feed. */
  lemma HeaderNamesLetters()
    ensures forall i :: 0 <= i < 13 ==> Letters(HeaderNames[i])
  {
    PositionNamesLetters();
    TextNamesLetters();
    forall i | 0 <= i < 13 ensures Letters(HeaderNames[i]) {
    }
  }

  lemma PositionNamesLetters()
    ensures Letters("StartRow") && Letters("StartColumn") && Letters("StartIndex")
    ensures Letters("EndRow") && Letters("EndColumn") && Letters("EndIndex")
  {
  }

  lemma TextNamesLetters()
    ensures Letters("RuleId") && Letters("Message") && Letters("Suggestion") && Letters("Severity")
    ensures Letters("Category") && Letters("Context") && Letters("NodeText")
  {
  }

  /** Each header name between quotation marks. */
  function QuotedNames(): (r: seq<string>)
    ensures |r| == 13
    ensures forall i :: 0 <= i < 13 ==> r[i] == "\"" + HeaderNames[i] + "\""
  {
    seq(13, i requires 0 <= i < 13 => "\"" + HeaderNames[i] + "\"")
  }

  /** `value ? "${escapeCsvValue(value)}" : ''`: an absent or empty
      optional text is an empty, unquoted cell. */
  function OptionalCell(v: Option<string>): Cell {
    if Truthy(v) then Quoted(v.value) else Bare("")
  }

  function NumberCell(n: int): (c: Cell)
    ensures c.Bare? && |c.text| > 0
  {
    Bare(IntToString(n))
  }

  /** The thirteen cells of one finding, in header order. */
  function RowCells(d: Digest): (r: seq<Cell>)
    ensures |r| == |HeaderNames|
  {
    [ Quoted(d.RuleId),
      NumberCell(d.Start.Row), NumberCell(d.Start.Column), NumberCell(d.Start.Index),
      NumberCell(d.End.Row), NumberCell(d.End.Column), NumberCell(d.End.Index),
      Quoted(d.Message),
      OptionalCell(d.Suggestion),
      NumberCell(d.Severity),
      OptionalCell(d.Category),
      Quoted(d.Context),
      OptionalCell(d.NodeText) ]
  }

  /** Every cell of a row is well formed: numbers are bare and safe. */
  lemma RowCellsOk(d: Digest)
    ensures CellsOk(RowCells(d))
  {
    NumberCellOk(d.Start.Row);
    NumberCellOk(d.Start.Column);
    NumberCellOk(d.Start.Index);
    NumberCellOk(d.End.Row);
    NumberCellOk(d.End.Column);
    NumberCellOk(d.End.Index);
    NumberCellOk(d.Severity);
  }

  lemma NumberCellOk(n: int)
    ensures CellOk(NumberCell(n))
  {
  }

  function RowsCells(ds: seq<Digest>): (r: seq<seq<Cell>>)
    ensures |r| == |ds|
    ensures forall i :: 0 <= i < |ds| ==> r[i] == RowCells(ds[i])
  {
    if |ds| == 0 then [] else [RowCells(ds[0])] + RowsCells(ds[1..])
  }

  /** The formatter instance: its `output` line buffer. */
  datatype CsvFormatterState = CsvFormatterState(output: seq<string>)

  /** `format`: empty input returns "" before the buffer is touched;
      otherwise the buffer is reset to the header line and one line per
      finding, and the lines are joined with line feeds. */
  function Format(st: CsvFormatterState, ds: seq<Digest>): (r: (CsvFormatterState, string))
    ensures |ds| == 0 ==> r == (st, "")
    ensures |ds| > 0 ==> |r.0.output| == |ds| + 1 && r.0.output[0] == HeaderLine()
    ensures |ds| > 0 ==> r.1 == Join(r.0.output, "\n") && |r.1| > 0
  {
    if |ds| == 0 then (st, "")
    else
      var out := RenderRecords(Table(ds));
      assert Table(ds)[0] == HeaderCells();
      (CsvFormatterState(out), Join(out, "\n"))
  }

  /** The records the formatter writes: the header, then one per finding. */
  function Table(ds: seq<Digest>): (rows: seq<seq<Cell>>)
    ensures |rows| == |ds| + 1
  {
    [HeaderCells()] + RowsCells(ds)
  }

  /** Every record of the table is well formed. */
  lemma TableWellFormed(ds: seq<Digest>)
    ensures TableOk(Table(ds))
    ensures Table(ds)[1..] == RowsCells(ds)
  {
    var table := Table(ds);
    forall i | 0 <= i < |table| ensures |table[i]| > 0 && CellsOk(table[i]) {
      if i > 0 {
        assert table[i] == RowCells(ds[i - 1]);
        RowCellsOk(ds[i - 1]);
      }
    }
    assert table[1..] == RowsCells(ds);
  }

  /** The text never depends on what an earlier call left in the buffer. */
  lemma FormatIgnoresBuffer(st1: CsvFormatterState, st2: CsvFormatterState, ds: seq<Digest>)
    ensures Format(st1, ds).1 == Format(st2, ds).1
    ensures Format(Format(st1, ds).0, ds) == Format(st1, ds) || |ds| == 0
  {
  }

  /** Reading a row back: a quoted cell gives its text, a bare cell a
      number or (when empty) an absent optional text. */
  function DecodeNumber(c: Cell): Option<int> {
    if c.Bare? then ParseInt(c.text) else None
  }

  function DecodeOptional(c: Cell): Option<Option<string>> {
    match c
    case Quoted(s) => Some(Some(s))
    case Bare(s) => if s == "" then Some(None) else None
  }

  function DecodeRow(cells: seq<Cell>): Option<Digest> {
    if |cells| == 13 && cells[0].Quoted? && cells[7].Quoted? && cells[11].Quoted?
       && DecodeNumber(cells[1]).Some? && DecodeNumber(cells[2]).Some? && DecodeNumber(cells[3]).Some?
       && DecodeNumber(cells[4]).Some? && DecodeNumber(cells[5]).Some? && DecodeNumber(cells[6]).Some?
       && DecodeNumber(cells[9]).Some?
       && DecodeOptional(cells[8]).Some? && DecodeOptional(cells[10]).Some? && DecodeOptional(cells[12]).Some?
    then
      Some(Digest(
        RuleId := cells[0].text,
        Start := Position(DecodeNumber(cells[1]).value, DecodeNumber(cells[2]).value, DecodeNumber(cells[3]).value),
        End := Position(DecodeNumber(cells[4]).value, DecodeNumber(cells[5]).value, DecodeNumber(cells[6]).value),
        Message := cells[7].text,
        Suggestion := DecodeOptional(cells[8]).value,
        Severity := DecodeNumber(cells[9]).value,
        Category := DecodeOptional(cells[10]).value,
        Context := cells[11].text,
        NodeText := DecodeOptional(cells[12]).value))
    else None
  }

  function DecodeRows(rows: seq<seq<Cell>>): Option<seq<Digest>> {
    if |rows| == 0 then Some([])
    else match (DecodeRow(rows[0]), DecodeRows(rows[1..]))
      case (Some(d), Some(rest)) => Some([d] + rest)
      case _ => None
  }

  /** Reads a CSV text back into findings: the empty text is no findings,
      anything else must start with the header. */
  function DecodeCsv(text: string): Option<seq<Digest>> {
    if |text| == 0 then Some([])
    else match ParseRecords(text)
      case None => None
      case Some(rows) => if |rows| > 0 && rows[0] == HeaderCells() then DecodeRows(rows[1..]) else None
  }

  /** What survives the CSV encoding: an empty optional text is written as
      an empty cell, exactly like an absent one. */
  function Normalized(d: Digest): Digest {
    d.(Suggestion := if Truthy(d.Suggestion) then d.Suggestion else None,
       Category := if Truthy(d.Category) then d.Category else None,
       NodeText := if Truthy(d.NodeText) then d.NodeText else None)
  }

  function NormalizedAll(ds: seq<Digest>): (r: seq<Digest>)
    ensures |r| == |ds|
    ensures forall i :: 0 <= i < |ds| ==> r[i] == Normalized(ds[i])
  {
    if |ds| == 0 then [] else [Normalized(ds[0])] + NormalizedAll(ds[1..])
  }

  lemma DecodeRowCells(d: Digest)
    ensures DecodeRow(RowCells(d)) == Some(Normalized(d))
  {
    var r := RowCells(d);
    NumberCellDecodes(d.Start.Row);
    NumberCellDecodes(d.Start.Column);
    NumberCellDecodes(d.Start.Index);
    NumberCellDecodes(d.End.Row);
    NumberCellDecodes(d.End.Column);
    NumberCellDecodes(d.End.Index);
    NumberCellDecodes(d.Severity);
    OptionalCellDecodes(d.Suggestion);
    OptionalCellDecodes(d.Category);
    OptionalCellDecodes(d.NodeText);
    DecodeRowOf(r, Normalized(d));
  }

  lemma OptionalCellDecodes(v: Option<string>)
    ensures DecodeOptional(OptionalCell(v)) == Some(if Truthy(v) then v else None)
  {
  }

  lemma NumberCellDecodes(n: int)
    ensures DecodeNumber(NumberCell(n)) == Some(n)
  {
    IntToStringRoundTrip(n);
  }

  /** A row whose every cell decodes to the matching field of `d`. */
  lemma DecodeRowOf(cells: seq<Cell>, d: Digest)
    requires |cells| == 13
    requires cells[0] == Quoted(d.RuleId) && cells[7] == Quoted(d.Message) && cells[11] == Quoted(d.Context)
    requires DecodeNumber(cells[1]) == Some(d.Start.Row) && DecodeNumber(cells[2]) == Some(d.Start.Column)
    requires DecodeNumber(cells[3]) == Some(d.Start.Index) && DecodeNumber(cells[4]) == Some(d.End.Row)
    requires DecodeNumber(cells[5]) == Some(d.End.Column) && DecodeNumber(cells[6]) == Some(d.End.Index)
    requires DecodeNumber(cells[9]) == Some(d.Severity)
    requires DecodeOptional(cells[8]) == Some(d.Suggestion) && DecodeOptional(cells[10]) == Some(d.Category)
    requires DecodeOptional(cells[12]) == Some(d.NodeText)
    ensures DecodeRow(cells) == Some(d)
  {
  }

  lemma {:induction false} DecodeRowsCells(ds: seq<Digest>)
    ensures DecodeRows(RowsCells(ds)) == Some(NormalizedAll(ds))
  {
    if |ds| > 0 {
      DecodeRowCells(ds[0]);
      DecodeRowsCells(ds[1..]);
      assert RowsCells(ds)[1..] == RowsCells(ds[1..]);
    }
  }

  /** Round trip: decoding the formatted text gives back every finding, in
      order, up to the empty-versus-absent optional texts. */
  lemma CsvRoundTrip(st: CsvFormatterState, ds: seq<Digest>)
    ensures DecodeCsv(Format(st, ds).1) == Some(NormalizedAll(ds))
  {
    if |ds| > 0 {
      var table := Table(ds);
      var text := Format(st, ds).1;
      assert text == RenderTable(table);
      TableWellFormed(ds);
      ParseTableRender(table);
      assert |text| > 0 && ParseRecords(text) == Some(table);
      assert table[0] == HeaderCells();
      assert DecodeCsv(text) == DecodeRows(table[1..]);
      DecodeRowsCells(ds);
    }
  }

  /** When no text of any finding contains a line feed, the output has one
      line feed between consecutive lines: |ds| + 1 lines in all. */
  lemma CsvLineCount(st: CsvFormatterState, ds: seq<Digest>)
    requires forall i :: 0 <= i < |ds| ==> TextsFree(ds[i])
    ensures |ds| > 0 ==> Count(Format(st, ds).1, '\n') == |ds|
  {
    if |ds| > 0 {
      var table := Table(ds);
      var out := RenderRecords(table);
      assert Format(st, ds).1 == Join(out, "\n");
      forall i | 0 <= i < |out| ensures Count(out[i], '\n') == 0 {
        if i == 0 {
          HeaderFree();
        } else {
          assert table[i] == RowCells(ds[i - 1]);
          RowFree(ds[i - 1]);
        }
      }
      CountAllZero(out, '\n');
      CountJoin(out, '\n', '\n');
    }
  }

  /** None of the finding's texts contains a line feed. */
  predicate TextsFree(d: Digest) {
    && Count(d.RuleId, '\n') == 0 && Count(d.Message, '\n') == 0 && Count(d.Context, '\n') == 0
    && (d.Suggestion.Some? ==> Count(d.Suggestion.value, '\n') == 0)
    && (d.Category.Some? ==> Count(d.Category.value, '\n') == 0)
    && (d.NodeText.Some? ==> Count(d.NodeText.value, '\n') == 0)
  }

  lemma {:induction false} CountAllZero(parts: seq<string>, c: char)
    requires forall i :: 0 <= i < |parts| ==> Count(parts[i], c) == 0
    ensures CountAll(parts, c) == 0
  {
    if |parts| > 0 {
      assert forall i :: 0 <= i < |parts| - 1 ==> parts[1..][i] == parts[i + 1];
      CountAllZero(parts[1..], c);
    }
  }

  lemma {:induction false} CountNone(s: string, c: char)
    requires forall i :: 0 <= i < |s| ==> s[i] != c
    ensures Count(s, c) == 0
  {
    if |s| > 0 {
      assert forall i :: 0 <= i < |s| - 1 ==> s[1..][i] == s[i + 1];
      CountNone(s[1..], c);
    }
  }

  /** A cell whose text has no line feed renders without one. */
  predicate CellFree(cell: Cell) {
    match cell
    case Quoted(s) => Count(s, '\n') == 0
    case Bare(s) => forall i :: 0 <= i < |s| ==> s[i] != '\n'
  }

  lemma RenderCellFree(cell: Cell)
    requires CellFree(cell)
    ensures Count(RenderCell(cell), '\n') == 0
  {
    match cell
    case Quoted(s) =>
      EscapeCsvValueCount(s, '\n');
      CountAppend("\"" + EscapeCsvValue(s), "\"", '\n');
      CountAppend("\"", EscapeCsvValue(s), '\n');
    case Bare(s) =>
      CountNone(s, '\n');
  }

  lemma RecordFree(cells: seq<Cell>)
    requires forall i :: 0 <= i < |cells| ==> CellFree(cells[i])
    ensures Count(RenderRecord(cells), '\n') == 0
  {
    var parts := RenderCells(cells);
    forall i | 0 <= i < |cells| ensures Count(parts[i], '\n') == 0 {
      RenderCellFree(cells[i]);
    }
    if |parts| > 0 {
      CountAllZero(parts, '\n');
      CountJoin(parts, ',', '\n');
    }
  }

  lemma HeaderFree()
    ensures Count(HeaderLine(), '\n') == 0
  {
    var cells := HeaderCells();
    HeaderNamesLetters();
    forall i | 0 <= i < |cells| ensures CellFree(cells[i]) {
      CountNone(HeaderNames[i], '\n');
    }
    RecordFree(cells);
  }

  lemma RowFree(d: Digest)
    requires TextsFree(d)
    ensures Count(RenderRecord(RowCells(d)), '\n') == 0
  {
    var cells := RowCells(d);
    assert CellFree(cells[0]) && CellFree(cells[7]) && CellFree(cells[11]);
    assert CellFree(cells[8]) && CellFree(cells[10]) && CellFree(cells[12]);
    NumberCellFree(d.Start.Row);
    NumberCellFree(d.Start.Column);
    NumberCellFree(d.Start.Index);
    NumberCellFree(d.End.Row);
    NumberCellFree(d.End.Column);
    NumberCellFree(d.End.Index);
    NumberCellFree(d.Severity);
    RecordFree(cells);
  }

  /** A number is written with digits and a sign only. */
  lemma NumberCellFree(n: int)
    ensures CellFree(NumberCell(n))
  {
  }
}
