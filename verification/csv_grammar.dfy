/** The CSV text shape the CSV formatter emits: cells that are either
    quoted (with every inner quotation mark doubled, rule 7 of section 2 of
    RFC 4180) or bare, joined by commas into records and by line feeds into
    a table. A parser for that shape is the formatter's inverse. */
module CsvGrammar {
  import opened Wrappers
  import opened Strings

  /** `escapeCsvValue`: every `"` doubled, every other character kept in
      place; the empty string stays empty. */
  function EscapeCsvValue(s: string): (r: string)
    ensures |r| == |s| + Count(s, '"')
    ensures Count(s, '"') == 0 ==> r == s
  {
    if |s| == 0 then ""
    else (if s[0] == '"' then "\"\"" else [s[0]]) + EscapeCsvValue(s[1..])
  }

  /** Escaping distributes over concatenation: it is a per-character map. */
  lemma {:induction false} EscapeCsvValueAppend(a: string, b: string)
    ensures EscapeCsvValue(a + b) == EscapeCsvValue(a) + EscapeCsvValue(b)
  {
    if |a| == 0 {
      assert a + b == b;
    } else {
      assert (a + b)[1..] == a[1..] + b;
      EscapeCsvValueAppend(a[1..], b);
    }
  }

  /** Escaping keeps the number of every character other than `"`. */
  lemma {:induction false} EscapeCsvValueCount(s: string, c: char)
    requires c != '"'
    ensures Count(EscapeCsvValue(s), c) == Count(s, c)
  {
    if |s| > 0 {
      EscapeCsvValueCount(s[1..], c);
      var head := if s[0] == '"' then "\"\"" else [s[0]];
      CountAppend(head, EscapeCsvValue(s[1..]), c);
      if s[0] == '"' {
        assert head[1..][1..] == [];
      } else {
        assert head[1..] == [];
      }
    }
  }

  /** A quoted or bare cell; bare cells hold numbers or nothing. */
  datatype Cell = Quoted(text: string) | Bare(text: string)

  /** A bare cell must not contain a separator or a quotation mark. */
  predicate BareSafe(s: string) {
    forall i :: 0 <= i < |s| ==> s[i] != ',' && s[i] != '\n' && s[i] != '"'
  }

  predicate CellOk(c: Cell) {
    c.Bare? ==> BareSafe(c.text)
  }

  predicate CellsOk(cells: seq<Cell>) {
    forall i :: 0 <= i < |cells| ==> CellOk(cells[i])
  }

  /** A quoted cell is `"${escapeCsvValue(text)}"`; a bare one is its text. */
  function RenderCell(c: Cell): string {
    match c
    case Quoted(s) => "\"" + EscapeCsvValue(s) + "\""
    case Bare(s) => s
  }

  function RenderCells(cells: seq<Cell>): (r: seq<string>)
    ensures |r| == |cells|
    ensures forall i :: 0 <= i < |cells| ==> r[i] == RenderCell(cells[i])
  {
    if |cells| == 0 then [] else [RenderCell(cells[0])] + RenderCells(cells[1..])
  }

  /** `row.join(',')` over the rendered cells. */
  function RenderRecord(cells: seq<Cell>): string {
    Join(RenderCells(cells), ",")
  }

  function RenderRecords(rows: seq<seq<Cell>>): (r: seq<string>)
    ensures |r| == |rows|
    ensures forall i :: 0 <= i < |rows| ==> r[i] == RenderRecord(rows[i])
  {
    if |rows| == 0 then [] else [RenderRecord(rows[0])] + RenderRecords(rows[1..])
  }

  /** `lines.join('\n')` over the rendered records. */
  function RenderTable(rows: seq<seq<Cell>>): string {
    Join(RenderRecords(rows), "\n")
  }

  /** The body of a quoted cell, read after its opening quote: a doubled
      quote stands for one quote, a single quote closes the cell. Returns
      the text and what follows the closing quote. */
  function ParseQuoted(t: string): (r: Option<(string, string)>)
    ensures r.Some? ==> |r.value.1| < |t|
    decreases |t|
  {
    if |t| == 0 then None
    else if t[0] == '"' then
      if |t| >= 2 && t[1] == '"' then
        match ParseQuoted(t[2..])
        case None => None
        case Some((body, rest)) => Some(("\"" + body, rest))
      else Some(("", t[1..]))
    else
      match ParseQuoted(t[1..])
      case None => None
      case Some((body, rest)) => Some(([t[0]] + body, rest))
  }

  /** A bare cell runs up to the next comma, line feed or the end. */
  function ParseBare(t: string): (r: (string, string))
    ensures r.0 + r.1 == t
    decreases |t|
  {
    if |t| == 0 || t[0] == ',' || t[0] == '\n' then ("", t)
    else
      var r := ParseBare(t[1..]);
      ([t[0]] + r.0, r.1)
  }

  function ParseCell(t: string): (r: Option<(Cell, string)>)
    ensures r.Some? ==> |r.value.1| <= |t|
  {
    if |t| > 0 && t[0] == '"' then
      match ParseQuoted(t[1..])
      case None => None
      case Some((body, rest)) => Some((Quoted(body), rest))
    else
      var (cell, rest) := ParseBare(t);
      Some((Bare(cell), rest))
  }

  /** One record: its cells, and the text after the line feed that ended
      it (`None` when the input ended instead). */
  function ParseRecord(t: string): (r: Option<(seq<Cell>, Option<string>)>)
    ensures r.Some? && r.value.1.Some? ==> |r.value.1.value| < |t|
    decreases |t|
  {
    match ParseCell(t)
    case None => None
    case Some((c, rest)) =>
      if |rest| == 0 then Some(([c], None))
      else if rest[0] == '\n' then Some(([c], Some(rest[1..])))
      else if rest[0] == ',' then
        match ParseRecord(rest[1..])
        case None => None
        case Some((cells, next)) => Some(([c] + cells, next))
      else None
  }

  function ParseRecords(t: string): Option<seq<seq<Cell>>>
    decreases |t|
  {
    match ParseRecord(t)
    case None => None
    case Some((record, None)) => Some([record])
    case Some((record, Some(more))) =>
      match ParseRecords(more)
      case None => None
      case Some(records) => Some([record] + records)
  }

  /** A whole table; the empty text is the empty table. */
  function ParseTable(t: string): Option<seq<seq<Cell>>> {
    if |t| == 0 then Some([]) else ParseRecords(t)
  }

  /** An escaped, closed quoted body reads back as the original text,
      provided the next character is not itself a quotation mark. */
  lemma {:induction false} ParseQuotedEscape(s: string, rest: string)
    requires |rest| == 0 || rest[0] != '"'
    ensures ParseQuoted(EscapeCsvValue(s) + "\"" + rest) == Some((s, rest))
  {
    var t := EscapeCsvValue(s) + "\"" + rest;
    if |s| == 0 {
      assert t == "\"" + rest;
      assert t[1..] == rest;
    } else {
      var tail := EscapeCsvValue(s[1..]) + "\"" + rest;
      ParseQuotedEscape(s[1..], rest);
      if s[0] == '"' {
        assert t == "\"\"" + tail;
        assert t[2..] == tail;
        assert s == "\"" + s[1..];
      } else {
        assert t == [s[0]] + tail;
        assert t[1..] == tail;
        assert s == [s[0]] + s[1..];
      }
    }
  }

  lemma {:induction false} ParseBareSafe(x: string, rest: string)
    requires BareSafe(x)
    requires |rest| == 0 || rest[0] == ',' || rest[0] == '\n'
    ensures ParseBare(x + rest) == (x, rest)
  {
    if |x| == 0 {
      assert x + rest == rest;
    } else {
      assert (x + rest)[1..] == x[1..] + rest;
      ParseBareSafe(x[1..], rest);
      assert [x[0]] + x[1..] == x;
    }
  }

  lemma ParseCellRender(c: Cell, rest: string)
    requires CellOk(c)
    requires |rest| == 0 || rest[0] == ',' || rest[0] == '\n'
    ensures ParseCell(RenderCell(c) + rest) == Some((c, rest))
  {
    match c
    case Quoted(s) =>
      var t := RenderCell(c) + rest;
      assert t[1..] == EscapeCsvValue(s) + "\"" + rest;
      ParseQuotedEscape(s, rest);
    case Bare(s) =>
      ParseBareSafe(s, rest);
  }

  lemma JoinCons(head: string, parts: seq<string>, sep: string)
    requires |parts| > 0
    ensures Join([head] + parts, sep) == head + sep + Join(parts, sep)
  {
    assert ([head] + parts)[1..] == parts;
  }

  lemma RenderCellsTail(cells: seq<Cell>)
    requires |cells| > 0
    ensures RenderCells(cells) == [RenderCell(cells[0])] + RenderCells(cells[1..])
  {
  }

  /** A rendered record reads back as its cells, followed by whatever came
      after the line feed ending it. */
  lemma {:induction false} ParseRecordRender(cells: seq<Cell>, rest: string)
    requires |cells| > 0 && CellsOk(cells)
    requires |rest| == 0 || rest[0] == '\n'
    ensures ParseRecord(RenderRecord(cells) + rest)
            == Some((cells, if |rest| == 0 then None else Some(rest[1..])))
    decreases |cells|
  {
    var c := cells[0];
    assert CellOk(c);
    if |cells| == 1 {
      assert RenderRecord(cells) == RenderCell(c);
      ParseCellRender(c, rest);
      assert cells == [c];
    } else {
      var tail := RenderRecord(cells[1..]) + rest;
      RenderCellsTail(cells);
      JoinCons(RenderCell(c), RenderCells(cells[1..]), ",");
      assert RenderRecord(cells) + rest == RenderCell(c) + ("," + tail);
      ParseCellRender(c, "," + tail);
      assert ("," + tail)[1..] == tail;
      assert CellsOk(cells[1..]) by {
        forall i | 0 <= i < |cells| - 1 ensures CellOk(cells[1..][i]) {
          assert cells[1..][i] == cells[i + 1];
        }
      }
      ParseRecordRender(cells[1..], rest);
      assert [c] + cells[1..] == cells;
    }
  }

  predicate TableOk(rows: seq<seq<Cell>>) {
    forall i :: 0 <= i < |rows| ==> |rows[i]| > 0 && CellsOk(rows[i])
  }

  lemma {:induction false} ParseRecordsRender(rows: seq<seq<Cell>>)
    requires |rows| > 0 && TableOk(rows)
    ensures ParseRecords(RenderTable(rows)) == Some(rows)
    decreases |rows|
  {
    if |rows| == 1 {
      assert RenderTable(rows) == RenderRecord(rows[0]) + "";
      ParseRecordRender(rows[0], "");
      assert rows == [rows[0]];
    } else {
      var tail := RenderTable(rows[1..]);
      assert RenderRecords(rows) == [RenderRecord(rows[0])] + RenderRecords(rows[1..]);
      JoinCons(RenderRecord(rows[0]), RenderRecords(rows[1..]), "\n");
      assert RenderTable(rows) == RenderRecord(rows[0]) + ("\n" + tail);
      ParseRecordRender(rows[0], "\n" + tail);
      assert ("\n" + tail)[1..] == tail;
      assert TableOk(rows[1..]) by {
        forall i | 0 <= i < |rows| - 1 ensures |rows[1..][i]| > 0 && CellsOk(rows[1..][i]) {
          assert rows[1..][i] == rows[i + 1];
        }
      }
      ParseRecordsRender(rows[1..]);
      assert [rows[0]] + rows[1..] == rows;
    }
  }

  /** A table whose first record has at least two cells renders to a
      non-empty text and reads back as the same records; the empty table
      renders to the empty text. */
  lemma ParseTableRender(rows: seq<seq<Cell>>)
    requires TableOk(rows)
    requires |rows| > 0 ==> |rows[0]| >= 2
    ensures |rows| > 0 ==> |RenderTable(rows)| > 0
    ensures ParseTable(RenderTable(rows)) == Some(rows)
  {
    if |rows| > 0 {
      var first := rows[0];
      RenderCellsTail(first);
      JoinCons(RenderCell(first[0]), RenderCells(first[1..]), ",");
      assert |RenderRecord(first)| > 0;
      if |rows| > 1 {
        assert RenderRecords(rows) == [RenderRecord(rows[0])] + RenderRecords(rows[1..]);
        JoinCons(RenderRecord(rows[0]), RenderRecords(rows[1..]), "\n");
      }
      ParseRecordsRender(rows);
    }
  }
}
