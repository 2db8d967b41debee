/** The legacy CSV formatter (src/csv-formatter.ts). It derives its header
    from the first record's keys, writes each record's values except the
    first and last as one quoted line, and keeps every line it has ever
    produced in its `output` buffer. */
module LegacyCsvFormatter {
  import opened Wrappers
  import opened Strings
  import Severity

  /** A property value as JavaScript sees it. `Obj` stands for an object or
      array, carrying the text `String(value)` gives for it. */
  datatype Value = Undefined | Null | Num(n: int) | Str(s: string) | Bool(b: bool) | Obj(rendering: string)

  /** One own enumerable property; a record lists them in key order. */
  datatype Entry = Entry(key: string, value: Value)

  /** The value `ResultType.VIOLATION` has. */
  const ViolationValue: int := Severity.ResultOrdinal(Severity.ResultType.VIOLATION)

  /** A cell value: VIOLATION prints as "true"; 0, null and undefined as
      nothing; anything else as `String(value)`. The comparisons are strict,
      so the string "3" prints as itself. */
  function RenderValue(v: Value): (r: string)
    ensures v == Num(3) ==> r == "true"
    ensures r == "" <==> v.Undefined? || v.Null? || v == Num(0) || v == Str("") || v == Obj("")
    ensures v.Str? ==> r == v.s
    ensures v.Bool? ==> r == (if v.b then "true" else "false")
    ensures v.Obj? ==> r == v.rendering
    ensures v.Num? && v.n != 0 && v.n != ViolationValue ==> ParseInt(r) == Some(v.n)
  {
    match v
    case Num(n) =>
      if n == ViolationValue then "true"
      else if n == 0 then ""
      else IntToStringRoundTrip(n); IntToString(n)
    case Undefined => ""
    case Null => ""
    case Str(s) => s
    case Bool(b) => if b then "true" else "false"
    case Obj(text) => text
  }

  /** Keys other than "metadata", each in quotation marks. */
  function HeaderCells(first: seq<Entry>): (r: seq<string>)
    ensures |r| <= |first|
  {
    if |first| == 0 then []
    else (if first[0].key == "metadata" then [] else ["\"" + first[0].key + "\""]) + HeaderCells(first[1..])
  }

  /** The header cells are exactly the quoted keys other than "metadata". */
  lemma {:induction false} HeaderCellsMembers(first: seq<Entry>)
    ensures forall h :: h in HeaderCells(first) <==> exists i :: 0 <= i < |first| && first[i].key != "metadata"
                                                                && h == "\"" + first[i].key + "\""
  {
    if |first| > 0 {
      HeaderCellsMembers(first[1..]);
      forall h ensures h in HeaderCells(first) <==> exists i :: 0 <= i < |first| && first[i].key != "metadata"
                                                               && h == "\"" + first[i].key + "\"" {
        if h in HeaderCells(first[1..]) {
          var j :| 0 <= j < |first[1..]| && first[1..][j].key != "metadata" && h == "\"" + first[1..][j].key + "\"";
          assert first[j + 1] == first[1..][j];
        }
        if exists i :: 0 <= i < |first| && first[i].key != "metadata" && h == "\"" + first[i].key + "\"" {
          var i :| 0 <= i < |first| && first[i].key != "metadata" && h == "\"" + first[i].key + "\"";
          if i > 0 {
            assert first[1..][i - 1] == first[i];
          }
        }
      }
    }
  }

  /** The header of one property: its quoted key, or nothing for
      "metadata". */
  lemma HeaderCellsSingle(e: Entry)
    ensures HeaderCells([e]) == if e.key == "metadata" then [] else ["\"" + e.key + "\""]
  {
    assert [e][1..] == [];
  }

  /** The filter keeps key order: the header of a concatenation of
      properties is the concatenation of their headers. Together with
      `HeaderCellsSingle` this fixes the header cell by cell. */
  lemma {:induction false} HeaderCellsAppend(a: seq<Entry>, b: seq<Entry>)
    ensures HeaderCells(a + b) == HeaderCells(a) + HeaderCells(b)
  {
    if |a| == 0 {
      assert a + b == b;
    } else {
      assert (a + b)[0] == a[0];
      assert (a + b)[1..] == a[1..] + b;
      HeaderCellsAppend(a[1..], b);
    }
  }

  function HeaderLine(first: seq<Entry>): string {
    Join(HeaderCells(first), ",")
  }

  /** `values.slice(1, -1)`: all but the first and the last value. */
  function Inner(r: seq<Entry>): (inner: seq<Entry>)
    ensures |inner| == if |r| < 2 then 0 else |r| - 2
    ensures forall i :: 0 <= i < |inner| ==> inner[i] == r[i + 1]
  {
    if |r| < 2 then [] else r[1..|r| - 1]
  }

  function RenderValues(es: seq<Entry>): (r: seq<string>)
    ensures |r| == |es|
    ensures forall i :: 0 <= i < |es| ==> r[i] == RenderValue(es[i].value)
  {
    if |es| == 0 then [] else [RenderValue(es[0].value)] + RenderValues(es[1..])
  }

  /** One line per record: the inner values joined by commas, wrapped as a
      whole in one pair of quotation marks, with nothing escaped. */
  function RowLine(r: seq<Entry>): string {
    "\"" + Join(RenderValues(Inner(r)), ",") + "\""
  }

  /** A row line opens and closes with a quotation mark and holds no other
      quotation marks than those inside its printed values, which are not
      doubled; its commas are those of the values plus one between each
      pair of values. */
  lemma RowLineQuoted(r: seq<Entry>)
    ensures |RowLine(r)| >= 2 && RowLine(r)[0] == '"' && RowLine(r)[|RowLine(r)| - 1] == '"'
    ensures Count(RowLine(r), '"') == 2 + CountAll(RenderValues(Inner(r)), '"')
    ensures |Inner(r)| > 0 ==>
              Count(RowLine(r), ',') == CountAll(RenderValues(Inner(r)), ',') + |Inner(r)| - 1
  {
    var body := Join(RenderValues(Inner(r)), ",");
    assert RowLine(r) == "\"" + body + "\"";
    CountAppend("\"" + body, "\"", '"');
    CountAppend("\"", body, '"');
    CountAppend("\"" + body, "\"", ',');
    CountAppend("\"", body, ',');
    assert Count("\"", '"') == 1 && Count("\"", ',') == 0 by {
      assert "\""[1..] == [];
    }
    if |Inner(r)| > 0 {
      CountJoin(RenderValues(Inner(r)), ',', '"');
      CountJoin(RenderValues(Inner(r)), ',', ',');
    }
  }

  function RowLines(rs: seq<seq<Entry>>): (r: seq<string>)
    ensures |r| == |rs|
    ensures forall i :: 0 <= i < |rs| ==> r[i] == RowLine(rs[i])
  {
    if |rs| == 0 then [] else [RowLine(rs[0])] + RowLines(rs[1..])
  }

  /** The formatter instance: the `output` buffer, never cleared. */
  datatype LegacyCsvState = LegacyCsvState(output: seq<string>)

  /** `format`: with no records, reading the keys of `scanResults[0]`
      throws and nothing is appended. Otherwise the header and one line per
      record are appended to the buffer and the whole buffer is returned. */
  function Format(st: LegacyCsvState, rs: seq<seq<Entry>>): (r: (LegacyCsvState, Result<string, string>))
    ensures |rs| == 0 ==> r.0 == st && r.1.Failure?
    ensures |rs| > 0 ==> && |r.0.output| == |st.output| + 1 + |rs|
                         && r.0.output[..|st.output|] == st.output
                         && r.0.output[|st.output|] == HeaderLine(rs[0])
                         && r.1 == Success(Join(r.0.output, "\n"))
  {
    if |rs| == 0 then (st, Failure("TypeError: Cannot convert undefined or null to object"))
    else
      var out := st.output + ([HeaderLine(rs[0])] + RowLines(rs));
      (LegacyCsvState(out), Success(Join(out, "\n")))
  }

  /** A later call returns everything the earlier call returned, then a
      line feed, then its own header and lines. */
  lemma FormatAccumulates(st: LegacyCsvState, first: seq<seq<Entry>>, second: seq<seq<Entry>>)
    requires |first| > 0 && |second| > 0
    ensures var (st1, text1) := Format(st, first);
            var (_, text2) := Format(st1, second);
            text2 == Success(text1.value + "\n" + Join([HeaderLine(second[0])] + RowLines(second), "\n"))
  {
    var st1 := Format(st, first).0;
    JoinAppend(st1.output, [HeaderLine(second[0])] + RowLines(second), "\n");
  }

  /** Hence formatting the same records twice does not give the same text:
      the second result is strictly longer. */
  lemma FormatNotRepeatable(st: LegacyCsvState, rs: seq<seq<Entry>>)
    requires |rs| > 0
    ensures var (st1, text1) := Format(st, rs);
            |Format(st1, rs).1.value| > |text1.value|
  {
    FormatAccumulates(st, rs, rs);
  }

  /** On a new instance the text is the header and one line per record. */
  lemma FormatFresh(rs: seq<seq<Entry>>)
    requires |rs| > 0
    ensures Format(LegacyCsvState([]), rs).1 == Success(Join([HeaderLine(rs[0])] + RowLines(rs), "\n"))
  {
    var later := [HeaderLine(rs[0])] + RowLines(rs);
    assert LegacyCsvState([]).output + later == later;
  }

  /** For a record of the five properties a scan result has, the header
      names four columns while each line carries three values. */
  lemma ScanResultShapeMisaligned(rule: Value, node: Value, code: Value, metadata: Value, result: Value)
    ensures var r := [Entry("rule", rule), Entry("sourceNode", node), Entry("sourceCode", code),
                      Entry("metadata", metadata), Entry("result", result)];
            |HeaderCells(r)| == 4 && |RenderValues(Inner(r))| == 3
  {
    var r := [Entry("rule", rule), Entry("sourceNode", node), Entry("sourceCode", code),
              Entry("metadata", metadata), Entry("result", result)];
    assert r[4..] == [Entry("result", result)];
    assert r[4..][1..] == [];
    assert "result" != "metadata";
    assert |HeaderCells(r[4..])| == 1;
    assert r[3..][1..] == r[4..];
    assert r[3..][0].key == "metadata";
    assert |HeaderCells(r[3..])| == 1;
    assert r[2..][1..] == r[3..];
    assert |HeaderCells(r[2..])| == 2;
    assert r[1..][1..] == r[2..];
    assert |HeaderCells(r[1..])| == 3;
  }
}
