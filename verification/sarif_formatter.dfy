/** The SARIF formatter (src/formatters/sarif-formatter.ts): each finding
    becomes one result of a SARIF 2.1.0 log (OASIS SARIF 2.1.0, result
    object section 3.27, `level` section 3.27.10, region section 3.30).
    The log is kept as a tree; its JSON text layout is not modelled. */
module SarifFormatter {
  import opened Wrappers
  import opened Digests
  import Severity

  const SchemaUri: string := "https://raw.githubusercontent.com/oasis-tcs/sarif-spec/master/Schemata/sarif-schema-2.1.0.json"
  const SarifVersion: string := "2.1.0"
  const ToolName: string := "Cayce"
  const ToolUri: string := "https://github.com/cayce/cayce-core"

  /** The three values of `level` the formatter uses. */
  datatype Level = Error | Warning | Note

  function LevelName(l: Level): string {
    match l
    case Error => "error"
    case Warning => "warning"
    case Note => "note"
  }

  /** Rank of a level, from least to most severe. */
  function LevelRank(l: Level): nat {
    match l
    case Note => 0
    case Warning => 1
    case Error => 2
  }

  /** `getSarifSeverityLevel`. */
  function SeverityLevel(severity: int): (l: Level)
    ensures l == Error <==> severity >= 8
    ensures l == Warning <==> 4 <= severity < 8
    ensures l == Note <==> severity < 4
  {
    if severity >= 8 then Error
    else if severity >= 4 then Warning
    else Note
  }

  /** A higher severity never yields a lower level. */
  lemma SeverityLevelMonotone(a: int, b: int)
    requires a <= b
    ensures LevelRank(SeverityLevel(a)) <= LevelRank(SeverityLevel(b))
  {
  }

  /** The four `RuleSeverity` members (0 to 3) all map to `note`: a finding
      whose severity was given as a `RuleSeverity` member is never reported
      as a warning or error. */
  lemma RuleSeveritiesAreNotes(s: Severity.RuleSeverity)
    ensures SeverityLevel(Severity.SeverityOrdinal(s)) == Note
  {
  }

  /** A region in the finding's own zero-based rows and columns. */
  datatype Region = Region(startLine: int, startColumn: int, endLine: int, endColumn: int)

  /** `physicalLocation`: `artifactLocation.uri` and `region`. */
  datatype Location = Location(uri: string, region: Region)

  datatype Properties = Properties(category: string, suggestion: string, nodeText: string)

  datatype SarifResult = SarifResult(ruleId: string, messageText: string, locations: seq<Location>, level: Level, properties: Properties)

  datatype Driver = Driver(name: string, informationUri: string, rules: seq<string>)

  datatype Run = Run(driver: Driver, results: seq<SarifResult>)

  datatype SarifLog = SarifLog(schema: string, version: string, runs: seq<Run>)

  /** `value || fallback`: an absent value and the empty string both give
      the fallback. */
  function OrElse(v: Option<string>, fallback: string): (r: string)
    ensures Truthy(v) ==> r == v.value
    ensures !Truthy(v) ==> r == fallback
  {
    if v.Some? && v.value != "" then v.value else fallback
  }

  /** The result for one finding. */
  function ToResult(d: Digest): (r: SarifResult)
    ensures r.ruleId == d.RuleId && r.messageText == d.Message
    ensures |r.locations| == 1 && r.locations[0].uri == d.Context
    ensures r.locations[0].region == Region(d.Start.Row, d.Start.Column, d.End.Row, d.End.Column)
    ensures LevelName(r.level) == (if d.Severity >= 8 then "error" else if d.Severity >= 4 then "warning" else "note")
    ensures r.properties.category == (if Truthy(d.Category) then d.Category.value else "Default")
    ensures r.properties.suggestion == (if Truthy(d.Suggestion) then d.Suggestion.value else "")
    ensures r.properties.nodeText == (if Truthy(d.NodeText) then d.NodeText.value else "")
  {
    SarifResult(
      d.RuleId,
      d.Message,
      [Location(d.Context, Region(d.Start.Row, d.Start.Column, d.End.Row, d.End.Column))],
      SeverityLevel(d.Severity),
      Properties(OrElse(d.Category, "Default"), OrElse(d.Suggestion, ""), OrElse(d.NodeText, "")))
  }

  function ToResults(ds: seq<Digest>): (rs: seq<SarifResult>)
    ensures |rs| == |ds|
    ensures forall i :: 0 <= i < |ds| ==> rs[i] == ToResult(ds[i])
  {
    if |ds| == 0 then [] else [ToResult(ds[0])] + ToResults(ds[1..])
  }

  /** `format`: one run of the Cayce tool, with no rule descriptors, holding
      one result per finding in input order. */
  function Format(ds: seq<Digest>): (log: SarifLog)
    ensures log.version == "2.1.0" && log.schema == SchemaUri
    ensures |log.runs| == 1
    ensures log.runs[0].driver == Driver("Cayce", ToolUri, [])
    ensures |log.runs[0].results| == |ds|
    ensures forall i :: 0 <= i < |ds| ==> log.runs[0].results[i] == ToResult(ds[i])
  {
    SarifLog(SchemaUri, SarifVersion, [Run(Driver(ToolName, ToolUri, []), ToResults(ds))])
  }

  /** What a SARIF result keeps of a finding: two findings give the same
      result exactly when they agree on these. The character offsets
      (`Index`) are dropped, the severity survives only as its level, and
      an absent optional text is indistinguishable from an empty one. */
  predicate SameInSarif(a: Digest, b: Digest) {
    && a.RuleId == b.RuleId && a.Message == b.Message && a.Context == b.Context
    && a.Start.Row == b.Start.Row && a.Start.Column == b.Start.Column
    && a.End.Row == b.End.Row && a.End.Column == b.End.Column
    && (a.Severity >= 8) == (b.Severity >= 8) && (a.Severity >= 4) == (b.Severity >= 4)
    && OrElse(a.Category, "Default") == OrElse(b.Category, "Default")
    && Truthy(a.Suggestion) == Truthy(b.Suggestion) && (Truthy(a.Suggestion) ==> a.Suggestion == b.Suggestion)
    && Truthy(a.NodeText) == Truthy(b.NodeText) && (Truthy(a.NodeText) ==> a.NodeText == b.NodeText)
  }

  lemma ToResultKernel(a: Digest, b: Digest)
    ensures ToResult(a) == ToResult(b) <==> SameInSarif(a, b)
  {
    if ToResult(a) == ToResult(b) {
      var ra, rb := ToResult(a), ToResult(b);
      assert ra.locations[0] == rb.locations[0];
      assert ra.level == rb.level;
      assert ra.properties == rb.properties;
    }
  }

  /** The index of a finding's character offsets never reaches the log. */
  lemma IndexIgnored(d: Digest, start: int, end: int)
    ensures ToResult(d.(Start := d.Start.(Index := start), End := d.End.(Index := end))) == ToResult(d)
  {
  }

  /** Results follow the findings: formatting `a + b` lists the results of
      `a`, then those of `b`. */
  lemma {:induction false} ToResultsAppend(a: seq<Digest>, b: seq<Digest>)
    ensures ToResults(a + b) == ToResults(a) + ToResults(b)
  {
    if |a| == 0 {
      assert a + b == b;
    } else {
      assert (a + b)[1..] == a[1..] + b;
      ToResultsAppend(a[1..], b);
    }
  }
}
