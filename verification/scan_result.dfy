/** Scan results and measures (src/scan-result.ts): what their constructors
    fill in, and which defaults apply when arguments are omitted. */
module ScanResults {
  import opened Wrappers
  import opened Severity
  import opened Syntax

  /** The rule argument as the constructors use it. They read `Node`,
      `SourceCode` and `ResultType`, none of which the rule class declares,
      so the model takes a record with exactly those three fields. */
  datatype MetricRule = MetricRule(Node: Node, SourceCode: string, ResultType: ResultType)

  datatype ScanResult = ScanResult(
    rule: MetricRule,
    sourceNode: Node,
    sourceCode: string,
    metadata: seq<string>,
    result: ResultType)

  /** `new ScanResult(rule, resultType?, targetNode?, metadata?)`. Omitted
      arguments are `None`; the defaults are applied with `??`, which only
      replaces a missing value, so an explicit `NA` (ordinal 0) is kept. */
  function NewScanResult(rule: MetricRule, resultType: Option<ResultType>,
                         targetNode: Option<Node>, metadata: Option<seq<string>>): (r: ScanResult)
    ensures r.rule == rule && r.sourceCode == rule.SourceCode
    ensures r.result == (if resultType.Some? then resultType.value else ResultType.VIOLATION)
    ensures r.sourceNode == (if targetNode.Some? then targetNode.value else rule.Node)
    ensures r.metadata == (if metadata.Some? then metadata.value else [])
  {
    ScanResult(
      rule := rule,
      sourceNode := targetNode.GetOr(rule.Node),
      sourceCode := rule.SourceCode,
      metadata := metadata.GetOr([]),
      result := resultType.GetOr(ResultType.VIOLATION))
  }

  /** Passing a result's own fields back in rebuilds it: every default is a
      value the caller could also have given explicitly. */
  lemma ScanResultRebuild(rule: MetricRule, resultType: Option<ResultType>,
                          targetNode: Option<Node>, metadata: Option<seq<string>>)
    ensures var r := NewScanResult(rule, resultType, targetNode, metadata);
            NewScanResult(r.rule, Some(r.result), Some(r.sourceNode), Some(r.metadata)) == r
  {
  }

  /** The result type is the given one whenever one is given, the lowest
      ordinal included; only an omitted one becomes VIOLATION. */
  lemma ScanResultKeepsExplicitResult(rule: MetricRule, t: ResultType,
                                      targetNode: Option<Node>, metadata: Option<seq<string>>)
    ensures NewScanResult(rule, Some(t), targetNode, metadata).result == t
    ensures NewScanResult(rule, Some(ResultType.NA), targetNode, metadata).result != ResultType.VIOLATION
    ensures ResultOrdinal(NewScanResult(rule, None, targetNode, metadata).result) == 3
  {
  }

  /** The common part of every metric, filled in from the creating rule. */
  datatype ScanMetric = ScanMetric(result: ResultType, sourceNode: Node, rule: MetricRule)

  /** The base-class constructor: everything comes from the rule. */
  function NewScanMetric(createdByRule: MetricRule): (m: ScanMetric)
    ensures m.result == createdByRule.ResultType
    ensures m.sourceNode == createdByRule.Node
    ensures m.rule == createdByRule
  {
    ScanMetric(createdByRule.ResultType, createdByRule.Node, createdByRule)
  }

  /** A measure: the metric fields, its measurement type and its children
      (declared with the empty tuple type, so always empty). */
  datatype ScanMeasure = ScanMeasure(metric: ScanMetric, MeasurementType: ResultType, Children: seq<ScanMeasure>)

  function NewScanMeasure(createdByRule: MetricRule): (m: ScanMeasure)
    ensures m.Children == []
    ensures m.MeasurementType == m.metric.result == createdByRule.ResultType
    ensures m.metric.sourceNode == createdByRule.Node && m.metric.rule == createdByRule
  {
    ScanMeasure(NewScanMetric(createdByRule), createdByRule.ResultType, [])
  }

  /** `ScanResult` does not run the metric constructor: with no result type
      given it reports VIOLATION, and it agrees with a metric built from the
      same rule exactly when the rule's own result type is VIOLATION. */
  lemma ScanResultDefaultDiffersFromMetric(rule: MetricRule)
    ensures NewScanResult(rule, None, None, None).result == NewScanMetric(rule).result
            <==> rule.ResultType == ResultType.VIOLATION
    ensures NewScanResult(rule, None, None, None).sourceNode == NewScanMetric(rule).sourceNode
  {
  }
}
