/** Rule configuration, the decorators that fill it in, and rule execution
    (src/scan-rule.ts): captures whose name starts with "target" become
    findings, in capture order. */
module ScanRules {
  import opened Wrappers
  import opened Strings
  import Severity
  import opened Syntax
  import opened Digests

  /** Opaque handle to a tree-sitter grammar, named by the grammar it binds. */
  datatype Language = Language(grammar: string)

  /** The configuration fields of a rule. The severity, the suggestion and
      the category are `undefined` until their decorator runs: a finding
      then carries no suggestion or category, and building a finding with
      no severity throws. The language binding is absent until a plugin's
      `getRules` sets it. */
  datatype RuleConfig = RuleConfig(
    Id: string,
    RuleSeverity: Option<int>,
    Message: string,
    Category: Option<string>,
    Priority: int,
    Suggestion: Option<string>,
    Name: string,
    TreeQuery: string,
    Context: string,
    TreeSitterLanguage: Option<Language>)

  /** Names of the configuration fields, so that "every other field is
      unchanged" can be stated once for all of them. */
  datatype Field =
    | IdField | RuleSeverityField | MessageField | CategoryField | PriorityField
    | SuggestionField | NameField | TreeQueryField | ContextField | LanguageField

  datatype FieldValue =
    | Text(text: string) | MaybeText(maybe: Option<string>)
    | Number(number: int) | MaybeNumber(maybeNumber: Option<int>)
    | Binding(language: Option<Language>)

  function Get(cfg: RuleConfig, f: Field): FieldValue {
    match f
    case IdField => Text(cfg.Id)
    case RuleSeverityField => MaybeNumber(cfg.RuleSeverity)
    case MessageField => Text(cfg.Message)
    case CategoryField => MaybeText(cfg.Category)
    case PriorityField => Number(cfg.Priority)
    case SuggestionField => MaybeText(cfg.Suggestion)
    case NameField => Text(cfg.Name)
    case TreeQueryField => Text(cfg.TreeQuery)
    case ContextField => Text(cfg.Context)
    case LanguageField => Binding(cfg.TreeSitterLanguage)
  }

  /** The eight class decorators, each carrying its argument. */
  datatype Decorator =
    | MessageDecorator(message: string)
    | IdDecorator(id: string)
    | NameDecorator(name: string)
    | CategoryDecorator(category: string)
    | TreeQueryDecorator(treeQuery: string)
    | SuggestionDecorator(suggestion: string)
    | ContextDecorator(context: string)
    | RuleSeverityDecorator(severity: Severity.RuleSeverity)

  /** The field a decorator writes. */
  function Target(d: Decorator): Field {
    match d
    case MessageDecorator(_) => MessageField
    case IdDecorator(_) => IdField
    case NameDecorator(_) => NameField
    case CategoryDecorator(_) => CategoryField
    case TreeQueryDecorator(_) => TreeQueryField
    case SuggestionDecorator(_) => SuggestionField
    case ContextDecorator(_) => ContextField
    case RuleSeverityDecorator(_) => RuleSeverityField
  }

  /** The value a decorator writes; a severity is stored as its ordinal. */
  function Assigned(d: Decorator): FieldValue {
    match d
    case MessageDecorator(s) => Text(s)
    case IdDecorator(s) => Text(s)
    case NameDecorator(s) => Text(s)
    case CategoryDecorator(s) => MaybeText(Some(s))
    case TreeQueryDecorator(s) => Text(s)
    case SuggestionDecorator(s) => MaybeText(Some(s))
    case ContextDecorator(s) => Text(s)
    case RuleSeverityDecorator(s) => MaybeNumber(Some(Severity.SeverityOrdinal(s)))
  }

  /** Applying one decorator: it writes its own field and nothing else. */
  function Apply(cfg: RuleConfig, d: Decorator): (r: RuleConfig)
    ensures Get(r, Target(d)) == Assigned(d)
    ensures forall f :: f != Target(d) ==> Get(r, f) == Get(cfg, f)
  {
    match d
    case MessageDecorator(s) => cfg.(Message := s)
    case IdDecorator(s) => cfg.(Id := s)
    case NameDecorator(s) => cfg.(Name := s)
    case CategoryDecorator(s) => cfg.(Category := Some(s))
    case TreeQueryDecorator(s) => cfg.(TreeQuery := s)
    case SuggestionDecorator(s) => cfg.(Suggestion := Some(s))
    case ContextDecorator(s) => cfg.(Context := s)
    case RuleSeverityDecorator(s) => cfg.(RuleSeverity := Some(Severity.SeverityOrdinal(s)))
  }

  /** A decorator list as written above a class. TypeScript applies class
      decorators from the bottom up, so the last one listed runs first. */
  function Decorate(cfg: RuleConfig, ds: seq<Decorator>): RuleConfig
    decreases |ds|
  {
    if |ds| == 0 then cfg else Decorate(Apply(cfg, ds[|ds| - 1]), ds[..|ds| - 1])
  }

  /** The value written by the topmost decorator that targets `f`, if any. */
  function Topmost(ds: seq<Decorator>, f: Field): Option<FieldValue> {
    if |ds| == 0 then None
    else if Target(ds[0]) == f then Some(Assigned(ds[0]))
    else Topmost(ds[1..], f)
  }

  lemma {:induction false} TopmostSnoc(ds: seq<Decorator>, d: Decorator, f: Field)
    ensures Topmost(ds + [d], f)
            == if Topmost(ds, f).Some? then Topmost(ds, f)
               else if Target(d) == f then Some(Assigned(d)) else None
  {
    if |ds| == 0 {
      assert ds + [d] == [d];
    } else {
      assert (ds + [d])[1..] == ds[1..] + [d];
      TopmostSnoc(ds[1..], d, f);
    }
  }

  /** After a decorator list, each field holds the value of the topmost
      decorator that targets it, and fields no decorator targets keep their
      earlier value. */
  lemma {:induction false} DecorateTopmostWins(cfg: RuleConfig, ds: seq<Decorator>, f: Field)
    ensures Get(Decorate(cfg, ds), f) == Topmost(ds, f).GetOr(Get(cfg, f))
    decreases |ds|
  {
    if |ds| > 0 {
      var init, last := ds[..|ds| - 1], ds[|ds| - 1];
      DecorateTopmostWins(Apply(cfg, last), init, f);
      assert ds == init + [last];
      TopmostSnoc(init, last, f);
    }
  }

  /** `capture.name.startsWith('target')`. */
  predicate IsTarget(c: Capture) {
    StartsWith(c.name, "target")
  }

  /** The prefix test is exact and case-sensitive. */
  lemma TargetPrefixExamples(n: Node)
    ensures IsTarget(Capture("target", n))
    ensures IsTarget(Capture("target.function", n))
    ensures IsTarget(Capture("targetX", n))
    ensures !IsTarget(Capture("Target", n))
    ensures !IsTarget(Capture("other", n))
    ensures !IsTarget(Capture("targ", n))
  {
    assert "Target"[..6] != "target" by { assert "Target"[0] != "target"[0]; }
    assert "other"[..5] != "targe" by { assert "other"[0] != "target"[0]; }
  }

  /** The captures that yield findings, in capture order. */
  function TargetCaptures(cs: seq<Capture>): (r: seq<Capture>)
    ensures |r| <= |cs|
  {
    if |cs| == 0 then []
    else (if IsTarget(cs[0]) then [cs[0]] else []) + TargetCaptures(cs[1..])
  }

  /** The kept captures are exactly the captures that are targets. */
  lemma {:induction false} TargetCapturesMembers(cs: seq<Capture>)
    ensures forall c :: c in TargetCaptures(cs) <==> c in cs && IsTarget(c)
  {
    if |cs| > 0 {
      TargetCapturesMembers(cs[1..]);
      assert cs == [cs[0]] + cs[1..];
    }
  }

  /** Filtering commutes with concatenation, so relative order is kept. */
  lemma {:induction false} TargetCapturesAppend(a: seq<Capture>, b: seq<Capture>)
    ensures TargetCaptures(a + b) == TargetCaptures(a) + TargetCaptures(b)
  {
    if |a| == 0 {
      assert a + b == b;
    } else {
      var head := if IsTarget(a[0]) then [a[0]] else [];
      assert (a + b)[0] == a[0];
      assert (a + b)[1..] == a[1..] + b;
      assert TargetCaptures(a + b) == head + TargetCaptures(a[1..] + b);
      TargetCapturesAppend(a[1..], b);
      assert TargetCaptures(a) == head + TargetCaptures(a[1..]);
    }
  }

  /** One more capture adds itself to the kept captures iff it is a target. */
  lemma TargetCapturesSnoc(cs: seq<Capture>, c: Capture)
    ensures TargetCaptures(cs + [c]) == TargetCaptures(cs) + (if IsTarget(c) then [c] else [])
  {
    TargetCapturesAppend(cs, [c]);
    assert TargetCaptures([c]) == (if IsTarget(c) then [c] else []) + TargetCaptures([]);
  }

  /** Every capture yields a finding exactly when all are targets, and none
      does exactly when none is. */
  lemma {:induction false} TargetCapturesExtremes(cs: seq<Capture>)
    ensures |TargetCaptures(cs)| == |cs| <==> forall i :: 0 <= i < |cs| ==> IsTarget(cs[i])
    ensures |TargetCaptures(cs)| == 0 <==> forall i :: 0 <= i < |cs| ==> !IsTarget(cs[i])
  {
    if |cs| > 0 {
      TargetCapturesExtremes(cs[1..]);
      assert forall i :: 1 <= i < |cs| ==> cs[i] == cs[1..][i - 1];
    }
  }

  /** The finding one syntax node yields: the rule's reporting fields plus
      the node's span and text. `this.RuleSeverity.valueOf()` throws on a
      rule whose severity was never set; `Validate` models that failure, so
      a finding is only built for a rule that has a severity. */
  function BuildScanResult(cfg: RuleConfig, node: Node): (d: Digest)
    requires cfg.RuleSeverity.Some?
    ensures ReportsFor(d, cfg)
    ensures DigestNode(d) == Some(node)
  {
    Digest(
      RuleId := cfg.Id,
      Start := Position(Row := node.startRow, Column := node.startCol, Index := node.startIndex),
      End := Position(Row := node.endRow, Column := node.endCol, Index := node.endIndex),
      Message := cfg.Message,
      Suggestion := cfg.Suggestion,
      Severity := cfg.RuleSeverity.value,
      Category := cfg.Category,
      Context := cfg.Context,
      NodeText := Some(node.text))
  }

  /** The finding carries the rule's identity, texts and numeric severity. */
  predicate ReportsFor(d: Digest, cfg: RuleConfig) {
    && d.RuleId == cfg.Id
    && d.Message == cfg.Message
    && d.Suggestion == cfg.Suggestion
    && d.Category == cfg.Category
    && d.Context == cfg.Context
    && cfg.RuleSeverity == Some(d.Severity)
  }

  /** The syntax node a finding was built from, recovered from its span and
      text; `None` when the finding carries no text. */
  function DigestNode(d: Digest): Option<Node> {
    if d.NodeText.None? then None
    else Some(Node(d.Start.Row, d.Start.Column, d.Start.Index,
                   d.End.Row, d.End.Column, d.End.Index, d.NodeText.value))
  }

  /** Two rules build the same finding from a node exactly when they agree
      on the six reporting fields: the name, query, priority and language
      never reach a finding. */
  lemma BuildScanResultDependsOnReportFields(c1: RuleConfig, c2: RuleConfig, node: Node)
    requires c1.RuleSeverity.Some? && c2.RuleSeverity.Some?
    ensures BuildScanResult(c1, node) == BuildScanResult(c2, node)
            <==> (c1.Id == c2.Id && c1.Message == c2.Message && c1.Suggestion == c2.Suggestion
                  && c1.Category == c2.Category && c1.Context == c2.Context
                  && c1.RuleSeverity == c2.RuleSeverity)
  {
  }

  /** Findings of a list of captures, one per capture, in order. */
  function DigestsOf(cfg: RuleConfig, cs: seq<Capture>): (r: seq<Digest>)
    requires cfg.RuleSeverity.Some? || |cs| == 0
    ensures |r| == |cs|
    ensures forall i :: 0 <= i < |cs| ==> r[i] == BuildScanResult(cfg, cs[i].node)
  {
    if |cs| == 0 then [] else [BuildScanResult(cfg, cs[0].node)] + DigestsOf(cfg, cs[1..])
  }

  lemma DigestsOfSnoc(cfg: RuleConfig, cs: seq<Capture>, c: Capture)
    requires cfg.RuleSeverity.Some?
    ensures DigestsOf(cfg, cs + [c]) == DigestsOf(cfg, cs) + [BuildScanResult(cfg, c.node)]
  {
    var l, r := DigestsOf(cfg, cs + [c]), DigestsOf(cfg, cs) + [BuildScanResult(cfg, c.node)];
    assert |l| == |r|;
    forall i | 0 <= i < |l| ensures l[i] == r[i] {
      assert (cs + [c])[i] == if i < |cs| then cs[i] else c;
    }
  }

  /** A rule instance: its configuration and the last source handed to
      `validate` (`None` before the first call). */
  datatype RuleState = RuleState(config: RuleConfig, rawSource: Option<string>)

  /** A freshly constructed rule has not seen any source yet. */
  function NewRule(config: RuleConfig): (st: RuleState)
    ensures GetSource(st) == None && st.config == config
  {
    RuleState(config, None)
  }

  /** `getSource`: the source of the latest `validate` call. */
  function GetSource(st: RuleState): Option<string> {
    st.rawSource
  }

  /** A rule has no source exactly when it is in its freshly constructed
      state; every `validate` call leaves one behind (see `Validate`). */
  lemma GetSourceAbsentIffNew(st: RuleState)
    ensures GetSource(st).None? <==> st == NewRule(st.config)
  {
  }

  /** What `validate` throws when a target capture reaches
      `this.RuleSeverity.valueOf()` on a rule with no severity. */
  const SeverityUnset: string := "TypeError: Cannot read properties of undefined (reading 'valueOf')"

  /** `validate`: store the source, run the external engine (its outcome is
      `run`), and build one finding per target capture. The source is stored
      before the engine runs, so a failing run still replaces it. A rule
      with no severity throws at its first target capture. */
  method Validate(st: RuleState, targetSource: string, run: EngineRun)
    returns (next: RuleState, r: Result<seq<Digest>, string>)
    ensures next.config == st.config
    ensures GetSource(next) == Some(targetSource)
    ensures run.EngineFailed? ==> r == Failure(run.reason)
    ensures run.Captured? && st.config.RuleSeverity.None? && |TargetCaptures(run.captures)| > 0
            ==> r == Failure(SeverityUnset)
    ensures run.Captured? && (st.config.RuleSeverity.Some? || |TargetCaptures(run.captures)| == 0)
            ==> && r.Success?
                && |r.value| == |TargetCaptures(run.captures)| <= |run.captures|
                && r.value == DigestsOf(st.config, TargetCaptures(run.captures))
  {
    next := st.(rawSource := Some(targetSource));
    if run.EngineFailed? {
      return next, Failure(run.reason);
    }
    var captures := run.captures;
    var results: seq<Digest> := [];
    var i := 0;
    while i < |captures|
      invariant 0 <= i <= |captures|
      invariant next.config.RuleSeverity.None? ==> |TargetCaptures(captures[..i])| == 0
      invariant results == DigestsOf(next.config, TargetCaptures(captures[..i]))
    {
      assert captures[..i + 1] == captures[..i] + [captures[i]];
      TargetCapturesSnoc(captures[..i], captures[i]);
      if IsTarget(captures[i]) {
        if next.config.RuleSeverity.None? {
          TargetCapturesMembers(captures);
          assert captures[i] in TargetCaptures(captures);
          return next, Failure(SeverityUnset);
        }
        DigestsOfSnoc(next.config, TargetCaptures(captures[..i]), captures[i]);
        results := results + [BuildScanResult(next.config, captures[i].node)];
      } else {
        assert TargetCaptures(captures[..i + 1]) == TargetCaptures(captures[..i]) + [];
      }
      i := i + 1;
    }
    assert captures[..|captures|] == captures;
    r := Success(results);
  }

  /** The worked example of a rule that flags a call expression: one
      `target.call` capture over `console.log(1)` gives one finding with
      the node's span and text. */
  lemma CallExpressionExample(cfg: RuleConfig)
    requires cfg.Id == "NO-CONSOLE" && cfg.RuleSeverity == Some(3) && cfg.Context == "a.js"
    ensures var node := Node(0, 0, 0, 0, 14, 14, "console.log(1)");
            var found := TargetCaptures([Capture("target.call", node)]);
            && |found| == 1
            && BuildScanResult(cfg, found[0].node).RuleId == "NO-CONSOLE"
            && BuildScanResult(cfg, found[0].node).Start == Position(0, 0, 0)
            && BuildScanResult(cfg, found[0].node).End == Position(0, 14, 14)
            && BuildScanResult(cfg, found[0].node).NodeText == Some("console.log(1)")
            && BuildScanResult(cfg, found[0].node).Severity == 3
  {
    var node := Node(0, 0, 0, 0, 14, 14, "console.log(1)");
    assert IsTarget(Capture("target.call", node)) by {
      assert "target.call"[..6] == "target";
    }
  }

  /** An annotation below a node, as `nodeHasScanDirective` sees it: its
      text and the child count of its `annotation_argument_list` field
      (`None` when the field is missing, so `?.childCount` is undefined). */
  datatype Annotation = Annotation(text: string, argumentListChildCount: Option<int>)

  predicate DirectiveMatches(a: Annotation, annotationName: string, argumentCount: int) {
    a.text == annotationName && a.argumentListChildCount == Some(argumentCount)
  }

  /** `nodeHasScanDirective` as written: the `return true` sits inside the
      `forEach` callback, whose return value `forEach` discards, and the
      method then returns `false` unconditionally. */
  function NodeHasScanDirective(annotations: seq<Annotation>, annotationName: string, argumentCount: int): (r: bool)
    ensures !r
  {
    false
  }

  /** What the method evidently means to compute: whether some annotation
      below the node has the given text and argument count. */
  function NodeHasScanDirectiveIntended(annotations: seq<Annotation>, annotationName: string, argumentCount: int): (r: bool)
    ensures r <==> exists i :: 0 <= i < |annotations| && DirectiveMatches(annotations[i], annotationName, argumentCount)
  {
    if |annotations| == 0 then false
    else DirectiveMatches(annotations[0], annotationName, argumentCount)
         || NodeHasScanDirectiveIntended(annotations[1..], annotationName, argumentCount)
  }

  /** A node carrying exactly the directive asked for is still reported as
      not having it. */
  lemma ScanDirectiveMissed()
    ensures var annotations := [Annotation("@Scan", Some(1))];
            && NodeHasScanDirectiveIntended(annotations, "@Scan", 1)
            && !NodeHasScanDirective(annotations, "@Scan", 1)
  {
    var annotations := [Annotation("@Scan", Some(1))];
    assert DirectiveMatches(annotations[0], "@Scan", 1);
  }
}
