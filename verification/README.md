# Cayce rule library: a Dafny model

This project models the core of the Cayce static-analysis rule library:

- **Rules.** A `ScanRule` is configured by class decorators. It runs a tree-sitter query over a source text and turns each capture whose name starts with `target` into a finding (a `ScanResultDigest`). It remembers the last source text it was given.
- **Plugins.** A plugin hands out its registered rules bound to its language, and reads its package name with an `"invalid"` fallback.
- **Scan results.** `ScanResult`, `ScanMetric` and `ScanMeasure` are built with their constructor defaults.
- **Current serialisers.** These write findings as CSV, as XML (a JSON-to-XML renderer with the five predefined entities of section 4.6 of XML 1.0 and the declaration of section 2.8), and as a SARIF 2.1.0 log (OASIS SARIF 2.1.0, sections 3.27, 3.27.10 and 3.30).
- **Legacy serialisers.** The older CSV and XML formatters are modelled too.

How the TypeScript maps onto the model:

- **State.** A mutable class becomes a state record passed through pure functions. `ScanRule` keeps its last source text this way; each CSV formatter keeps its `output` buffer this way.
- **Absent values.** `undefined` is `None`.
- **Exceptions.** A thrown exception is a `Failure`.
- **The tree-sitter parse and query.** These are one abstract input, `EngineRun`. It is either the list of captures, in order, or a failure.
- **XML lines.** The XML renderer's lines are tokens: an opening tag, a closing tag, or a text element. Each token carries its indentation level, so well-nestedness can be stated on the tokens and the text is obtained by rendering them.
- **The SARIF log.** It is a datatype tree, not JSON text.
- **Module layout.** One module per source file (`ScanRules`, `ScanResults`, `Plugins`, `CsvFormatter`, `XmlFormatter`, `SarifFormatter`, `LegacyCsvFormatter`, `LegacyXmlFormatter`). Shared pieces sit in `Digests`, `Severity`, `Syntax`, `JsonValues`, `CsvGrammar`, `Strings` and `Wrappers`.

Two methods do not do what their names and types suggest; the model follows the code.

- `nodeHasScanDirective` is named as if it detected a directive, but as written it always answers `false` (see Findings).
- The legacy CSV formatter's `format` takes `ScanResult` objects (src/csv-formatter.ts:19), but its header and rows assume a different record shape. The model states the mismatch (`LegacyCsvFormatter.ScanResultShapeMisaligned`).

## Model

| member | source | states |
|---|---|---|
| ScanRules.Apply | src/scan-rule.ts:10-84 | each decorator sets exactly its own configuration field to its argument and leaves every other field unchanged |
| ScanRules.DecorateTopmostWins | src/scan-rule.ts:10-84 | after a stack of decorators, a field holds the value of the topmost decorator that targets it, and keeps its original value if none does |
| ScanRules.TargetPrefixExamples | src/scan-rule.ts:119 | the capture filter is a case-sensitive prefix test: `target`, `target.function` and `targetX` pass; `Target`, `other` and `targ` do not |
| ScanRules.TargetCapturesMembers | src/scan-rule.ts:117-122 | the kept captures are exactly the captures whose name starts with `target` |
| ScanRules.TargetCapturesAppend | src/scan-rule.ts:118-122 | filtering keeps capture order: filtering a concatenation concatenates the filtered parts |
| ScanRules.TargetCapturesExtremes | src/scan-rule.ts:117-123 | every capture is kept iff all names start with `target`, and none is kept iff no name does |
| ScanRules.BuildScanResult | src/scan-rule.ts:126-147 | the finding reports the rule's id, message, suggestion, category, severity and context (a suggestion or category no decorator set stays absent; a finding is only built for a rule with a severity, see `Validate`), and the node's start and end row, column and offset and its text can be read back from it |
| ScanRules.BuildScanResultDependsOnReportFields | src/scan-rule.ts:126-146 | two rules give the same finding for a node iff they agree on the six reported fields; name, query, priority and language never reach a finding |
| ScanRules.DigestsOf | src/scan-rule.ts:118-122 | one finding per capture, in capture order |
| ScanRules.NewRule | src/scan-rule.ts:102 | a rule that has not validated anything has no source text |
| ScanRules.GetSourceAbsentIffNew | src/scan-rule.ts:149-151 | `getSource` gives nothing exactly for a rule in its freshly constructed state; after any `validate` it gives that call's source (see `Validate`) |
| ScanRules.Validate | src/scan-rule.ts:110-142 | validate stores the source text before the engine runs, overwriting any earlier one, and changes nothing else; engine failure is propagated; a rule with no severity fails with the `valueOf` TypeError as soon as there is a `target` capture; otherwise there is one finding per `target` capture, in order, so there are never more findings than captures |
| ScanRules.CallExpressionExample | src/scan-rule.ts:117-146 | a single `target.call` capture over `console.log(1)` gives exactly one finding, carrying the rule id, the VIOLATION severity 3 and the node's span and text |
| ScanRules.NodeHasScanDirective | src/scan-rule.ts:154-164 | as written, the directive check answers false for every node |
| ScanRules.NodeHasScanDirectiveIntended | src/scan-rule.ts:154-164 | the corrected check answers true iff some annotation has the requested text and argument-list child count |
| ScanRules.ScanDirectiveMissed | src/scan-rule.ts:154-164 | a node whose only annotation is `@Scan` with one argument satisfies the corrected check but fails the check as written |
| ScanResults.NewScanResult | src/scan-result.ts:39-45 | `??` defaults: an omitted result type becomes VIOLATION, an omitted node becomes the rule's node, and omitted metadata becomes the empty list; given values are kept; rule and source code come from the rule |
| ScanResults.ScanResultRebuild | src/scan-result.ts:39-45 | passing a result's own fields back into the constructor gives the same result, so every default is a value that could have been given explicitly |
| ScanResults.ScanResultKeepsExplicitResult | src/scan-result.ts:43 | an explicit result type is kept, including NA (ordinal 0); only an omitted one becomes VIOLATION (ordinal 3) |
| ScanResults.NewScanMetric | src/scan-result.ts:14-18 | a metric takes its result type and node from the creating rule and records that rule |
| ScanResults.NewScanMeasure | src/scan-result.ts:60-64 | a measure starts with no children, and its measurement type and its result both equal the rule's result type |
| ScanResults.ScanResultDefaultDiffersFromMetric | src/scan-result.ts:39-45 | a defaulted scan result agrees with a metric from the same rule on the result iff the rule's result type is VIOLATION; they always agree on the node |
| Severity.SeverityOrdinalRoundTrip | src/rule-severity.ts:1-6 | the rule severities are numbered 0 to 3 in declaration order and the reverse lookup inverts the numbering; no other number has a label |
| Severity.ResultOrdinalRoundTrip | src/scan-result.ts:71-76 | the result types are numbered 0 to 3 in declaration order and the reverse lookup inverts the numbering; no other number has a label |
| Severity.OrdinalsAscend | src/scan-result.ts:71-76 | the severity and result-type ordinals ascend NA < INFORMATION < WARNING < VIOLATION, with VIOLATION equal to 3 |
| Plugins.Bind | src/cayce-plugin.ts:64 | binding a rule sets its language and leaves every other field unchanged |
| Plugins.GetRules | src/cayce-plugin.ts:61-67 | the same number of rules, in order, each now bound to the plugin's language and otherwise unchanged; no registration gives no rules |
| Plugins.GetRulesRebind | src/cayce-plugin.ts:61-67 | nothing is cached: calling again rebinds every rule to the latest language, and binding to the same language twice changes nothing |
| Plugins.GetPackageId | src/cayce-plugin.ts:47-56 | a readable manifest gives its `name`; an unreadable one gives `"invalid"` and no error |
| Plugins.PackageIdInvalidIff | src/cayce-plugin.ts:47-56 | the answer is `"invalid"` iff the read failed or the package really is named `invalid` |
| CsvGrammar.EscapeCsvValue | src/formatters/csv-formatter.ts:83-87 | each `"` is doubled: the output grows by the number of quotes, and text without quotes (the empty string included) is returned unchanged |
| CsvGrammar.EscapeCsvValueAppend | src/formatters/csv-formatter.ts:83-87 | escaping goes character by character: escaping a concatenation concatenates the escaped parts |
| CsvGrammar.EscapeCsvValueCount | src/formatters/csv-formatter.ts:83-87 | escaping changes the count of no character except `"` |
| CsvGrammar.ParseQuotedEscape | src/formatters/csv-formatter.ts:83-87 | a quoted field written with doubled quotes reads back as the original text, in the quoted-field grammar of section 2 of RFC 4180 |
| CsvGrammar.ParseCellRender | src/formatters/csv-formatter.ts:54-68 | every cell the formatter writes (quoted text or a bare number or empty field) reads back as itself |
| CsvGrammar.ParseRecordRender | src/formatters/csv-formatter.ts:54-70 | a comma-joined record reads back as its cells |
| CsvGrammar.ParseTableRender | src/formatters/csv-formatter.ts:50-73 | a newline-joined table of well-formed records reads back as its records |
| CsvFormatter.HeaderCells | src/formatters/csv-formatter.ts:34-48 | the header is the 13 names RuleId to NodeText, in the fixed order, each quoted |
| CsvFormatter.HeaderLineText | src/formatters/csv-formatter.ts:50 | the header line is the 13 names, each wrapped in quotation marks, joined by commas |
| CsvFormatter.RowCells | src/formatters/csv-formatter.ts:54-68 | a row has one well-formed cell per header column |
| CsvFormatter.Format | src/formatters/csv-formatter.ts:24-81 | no findings give the empty string and leave the buffer alone; otherwise the buffer is the header plus one line per finding, and the text is those lines joined by line feeds |
| CsvFormatter.FormatIgnoresBuffer | src/formatters/csv-formatter.ts:31 | the buffer is reset on each call: the text does not depend on earlier calls, and formatting the same findings again gives the same result |
| CsvFormatter.DecodeRowCells | src/formatters/csv-formatter.ts:54-68 | a row reads back as its finding: text fields from quoted cells, positions and severity from bare numbers, and an empty optional field as absent |
| CsvFormatter.CsvRoundTrip | src/formatters/csv-formatter.ts:24-81 | reading the CSV text back gives the findings in input order, except that an empty optional text comes back as absent |
| CsvFormatter.CsvLineCount | src/formatters/csv-formatter.ts:50-73 | when no text field holds a line feed, n findings give exactly n line feeds, that is n + 1 lines |
| LegacyCsvFormatter.RenderValue | src/csv-formatter.ts:30-36 | 3 (VIOLATION) prints as `true`; a value prints as nothing iff it is undefined, null, 0 or its `String()` is empty; a string prints as itself, a boolean as `true`/`false`, an object as its `String()` text, and any other number as decimal text that reads back as that number |
| LegacyCsvFormatter.HeaderCellsMembers | src/csv-formatter.ts:20-23 | the header cells are exactly the quoted keys of the first record other than `metadata` |
| LegacyCsvFormatter.HeaderCellsSingle | src/csv-formatter.ts:20-23 | one property gives its quoted key as one header cell, or no cell if its key is `metadata` |
| LegacyCsvFormatter.HeaderCellsAppend | src/csv-formatter.ts:20-23 | the header keeps key order and multiplicity: the header of concatenated properties is the concatenation of their headers |
| LegacyCsvFormatter.Inner | src/csv-formatter.ts:28-29 | `slice(1, -1)` keeps every value except the first and the last, in order |
| LegacyCsvFormatter.RenderValues | src/csv-formatter.ts:30-37 | one printed value per inner value, in order |
| LegacyCsvFormatter.Format | src/csv-formatter.ts:19-43 | no records is an error that leaves the buffer alone; otherwise the header and one line per record are appended to the buffer, and all of it is returned |
| LegacyCsvFormatter.FormatAccumulates | src/csv-formatter.ts:19-43 | a later call returns everything the earlier call returned, then its own header and lines |
| LegacyCsvFormatter.FormatNotRepeatable | src/csv-formatter.ts:19-43 | formatting the same records twice gives a strictly longer second text |
| LegacyCsvFormatter.RowLineQuoted | src/csv-formatter.ts:37-39 | a row line starts and ends with a quotation mark; its only other quotation marks are those inside the printed values, which are not doubled; commas appear only inside values and one between each pair of values |
| LegacyCsvFormatter.FormatFresh | src/csv-formatter.ts:19-43 | on a new instance the text is the header line followed by one quoted line per record |
| LegacyCsvFormatter.ScanResultShapeMisaligned | src/csv-formatter.ts:20-29 | for a record shaped like a scan result, the header names four columns but each line carries three values |
| JsonValues.DigestsJson | src/formatters/xml-formatter.ts:12-14 | the JSON round trip keeps one object per finding, in order |
| XmlFormatter.EscapeXml | src/formatters/xml-formatter.ts:69-85 | the escaped text is never shorter than the input |
| XmlFormatter.EscapeXmlNoMarkup | src/formatters/xml-formatter.ts:69-85 | the escaped text has no raw `<`, `>`, `'` or `"` left |
| XmlFormatter.EscapeXmlAppend | src/formatters/xml-formatter.ts:70 | escaping is a per-character map: escaping a concatenation concatenates the escaped parts |
| XmlFormatter.UnescapeEscape | src/formatters/xml-formatter.ts:69-85 | decoding the five entities of the escaped text gives back the original text exactly |
| XmlFormatter.Format | src/formatters/xml-formatter.ts:7-21 | the document starts with the XML declaration line |
| XmlFormatter.EntryBalanced | src/formatters/xml-formatter.ts:45-67 | every property's lines close every element they open, at the indentation where it was opened |
| XmlFormatter.JsonToXmlWellNested | src/formatters/xml-formatter.ts:39-67 | for any JSON value, each closing tag matches the innermost open element in name and indentation, and no element is left open |
| XmlFormatter.DocumentShape | src/formatters/xml-formatter.ts:12-14 | the document is the declaration and one well-nested `scanResults` element, whose content is the findings one level deeper |
| XmlFormatter.FindingsInOrder | src/formatters/xml-formatter.ts:48-57 | findings keep their order: the lines for a + b are the lines for a followed by those for b |
| XmlFormatter.FindingLines | src/formatters/xml-formatter.ts:50-53 | a finding contributes its properties directly, with no wrapping element |
| XmlFormatter.FindingElements | src/formatters/xml-formatter.ts:58-63 | a finding's elements are RuleId, Start and End (each holding Row, Column and Index one level deeper), Message, Suggestion, Severity, Category, Context and NodeText, in that order, with scalars as escaped text; an absent optional property gives no element |
| LegacyXmlFormatter.EscapeXmlSame | src/xml-formatter.ts:54-70 | the legacy escape maps every text exactly as the current one does |
| LegacyXmlFormatter.ParseObjectSame | src/xml-formatter.ts:29-52 | for the same JSON object, the legacy builder writes exactly the text of the current renderer |
| LegacyXmlFormatter.ParseArraySame | src/xml-formatter.ts:31-49 | an array walked with `for...in` uses its indices as element names, in both renderers alike |
| LegacyXmlFormatter.Format | src/xml-formatter.ts:6-9 | for any JSON array, the legacy document is exactly the current renderer's document for the same `scanResults` object |
| LegacyXmlFormatter.FormatSame | src/xml-formatter.ts:6-9 | on the JSON form of findings, the legacy formatter's document equals the current formatter's |
| SarifFormatter.SeverityLevel | src/formatters/sarif-formatter.ts:82-87 | the level is error iff severity is at least 8, warning iff it is from 4 to 7, and note iff it is below 4 |
| SarifFormatter.SeverityLevelMonotone | src/formatters/sarif-formatter.ts:82-87 | a higher severity never gives a lower level |
| SarifFormatter.RuleSeveritiesAreNotes | src/formatters/sarif-formatter.ts:82-87 | every RuleSeverity value (0 to 3) maps to note |
| SarifFormatter.OrElse | src/formatters/sarif-formatter.ts:48-50 | `\|\|` gives the fallback for both an absent value and an empty string |
| SarifFormatter.ToResult | src/formatters/sarif-formatter.ts:26-52 | ruleId, message text and location URI come from the finding; there is exactly one location; the region copies the zero-based rows and columns unchanged; the level follows the thresholds; the property bag uses the defaults `Default`, empty and empty |
| SarifFormatter.Format | src/formatters/sarif-formatter.ts:14-55 | version 2.1.0 with the 2.1.0 schema, exactly one run, driver `Cayce` with no rules, and one result per finding in input order |
| SarifFormatter.ToResultKernel | src/formatters/sarif-formatter.ts:26-52 | two findings give the same result iff they agree on what SARIF keeps: character offsets are dropped, severity survives only as its level, and an empty optional text is the same as an absent one |
| SarifFormatter.IndexIgnored | src/formatters/sarif-formatter.ts:37-42 | changing a finding's character offsets does not change its result |
| SarifFormatter.ToResultsAppend | src/formatters/sarif-formatter.ts:26 | results follow the findings in order: the results for a + b are those for a followed by those for b |
| Formats.Name | src/formatters/sarif-formatter.ts:74-76 | `getName` is `SARIF` exactly for the SARIF formatter, `CSV` exactly for the current CSV formatter, `CSV Formatter` exactly for the legacy CSV formatter (src/csv-formatter.ts:7-9), and `XML` exactly for the two XML formatters |
| Formats.NamesIdentify | src/formatters/xml-formatter.ts:31-33 | every `getName` is non-empty; the names are `CSV`, `XML`, `SARIF`, `CSV Formatter` and `XML`; two formatters share a name exactly when both are XML formatters |
| Formats.SupportedFormats | src/formatters/sarif-formatter.ts:70-72 | `getSupportedOutputFormats` is `[Sarif, Sarifv2]` exactly for the SARIF formatter, `[Csv]` exactly for the two CSV formatters and `[Xml]` exactly for the two XML formatters; never `Json` |
| Formats.Supports | src/formatters/csv-formatter.ts:16-18 | `supportsOutputFormat` never accepts `Json` and accepts the first tag its formatter lists |
| Formats.SupportsExactly | src/formatters/sarif-formatter.ts:66-68 | `Sarif` and `Sarifv2` are accepted only by the SARIF formatter, `Csv` only by the two CSV formatters, `Xml` only by the two XML formatters, and `Json` by none |
| Formats.FileExtension | src/formatters/sarif-formatter.ts:78-80 | the extension is `csv` exactly for the current CSV formatter, `xml` exactly for the current XML one and `sarif` exactly for the SARIF one; the legacy formatters have none |
| Formats.SupportsMatchesList | src/formatters/sarif-formatter.ts:66-72 | `supportsOutputFormat` is true exactly for the tags `getSupportedOutputFormats` lists, and that list has no repeats |
| Formats.CurrentFormattersPartition | src/formatters/csv-formatter.ts:12-18 | the current CSV, XML and SARIF formatters accept disjoint tags, and together accept every tag except Json |
| Formats.SarifAliases | src/formatters/sarif-formatter.ts:66-68 | Sarif and Sarifv2 are accepted alike by every formatter |

## Left out

- Tree-sitter parsing, language setup and query compilation (src/scan-rule.ts:112-117) are native library calls. They are the abstract `EngineRun` input, so a missing language or a query that does not compile shows up only as an engine failure.
- `descendantsOfType` and `childForFieldName` in `nodeHasScanDirective`: the annotations below a node are given as a list of (text, argument-list child count) pairs.
- `BaseFormatter.writeToFile` and `validateScanResultDigests` are not part of this model. They are file-system I/O and input validation; findings are taken as well-formed.
- The JSON formatters (src/formatters/json-formatter.ts, src/json-formatter.ts) are thin wrappers over `JSON.stringify` and are not modelled.
- JSON text layout is not modelled: the indentation of the SARIF text, and the text between `JSON.stringify` and `JSON.parse` before XML rendering. The model keeps the value trees.
- The file reads in `getPackageId` and its `console.error` message are I/O; only the read's outcome is an input.
- src/index.ts, src/formatter.ts and eslint.config.js hold re-exports, an enum and configuration only. The output-format tags follow what the formatters use: Sarif, Sarifv2, Csv, Json, Xml.
- Numbers are integers. Non-integer and very large numbers, whose `String()` form differs, are not modelled.
- Rule configuration fields other than the severity, the suggestion and the category take their declared types; an `Id`, `Message` or `Context` no decorator set being `undefined` at run time (a finding then has an undefined property, no exception) is not modelled.
- `getLanguage` is called once per rule inside `getRules`; the model takes one grammar for the whole call, assuming `getLanguage` is pure and stable.
- Plugins.GetRules: `getRules` mutates the registered rule objects in place and returns the same objects; the model returns updated copies, so object identity and aliasing are not modelled.
- Object key order is taken from the finding interface (src/scan-result-digest.ts:4-22). `buildScanResult` writes its literal in another order, which would change the order of XML elements for findings built directly.
- Legacy formatters receive `ScanResult` objects. How such an object turns into a key/value record or into JSON is not modelled: that depends on class-field compilation and on tree-sitter node objects. The legacy formatters are modelled over records and JSON values.
- JavaScript orders integer-like object keys before other keys. JSON objects are modelled with their keys in the given order, which matches every object the formatters build.
- XML element names are written unescaped, as in the source; no property key is checked for being a valid XML name.
- XmlFormatter.Format: its own contract only promises the declaration prefix; the document's shape and well-nestedness are stated by XmlFormatter.DocumentShape.

## Findings

| source | as written | input that shows it | evidently intended | confidence | as-written member | corrected member |
|---|---|---|---|---|---|---|
| src/scan-rule.ts:154-164 | the `return true` only ends the `forEach` callback, so the method always returns `false` | a node with one annotation `@Scan` whose argument list has 1 child, asked for `@Scan` with 1 argument | return true when some annotation has the requested text and argument count | not executed | ScanRules.ScanDirectiveMissed | ScanRules.NodeHasScanDirectiveIntended |
