/** The finding record every serialiser consumes (src/scan-result-digest.ts)
    and the output-format tags the serialisers are keyed on. */
module Digests {
  import opened Wrappers

  /** Zero-based row and column and absolute character offset. */
  datatype Position = Position(Row: int, Column: int, Index: int)

  /** One finding. The optional members are `None` when the property is
      absent from the object. */
  datatype Digest = Digest(
    RuleId: string,
    Start: Position,
    End: Position,
    Message: string,
    Suggestion: Option<string>,
    Severity: int,
    Category: Option<string>,
    Context: string,
    NodeText: Option<string>)

  /** Output-format tags. The enum the formatters import declares only
      Sarif, Csv, Json and Xml, yet the SARIF formatter and its tests use a
      fifth tag, Sarifv2; the model includes it. */
  datatype OutputFormat = Sarif | Sarifv2 | Csv | Json | Xml

  /** JavaScript truthiness of an optional string: absent and empty are
      both falsy. */
  predicate Truthy(s: Option<string>) {
    s.Some? && s.value != ""
  }
}
