/** The two four-valued ordinal scales of the library: `RuleSeverity`
    (src/rule-severity.ts), attached to a rule, and `ResultType`
    (src/scan-result.ts), attached to a scan result. Both are TypeScript
    numeric enums, so each label stands for its ordinal. */
module Severity {
  import opened Wrappers

  datatype RuleSeverity = NA | INFORMATION | WARNING | VIOLATION

  datatype ResultType = NA | INFORMATION | WARNING | VIOLATION

  /** `RuleSeverity.X.valueOf()`: the enum's numeric value. */
  function SeverityOrdinal(s: RuleSeverity): (n: nat)
    ensures n < 4
  {
    match s
    case NA => 0
    case INFORMATION => 1
    case WARNING => 2
    case VIOLATION => 3
  }

  /** The label of a numeric severity, as TypeScript's reverse enum lookup. */
  function SeverityFromOrdinal(n: int): Option<RuleSeverity> {
    if n == 0 then Some(RuleSeverity.NA)
    else if n == 1 then Some(RuleSeverity.INFORMATION)
    else if n == 2 then Some(RuleSeverity.WARNING)
    else if n == 3 then Some(RuleSeverity.VIOLATION)
    else None
  }

  /** `ResultType.X.valueOf()`. The two enums are declared separately in
      the library (src/rule-severity.ts:1-6 and src/scan-result.ts:71-76)
      with the same four labels, so this mirrors `SeverityOrdinal`. */
  function ResultOrdinal(t: ResultType): (n: nat)
    ensures n < 4
  {
    match t
    case NA => 0
    case INFORMATION => 1
    case WARNING => 2
    case VIOLATION => 3
  }

  function ResultFromOrdinal(n: int): Option<ResultType> {
    if n == 0 then Some(ResultType.NA)
    else if n == 1 then Some(ResultType.INFORMATION)
    else if n == 2 then Some(ResultType.WARNING)
    else if n == 3 then Some(ResultType.VIOLATION)
    else None
  }

  /** The severity ordinals are 0..3 in declaration order and the reverse
      lookup inverts them; nothing outside 0..3 has a label. */
  lemma SeverityOrdinalRoundTrip(s: RuleSeverity, n: int)
    ensures SeverityFromOrdinal(SeverityOrdinal(s)) == Some(s)
    ensures SeverityFromOrdinal(n).Some? <==> 0 <= n < 4
    ensures SeverityFromOrdinal(n).Some? ==> SeverityOrdinal(SeverityFromOrdinal(n).value) == n
  {
  }

  /** Same for the result type: NA=0 < INFORMATION=1 < WARNING=2 < VIOLATION=3. */
  lemma ResultOrdinalRoundTrip(t: ResultType, n: int)
    ensures ResultFromOrdinal(ResultOrdinal(t)) == Some(t)
    ensures ResultFromOrdinal(n).Some? <==> 0 <= n < 4
    ensures ResultFromOrdinal(n).Some? ==> ResultOrdinal(ResultFromOrdinal(n).value) == n
  {
  }

  /** The declaration order is the ordinal order on both scales. */
  lemma OrdinalsAscend()
    ensures SeverityOrdinal(RuleSeverity.NA) < SeverityOrdinal(RuleSeverity.INFORMATION)
            < SeverityOrdinal(RuleSeverity.WARNING) < SeverityOrdinal(RuleSeverity.VIOLATION)
    ensures ResultOrdinal(ResultType.NA) < ResultOrdinal(ResultType.INFORMATION)
            < ResultOrdinal(ResultType.WARNING) < ResultOrdinal(ResultType.VIOLATION)
    ensures ResultOrdinal(ResultType.VIOLATION) == 3
  {
  }
}
