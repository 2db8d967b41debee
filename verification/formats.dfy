/** What each formatter says about itself: its name, its file extension
    and the output-format tags it accepts. */
module Formats {
  import opened Wrappers
  import opened Digests

  /** The five formatters: the current CSV, XML and SARIF ones and the
      legacy CSV and XML ones. */
  datatype Formatter = CsvFormatter | XmlFormatter | SarifFormatter | LegacyCsvFormatter | LegacyXmlFormatter

  /** `getName`: "CSV", "XML" and "SARIF" for the current formatters,
      "CSV Formatter" and "XML" for the legacy ones. */
  function Name(f: Formatter): (r: string)
    ensures r == "SARIF" <==> f == SarifFormatter
    ensures r == "CSV" <==> f == CsvFormatter
    ensures r == "CSV Formatter" <==> f == LegacyCsvFormatter
    ensures r == "XML" <==> IsXml(f)
  {
    match f
    case CsvFormatter => "CSV"
    case XmlFormatter => "XML"
    case SarifFormatter => "SARIF"
    case LegacyCsvFormatter => "CSV Formatter"
    case LegacyXmlFormatter => "XML"
  }

  /** `getFileExtension`; the legacy formatters have none. */
  function FileExtension(f: Formatter): (r: Option<string>)
    ensures r.Some? <==> f in {CsvFormatter, XmlFormatter, SarifFormatter}
    ensures r == Some("csv") <==> f == CsvFormatter
    ensures r == Some("xml") <==> f == XmlFormatter
    ensures r == Some("sarif") <==> f == SarifFormatter
  {
    match f
    case CsvFormatter => Some("csv")
    case XmlFormatter => Some("xml")
    case SarifFormatter => Some("sarif")
    case _ => None
  }

  /** `getSupportedOutputFormats`: `[Sarif, Sarifv2]` for the SARIF
      formatter, `[Csv]` for both CSV formatters and `[Xml]` for both XML
      formatters; never `Json`, which no formatter here serves. */
  function SupportedFormats(f: Formatter): (r: seq<OutputFormat>)
    ensures 1 <= |r| <= 2 && Json !in r
    ensures r == [Sarif, Sarifv2] <==> f == SarifFormatter
    ensures r == [Csv] <==> f == CsvFormatter || f == LegacyCsvFormatter
    ensures r == [Xml] <==> IsXml(f)
  {
    match f
    case CsvFormatter => [Csv]
    case XmlFormatter => [Xml]
    case SarifFormatter => [Sarif, Sarifv2]
    case LegacyCsvFormatter => [Csv]
    case LegacyXmlFormatter => [Xml]
  }

  /** `supportsOutputFormat`, written as each class compares its argument.
      No formatter here accepts `Json`, and every one accepts something. */
  predicate Supports(f: Formatter, t: OutputFormat)
    ensures Supports(f, t) ==> t != Json
    ensures t == SupportedFormats(f)[0] ==> Supports(f, t)
  {
    match f
    case CsvFormatter => t == Csv
    case XmlFormatter => t == Xml
    case SarifFormatter => t == Sarif || t == Sarifv2
    case LegacyCsvFormatter => t == Csv
    case LegacyXmlFormatter => t == Xml
  }

  /** Two formatters share a name exactly when they are the same one or
      are the current and the legacy XML formatter, which are both "XML";
      the legacy CSV formatter calls itself "CSV Formatter". */
  lemma NamesIdentify(f: Formatter, g: Formatter)
    ensures Name(f) == Name(g) <==> f == g || (IsXml(f) && IsXml(g))
    ensures |Name(f)| > 0
    ensures Name(CsvFormatter) == "CSV" && Name(LegacyCsvFormatter) == "CSV Formatter"
    ensures Name(XmlFormatter) == "XML" && Name(LegacyXmlFormatter) == "XML"
    ensures Name(SarifFormatter) == "SARIF"
  {
  }

  predicate IsXml(f: Formatter) {
    f == XmlFormatter || f == LegacyXmlFormatter
  }

  /** The two queries agree, and the list has no repeated tag. */
  lemma SupportsMatchesList(f: Formatter, t: OutputFormat)
    ensures Supports(f, t) <==> t in SupportedFormats(f)
    ensures forall i, j :: 0 <= i < j < |SupportedFormats(f)| ==> SupportedFormats(f)[i] != SupportedFormats(f)[j]
  {
  }

  /** Each tag is served by at most one current formatter, and every tag
      but `Json` by exactly one of them. */
  lemma CurrentFormattersPartition(t: OutputFormat)
    ensures t == Json <==> !(Supports(CsvFormatter, t) || Supports(XmlFormatter, t) || Supports(SarifFormatter, t))
    ensures !(Supports(CsvFormatter, t) && Supports(XmlFormatter, t))
    ensures !(Supports(CsvFormatter, t) && Supports(SarifFormatter, t))
    ensures !(Supports(XmlFormatter, t) && Supports(SarifFormatter, t))
  {
  }

  /** Which formatters accept each tag: only the SARIF formatter accepts
      `Sarif` and `Sarifv2`, only the two CSV formatters accept `Csv`, only
      the two XML formatters accept `Xml`, and none accepts `Json`. */
  lemma SupportsExactly(f: Formatter, t: OutputFormat)
    ensures t == Sarif || t == Sarifv2 ==> (Supports(f, t) <==> f == SarifFormatter)
    ensures t == Csv ==> (Supports(f, t) <==> f == CsvFormatter || f == LegacyCsvFormatter)
    ensures t == Xml ==> (Supports(f, t) <==> IsXml(f))
    ensures t == Json ==> !Supports(f, t)
  {
  }

  /** `Sarif` and `Sarifv2` are aliases: every formatter treats them alike. */
  lemma SarifAliases(f: Formatter)
    ensures Supports(f, Sarif) <==> Supports(f, Sarifv2)
  {
  }
}
