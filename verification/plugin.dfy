/** The plugin base class (src/cayce-plugin.ts): binding a plugin's rules to
    its grammar, and the package identity with its failure fallback. */
module Plugins {
  import opened Wrappers
  import opened ScanRules

  /** One rule after `rule.TreeSitterLanguage = this.getLanguage()`. */
  function Bind(rule: RuleConfig, language: Language): (r: RuleConfig)
    ensures Get(r, LanguageField) == Binding(Some(language))
    ensures forall f :: f != LanguageField ==> Get(r, f) == Get(rule, f)
  {
    rule.(TreeSitterLanguage := Some(language))
  }

  /** `getRules`: `registered` is what this call's `registerRules()`
      returned (it is asked afresh on every call, nothing is cached) and
      `language` is `getLanguage()`. The source calls `getLanguage()` once
      per rule; the model assumes it is pure and answers the same grammar
      each time, so one value stands for all those calls. The result is the same list, same
      length and order, with every rule bound to the grammar and no other
      field touched. */
  function GetRules(registered: seq<RuleConfig>, language: Language): (r: seq<RuleConfig>)
    ensures |r| == |registered|
    ensures forall i :: 0 <= i < |r| ==> r[i].TreeSitterLanguage == Some(language)
    ensures forall i, f :: 0 <= i < |r| && f != LanguageField ==> Get(r[i], f) == Get(registered[i], f)
  {
    if |registered| == 0 then []
    else [Bind(registered[0], language)] + GetRules(registered[1..], language)
  }

  /** A configuration is determined by its field values. */
  lemma ConfigExtensional(a: RuleConfig, b: RuleConfig)
    requires forall f :: Get(a, f) == Get(b, f)
    ensures a == b
  {
    assert Get(a, IdField) == Get(b, IdField);
    assert Get(a, RuleSeverityField) == Get(b, RuleSeverityField);
    assert Get(a, MessageField) == Get(b, MessageField);
    assert Get(a, CategoryField) == Get(b, CategoryField);
    assert Get(a, PriorityField) == Get(b, PriorityField);
    assert Get(a, SuggestionField) == Get(b, SuggestionField);
    assert Get(a, NameField) == Get(b, NameField);
    assert Get(a, TreeQueryField) == Get(b, TreeQueryField);
    assert Get(a, ContextField) == Get(b, ContextField);
    assert Get(a, LanguageField) == Get(b, LanguageField);
  }

  /** Binding again replaces the earlier binding and nothing else, so a
      second `getRules` over rules already bound to the same grammar changes
      nothing. */
  lemma GetRulesRebind(registered: seq<RuleConfig>, first: Language, second: Language)
    ensures GetRules(GetRules(registered, first), second) == GetRules(registered, second)
    ensures GetRules(GetRules(registered, first), first) == GetRules(registered, first)
  {
    var once, twice, direct := GetRules(registered, first), GetRules(GetRules(registered, first), second), GetRules(registered, second);
    forall i | 0 <= i < |twice|
      ensures twice[i] == direct[i]
    {
      forall f ensures Get(twice[i], f) == Get(direct[i], f) {
        if f != LanguageField {
          assert Get(twice[i], f) == Get(once[i], f) == Get(registered[i], f);
        }
      }
      ConfigExtensional(twice[i], direct[i]);
    }
  }

  /** Outcome of locating and parsing the plugin's package manifest. Every
      throwing case (missing, unreadable or malformed file, or a document
      whose `name` cannot be read) is `ManifestUnreadable`; a parsed
      manifest without a `name` gives `None`, which the method returns as
      `undefined`. */
  datatype ManifestRead = ManifestParsed(name: Option<string>) | ManifestUnreadable(reason: string)

  /** `getPackageId`: the manifest name on success, the literal "invalid"
      on any failure; it never raises. */
  function GetPackageId(read: ManifestRead): (id: Option<string>)
    ensures read.ManifestParsed? ==> id == read.name
    ensures read.ManifestUnreadable? ==> id == Some("invalid")
  {
    match read
    case ManifestParsed(name) => name
    case ManifestUnreadable(_) => Some("invalid")
  }

  /** The fallback shares its value with a legitimate name: "invalid" comes
      back exactly when the read failed or the package is named "invalid". */
  lemma PackageIdInvalidIff(read: ManifestRead)
    ensures GetPackageId(read) == Some("invalid")
            <==> read.ManifestUnreadable? || read.name == Some("invalid")
  {
  }
}
