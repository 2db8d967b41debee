/** JSON values as they come out of `JSON.parse`, and the value a finding
    becomes after the `JSON.stringify`/`JSON.parse` round trip the XML
    formatters apply: absent optional properties disappear. */
module JsonValues {
  import opened Wrappers
  import opened Strings
  import opened Digests

  datatype Json = JNull | JBool(b: bool) | JNum(n: int) | JStr(s: string) | JArr(items: seq<Json>) | JObj(members: seq<Member>)

  /** One property of an object, in key order. */
  datatype Member = Member(key: string, value: Json)

  /** `String(value)` for a scalar; `null` prints as "null". */
  function ScalarText(v: Json): string {
    match v
    case JNull => "null"
    case JBool(b) => if b then "true" else "false"
    case JNum(n) => IntToString(n)
    case JStr(s) => s
    case JArr(_) => ""
    case JObj(_) => ""
  }

  predicate IsScalar(v: Json) {
    !v.JArr? && !v.JObj?
  }

  function PositionJson(p: Position): Json {
    JObj([Member("Row", JNum(p.Row)), Member("Column", JNum(p.Column)), Member("Index", JNum(p.Index))])
  }

  /** An optional text property: present with its value, or absent. */
  function OptionalMember(key: string, v: Option<string>): (r: seq<Member>)
    ensures |r| == (if v.Some? then 1 else 0)
  {
    if v.Some? then [Member(key, JStr(v.value))] else []
  }

  /** The properties of a finding after the JSON round trip, in the order
      the finding interface declares them. */
  function DigestMembers(d: Digest): seq<Member> {
    [Member("RuleId", JStr(d.RuleId)), Member("Start", PositionJson(d.Start)),
     Member("End", PositionJson(d.End)), Member("Message", JStr(d.Message))]
    + OptionalMember("Suggestion", d.Suggestion)
    + [Member("Severity", JNum(d.Severity))]
    + OptionalMember("Category", d.Category)
    + [Member("Context", JStr(d.Context))]
    + OptionalMember("NodeText", d.NodeText)
  }

  function DigestJson(d: Digest): Json {
    JObj(DigestMembers(d))
  }

  function DigestsJson(ds: seq<Digest>): (r: seq<Json>)
    ensures |r| == |ds|
    ensures forall i :: 0 <= i < |ds| ==> r[i] == DigestJson(ds[i])
  {
    if |ds| == 0 then [] else [DigestJson(ds[0])] + DigestsJson(ds[1..])
  }
}
