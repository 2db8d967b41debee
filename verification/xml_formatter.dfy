/** The XML formatter (src/formatters/xml-formatter.ts). The renderer walks
    a JSON value and emits one line per opening tag, closing tag or
    text element; the model keeps those lines as tokens and renders them,
    so that well-nestedness can be stated on the tokens. */
module XmlFormatter {
  import opened Wrappers
  import opened Strings
  import opened Digests
  import opened JsonValues

  /** The declaration line, section 2.8 of XML 1.0. */
  const Declaration: string := "<?xml version=\"1.0\" encoding=\"UTF-8\"?>\n"

  /** The five predefined entities of section 4.6 of XML 1.0. */
  function EscapeChar(c: char): string {
    if c == '<' then "&lt;"
    else if c == '>' then "&gt;"
    else if c == '&' then "&amp;"
    else if c == '\'' then "&apos;"
    else if c == '"' then "&quot;"
    else [c]
  }

  /** No character that would be read as markup or end an attribute. */
  predicate NoMarkup(s: string) {
    forall i :: 0 <= i < |s| ==> s[i] != '<' && s[i] != '>' && s[i] != '\'' && s[i] != '"'
  }

  /** `escapeXml`: one pass over the text, each special character replaced
      by its entity and every other character kept. */
  function EscapeXml(unsafe: string): (r: string)
    ensures |r| >= |unsafe|
  {
    if |unsafe| == 0 then ""
    else EscapeChar(unsafe[0]) + EscapeXml(unsafe[1..])
  }

  /** The escaped text has no raw markup character left. */
  lemma {:induction false} EscapeXmlNoMarkup(unsafe: string)
    ensures NoMarkup(EscapeXml(unsafe))
  {
    if |unsafe| > 0 {
      EscapeXmlNoMarkup(unsafe[1..]);
      var head, rest := EscapeChar(unsafe[0]), EscapeXml(unsafe[1..]);
      assert forall i :: 0 <= i < |head| ==> head[i] != '<' && head[i] != '>' && head[i] != '\'' && head[i] != '"';
      assert forall i :: |head| <= i < |head + rest| ==> (head + rest)[i] == rest[i - |head|];
    }
  }

  lemma {:induction false} EscapeXmlAppend(a: string, b: string)
    ensures EscapeXml(a + b) == EscapeXml(a) + EscapeXml(b)
  {
    if |a| == 0 {
      assert a + b == b;
    } else {
      assert (a + b)[1..] == a[1..] + b;
      EscapeXmlAppend(a[1..], b);
    }
  }

  /** The entity at the start of `t`, if any: the character it stands for
      and its length. */
  function EntityAt(t: string): (r: Option<(char, nat)>)
    ensures r.Some? ==> 1 <= r.value.1 <= |t|
  {
    if StartsWith(t, "&lt;") then Some(('<', 4))
    else if StartsWith(t, "&gt;") then Some(('>', 4))
    else if StartsWith(t, "&amp;") then Some(('&', 5))
    else if StartsWith(t, "&apos;") then Some(('\'', 6))
    else if StartsWith(t, "&quot;") then Some(('"', 6))
    else None
  }

  /** Decodes the five entities; any other character is kept. */
  function UnescapeXml(t: string): string
    decreases |t|
  {
    if |t| == 0 then ""
    else match EntityAt(t)
      case Some((c, n)) => [c] + UnescapeXml(t[n..])
      case None => [t[0]] + UnescapeXml(t[1..])
  }

  /** The entity written for a special character is read back as that
      character; text written for any other character starts no entity. */
  lemma EntityAtEscape(c: char, rest: string)
    ensures EntityAt(EscapeChar(c) + rest) == if |EscapeChar(c)| > 1 then Some((c, |EscapeChar(c)|)) else None
  {
    var e := EscapeChar(c);
    var t := e + rest;
    assert t[..|e|] == e;
    if c == '<' {
      assert StartsWith(t, "&lt;");
    } else if c == '>' {
      assert t[1] == 'g';
      assert !StartsWith(t, "&lt;") && StartsWith(t, "&gt;");
    } else if c == '&' {
      assert t[1] == 'a' && t[2] == 'm';
      assert !StartsWith(t, "&lt;") && !StartsWith(t, "&gt;") && StartsWith(t, "&amp;");
    } else if c == '\'' {
      assert t[1] == 'a' && t[2] == 'p';
      assert !StartsWith(t, "&lt;") && !StartsWith(t, "&gt;") && !StartsWith(t, "&amp;") && StartsWith(t, "&apos;");
    } else if c == '"' {
      assert t[1] == 'q';
      assert !StartsWith(t, "&lt;") && !StartsWith(t, "&gt;") && !StartsWith(t, "&amp;") && !StartsWith(t, "&apos;");
      assert StartsWith(t, "&quot;");
    } else {
      assert t[0] == c && c != '&';
    }
  }

  lemma UnescapeChar(c: char, rest: string)
    ensures UnescapeXml(EscapeChar(c) + rest) == [c] + UnescapeXml(rest)
  {
    var e := EscapeChar(c);
    var t := e + rest;
    EntityAtEscape(c, rest);
    assert t[|e|..] == rest;
    assert t[0] == e[0];
  }

  /** Escaping loses nothing: decoding the entities gives the text back. */
  lemma {:induction false} UnescapeEscape(s: string)
    ensures UnescapeXml(EscapeXml(s)) == s
  {
    if |s| > 0 {
      UnescapeEscape(s[1..]);
      UnescapeChar(s[0], EscapeXml(s[1..]));
      assert s == [s[0]] + s[1..];
    }
  }

  /** One output line: an opening tag, a closing tag, or an element with
      escaped text, each indented two spaces per level. */
  datatype XmlLine = Open(level: nat, tag: string) | Close(level: nat, tag: string) | Leaf(level: nat, tag: string, text: string)

  function Indent(level: nat): string {
    Spaces(2 * level)
  }

  function RenderLine(l: XmlLine): string {
    match l
    case Open(level, tag) => Indent(level) + "<" + tag + ">\n"
    case Close(level, tag) => Indent(level) + "</" + tag + ">\n"
    case Leaf(level, tag, text) => Indent(level) + "<" + tag + ">" + EscapeXml(text) + "</" + tag + ">\n"
  }

  function RenderLines(ls: seq<XmlLine>): string {
    if |ls| == 0 then "" else RenderLine(ls[0]) + RenderLines(ls[1..])
  }

  lemma {:induction false} RenderLinesAppend(a: seq<XmlLine>, b: seq<XmlLine>)
    ensures RenderLines(a + b) == RenderLines(a) + RenderLines(b)
  {
    if |a| == 0 {
      assert a + b == b;
    } else {
      assert (a + b)[1..] == a[1..] + b;
      RenderLinesAppend(a[1..], b);
    }
  }

  /** One property of an object: an array becomes an element holding its
      items one level deeper, an object an element holding its properties
      one level deeper, and a scalar an element holding its text. */
  function Entry(key: string, v: Json, level: nat): seq<XmlLine>
    decreases v
  {
    match v
    case JArr(items) => [Open(level, key)] + Items(items, level + 1) + [Close(level, key)]
    case JObj(ms) => [Open(level, key)] + Members(ms, level + 1) + [Close(level, key)]
    case _ => [Leaf(level, key, ScalarText(v))]
  }

  /** `parseObject` on an object: its properties in key order. */
  function Members(ms: seq<Member>, level: nat): seq<XmlLine>
    decreases ms
  {
    if |ms| == 0 then [] else Entry(ms[0].key, ms[0].value, level) + Members(ms[1..], level)
  }

  /** The items of an array, at the level of its element's children. */
  function Items(items: seq<Json>, level: nat): seq<XmlLine>
    decreases items
  {
    if |items| == 0 then [] else Item(items[0], level) + Items(items[1..], level)
  }

  /** An object item contributes its properties with no wrapping element;
      an array item is walked with `for...in`, which yields its indices as
      keys; a scalar item becomes an `item` element. */
  function Item(item: Json, level: nat): seq<XmlLine>
    decreases item, 1
  {
    match item
    case JObj(ms) => Members(ms, level)
    case JArr(xs) => Indexed(xs, 0, level)
    case _ => [Leaf(level, "item", ScalarText(item))]
  }

  /** `parseObject` on an array: index `start + i` is the key of `xs[i]`. */
  function Indexed(xs: seq<Json>, start: nat, level: nat): seq<XmlLine>
    decreases xs
  {
    if |xs| == 0 then [] else Entry(NatToString(start), xs[0], level) + Indexed(xs[1..], start + 1, level)
  }

  /** `jsonToXml` on an object: the declaration, then its properties. */
  function JsonToXml(root: seq<Member>): string {
    Declaration + RenderLines(Members(root, 0))
  }

  /** The lines of the formatter's document: the findings after the JSON
      round trip, under one `scanResults` property. */
  function DocumentLines(ds: seq<Digest>): seq<XmlLine> {
    Members([Member("scanResults", JArr(DigestsJson(ds)))], 0)
  }

  /** `format`. */
  function Format(ds: seq<Digest>): (text: string)
    ensures StartsWith(text, Declaration)
  {
    JsonToXml([Member("scanResults", JArr(DigestsJson(ds)))])
  }

  // Well-nestedness.

  /** An open element: its indentation level and tag. */
  datatype Frame = Frame(level: nat, tag: string)

  /** Reading one line against the stack of open elements: an opening tag
      or text element must sit at the depth of the stack, and a closing tag
      must match the innermost open element in tag and indentation. */
  function Step(stack: seq<Frame>, l: XmlLine): Option<seq<Frame>> {
    match l
    case Open(level, tag) => if level == |stack| then Some(stack + [Frame(level, tag)]) else None
    case Leaf(level, _, _) => if level == |stack| then Some(stack) else None
    case Close(level, tag) =>
      if |stack| > 0 && stack[|stack| - 1] == Frame(level, tag) then Some(stack[..|stack| - 1]) else None
  }

  function Run(ls: seq<XmlLine>, stack: seq<Frame>): Option<seq<Frame>> {
    if |ls| == 0 then Some(stack)
    else match Step(stack, ls[0])
      case None => None
      case Some(next) => Run(ls[1..], next)
  }

  /** Every opening tag is closed, innermost first, by a closing tag with
      the same name at the same indentation. */
  predicate WellNested(ls: seq<XmlLine>) {
    Run(ls, []) == Some([])
  }

  lemma {:induction false} RunAppend(a: seq<XmlLine>, b: seq<XmlLine>, stack: seq<Frame>)
    ensures Run(a + b, stack) == if Run(a, stack).Some? then Run(b, Run(a, stack).value) else None
  {
    if |a| == 0 {
      assert a + b == b;
    } else {
      assert (a + b)[1..] == a[1..] + b;
      match Step(stack, a[0])
      case None =>
      case Some(next) => RunAppend(a[1..], b, next);
    }
  }

  /** Running a balanced block from a stack of its depth returns to it. */
  ghost predicate Balanced(ls: seq<XmlLine>, level: nat) {
    forall stack: seq<Frame> {:trigger Run(ls, stack)} :: |stack| == level ==> Run(ls, stack) == Some(stack)
  }

  lemma BalancedAppend(a: seq<XmlLine>, b: seq<XmlLine>, level: nat)
    requires Balanced(a, level) && Balanced(b, level)
    ensures Balanced(a + b, level)
  {
    forall stack: seq<Frame> | |stack| == level ensures Run(a + b, stack) == Some(stack) {
      RunAppend(a, b, stack);
    }
  }

  lemma BalancedWrap(key: string, inner: seq<XmlLine>, level: nat)
    requires Balanced(inner, level + 1)
    ensures Balanced([Open(level, key)] + inner + [Close(level, key)], level)
  {
    forall stack: seq<Frame> | |stack| == level
      ensures Run([Open(level, key)] + inner + [Close(level, key)], stack) == Some(stack)
    {
      var pushed := stack + [Frame(level, key)];
      assert Run([Open(level, key)], stack) == Some(pushed);
      RunAppend([Open(level, key)], inner, stack);
      RunAppend([Open(level, key)] + inner, [Close(level, key)], stack);
      assert pushed[..|pushed| - 1] == stack;
      assert Run([Close(level, key)], pushed) == Some(stack);
    }
  }

  lemma {:induction false} EntryBalanced(key: string, v: Json, level: nat)
    ensures Balanced(Entry(key, v, level), level)
    decreases v
  {
    match v
    case JArr(items) =>
      ItemsBalanced(items, level + 1);
      BalancedWrap(key, Items(items, level + 1), level);
    case JObj(ms) =>
      MembersBalanced(ms, level + 1);
      BalancedWrap(key, Members(ms, level + 1), level);
    case _ =>
      forall stack: seq<Frame> | |stack| == level ensures Run(Entry(key, v, level), stack) == Some(stack) {
      }
  }

  lemma {:induction false} MembersBalanced(ms: seq<Member>, level: nat)
    ensures Balanced(Members(ms, level), level)
    decreases ms
  {
    if |ms| == 0 {
      forall stack: seq<Frame> | |stack| == level ensures Run(Members(ms, level), stack) == Some(stack) {
      }
    } else {
      EntryBalanced(ms[0].key, ms[0].value, level);
      MembersBalanced(ms[1..], level);
      BalancedAppend(Entry(ms[0].key, ms[0].value, level), Members(ms[1..], level), level);
    }
  }

  lemma {:induction false} ItemsBalanced(items: seq<Json>, level: nat)
    ensures Balanced(Items(items, level), level)
    decreases items
  {
    if |items| == 0 {
      forall stack: seq<Frame> | |stack| == level ensures Run(Items(items, level), stack) == Some(stack) {
      }
    } else {
      ItemBalanced(items[0], level);
      ItemsBalanced(items[1..], level);
      BalancedAppend(Item(items[0], level), Items(items[1..], level), level);
    }
  }

  lemma {:induction false} ItemBalanced(item: Json, level: nat)
    ensures Balanced(Item(item, level), level)
    decreases item, 1
  {
    match item
    case JObj(ms) => MembersBalanced(ms, level);
    case JArr(xs) => IndexedBalanced(xs, 0, level);
    case _ =>
      forall stack: seq<Frame> | |stack| == level ensures Run(Item(item, level), stack) == Some(stack) {
      }
  }

  lemma {:induction false} IndexedBalanced(xs: seq<Json>, start: nat, level: nat)
    ensures Balanced(Indexed(xs, start, level), level)
    decreases xs
  {
    if |xs| == 0 {
      forall stack: seq<Frame> | |stack| == level ensures Run(Indexed(xs, start, level), stack) == Some(stack) {
      }
    } else {
      EntryBalanced(NatToString(start), xs[0], level);
      IndexedBalanced(xs[1..], start + 1, level);
      BalancedAppend(Entry(NatToString(start), xs[0], level), Indexed(xs[1..], start + 1, level), level);
    }
  }

  /** Whatever the JSON value, the rendered document is well-nested. */
  lemma JsonToXmlWellNested(root: seq<Member>)
    ensures WellNested(Members(root, 0))
  {
    MembersBalanced(root, 0);
  }

  /** The formatter's document: one `scanResults` element at the outer
      level whose content is the findings' lines in input order, and the
      whole is well-nested. */
  lemma DocumentShape(ds: seq<Digest>)
    ensures DocumentLines(ds) == [Open(0, "scanResults")] + Items(DigestsJson(ds), 1) + [Close(0, "scanResults")]
    ensures WellNested(DocumentLines(ds))
    ensures Format(ds) == Declaration + RenderLines(DocumentLines(ds))
  {
    var ms := [Member("scanResults", JArr(DigestsJson(ds)))];
    assert ms[1..] == [];
    assert Members(ms, 0) == Entry("scanResults", JArr(DigestsJson(ds)), 0) + [];
    JsonToXmlWellNested(ms);
  }

  lemma {:induction false} ItemsAppend(a: seq<Json>, b: seq<Json>, level: nat)
    ensures Items(a + b, level) == Items(a, level) + Items(b, level)
  {
    if |a| == 0 {
      assert a + b == b;
    } else {
      assert (a + b)[1..] == a[1..] + b;
      ItemsAppend(a[1..], b, level);
    }
  }

  /** Findings keep their order: the lines for `a + b` are the lines for
      `a` followed by those for `b`, each finding contributing its own
      properties one level below `scanResults`. */
  lemma FindingsInOrder(a: seq<Digest>, b: seq<Digest>)
    ensures Items(DigestsJson(a + b), 1) == Items(DigestsJson(a), 1) + Items(DigestsJson(b), 1)
  {
    DigestsJsonAppend(a, b);
    ItemsAppend(DigestsJson(a), DigestsJson(b), 1);
  }

  lemma DigestsJsonAppend(a: seq<Digest>, b: seq<Digest>)
    ensures DigestsJson(a + b) == DigestsJson(a) + DigestsJson(b)
  {
    var l, r := DigestsJson(a + b), DigestsJson(a) + DigestsJson(b);
    assert |l| == |r|;
    forall i | 0 <= i < |l| ensures l[i] == r[i] {
      if i < |a| {
        assert (a + b)[i] == a[i];
      } else {
        assert (a + b)[i] == b[i - |a|];
      }
    }
  }

  /** A finding contributes its own properties directly, with no wrapping
      element of its own. */
  lemma FindingLines(d: Digest)
    ensures Items(DigestsJson([d]), 1) == Members(DigestMembers(d), 1)
  {
    var one := DigestsJson([d]);
    assert one == [DigestJson(d)];
    assert one[1..] == [];
    assert Items(one, 1) == Item(one[0], 1) + Items([], 1);
  }

  lemma {:induction false} MembersAppend(a: seq<Member>, b: seq<Member>, level: nat)
    ensures Members(a + b, level) == Members(a, level) + Members(b, level)
  {
    if |a| == 0 {
      assert a + b == b;
    } else {
      assert (a + b)[1..] == a[1..] + b;
      MembersAppend(a[1..], b, level);
    }
  }

  lemma MembersSingle(m: Member, level: nat)
    ensures Members([m], level) == Entry(m.key, m.value, level)
  {
    assert [m][1..] == [];
  }

  /** The element of a position: its row, column and offset one level deeper. */
  function PositionLines(key: string, p: Position, level: nat): seq<XmlLine> {
    [Open(level, key), Leaf(level + 1, "Row", IntToString(p.Row)), Leaf(level + 1, "Column", IntToString(p.Column)),
     Leaf(level + 1, "Index", IntToString(p.Index)), Close(level, key)]
  }

  /** The element of an optional text, or nothing when it is absent. */
  function OptionalLines(key: string, v: Option<string>, level: nat): seq<XmlLine> {
    if v.Some? then [Leaf(level, key, v.value)] else []
  }

  lemma PositionElement(key: string, p: Position, level: nat)
    ensures Entry(key, PositionJson(p), level) == PositionLines(key, p, level)
  {
    var ms := [Member("Row", JNum(p.Row)), Member("Column", JNum(p.Column)), Member("Index", JNum(p.Index))];
    MembersAppend([ms[0]], ms[1..], level + 1);
    MembersAppend([ms[1]], [ms[2]], level + 1);
    assert ms == [ms[0]] + ([ms[1]] + [ms[2]]);
    MembersSingle(ms[0], level + 1);
    MembersSingle(ms[1], level + 1);
    MembersSingle(ms[2], level + 1);
  }

  lemma OptionalElement(key: string, v: Option<string>, level: nat)
    ensures Members(OptionalMember(key, v), level) == OptionalLines(key, v, level)
  {
    if v.Some? {
      MembersSingle(Member(key, JStr(v.value)), level);
    }
  }

  /** The elements of one finding, one level below `scanResults`, in the
      order its interface declares them; an absent optional property
      yields no element at all. */
  lemma FindingElements(d: Digest)
    ensures Members(DigestMembers(d), 1)
         == [Leaf(1, "RuleId", d.RuleId)] + PositionLines("Start", d.Start, 1) + PositionLines("End", d.End, 1)
          + [Leaf(1, "Message", d.Message)] + OptionalLines("Suggestion", d.Suggestion, 1)
          + [Leaf(1, "Severity", IntToString(d.Severity))] + OptionalLines("Category", d.Category, 1)
          + [Leaf(1, "Context", d.Context)] + OptionalLines("NodeText", d.NodeText, 1)
  {
    var h := HeadMembers(d);
    var m5 := OptionalMember("Suggestion", d.Suggestion);
    var m6 := [Member("Severity", JNum(d.Severity))];
    var m7 := OptionalMember("Category", d.Category);
    var m8 := [Member("Context", JStr(d.Context))];
    var m9 := OptionalMember("NodeText", d.NodeText);
    assert DigestMembers(d) == h + m5 + m6 + m7 + m8 + m9;
    MembersAppend(h + m5 + m6 + m7 + m8, m9, 1);
    MembersAppend(h + m5 + m6 + m7, m8, 1);
    MembersAppend(h + m5 + m6, m7, 1);
    MembersAppend(h + m5, m6, 1);
    MembersAppend(h, m5, 1);
    HeadElements(d);
    MembersSingle(m6[0], 1);
    MembersSingle(m8[0], 1);
    OptionalElement("Suggestion", d.Suggestion, 1);
    OptionalElement("Category", d.Category, 1);
    OptionalElement("NodeText", d.NodeText, 1);
  }

  /** The members up to `Message`. */
  function HeadMembers(d: Digest): seq<Member> {
    [Member("RuleId", JStr(d.RuleId)), Member("Start", PositionJson(d.Start)),
     Member("End", PositionJson(d.End)), Member("Message", JStr(d.Message))]
  }

  lemma HeadElements(d: Digest)
    ensures Members(HeadMembers(d), 1)
         == [Leaf(1, "RuleId", d.RuleId)] + PositionLines("Start", d.Start, 1) + PositionLines("End", d.End, 1)
          + [Leaf(1, "Message", d.Message)]
  {
    var m := HeadMembers(d);
    var m1, m2, m3, m4 := [m[0]], [m[1]], [m[2]], [m[3]];
    assert m == m1 + m2 + m3 + m4;
    MembersAppend(m1 + m2 + m3, m4, 1);
    MembersAppend(m1 + m2, m3, 1);
    MembersAppend(m1, m2, 1);
    MembersSingle(m[0], 1);
    MembersSingle(m[1], 1);
    MembersSingle(m[2], 1);
    MembersSingle(m[3], 1);
    PositionElement("Start", d.Start, 1);
    PositionElement("End", d.End, 1);
  }
}
