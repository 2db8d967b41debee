/** The earlier XML formatter (src/xml-formatter.ts). It builds the text
    directly, carrying the indentation as a string, over the JSON form of
    whatever it is given; its walk is the same as the current formatter's,
    which the lemmas below prove by showing both produce the same text. */
module LegacyXmlFormatter {
  import opened Strings
  import opened Digests
  import opened JsonValues
  import XmlFormatter

  /** The legacy formatter's own copy of `escapeXml`. */
  function EscapeXml(unsafe: string): (r: string)
    ensures |r| >= |unsafe|
  {
    if |unsafe| == 0 then ""
    else
      var c := unsafe[0];
      var e := if c == '<' then "&lt;" else if c == '>' then "&gt;" else if c == '&' then "&amp;"
               else if c == '\'' then "&apos;" else if c == '"' then "&quot;" else [c];
      e + EscapeXml(unsafe[1..])
  }

  /** Both copies escape alike. */
  lemma {:induction false} EscapeXmlSame(s: string)
    ensures EscapeXml(s) == XmlFormatter.EscapeXml(s)
  {
    if |s| > 0 {
      EscapeXmlSame(s[1..]);
    }
  }

  /** The three line shapes the builder writes: an opening tag, a closing
      tag, and an element holding text. */
  function OpenTag(indent: string, key: string): string {
    indent + "<" + key + ">\n"
  }

  function CloseTag(indent: string, key: string): string {
    indent + "</" + key + ">\n"
  }

  function TextElement(indent: string, key: string, text: string): string {
    indent + "<" + key + ">" + text + "</" + key + ">\n"
  }

  /** One property, with the indentation of its line. */
  function Entry(key: string, v: Json, indent: string): string
    decreases v
  {
    match v
    case JArr(items) => OpenTag(indent, key) + Items(items, indent) + CloseTag(indent, key)
    case JObj(ms) => OpenTag(indent, key) + ParseObject(ms, indent + "  ") + CloseTag(indent, key)
    case _ => TextElement(indent, key, EscapeXml(ScalarText(v)))
  }

  /** `parseObject` on an object. */
  function ParseObject(ms: seq<Member>, indent: string): string
    decreases ms
  {
    if |ms| == 0 then "" else Entry(ms[0].key, ms[0].value, indent) + ParseObject(ms[1..], indent)
  }

  /** The items of an array whose element is indented by `indent`. */
  function Items(items: seq<Json>, indent: string): string
    decreases items
  {
    if |items| == 0 then "" else Item(items[0], indent) + Items(items[1..], indent)
  }

  function Item(item: Json, indent: string): string
    decreases item, 1
  {
    match item
    case JObj(ms) => ParseObject(ms, indent + "  ")
    case JArr(xs) => ParseArray(xs, 0, indent + "  ")
    case _ => TextElement(indent + "  ", "item", EscapeXml(ScalarText(item)))
  }

  /** `parseObject` on an array: `for...in` yields the indices as keys. */
  function ParseArray(xs: seq<Json>, start: nat, indent: string): string
    decreases xs
  {
    if |xs| == 0 then "" else Entry(NatToString(start), xs[0], indent) + ParseArray(xs[1..], start + 1, indent)
  }

  /** `format`: the JSON form of the results under `scanResults`. Whatever
      the JSON, the text is what the current renderer writes for it. */
  function Format(scanResults: seq<Json>): (r: string)
    ensures r == XmlFormatter.JsonToXml([Member("scanResults", JArr(scanResults))])
  {
    var root := [Member("scanResults", JArr(scanResults))];
    ParseObjectSame(root, 0);
    XmlFormatter.Declaration + ParseObject(root, "")
  }

  lemma DeeperIndent(level: nat)
    ensures XmlFormatter.Indent(level) + "  " == XmlFormatter.Indent(level + 1)
  {
    var a := XmlFormatter.Indent(level) + "  ";
    var b := XmlFormatter.Indent(level + 1);
    assert |a| == |b|;
    forall i | 0 <= i < |a| ensures a[i] == b[i] {
    }
  }

  lemma SingleLine(l: XmlFormatter.XmlLine)
    ensures XmlFormatter.RenderLines([l]) == XmlFormatter.RenderLine(l)
  {
    assert XmlFormatter.RenderLines([l]) == XmlFormatter.RenderLine(l) + XmlFormatter.RenderLines([]);
  }

  /** An element around already rendered content. */
  lemma WrapSame(key: string, level: nat, inner: seq<XmlFormatter.XmlLine>)
    ensures XmlFormatter.RenderLines([XmlFormatter.Open(level, key)] + inner + [XmlFormatter.Close(level, key)])
         == OpenTag(XmlFormatter.Indent(level), key) + XmlFormatter.RenderLines(inner) + CloseTag(XmlFormatter.Indent(level), key)
  {
    var open := [XmlFormatter.Open(level, key)];
    var close := [XmlFormatter.Close(level, key)];
    SingleLine(open[0]);
    SingleLine(close[0]);
    XmlFormatter.RenderLinesAppend(open, inner);
    XmlFormatter.RenderLinesAppend(open + inner, close);
  }

  lemma {:induction false} EntrySame(key: string, v: Json, level: nat)
    ensures Entry(key, v, XmlFormatter.Indent(level)) == XmlFormatter.RenderLines(XmlFormatter.Entry(key, v, level))
    decreases v
  {
    if v.JArr? {
      ItemsSame(v.items, level + 1);
      ArrayEntrySame(key, v.items, level);
    } else if v.JObj? {
      ParseObjectSame(v.members, level + 1);
      ObjectEntrySame(key, v.members, level);
    } else {
      ScalarEntrySame(key, v, level);
    }
  }

  lemma ArrayEntrySame(key: string, items: seq<Json>, level: nat)
    requires Items(items, XmlFormatter.Indent(level)) == XmlFormatter.RenderLines(XmlFormatter.Items(items, level + 1))
    ensures Entry(key, JArr(items), XmlFormatter.Indent(level)) == XmlFormatter.RenderLines(XmlFormatter.Entry(key, JArr(items), level))
  {
    WrapSame(key, level, XmlFormatter.Items(items, level + 1));
  }

  lemma ObjectEntrySame(key: string, ms: seq<Member>, level: nat)
    requires ParseObject(ms, XmlFormatter.Indent(level + 1)) == XmlFormatter.RenderLines(XmlFormatter.Members(ms, level + 1))
    ensures Entry(key, JObj(ms), XmlFormatter.Indent(level)) == XmlFormatter.RenderLines(XmlFormatter.Entry(key, JObj(ms), level))
  {
    DeeperIndent(level);
    WrapSame(key, level, XmlFormatter.Members(ms, level + 1));
  }

  lemma ScalarEntrySame(key: string, v: Json, level: nat)
    requires IsScalar(v)
    ensures Entry(key, v, XmlFormatter.Indent(level)) == XmlFormatter.RenderLines(XmlFormatter.Entry(key, v, level))
  {
    EscapeXmlSame(ScalarText(v));
    SingleLine(XmlFormatter.Leaf(level, key, ScalarText(v)));
  }

  lemma {:induction false} ParseObjectSame(ms: seq<Member>, level: nat)
    ensures ParseObject(ms, XmlFormatter.Indent(level)) == XmlFormatter.RenderLines(XmlFormatter.Members(ms, level))
    decreases ms
  {
    if |ms| > 0 {
      EntrySame(ms[0].key, ms[0].value, level);
      ParseObjectSame(ms[1..], level);
      XmlFormatter.RenderLinesAppend(XmlFormatter.Entry(ms[0].key, ms[0].value, level), XmlFormatter.Members(ms[1..], level));
    }
  }

  /** `Items(items, level)` on the token side lists the items at the level
      of their content, one below the array's element. */
  lemma {:induction false} ItemsSame(items: seq<Json>, level: nat)
    requires level >= 1
    ensures Items(items, XmlFormatter.Indent(level - 1)) == XmlFormatter.RenderLines(XmlFormatter.Items(items, level))
    decreases items
  {
    if |items| > 0 {
      ItemSame(items[0], level);
      ItemsSame(items[1..], level);
      XmlFormatter.RenderLinesAppend(XmlFormatter.Item(items[0], level), XmlFormatter.Items(items[1..], level));
    }
  }

  lemma {:induction false} ItemSame(item: Json, level: nat)
    requires level >= 1
    ensures Item(item, XmlFormatter.Indent(level - 1)) == XmlFormatter.RenderLines(XmlFormatter.Item(item, level))
    decreases item, 1
  {
    if item.JObj? {
      DeeperIndent(level - 1);
      ParseObjectSame(item.members, level);
    } else if item.JArr? {
      DeeperIndent(level - 1);
      ParseArraySame(item.items, 0, level);
    } else {
      ScalarItemSame(ScalarText(item), level);
    }
  }

  /** A scalar item is an `item` element one step deeper than its array. */
  lemma ScalarItemSame(text: string, level: nat)
    requires level >= 1
    ensures TextElement(XmlFormatter.Indent(level - 1) + "  ", "item", EscapeXml(text))
         == XmlFormatter.RenderLines([XmlFormatter.Leaf(level, "item", text)])
  {
    EscapeXmlSame(text);
    DeeperIndent(level - 1);
    SingleLine(XmlFormatter.Leaf(level, "item", text));
  }

  lemma {:induction false} ParseArraySame(xs: seq<Json>, start: nat, level: nat)
    ensures ParseArray(xs, start, XmlFormatter.Indent(level)) == XmlFormatter.RenderLines(XmlFormatter.Indexed(xs, start, level))
    decreases xs
  {
    if |xs| > 0 {
      EntrySame(NatToString(start), xs[0], level);
      ParseArraySame(xs[1..], start + 1, level);
      XmlFormatter.RenderLinesAppend(XmlFormatter.Entry(NatToString(start), xs[0], level), XmlFormatter.Indexed(xs[1..], start + 1, level));
    }
  }

  /** Given the same JSON, the legacy and current formatters write the same
      document; in particular the legacy output for findings is the
      current formatter's output. */
  lemma FormatSame(ds: seq<Digest>)
    ensures Format(DigestsJson(ds)) == XmlFormatter.Format(ds)
  {
    ParseObjectSame([Member("scanResults", JArr(DigestsJson(ds)))], 0);
  }
}
