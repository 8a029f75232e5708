/** The ODT exporter's walk from the parsed HTML tree to the body of
    `content.xml`: `convertHtmlToOdt` and its `processNode`
    (script.js:468-525). */
module Odt {
  import opened Strings
  import opened Dom
  import opened XmlEscape

  /** `<inner>`: one start or end tag of the generated XML. */
  function XmlTag(inner: string): string
  {
    "<" + inner + ">"
  }

  /** `<element text:style-name="style">`. */
  function StyledTag(element: string, style: string): string
  {
    XmlTag(element + " text:style-name=\"" + style + "\"")
  }

  /** `<text:h text:style-name="Heading_k" text:outline-level="k">` for the
      heading digit `k`: the style name and the outline level agree. */
  function HeadingTag(k: char): string
  {
    XmlTag("text:h text:style-name=\"Heading_" + [k] + "\" text:outline-level=\"" + [k] + "\"")
  }

  /** The markup around one entry of a `ul` or `ol` (script.js:499, 503). */
  function ListItem(body: string): string
  {
    XmlTag("text:list-item") + XmlTag("text:p") + body + XmlTag("/text:p") + XmlTag("/text:list-item")
  }

  /** `processNode(node)` of `convertHtmlToOdt`. */
  function OdtNode(n: Node): string
  {
    match n
    case Text(s) =>
      if s == "" then "" else XmlTag("text:span") + EscapeXml(s) + XmlTag("/text:span")
    case Comment(_) => ""
    case Element(tag, cs) =>
      var content := OdtNodes(cs);
      match KindOf(tag)
      case H1 => HeadingTag('1') + content + XmlTag("/text:h")
      case H2 => HeadingTag('2') + content + XmlTag("/text:h")
      case H3 => HeadingTag('3') + content + XmlTag("/text:h")
      case P => StyledTag("text:p", "Standard") + content + XmlTag("/text:p")
      case Strong => StyledTag("text:span", "Bold") + content + XmlTag("/text:span")
      case Em => StyledTag("text:span", "Italic") + content + XmlTag("/text:span")
      case Ul => XmlTag("text:list") + OdtListItems(cs) + XmlTag("/text:list")
      case Ol => StyledTag("text:list", "Numbering") + OdtListItems(cs) + XmlTag("/text:list")
      case Li => content
      case Blockquote => StyledTag("text:p", "Quotation") + content + XmlTag("/text:p")
      case Code => StyledTag("text:span", "Monospace") + EscapeXml(TextContent(n)) + XmlTag("/text:span")
      case Pre => StyledTag("text:p", "Monospace") + EscapeXml(TextContent(n)) + XmlTag("/text:p")
      case Unlisted => content
  }

  /** `Array.from(node.childNodes).map(processNode).join('')`. */
  function OdtNodes(ns: seq<Node>): string
  {
    if ns == [] then "" else OdtNode(ns[0]) + OdtNodes(ns[1..])
  }

  /** The entries of a list: `node.children` (the element children only),
      each walked and wrapped by `ListItem`. */
  function OdtListItems(ns: seq<Node>): string
  {
    if ns == [] then ""
    else (if ns[0].Element? then ListItem(OdtNode(ns[0])) else "") + OdtListItems(ns[1..])
  }

  lemma {:induction false} OdtNodesAppend(ns: seq<Node>, n: Node)
    ensures OdtNodes(ns + [n]) == OdtNodes(ns) + OdtNode(n)
  {
    if ns == [] {
      assert [] + [n] == [n];
    } else {
      assert (ns + [n])[1..] == ns[1..] + [n];
      OdtNodesAppend(ns[1..], n);
    }
  }

  /** `convertHtmlToOdt(html)`: the walk of each child node of `body`,
      appended in order to `odtContent`. The ODT body carries exactly the
      document's text, escaped, between well-formed tags. */
  method ConvertHtmlToOdt(body: seq<Node>) returns (odtContent: string)
    ensures odtContent == OdtNodes(body)
    ensures CharData(odtContent) == EscapeXml(OdtTexts(body)) && Closed(odtContent)
    ensures TagsBalanced(odtContent)
  {
    odtContent := "";
    var i := 0;
    while i < |body|
      invariant 0 <= i <= |body|
      invariant odtContent == OdtNodes(body[..i])
    {
      OdtNodesAppend(body[..i], body[i]);
      assert body[..i + 1] == body[..i] + [body[i]];
      odtContent := odtContent + OdtNode(body[i]);
      i := i + 1;
    }
    assert body[..i] == body;
    OdtNodesText(body);
    OdtNodesBalanced(body);
  }

  // ---------------------------------------------------------------------
  // The text the ODT output shows

  /** The text a node contributes to the ODT document: `code` and `pre` show
      their whole textContent, lists show only what their element children
      show, and every other element shows its children's text. */
  function OdtText(n: Node): string
  {
    match n
    case Text(s) => s
    case Comment(_) => ""
    case Element(tag, cs) =>
      match KindOf(tag)
      case Code | Pre => TextContents(cs)
      case Ul | Ol => OdtListText(cs)
      case _ => OdtTexts(cs)
  }

  function OdtTexts(ns: seq<Node>): string
  {
    if ns == [] then "" else OdtText(ns[0]) + OdtTexts(ns[1..])
  }

  function OdtListText(ns: seq<Node>): string
  {
    if ns == [] then ""
    else (if ns[0].Element? then OdtText(ns[0]) else "") + OdtListText(ns[1..])
  }

  /** Character data of an XML fragment: what lies outside `<...>`; `inTag`
      says whether the fragment starts inside a tag. */
  function Strip(s: string, inTag: bool): string
    decreases |s|
  {
    if s == [] then []
    else if inTag then Strip(s[1..], s[0] != '>')
    else if s[0] == '<' then Strip(s[1..], true)
    else [s[0]] + Strip(s[1..], false)
  }

  /** Whether scanning `s` from state `inTag` ends inside a tag. */
  function EndsInTag(s: string, inTag: bool): bool
    decreases |s|
  {
    if s == [] then inTag
    else EndsInTag(s[1..], if inTag then s[0] != '>' else s[0] == '<')
  }

  function CharData(s: string): string { Strip(s, false) }

  /** Every `<` of `s` is closed by a later `>`. */
  predicate Closed(s: string) { !EndsInTag(s, false) }

  lemma {:induction false} StripConcat(a: string, b: string, inTag: bool)
    ensures Strip(a + b, inTag) == Strip(a, inTag) + Strip(b, EndsInTag(a, inTag))
    ensures EndsInTag(a + b, inTag) == EndsInTag(b, EndsInTag(a, inTag))
    decreases |a|
  {
    if a == [] {
      assert a + b == b;
    } else {
      assert (a + b)[1..] == a[1..] + b;
      StripConcat(a[1..], b, if inTag then a[0] != '>' else a[0] == '<');
    }
  }

  lemma ClosedConcat(a: string, b: string)
    requires Closed(a) && Closed(b)
    ensures CharData(a + b) == CharData(a) + CharData(b) && Closed(a + b)
  {
    StripConcat(a, b, false);
  }

  lemma {:induction false} SkipInsideTag(u: string, rest: string)
    requires '>' !in u
    ensures Strip(u + rest, true) == Strip(rest, true)
    ensures EndsInTag(u + rest, true) == EndsInTag(rest, true)
    decreases |u|
  {
    if u != [] {
      assert (u + rest)[1..] == u[1..] + rest;
      SkipInsideTag(u[1..], rest);
    } else {
      assert u + rest == rest;
    }
  }

  lemma XmlTagHasNoCharData(inner: string)
    requires '>' !in inner
    ensures CharData(XmlTag(inner)) == [] && Closed(XmlTag(inner))
  {
    var t := XmlTag(inner);
    assert t == "<" + (inner + ">");
    assert t[1..] == inner + ">";
    SkipInsideTag(inner, ">");
    assert Strip(">", true) == [];
  }

  lemma {:induction false} PlainIsCharData(s: string)
    requires '<' !in s
    ensures CharData(s) == s && Closed(s)
    decreases |s|
  {
    if s != [] {
      PlainIsCharData(s[1..]);
    }
  }

  lemma EscapedIsCharData(s: string)
    ensures CharData(EscapeXml(s)) == EscapeXml(s) && Closed(EscapeXml(s))
  {
    EscapeXmlSafe(s);
    PlainIsCharData(EscapeXml(s));
  }

  /** None of the element names, style names and end tags the walker
      writes contains a `>`. */
  lemma TagPartsHaveNoGt()
    ensures '>' !in "text:span" && '>' !in "/text:span" && '>' !in "/text:h" && '>' !in "text:p"
    ensures '>' !in "/text:p" && '>' !in "text:list" && '>' !in "/text:list"
    ensures '>' !in "text:list-item" && '>' !in "/text:list-item"
    ensures '>' !in "Standard" && '>' !in "Bold" && '>' !in "Italic" && '>' !in "Numbering"
    ensures '>' !in "Quotation" && '>' !in "Monospace"
  {
  }

  lemma StyledTagHasNoCharData(element: string, style: string)
    requires '>' !in element && '>' !in style
    ensures CharData(StyledTag(element, style)) == [] && Closed(StyledTag(element, style))
  {
    XmlTagHasNoCharData(element + " text:style-name=\"" + style + "\"");
  }

  lemma HeadingTagHasNoCharData(k: char)
    requires k != '>'
    ensures CharData(HeadingTag(k)) == [] && Closed(HeadingTag(k))
  {
    XmlTagHasNoCharData("text:h text:style-name=\"Heading_" + [k] + "\" text:outline-level=\"" + [k] + "\"");
  }

  /** Markup wrapped around a closed fragment adds no character data. */
  lemma Around(open: string, x: string, close: string)
    requires CharData(open) == [] && Closed(open) && CharData(close) == [] && Closed(close) && Closed(x)
    ensures CharData(open + x + close) == CharData(x) && Closed(open + x + close)
  {
    ClosedConcat(open, x);
    ClosedConcat(open + x, close);
  }

  /** A piece of pure markup: no character data, no tag left open. */
  predicate Markup(t: string)
  {
    CharData(t) == [] && Closed(t)
  }

  lemma TagIsMarkup(inner: string)
    requires '>' !in inner
    ensures Markup(XmlTag(inner))
  {
    XmlTagHasNoCharData(inner);
  }

  lemma StyledIsMarkup(element: string, style: string)
    requires '>' !in element && '>' !in style
    ensures Markup(StyledTag(element, style))
  {
    StyledTagHasNoCharData(element, style);
  }

  /** `Around` for a start tag made by `StyledTag` and an end tag. */
  lemma StyledAround(element: string, style: string, x: string, close: string)
    requires '>' !in element && '>' !in style && '>' !in close && Closed(x)
    ensures CharData(StyledTag(element, style) + x + XmlTag(close)) == CharData(x)
    ensures Closed(StyledTag(element, style) + x + XmlTag(close))
  {
    StyledIsMarkup(element, style);
    TagIsMarkup(close);
    Around(StyledTag(element, style), x, XmlTag(close));
  }

  /** `Around` for a start tag and an end tag made by `XmlTag`. */
  lemma TagAround(open: string, x: string, close: string)
    requires '>' !in open && '>' !in close && Closed(x)
    ensures CharData(XmlTag(open) + x + XmlTag(close)) == CharData(x)
    ensures Closed(XmlTag(open) + x + XmlTag(close))
  {
    TagIsMarkup(open);
    TagIsMarkup(close);
    Around(XmlTag(open), x, XmlTag(close));
  }

  /** `Around` for a heading's start and end tags. */
  lemma HeadingAround(k: char, x: string)
    requires k != '>' && Closed(x)
    ensures CharData(HeadingTag(k) + x + XmlTag("/text:h")) == CharData(x)
    ensures Closed(HeadingTag(k) + x + XmlTag("/text:h"))
  {
    HeadingTagHasNoCharData(k);
    TagIsMarkup("/text:h");
    Around(HeadingTag(k), x, XmlTag("/text:h"));
  }

  /** `Around` for the markup of one list entry. */
  lemma ListItemAround(x: string)
    requires Closed(x)
    ensures CharData(ListItem(x)) == CharData(x) && Closed(ListItem(x))
  {
    TagPartsHaveNoGt();
    TagAround("text:p", x, "/text:p");
    TagAround("text:list-item", XmlTag("text:p") + x + XmlTag("/text:p"), "/text:list-item");
    assert ListItem(x) == XmlTag("text:list-item") + (XmlTag("text:p") + x + XmlTag("/text:p")) + XmlTag("/text:list-item");
  }

  /** The character data of a node's ODT markup is exactly its text,
      XML-escaped, and the markup closes every tag it opens. */
  lemma {:induction false} OdtNodeText(n: Node)
    ensures CharData(OdtNode(n)) == EscapeXml(OdtText(n)) && Closed(OdtNode(n))
    decreases n, 1
  {
    TagPartsHaveNoGt();
    match n
    case Text(s) =>
      if s != "" {
        EscapedIsCharData(s);
        TagAround("text:span", EscapeXml(s), "/text:span");
      } else {
        EscapeXmlPerChar("");
      }
    case Comment(_) =>
      EscapeXmlPerChar("");
    case Element(tag, cs) =>
      var x := OdtNodes(cs);
      match KindOf(tag)
      case Code =>
        EscapedIsCharData(TextContents(cs));
        StyledAround("text:span", "Monospace", EscapeXml(TextContents(cs)), "/text:span");
      case Pre =>
        EscapedIsCharData(TextContents(cs));
        StyledAround("text:p", "Monospace", EscapeXml(TextContents(cs)), "/text:p");
      case Ul =>
        OdtListItemsText(cs);
        TagAround("text:list", OdtListItems(cs), "/text:list");
      case Ol =>
        OdtListItemsText(cs);
        StyledAround("text:list", "Numbering", OdtListItems(cs), "/text:list");
      case H1 =>
        OdtNodesText(cs);
        HeadingAround('1', x);
      case H2 =>
        OdtNodesText(cs);
        HeadingAround('2', x);
      case H3 =>
        OdtNodesText(cs);
        HeadingAround('3', x);
      case P =>
        OdtNodesText(cs);
        StyledAround("text:p", "Standard", x, "/text:p");
      case Strong =>
        OdtNodesText(cs);
        StyledAround("text:span", "Bold", x, "/text:span");
      case Em =>
        OdtNodesText(cs);
        StyledAround("text:span", "Italic", x, "/text:span");
      case Blockquote =>
        OdtNodesText(cs);
        StyledAround("text:p", "Quotation", x, "/text:p");
      case Li =>
        OdtNodesText(cs);
      case Unlisted =>
        OdtNodesText(cs);
  }

  lemma {:induction false} OdtNodesText(ns: seq<Node>)
    ensures CharData(OdtNodes(ns)) == EscapeXml(OdtTexts(ns)) && Closed(OdtNodes(ns))
    decreases ns, 0
  {
    if ns == [] {
      assert EscapeXml("") == "" by { EscapeXmlPerChar(""); }
    } else {
      OdtNodeText(ns[0]);
      OdtNodesText(ns[1..]);
      ClosedConcat(OdtNode(ns[0]), OdtNodes(ns[1..]));
      EscapeXmlConcat(OdtText(ns[0]), OdtTexts(ns[1..]));
    }
  }

  lemma {:induction false} OdtListItemsText(ns: seq<Node>)
    ensures CharData(OdtListItems(ns)) == EscapeXml(OdtListText(ns)) && Closed(OdtListItems(ns))
    decreases ns, 0
  {
    if ns == [] {
      assert EscapeXml("") == "" by { EscapeXmlPerChar(""); }
    } else {
      var head := if ns[0].Element? then ListItem(OdtNode(ns[0])) else "";
      var headText := if ns[0].Element? then OdtText(ns[0]) else "";
      if ns[0].Element? {
        OdtNodeText(ns[0]);
        ListItemAround(OdtNode(ns[0]));
      } else {
        assert EscapeXml("") == "" by { EscapeXmlPerChar(""); }
      }
      OdtListItemsText(ns[1..]);
      ClosedConcat(head, OdtListItems(ns[1..]));
      EscapeXmlConcat(headText, OdtListText(ns[1..]));
    }
  }

  /** Reading the ODT body back: dropping the tags and undoing the escapes
      gives the document's text. */
  lemma OdtTextRecoverable(body: seq<Node>)
    ensures UnescapeXml(CharData(OdtNodes(body))) == OdtTexts(body)
  {
    OdtNodesText(body);
    XmlRoundTrip(OdtTexts(body));
  }

  // ---------------------------------------------------------------------
  // Start and end tags balance

  function Min(x: int, y: int): int { if x <= y then x else y }

  /** How a character moves the tag depth: `<` opens one level, and a `/`
      right after a `<` turns that start into an end tag (one level down
      from before the `<`). `afterLt` says whether the previous character
      was `<`. */
  function DepthStep(c: char, afterLt: bool): int
  {
    (if c == '<' then 1 else 0) + (if afterLt && c == '/' then -2 else 0)
  }

  /** The depth reached at the end of `s`, relative to its start. */
  function Depth(s: string, afterLt: bool): int
    decreases |s|
  {
    if s == [] then 0 else DepthStep(s[0], afterLt) + Depth(s[1..], s[0] == '<')
  }

  /** The lowest depth reached while scanning `s` (never above 0). */
  function LowDepth(s: string, afterLt: bool): int
    decreases |s|
  {
    if s == [] then 0 else Min(0, DepthStep(s[0], afterLt) + LowDepth(s[1..], s[0] == '<'))
  }

  /** Whether `s` ends in `<`, starting from state `afterLt`. */
  function EndsInLt(s: string, afterLt: bool): bool
    decreases |s|
  {
    if s == [] then afterLt else EndsInLt(s[1..], s[0] == '<')
  }

  /** Every end tag of `s` closes a start tag before it, and every start
      tag is closed: the depth never goes below 0 and ends at 0. */
  predicate TagsBalanced(s: string)
  {
    Depth(s, false) == 0 && LowDepth(s, false) == 0 && !EndsInLt(s, false)
  }

  /** `s` is one start tag's worth of markup: it ends one level deeper. */
  predicate OpensOne(s: string)
  {
    Depth(s, false) == 1 && LowDepth(s, false) == 0 && !EndsInLt(s, false)
  }

  /** `s` is one end tag's worth of markup: it ends one level shallower. */
  predicate ClosesOne(s: string)
  {
    Depth(s, false) == -1 && LowDepth(s, false) == -1 && !EndsInLt(s, false)
  }

  lemma {:induction false} DepthConcat(a: string, b: string, afterLt: bool)
    ensures Depth(a + b, afterLt) == Depth(a, afterLt) + Depth(b, EndsInLt(a, afterLt))
    ensures LowDepth(a + b, afterLt) == Min(LowDepth(a, afterLt), Depth(a, afterLt) + LowDepth(b, EndsInLt(a, afterLt)))
    ensures EndsInLt(a + b, afterLt) == EndsInLt(b, EndsInLt(a, afterLt))
    decreases |a|
  {
    if a == [] {
      assert a + b == b;
    } else {
      assert (a + b)[1..] == a[1..] + b;
      DepthConcat(a[1..], b, a[0] == '<');
    }
  }

  lemma BalancedConcat(a: string, b: string)
    requires TagsBalanced(a) && TagsBalanced(b)
    ensures TagsBalanced(a + b)
  {
    DepthConcat(a, b, false);
  }

  /** Text without `<` moves the depth nowhere. */
  lemma {:induction false} NoLtBalanced(s: string)
    requires '<' !in s
    ensures TagsBalanced(s)
    decreases |s|
  {
    if s != [] {
      NoLtBalanced(s[1..]);
    }
  }

  lemma BalancedAround(open: string, x: string, close: string)
    requires OpensOne(open) && TagsBalanced(x) && ClosesOne(close)
    ensures TagsBalanced(open + x + close)
  {
    DepthConcat(open, x, false);
    DepthConcat(open + x, close, false);
  }

  /** `<inner>` is a start tag when `inner` does not begin with `/`. */
  lemma StartTagOpens(inner: string)
    requires inner != [] && inner[0] != '/' && '<' !in inner
    ensures OpensOne(XmlTag(inner))
  {
    var t := XmlTag(inner);
    var rest := inner[1..] + ">";
    assert t == ['<'] + ([inner[0]] + rest);
    assert '<' !in rest;
    NoLtBalanced(rest);
    DepthConcat(['<'], [inner[0]] + rest, false);
    DepthConcat([inner[0]], rest, true);
  }

  /** `</inner>` is an end tag. */
  lemma EndTagCloses(inner: string)
    requires '<' !in inner
    ensures ClosesOne(XmlTag("/" + inner))
  {
    var t := XmlTag("/" + inner);
    var rest := inner + ">";
    assert t == ['<'] + (['/'] + rest);
    assert '<' !in rest;
    NoLtBalanced(rest);
    DepthConcat(['<'], ['/'] + rest, false);
    DepthConcat(['/'], rest, true);
  }

  /** The element and style names of the case table hold no `<`. */
  lemma TagPartsHaveNoLt()
    ensures '<' !in "text:span" && '<' !in "text:h" && '<' !in "text:p"
    ensures '<' !in "text:list" && '<' !in "text:list-item"
    ensures '<' !in "Standard" && '<' !in "Bold" && '<' !in "Italic" && '<' !in "Numbering"
    ensures '<' !in "Quotation" && '<' !in "Monospace"
  {
  }

  lemma EndTagNames()
    ensures "/text:span" == "/" + "text:span" && "/text:h" == "/" + "text:h" && "/text:p" == "/" + "text:p"
    ensures "/text:list" == "/" + "text:list" && "/text:list-item" == "/" + "text:list-item"
  {
  }

  /** A start tag built by `StyledTag`, an end tag built by `XmlTag`. */
  lemma StyledBalanced(element: string, style: string, x: string, close: string)
    requires element != [] && element[0] != '/' && '<' !in element && '<' !in style
    requires '<' !in close && TagsBalanced(x)
    ensures TagsBalanced(StyledTag(element, style) + x + XmlTag("/" + close))
  {
    var inner := element + " text:style-name=\"" + style + "\"";
    assert inner[0] == element[0];
    StartTagOpens(inner);
    EndTagCloses(close);
    BalancedAround(StyledTag(element, style), x, XmlTag("/" + close));
  }

  lemma PlainBalanced(open: string, x: string, close: string)
    requires open != [] && open[0] != '/' && '<' !in open
    requires '<' !in close && TagsBalanced(x)
    ensures TagsBalanced(XmlTag(open) + x + XmlTag("/" + close))
  {
    StartTagOpens(open);
    EndTagCloses(close);
    BalancedAround(XmlTag(open), x, XmlTag("/" + close));
  }

  lemma HeadingBalanced(k: char, x: string)
    requires k != '<' && TagsBalanced(x)
    ensures TagsBalanced(HeadingTag(k) + x + XmlTag("/" + "text:h"))
  {
    var inner := "text:h text:style-name=\"Heading_" + [k] + "\" text:outline-level=\"" + [k] + "\"";
    assert inner[0] == 't';
    StartTagOpens(inner);
    EndTagCloses("text:h");
    BalancedAround(HeadingTag(k), x, XmlTag("/" + "text:h"));
  }

  lemma ListItemBalanced(x: string)
    requires TagsBalanced(x)
    ensures TagsBalanced(ListItem(x))
  {
    TagPartsHaveNoLt();
    EndTagNames();
    PlainBalanced("text:p", x, "text:p");
    PlainBalanced("text:list-item", XmlTag("text:p") + x + XmlTag("/text:p"), "text:list-item");
    assert ListItem(x) == XmlTag("text:list-item") + (XmlTag("text:p") + x + XmlTag("/text:p")) + XmlTag("/text:list-item");
  }

  /** The walker's output for any node balances its start and end tags:
      every case wraps balanced content in one start tag and one end tag. */
  lemma {:induction false} OdtNodeBalanced(n: Node)
    ensures TagsBalanced(OdtNode(n))
    decreases n, 1
  {
    TagPartsHaveNoLt();
    EndTagNames();
    match n
    case Text(s) =>
      if s != "" {
        EscapeXmlSafe(s);
        NoLtBalanced(EscapeXml(s));
        PlainBalanced("text:span", EscapeXml(s), "text:span");
      } else {
        NoLtBalanced("");
      }
    case Comment(_) =>
      NoLtBalanced("");
    case Element(tag, cs) =>
      var x := OdtNodes(cs);
      match KindOf(tag)
      case Code =>
        EscapeXmlSafe(TextContents(cs));
        NoLtBalanced(EscapeXml(TextContents(cs)));
        StyledBalanced("text:span", "Monospace", EscapeXml(TextContents(cs)), "text:span");
      case Pre =>
        EscapeXmlSafe(TextContents(cs));
        NoLtBalanced(EscapeXml(TextContents(cs)));
        StyledBalanced("text:p", "Monospace", EscapeXml(TextContents(cs)), "text:p");
      case Ul =>
        OdtListItemsBalanced(cs);
        PlainBalanced("text:list", OdtListItems(cs), "text:list");
      case Ol =>
        OdtListItemsBalanced(cs);
        StyledBalanced("text:list", "Numbering", OdtListItems(cs), "text:list");
      case H1 =>
        OdtNodesBalanced(cs);
        HeadingBalanced('1', x);
      case H2 =>
        OdtNodesBalanced(cs);
        HeadingBalanced('2', x);
      case H3 =>
        OdtNodesBalanced(cs);
        HeadingBalanced('3', x);
      case P =>
        OdtNodesBalanced(cs);
        StyledBalanced("text:p", "Standard", x, "text:p");
      case Strong =>
        OdtNodesBalanced(cs);
        StyledBalanced("text:span", "Bold", x, "text:span");
      case Em =>
        OdtNodesBalanced(cs);
        StyledBalanced("text:span", "Italic", x, "text:span");
      case Blockquote =>
        OdtNodesBalanced(cs);
        StyledBalanced("text:p", "Quotation", x, "text:p");
      case Li =>
        OdtNodesBalanced(cs);
      case Unlisted =>
        OdtNodesBalanced(cs);
  }

  lemma {:induction false} OdtNodesBalanced(ns: seq<Node>)
    ensures TagsBalanced(OdtNodes(ns))
    decreases ns, 0
  {
    if ns == [] {
      NoLtBalanced("");
    } else {
      OdtNodeBalanced(ns[0]);
      OdtNodesBalanced(ns[1..]);
      BalancedConcat(OdtNode(ns[0]), OdtNodes(ns[1..]));
    }
  }

  lemma {:induction false} OdtListItemsBalanced(ns: seq<Node>)
    ensures TagsBalanced(OdtListItems(ns))
    decreases ns, 0
  {
    if ns == [] {
      NoLtBalanced("");
    } else {
      var head := if ns[0].Element? then ListItem(OdtNode(ns[0])) else "";
      if ns[0].Element? {
        OdtNodeBalanced(ns[0]);
        ListItemBalanced(OdtNode(ns[0]));
      } else {
        NoLtBalanced("");
      }
      OdtListItemsBalanced(ns[1..]);
      BalancedConcat(head, OdtListItems(ns[1..]));
    }
  }

  // ---------------------------------------------------------------------
  // The case table

  lemma SpanTags()
    ensures XmlTag("text:span") == "<text:span>" && XmlTag("/text:span") == "</text:span>"
  {
  }

  /** A text node becomes a span of its escaped text; an empty one, nothing. */
  lemma OdtTextLeaf(s: string)
    ensures s == "" ==> OdtNode(Text(s)) == ""
    ensures s != "" ==> OdtNode(Text(s)) == "<text:span>" + EscapeXml(s) + "</text:span>"
  {
    SpanTags();
  }

  /** `code` and `pre` show the escaped textContent of their whole subtree:
      nested markup is ignored, as if the element held one text node. */
  lemma OdtCodeIgnoresMarkup(tag: string, cs: seq<Node>)
    requires KindOf(tag) == Code || KindOf(tag) == Pre
    ensures OdtNode(Element(tag, cs)) == OdtNode(Element(tag, [Text(TextContents(cs))]))
  {
    var one := [Text(TextContents(cs))];
    assert one[1..] == [];
    assert TextContents(one) == TextContents(cs);
  }

  /** Inline `code` is a `Monospace` span of its escaped textContent. */
  lemma OdtCodeSpan(tag: string, cs: seq<Node>)
    requires KindOf(tag) == Code
    ensures OdtNode(Element(tag, cs)) == StyledTag("text:span", "Monospace") + EscapeXml(TextContents(cs)) + XmlTag("/text:span")
  {
  }

  /** A `pre` block is a `Monospace` paragraph of its escaped textContent. */
  lemma OdtPreBlock(tag: string, cs: seq<Node>)
    requires KindOf(tag) == Pre
    ensures OdtNode(Element(tag, cs)) == StyledTag("text:p", "Monospace") + EscapeXml(TextContents(cs)) + XmlTag("/text:p")
  {
  }

  /** The entries of a list with element children `es`, in child order. */
  function ItemsOf(es: seq<Node>): (items: seq<string>)
    ensures |items| == |es|
  {
    if es == [] then [] else [ListItem(OdtNode(es[0]))] + ItemsOf(es[1..])
  }

  lemma ItemsOfCons(e: Node, es: seq<Node>)
    ensures ItemsOf([e] + es) == [ListItem(OdtNode(e))] + ItemsOf(es)
  {
    assert ([e] + es)[0] == e && ([e] + es)[1..] == es;
  }

  /** Entry i is the entry of element child i. */
  lemma {:induction false} ItemsOfAt(es: seq<Node>, i: nat)
    requires i < |es|
    ensures ItemsOf(es)[i] == ListItem(OdtNode(es[i]))
  {
    if i > 0 {
      ItemsOfAt(es[1..], i - 1);
    }
  }

  lemma ConcatCons(x: string, xs: seq<string>)
    ensures Concat([x] + xs) == x + Concat(xs)
  {
    assert ([x] + xs)[1..] == xs;
  }

  lemma {:induction false} OdtListItemsByElements(ns: seq<Node>)
    ensures OdtListItems(ns) == Concat(ItemsOf(ElementChildren(ns)))
  {
    if ns != [] {
      OdtListItemsByElements(ns[1..]);
      var es := ElementChildren(ns[1..]);
      if ns[0].Element? {
        ItemsOfCons(ns[0], es);
        ConcatCons(ListItem(OdtNode(ns[0])), ItemsOf(es));
      }
    }
  }

  lemma ItemOpening()
    ensures XmlTag("text:list-item") + XmlTag("text:p") == "<text:list-item><text:p>"
  {
  }

  lemma ItemClosing()
    ensures XmlTag("/text:p") + XmlTag("/text:list-item") == "</text:p></text:list-item>"
  {
  }

  lemma Regroup(a: string, b: string, x: string, c: string, d: string)
    ensures a + b + x + c + d == (a + b) + x + (c + d)
  {
  }

  lemma ListItemText(x: string)
    ensures ListItem(x) == "<text:list-item><text:p>" + x + "</text:p></text:list-item>"
  {
    ItemOpening();
    ItemClosing();
    Regroup(XmlTag("text:list-item"), XmlTag("text:p"), x, XmlTag("/text:p"), XmlTag("/text:list-item"));
  }

  /** Entry i of a list is the i-th element child's output in one paragraph. */
  lemma ItemsOfShape(es: seq<Node>)
    ensures forall i :: 0 <= i < |es| ==>
      ItemsOf(es)[i] == "<text:list-item><text:p>" + OdtNode(es[i]) + "</text:p></text:list-item>"
  {
    forall i | 0 <= i < |es|
      ensures ItemsOf(es)[i] == "<text:list-item><text:p>" + OdtNode(es[i]) + "</text:p></text:list-item>"
    {
      ItemsOfAt(es, i);
      ListItemText(OdtNode(es[i]));
    }
  }

  /** A `ul` or `ol` with k element children is one `text:list` holding
      exactly k entries, the i-th the walk of the i-th element child; the
      other child nodes are ignored, and only `ol` names the `Numbering`
      style. */
  lemma OdtListShape(tag: string, cs: seq<Node>)
    requires KindOf(tag) == Ul || KindOf(tag) == Ol
    ensures var open := if KindOf(tag) == Ol then StyledTag("text:list", "Numbering") else XmlTag("text:list");
      OdtNode(Element(tag, cs)) == open + Concat(ItemsOf(ElementChildren(cs))) + XmlTag("/text:list")
    ensures forall i :: 0 <= i < |ElementChildren(cs)| ==>
      ItemsOf(ElementChildren(cs))[i] == "<text:list-item><text:p>" + OdtNode(ElementChildren(cs)[i]) + "</text:p></text:list-item>"
  {
    var items := OdtListItems(cs);
    OdtListItemsByElements(cs);
    ItemsOfShape(ElementChildren(cs));
    if KindOf(tag) == Ol {
      assert OdtNode(Element(tag, cs)) == StyledTag("text:list", "Numbering") + items + XmlTag("/text:list");
    } else {
      assert OdtNode(Element(tag, cs)) == XmlTag("text:list") + items + XmlTag("/text:list");
    }
  }

  /** `li`, and every tag the case table does not name, emits its
      children's output with no element of its own. */
  lemma OdtPassThrough(tag: string, cs: seq<Node>)
    requires KindOf(tag) == Li || KindOf(tag) == Unlisted
    ensures OdtNode(Element(tag, cs)) == OdtNodes(cs)
  {
  }

  /** No `ul` or `ol` anywhere in the subtree. */
  predicate NoLists(n: Node)
  {
    match n
    case Element(tag, cs) =>
      KindOf(tag) != Ul && KindOf(tag) != Ol && forall i :: 0 <= i < |cs| ==> NoLists(cs[i])
    case _ => true
  }

  /** Outside lists, the ODT output shows exactly the node's textContent:
      only a list drops the text between its items. */
  lemma {:induction false} OdtTextIsTextContent(n: Node)
    requires NoLists(n)
    ensures OdtText(n) == TextContent(n)
    decreases n, 1
  {
    match n
    case Element(tag, cs) =>
      OdtTextsAreTextContents(cs);
    case _ =>
  }

  lemma {:induction false} OdtTextsAreTextContents(ns: seq<Node>)
    requires forall i :: 0 <= i < |ns| ==> NoLists(ns[i])
    ensures OdtTexts(ns) == TextContents(ns)
    decreases ns, 0
  {
    if ns != [] {
      OdtTextIsTextContent(ns[0]);
      OdtTextsAreTextContents(ns[1..]);
    }
  }
}
