/** The parsed HTML document both exporters walk: what `DOMParser` returns
    for the HTML of the Markdown converter, reduced to what the walkers read. */
module Dom {
  import opened Strings

  /** A DOM node. `Text` is a text node and `data` its textContent;
      `Element` carries its `tagName` (as the parser reports it, usually in
      upper case) and its `childNodes` in document order; `Comment` stands for
      every other kind of node, which both walkers turn into nothing. */
  datatype Node =
    | Text(data: string)
    | Element(tagName: string, childNodes: seq<Node>)
    | Comment(data: string)

  /** `textContent` of a text node or an element: the text of all descendant
      text nodes, in document order. Comments inside an element contribute
      nothing (the walkers never ask a comment node for its own text). */
  function TextContent(n: Node): string
  {
    match n
    case Text(s) => s
    case Element(_, cs) => TextContents(cs)
    case Comment(_) => ""
  }

  function TextContents(ns: seq<Node>): string
  {
    if ns == [] then "" else TextContent(ns[0]) + TextContents(ns[1..])
  }

  /** `node.children`: the element children, in order. */
  function ElementChildren(ns: seq<Node>): (es: seq<Node>)
    ensures |es| <= |ns|
    ensures forall i :: 0 <= i < |es| ==> es[i].Element? && es[i] in ns
    ensures forall i :: 0 <= i < |ns| && ns[i].Element? ==> ns[i] in es
  {
    if ns == [] then []
    else if ns[0].Element? then [ns[0]] + ElementChildren(ns[1..])
    else ElementChildren(ns[1..])
  }

  /** One child node: an element is kept, any other node dropped. */
  lemma ElementChildrenOne(n: Node)
    ensures ElementChildren([n]) == if n.Element? then [n] else []
  {
    assert [n][1..] == [];
  }

  /** `node.children` keeps the elements of each part of the child nodes in
      order: with `ElementChildrenOne` this fixes the result node by node. */
  lemma {:induction false} ElementChildrenConcat(a: seq<Node>, b: seq<Node>)
    ensures ElementChildren(a + b) == ElementChildren(a) + ElementChildren(b)
  {
    if a == [] {
      assert a + b == b;
    } else {
      assert (a + b)[0] == a[0];
      assert (a + b)[1..] == a[1..] + b;
      ElementChildrenConcat(a[1..], b);
    }
  }

  /** The one character of `c.toLowerCase()` where that is an ASCII letter:
      the ASCII capitals and KELVIN SIGN (U+212A), which lower-cases to `k`.
      Every other character is left as it is; no other character
      lower-cases to something that can complete one of the switch's tag
      names, so this does not change which tag name matches. */
  function LowerTagChar(c: char): char
  {
    if c == '\U{212A}' then 'k' else LowerAscii(c)
  }

  /** `tagName.toLowerCase()`, as far as comparing it with the ASCII tag
      names of the walkers' switch statements goes. */
  function LowerTag(tag: string): (r: string)
    ensures |r| == |tag|
    ensures forall i :: 0 <= i < |tag| ==> r[i] == LowerTagChar(tag[i])
  {
    if tag == [] then [] else [LowerTagChar(tag[0])] + LowerTag(tag[1..])
  }

  /** The cases of the walkers' `switch (node.tagName.toLowerCase())`:
      `strong` and `b` share a case, as do `em` and `i`. */
  datatype TagKind =
    | H1 | H2 | H3 | P | Strong | Em | Ul | Ol | Li | Blockquote | Code | Pre
    | Unlisted

  /** The case a tag name selects. */
  function KindOf(tagName: string): (k: TagKind)
    ensures var name := LowerTag(tagName);
      && (k == H1 <==> name == "h1")
      && (k == H2 <==> name == "h2")
      && (k == H3 <==> name == "h3")
      && (k == P <==> name == "p")
      && (k == Strong <==> name == "strong" || name == "b")
      && (k == Em <==> name == "em" || name == "i")
      && (k == Ul <==> name == "ul")
      && (k == Ol <==> name == "ol")
      && (k == Li <==> name == "li")
      && (k == Blockquote <==> name == "blockquote")
      && (k == Code <==> name == "code")
      && (k == Pre <==> name == "pre")
  {
    var name := LowerTag(tagName);
    if name == "h1" then H1
    else if name == "h2" then H2
    else if name == "h3" then H3
    else if name == "p" then P
    else if name == "strong" || name == "b" then Strong
    else if name == "em" || name == "i" then Em
    else if name == "ul" then Ul
    else if name == "ol" then Ol
    else if name == "li" then Li
    else if name == "blockquote" then Blockquote
    else if name == "code" then Code
    else if name == "pre" then Pre
    else Unlisted
  }
}
