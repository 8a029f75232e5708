/** The RTF exporter: `convertToRTF` and its `processNode`
    (script.js:552-607), from the parsed HTML tree to the RTF document. */
module Rtf {
  import opened Strings
  import opened Dom

  // ---------------------------------------------------------------------
  // Escaping text

  /** `\`, `{` and `}` are the characters RTF reserves in text. */
  predicate IsRtfSpecial(c: char)
  {
    c == '\\' || c == '{' || c == '}'
  }

  /** `s.replace(/[\\{}]/g, '\\$&')`: one pass over `s` putting a backslash
      before each reserved character. */
  function BackslashSpecials(s: string): string
  {
    if s == [] then []
    else (if IsRtfSpecial(s[0]) then ['\\', s[0]] else [s[0]]) + BackslashSpecials(s[1..])
  }

  /** The escaping of a text node (script.js:568-570): reserved characters
      first, then every line feed becomes `\par` and a line feed. */
  function RtfEscapeText(s: string): string
  {
    ReplaceAll(BackslashSpecials(s), "\n", "\\par\n")
  }

  /** What one character of a text node becomes. */
  function RtfChar(c: char): string
  {
    if IsRtfSpecial(c) then ['\\', c] else if c == '\n' then "\\par\n" else [c]
  }

  /** The escaping, character by character. */
  function RtfChars(s: string): string
  {
    if s == [] then [] else RtfChar(s[0]) + RtfChars(s[1..])
  }

  /** Reading escaped text back: `\\`, `\{` and `\}` stand for the character
      after the backslash and `\par` with its line feed for a line feed. */
  function RtfUnescapeText(t: string): string
    decreases |t|
  {
    if t == [] then []
    else if |t| >= 2 && t[0] == '\\' && IsRtfSpecial(t[1]) then [t[1]] + RtfUnescapeText(t[2..])
    else if "\\par\n" <= t then "\n" + RtfUnescapeText(t[5..])
    else [t[0]] + RtfUnescapeText(t[1..])
  }

  /** The two replacements are a character-by-character substitution: the
      first one introduces no line feed, so the second rewrites exactly the
      line feeds of the text. */
  lemma {:induction false} RtfEscapePerChar(s: string)
    ensures RtfEscapeText(s) == RtfChars(s)
  {
    if s != [] {
      var c := s[0];
      var head := if IsRtfSpecial(c) then ['\\', c] else [c];
      assert BackslashSpecials(s) == head + BackslashSpecials(s[1..]);
      ReplaceCharConcat(head, BackslashSpecials(s[1..]), '\n', "\\par\n");
      RtfEscapePerChar(s[1..]);
      if c == '\n' {
        ReplaceCharSelf('\n', "\\par\n");
      } else {
        ReplaceCharAbsent(head, '\n', "\\par\n");
      }
    }
  }

  lemma {:induction false} RtfCharsRoundTrip(s: string)
    ensures RtfUnescapeText(RtfChars(s)) == s
  {
    if s != [] {
      var c := s[0];
      var rest := RtfChars(s[1..]);
      var t := RtfChar(c) + rest;
      RtfCharsRoundTrip(s[1..]);
      if IsRtfSpecial(c) {
        assert t[0] == '\\' && t[1] == c && t[2..] == rest;
      } else if c == '\n' {
        assert "\\par\n" <= t && t[5..] == rest;
        assert !(|t| >= 2 && t[0] == '\\' && IsRtfSpecial(t[1])) by {
          assert t[1] == 'p';
        }
      } else {
        assert t[0] == c && t[1..] == rest;
      }
    }
  }

  /** Reading the escaped text back gives the text node's textContent. */
  lemma RtfRoundTrip(s: string)
    ensures RtfUnescapeText(RtfEscapeText(s)) == s
  {
    RtfEscapePerChar(s);
    RtfCharsRoundTrip(s);
  }

  // ---------------------------------------------------------------------
  // Group structure

  /** The group delimiters an RTF reader sees in `s`: the braces not taken
      as the character of a control symbol (`\{`, `\}`, `\\`, or the first
      character of a control word). `esc` says a backslash was just read. */
  function Braces(s: string, esc: bool): string
    decreases |s|
  {
    if s == [] then []
    else if esc then Braces(s[1..], false)
    else if s[0] == '\\' then Braces(s[1..], true)
    else if s[0] == '{' || s[0] == '}' then [s[0]] + Braces(s[1..], false)
    else Braces(s[1..], false)
  }

  /** Whether `s`, read from state `esc`, ends just after an unfinished
      backslash. */
  function EndsEsc(s: string, esc: bool): bool
    decreases |s|
  {
    if s == [] then esc else EndsEsc(s[1..], !esc && s[0] == '\\')
  }

  /** A fragment that opens or closes no group and leaves no backslash
      pending: whatever follows it is read as if it came first. */
  predicate Neutral(s: string)
  {
    Braces(s, false) == [] && !EndsEsc(s, false)
  }

  lemma {:induction false} BracesConcat(a: string, b: string, esc: bool)
    ensures Braces(a + b, esc) == Braces(a, esc) + Braces(b, EndsEsc(a, esc))
    ensures EndsEsc(a + b, esc) == EndsEsc(b, EndsEsc(a, esc))
    decreases |a|
  {
    if a == [] {
      assert a + b == b;
    } else {
      assert (a + b)[1..] == a[1..] + b;
      BracesConcat(a[1..], b, if esc then false else a[0] == '\\');
    }
  }

  lemma NeutralConcat(a: string, b: string)
    requires Neutral(a) && Neutral(b)
    ensures Neutral(a + b)
  {
    BracesConcat(a, b, false);
  }

  /** A fragment wrapped in neutral markup adds nothing to the nesting. */
  lemma NeutralAround(open: string, x: string, close: string)
    requires Neutral(open) && Neutral(x) && Neutral(close)
    ensures Neutral(open + x + close)
  {
    NeutralConcat(open, x);
    NeutralConcat(open + x, close);
  }

  /** Characters that are neither reserved nor able to start anything. */
  predicate Plain(w: string)
  {
    forall i :: 0 <= i < |w| ==> !IsRtfSpecial(w[i])
  }

  lemma {:induction false} PlainNeutral(w: string, esc: bool)
    requires Plain(w) && (esc ==> w != [])
    ensures Braces(w, esc) == [] && !EndsEsc(w, esc)
    decreases |w|
  {
    if w != [] {
      PlainNeutral(w[1..], false);
    }
  }

  /** A control word or control symbol `\w` followed by plain text. */
  lemma ControlNeutral(w: string)
    requires w != [] && Plain(w)
    ensures Neutral("\\" + w)
  {
    assert ("\\" + w)[1..] == w;
    PlainNeutral(w, true);
  }

  /** `{x}`: one RTF group. */
  function Group(x: string): string
  {
    "{" + x + "}"
  }

  lemma GroupBraces(x: string)
    requires !EndsEsc(x, false)
    ensures Braces(Group(x), false) == "{" + Braces(x, false) + "}" && !EndsEsc(Group(x), false)
  {
    BracesConcat("{", x, false);
    BracesConcat("{" + x, "}", false);
    assert Braces("{", false) == "{" && !EndsEsc("{", false);
    assert Braces("}", false) == "}" && !EndsEsc("}", false);
  }

  /** Every text node's RTF is neutral: the text can neither open nor close
      a group, nor swallow the character after it as a control symbol. */
  lemma {:induction false} RtfCharsNeutral(s: string)
    ensures Neutral(RtfChars(s))
  {
    if s == [] {
    } else {
      var c := s[0];
      if IsRtfSpecial(c) {
        var t := RtfChar(c);
        assert t == ['\\', c] && t[1..] == [c] && [c][1..] == [];
        assert Braces(t, false) == Braces([c], true) == Braces([], false);
        assert EndsEsc(t, false) == EndsEsc([c], true) == EndsEsc([], false);
      } else if c == '\n' {
        ControlNeutral("par\n");
      } else {
        PlainNeutral([c], false);
      }
      RtfCharsNeutral(s[1..]);
      NeutralConcat(RtfChar(c), RtfChars(s[1..]));
    }
  }

  lemma RtfEscapeNeutral(s: string)
    ensures Neutral(RtfEscapeText(s))
  {
    RtfEscapePerChar(s);
    RtfCharsNeutral(s);
  }

  /** `\w1\w2...`: a run of control words, each with what follows it up to
      the next backslash. */
  function Controls(ws: seq<string>): string
  {
    if ws == [] then "" else "\\" + ws[0] + Controls(ws[1..])
  }

  predicate Words(ws: seq<string>)
  {
    forall i :: 0 <= i < |ws| ==> ws[i] != [] && Plain(ws[i])
  }

  lemma {:induction false} ControlsNeutral(ws: seq<string>)
    requires Words(ws)
    ensures Neutral(Controls(ws))
  {
    if ws != [] {
      ControlNeutral(ws[0]);
      ControlsNeutral(ws[1..]);
      NeutralConcat("\\" + ws[0], Controls(ws[1..]));
      assert "\\" + ws[0] + Controls(ws[1..]) == ("\\" + ws[0]) + Controls(ws[1..]);
    }
  }

  // ---------------------------------------------------------------------
  // The walk

  /** The paragraph settings every block starts with:
      `\pard\sa200\sl276\slmult1`. */
  const ParagraphStart: string := Controls(["pard", "sa200", "sl276", "slmult1"])

  /** The RTF written before an element's content, by case
      (script.js:577-596): for `h1`, say, `\pard\sa200\sl276\slmult1\f0\fs48\b `. */
  function RtfOpen(k: TagKind): string
  {
    match k
    case H1 => ParagraphStart + Controls(["f0", "fs48", "b "])
    case H2 => ParagraphStart + Controls(["f0", "fs36", "b "])
    case H3 => ParagraphStart + Controls(["f0", "fs32", "b "])
    case P => ParagraphStart + " "
    case Pre => ParagraphStart + Controls(["f1", "fs20 "])
    case Code => Controls(["f1 "])
    case Strong => Controls(["b "])
    case Em => Controls(["i "])
    case Blockquote => ParagraphStart + Controls(["li720 "])
    case _ => ""
  }

  /** The RTF written after an element's content, by case: for a heading,
      `\b0\fs24\par` and a line feed. */
  function RtfClose(k: TagKind): string
  {
    match k
    case H1 | H2 | H3 => Controls(["b0", "fs24", "par\n"])
    case P | Blockquote => Controls(["par\n"])
    case Pre => Controls(["f0", "fs24", "par\n"])
    case Code => Controls(["f0 "])
    case Strong => Controls(["b0 "])
    case Em => Controls(["i0 "])
    case _ => ""
  }

  /** `processNode(node)` of `convertToRTF`. `ul`, `ol` and `li` have no
      case of their own: like every tag the switch does not name, they emit
      their content and nothing else. */
  function RtfNode(n: Node): string
  {
    match n
    case Text(s) => RtfEscapeText(s)
    case Comment(_) => ""
    case Element(tag, cs) => RtfOpen(KindOf(tag)) + RtfNodes(cs) + RtfClose(KindOf(tag))
  }

  function RtfNodes(ns: seq<Node>): string
  {
    if ns == [] then "" else RtfNode(ns[0]) + RtfNodes(ns[1..])
  }

  /** `ul`, `ol`, `li` and every tag without a case emit exactly their
      children's RTF: list structure is not carried into the RTF. */
  lemma RtfPassThrough(tag: string, cs: seq<Node>)
    requires KindOf(tag) in {Ul, Ol, Li, Unlisted}
    ensures RtfNode(Element(tag, cs)) == RtfNodes(cs)
  {
  }

  /** A heading is one bold paragraph at 24, 18 or 16 points (`\fs` counts
      half-points) that restores the 12-point body size at its end. */
  lemma RtfHeadingShape(tag: string, cs: seq<Node>)
    requires KindOf(tag) in {H1, H2, H3}
    ensures var size := if KindOf(tag) == H1 then "fs48" else if KindOf(tag) == H2 then "fs36" else "fs32";
      RtfNode(Element(tag, cs)) == ParagraphStart + Controls(["f0", size, "b "]) + RtfNodes(cs) + Controls(["b0", "fs24", "par\n"])
  {
  }

  lemma ParagraphStartNeutral()
    ensures Neutral(ParagraphStart)
  {
    ControlsNeutral(["pard", "sa200", "sl276", "slmult1"]);
  }

  lemma AfterParagraphStart(ws: seq<string>)
    requires Words(ws)
    ensures Neutral(ParagraphStart + Controls(ws))
  {
    ParagraphStartNeutral();
    ControlsNeutral(ws);
    NeutralConcat(ParagraphStart, Controls(ws));
  }

  lemma HeadingOpenNeutral(k: TagKind)
    requires k == H1 || k == H2 || k == H3
    ensures Neutral(RtfOpen(k))
  {
    match k
    case H1 => AfterParagraphStart(["f0", "fs48", "b "]);
    case H2 => AfterParagraphStart(["f0", "fs36", "b "]);
    case H3 => AfterParagraphStart(["f0", "fs32", "b "]);
  }

  lemma BlockOpenNeutral(k: TagKind)
    requires k == P || k == Pre || k == Blockquote
    ensures Neutral(RtfOpen(k))
  {
    match k
    case P =>
      ParagraphStartNeutral();
      PlainNeutral(" ", false);
      NeutralConcat(ParagraphStart, " ");
    case Pre => AfterParagraphStart(["f1", "fs20 "]);
    case Blockquote => AfterParagraphStart(["li720 "]);
  }

  lemma InlineOpenNeutral(k: TagKind)
    requires k == Code || k == Strong || k == Em
    ensures Neutral(RtfOpen(k))
  {
    match k
    case Code => ControlsNeutral(["f1 "]);
    case Strong => ControlsNeutral(["b "]);
    case Em => ControlsNeutral(["i "]);
  }

  lemma BlockCloseNeutral(k: TagKind)
    requires k in {H1, H2, H3, P, Pre, Blockquote}
    ensures Neutral(RtfClose(k))
  {
    match k
    case H1 | H2 | H3 => ControlsNeutral(["b0", "fs24", "par\n"]);
    case P | Blockquote => ControlsNeutral(["par\n"]);
    case Pre => ControlsNeutral(["f0", "fs24", "par\n"]);
  }

  lemma InlineCloseNeutral(k: TagKind)
    requires k == Code || k == Strong || k == Em
    ensures Neutral(RtfClose(k))
  {
    match k
    case Code => ControlsNeutral(["f0 "]);
    case Strong => ControlsNeutral(["b0 "]);
    case Em => ControlsNeutral(["i0 "]);
  }

  /** The markup of every case opens and closes no group. */
  lemma MarkupNeutral(k: TagKind)
    ensures Neutral(RtfOpen(k)) && Neutral(RtfClose(k))
  {
    match k
    case H1 | H2 | H3 =>
      HeadingOpenNeutral(k);
      BlockCloseNeutral(k);
    case P | Pre | Blockquote =>
      BlockOpenNeutral(k);
      BlockCloseNeutral(k);
    case Code | Strong | Em =>
      InlineOpenNeutral(k);
      InlineCloseNeutral(k);
    case _ =>
  }

  /** The output of every node is neutral: only the document template
      opens and closes groups. */
  lemma {:induction false} RtfNodeNeutral(n: Node)
    ensures Neutral(RtfNode(n))
    decreases n, 1
  {
    match n
    case Text(s) =>
      RtfEscapeNeutral(s);
    case Comment(_) =>
    case Element(tag, cs) =>
      RtfNodesNeutral(cs);
      MarkupNeutral(KindOf(tag));
      NeutralAround(RtfOpen(KindOf(tag)), RtfNodes(cs), RtfClose(KindOf(tag)));
  }

  lemma {:induction false} RtfNodesNeutral(ns: seq<Node>)
    ensures Neutral(RtfNodes(ns))
    decreases ns, 0
  {
    if ns != [] {
      RtfNodeNeutral(ns[0]);
      RtfNodesNeutral(ns[1..]);
      NeutralConcat(RtfNode(ns[0]), RtfNodes(ns[1..]));
    }
  }

  // ---------------------------------------------------------------------
  // The document

  /** The RTF header (script.js:556-560), written group by group: the
      outermost group (closed by the `}` that ends the document) opens with
      the RTF version, character set and default font, then come the font
      table (Helvetica as `\f0`, Courier New as `\f1`), the colour table and
      the view and paragraph defaults. Character for character it is the
      four lines of the source. */
  const Prolog: string := Controls(["rtf1", "ansi", "deff0", "nouicompat\n"])
  const Helvetica: string := Controls(["f0", "fswiss", "fcharset0 Helvetica;"])
  const CourierNew: string := Controls(["f1", "fmodern", "fcharset0 Courier New;"])
  const FontTable: string := Group(Controls(["fonttbl"]) + Group(Helvetica) + Group(CourierNew)) + "\n"
  const Colors: string := Controls(["colortbl;", "red0", "green0", "blue0;", "red100", "green100", "blue100;"])
  const ColorTable: string := Group(Colors) + "\n"
  const ViewSetup: string := Controls(["viewkind4", "uc1"]) + ParagraphStart + Controls(["f0", "fs24\n"])
  const RtfHeader: string := "{" + Prolog + FontTable + ColorTable + ViewSetup

  /** Control words spelled out, one to four at a time. */
  lemma ControlsOne(a: string)
    ensures Controls([a]) == "\\" + a
  {
    assert [a][1..] == [];
  }

  lemma ControlsTwo(a: string, b: string)
    ensures Controls([a, b]) == "\\" + a + "\\" + b
  {
    assert [a, b][1..] == [b];
    ControlsOne(b);
  }

  lemma ControlsThree(a: string, b: string, c: string)
    ensures Controls([a, b, c]) == "\\" + a + "\\" + b + "\\" + c
  {
    assert [a, b, c][1..] == [b, c];
    ControlsTwo(b, c);
  }

  lemma ControlsFour(a: string, b: string, c: string, d: string)
    ensures Controls([a, b, c, d]) == "\\" + a + "\\" + b + "\\" + c + "\\" + d
  {
    assert [a, b, c, d][1..] == [b, c, d];
    ControlsThree(b, c, d);
  }

  lemma {:induction false} ControlsAppend(a: seq<string>, b: seq<string>)
    ensures Controls(a + b) == Controls(a) + Controls(b)
  {
    if a == [] {
      assert a + b == b;
    } else {
      assert (a + b)[1..] == a[1..] + b;
      ControlsAppend(a[1..], b);
    }
  }

  lemma PrologText()
    ensures Prolog == "\\rtf1\\ansi\\deff0\\nouicompat\n"
  {
    ControlsFour("rtf1", "ansi", "deff0", "nouicompat\n");
  }

  lemma HelveticaText()
    ensures Helvetica == "\\f0\\fswiss" + "\\fcharset0 Helvetica;"
  {
    ControlsThree("f0", "fswiss", "fcharset0 Helvetica;");
  }

  lemma CourierNewText()
    ensures CourierNew == "\\f1\\fmodern" + "\\fcharset0 Courier New;"
  {
    ControlsThree("f1", "fmodern", "fcharset0 Courier New;");
  }

  lemma HelveticaGroupText()
    ensures Group(Helvetica) == "{\\f0\\fswiss" + "\\fcharset0 Helvetica;}"
  {
    HelveticaText();
  }

  lemma CourierNewGroupText()
    ensures Group(CourierNew) == "{\\f1\\fmodern" + "\\fcharset0 Courier New;}"
  {
    CourierNewText();
  }

  lemma FontTableName()
    ensures Controls(["fonttbl"]) == "\\fonttbl"
  {
    ControlsOne("fonttbl");
  }

  /** The font table is the second line of the header. */
  lemma FontTableText()
    ensures FontTable == "{\\fonttbl"
      + "{\\f0\\fswiss" + "\\fcharset0 Helvetica;}" + "{\\f1\\fmodern" + "\\fcharset0 Courier New;}" + "}\n"
  {
    HelveticaGroupText();
    CourierNewGroupText();
    FontTableName();
    FontTableGlue(Controls(["fonttbl"]), Group(Helvetica), Group(CourierNew));
  }

  lemma FontTableGlue(name: string, g0: string, g1: string)
    ensures Group(name + g0 + g1) + "\n" == "{" + name + g0 + g1 + "}\n"
  {
  }

  lemma ColorsText()
    ensures Colors == "\\colortbl;\\red0\\green0\\blue0;" + "\\red100\\green100\\blue100;"
  {
    ColorsSplit();
    ColorsFirst();
    ColorsSecond();
  }

  lemma ColorsSplit()
    ensures Colors == Controls(["colortbl;", "red0", "green0", "blue0;"]) + Controls(["red100", "green100", "blue100;"])
  {
    var a := ["colortbl;", "red0", "green0", "blue0;"];
    var b := ["red100", "green100", "blue100;"];
    assert ["colortbl;", "red0", "green0", "blue0;", "red100", "green100", "blue100;"] == a + b;
    ControlsAppend(a, b);
  }

  lemma ColorsFirst()
    ensures Controls(["colortbl;", "red0", "green0", "blue0;"]) == "\\colortbl;\\red0\\green0\\blue0;"
  {
    ControlsFour("colortbl;", "red0", "green0", "blue0;");
  }

  lemma ColorsSecond()
    ensures Controls(["red100", "green100", "blue100;"]) == "\\red100\\green100\\blue100;"
  {
    ControlsThree("red100", "green100", "blue100;");
  }

  /** The colour table is the third line of the header. */
  lemma ColorTableText()
    ensures ColorTable == "{\\colortbl;\\red0\\green0\\blue0;" + "\\red100\\green100\\blue100;}\n"
  {
    ColorsText();
    ColorTableGlue("\\colortbl;\\red0\\green0\\blue0;", "\\red100\\green100\\blue100;");
  }

  lemma ColorTableGlue(a: string, b: string)
    ensures Group(a + b) + "\n" == "{" + a + (b + "}\n")
  {
  }

  lemma ParagraphStartText()
    ensures ParagraphStart == "\\pard\\sa200\\sl276\\slmult1"
  {
    ControlsFour("pard", "sa200", "sl276", "slmult1");
  }

  /** The view and paragraph defaults are the fourth line of the header. */
  lemma ViewSetupText()
    ensures ViewSetup == "\\viewkind4\\uc1" + "\\pard\\sa200\\sl276\\slmult1" + "\\f0\\fs24\n"
  {
    ParagraphStartText();
    ViewKindText();
    FontSizeText();
  }

  lemma ViewKindText()
    ensures Controls(["viewkind4", "uc1"]) == "\\viewkind4\\uc1"
  {
    ControlsTwo("viewkind4", "uc1");
  }

  lemma FontSizeText()
    ensures Controls(["f0", "fs24\n"]) == "\\f0\\fs24\n"
  {
    ControlsTwo("f0", "fs24\n");
  }

  /** The header is, character for character, the text the source starts
      the document with: the version line, the font table, the colour table
      and the view and paragraph defaults, each line given in its groups. */
  lemma RtfHeaderText()
    ensures RtfHeader == "{"
      + "\\rtf1\\ansi\\deff0\\nouicompat\n"
      + ("{\\fonttbl" + "{\\f0\\fswiss" + "\\fcharset0 Helvetica;}" + "{\\f1\\fmodern" + "\\fcharset0 Courier New;}" + "}\n")
      + ("{\\colortbl;\\red0\\green0\\blue0;" + "\\red100\\green100\\blue100;}\n")
      + ("\\viewkind4\\uc1" + "\\pard\\sa200\\sl276\\slmult1" + "\\f0\\fs24\n")
  {
    PrologText();
    FontTableText();
    ColorTableText();
    ViewSetupText();
  }

  lemma BracesAppend(a: string, b: string)
    requires !EndsEsc(a, false)
    ensures Braces(a + b, false) == Braces(a, false) + Braces(b, false)
    ensures EndsEsc(a + b, false) == EndsEsc(b, false)
  {
    BracesConcat(a, b, false);
  }

  lemma PrologNeutral()
    ensures Neutral(Prolog)
  {
    ControlsNeutral(["rtf1", "ansi", "deff0", "nouicompat\n"]);
  }

  lemma HelveticaNeutral()
    ensures Neutral(Helvetica)
  {
    ControlsNeutral(["f0", "fswiss", "fcharset0 Helvetica;"]);
  }

  lemma CourierNewNeutral()
    ensures Neutral(CourierNew)
  {
    ControlsNeutral(["f1", "fmodern", "fcharset0 Courier New;"]);
  }

  lemma ColorsNeutral()
    ensures Neutral(Colors)
  {
    ControlsNeutral(["colortbl;", "red0", "green0", "blue0;", "red100", "green100", "blue100;"]);
  }

  lemma ViewKindNeutral()
    ensures Neutral(Controls(["viewkind4", "uc1"]) + ParagraphStart)
  {
    ControlsNeutral(["viewkind4", "uc1"]);
    ParagraphStartNeutral();
    NeutralConcat(Controls(["viewkind4", "uc1"]), ParagraphStart);
  }

  lemma ViewSetupNeutral()
    ensures Neutral(ViewSetup)
  {
    ViewKindNeutral();
    ControlsNeutral(["f0", "fs24\n"]);
    NeutralConcat(Controls(["viewkind4", "uc1"]) + ParagraphStart, Controls(["f0", "fs24\n"]));
  }

  /** A table group: its name, then two entry groups, then a line feed. */
  lemma TableBraces(name: string, ga: string, gb: string)
    requires Neutral(name)
    requires Braces(ga, false) == "{}" && !EndsEsc(ga, false)
    requires Braces(gb, false) == "{}" && !EndsEsc(gb, false)
    ensures Braces(Group(name + ga + gb) + "\n", false) == "{{}{}}"
    ensures !EndsEsc(Group(name + ga + gb) + "\n", false)
  {
    BracesAppend(name, ga);
    BracesAppend(name + ga, gb);
    GroupBraces(name + ga + gb);
    PlainNeutral("\n", false);
    BracesAppend(Group(name + ga + gb), "\n");
  }

  lemma HelveticaGroup()
    ensures Braces(Group(Helvetica), false) == "{}" && !EndsEsc(Group(Helvetica), false)
  {
    HelveticaNeutral();
    GroupBraces(Helvetica);
  }

  lemma CourierNewGroup()
    ensures Braces(Group(CourierNew), false) == "{}" && !EndsEsc(Group(CourierNew), false)
  {
    CourierNewNeutral();
    GroupBraces(CourierNew);
  }

  /** A group holding neutral text, then a line feed. */
  lemma EntryBraces(x: string)
    requires Neutral(x)
    ensures Braces(Group(x) + "\n", false) == "{}" && !EndsEsc(Group(x) + "\n", false)
  {
    GroupBraces(x);
    PlainNeutral("\n", false);
    BracesAppend(Group(x), "\n");
  }

  /** The shape of the whole document: one outer group around neutral text,
      the font table, the colour table and neutral text. */
  lemma DocumentBraces(prolog: string, fonts: string, colors: string, rest: string)
    requires Neutral(prolog) && Neutral(rest)
    requires Braces(fonts, false) == "{{}{}}" && !EndsEsc(fonts, false)
    requires Braces(colors, false) == "{}" && !EndsEsc(colors, false)
    ensures Braces(Group(prolog + fonts + colors + rest), false) == "{{{}{}}{}}"
  {
    var inner := prolog + fonts + colors + rest;
    BracesAppend(prolog, fonts);
    BracesAppend(prolog + fonts, colors);
    BracesAppend(prolog + fonts + colors, rest);
    assert Braces(inner, false) == "{{}{}}" + "{}";
    GroupBraces(inner);
    assert "{" + ("{{}{}}" + "{}") + "}" == "{{{}{}}{}}";
  }

  lemma FontTableBraces()
    ensures Braces(FontTable, false) == "{{}{}}" && !EndsEsc(FontTable, false)
  {
    HelveticaGroup();
    CourierNewGroup();
    ControlsNeutral(["fonttbl"]);
    TableBraces(Controls(["fonttbl"]), Group(Helvetica), Group(CourierNew));
  }

  lemma ColorTableBraces()
    ensures Braces(ColorTable, false) == "{}" && !EndsEsc(ColorTable, false)
  {
    ColorsNeutral();
    EntryBraces(Colors);
  }

  lemma GroupRegroup(a: string, b: string, c: string, d: string, rest: string)
    ensures "{" + a + b + c + d + rest + "}" == Group(a + b + c + (d + rest))
  {
  }

  /** Whatever `body` holds, the document is one group around the font
      table's group (with its two font groups) and the colour table's
      group. */
  lemma RtfDocumentBraces(body: seq<Node>)
    ensures Braces(RtfHeader + RtfNodes(body) + "}", false) == "{{{}{}}{}}"
  {
    PrologNeutral();
    FontTableBraces();
    ColorTableBraces();
    ViewSetupNeutral();
    RtfNodesNeutral(body);
    NeutralConcat(ViewSetup, RtfNodes(body));
    DocumentBraces(Prolog, FontTable, ColorTable, ViewSetup + RtfNodes(body));
    GroupRegroup(Prolog, FontTable, ColorTable, ViewSetup, RtfNodes(body));
  }

  lemma BodyIsLower()
    ensures LowerTag("BODY") == "body"
  {
  }

  lemma BodyIsUnlisted()
    ensures KindOf("BODY") == Unlisted
  {
    BodyIsLower();
  }

  /** `body` has no case of its own: its RTF is its children's. */
  lemma BodyPassesThrough(body: seq<Node>)
    ensures RtfNode(Element("BODY", body)) == RtfNodes(body)
  {
    BodyIsUnlisted();
    RtfPassThrough("BODY", body);
  }

  lemma EmptyBody(header: string, body: seq<Node>)
    requires body == []
    ensures header + RtfNodes(body) + "}" == header + "}"
  {
    assert header + RtfNodes(body) == header;
  }

  /** `convertToRTF(markdown)` from the parsed document on: the header, the
      walk of `body` (an element without a case of its own, so its
      children's output) and the brace that closes the outermost group.
      Whatever the document's text, the result is one RTF group holding the
      font table's group with its two font groups and the colour table's
      group. */
  method ConvertToRtf(body: seq<Node>) returns (rtf: string)
    ensures rtf == RtfHeader + RtfNodes(body) + "}"
    ensures body == [] ==> rtf == RtfHeader + "}"
    ensures Braces(rtf, false) == "{{{}{}}{}}"
  {
    var walked := RtfNode(Element("BODY", body));
    BodyPassesThrough(body);
    rtf := RtfHeader + walked + "}";
    RtfDocumentBraces(body);
    if body == [] {
      EmptyBody(RtfHeader, body);
    }
  }
}
