# Markdown converter: the verified core

The browser Markdown converter (`script.js`) turns the text of an editor into
a file in one of several formats. Most of the program is user interface. This
project models its deterministic core in Dafny and proves what the core
promises:

- **the ODT projector** (`convertHtmlToOdt` and its `processNode`). It walks
  the parsed HTML tree and writes the body of `content.xml`. It uses the
  five-entity XML escape `escapeXml`.
- **the RTF projector** (`convertToRTF` and its `processNode`). It writes a
  fixed header, the walk of `body` and a closing brace. Text leaves are
  escaped the way the RTF Specification asks for `\`, `{` and `}`, and line
  feeds become `\par`.
- **the download name** (`sanitizeFilename`, `getExtension`) and **the MIME
  table** (`getMimeType`).
- **the format switch of `convertAndDownload`**. `docx` is written as an
  OpenDocument package renamed to `.odt`; `odt` itself is not a case.
- **the toolbar** (`insertMarkdown`, `getPlaceholderForMarkdown`). It splices
  Markdown around the textarea's selection and refreshes the preview
  (`updatePreview`'s memo of the last rendered text).

The parsed tree is the input. A `Node` is a text node, an element (its tag
name as the parser reports it, and its child nodes) or a comment. The comment
stands for every other kind of node, which both walkers map to the empty
string. `textContent` is `TextContent`; `node.children` is `ElementChildren`.
Tag names are matched after `toLowerCase` (`Dom.LowerTag`). The cases of each
`switch` are a datatype `TagKind` that `Dom.KindOf` computes once.

Modules:

- `Strings`: JavaScript's global replace with a literal pattern, the
  whitespace set of `\s` and `trim`, and ASCII case.
- `Dom`: the tree.
- `XmlEscape`: `escapeXml`.
- `Odt`: the ODT projector.
- `Rtf`: the RTF projector.
- `Filename`: `sanitizeFilename`, step by step.
- `FilenameLemmas`: what the names it produces satisfy.
- `Formats`: extensions, MIME types and the format switch.
- `Editor`: the toolbar and the preview memo.

`ConvertHtmlToOdt` and `ConvertToRtf` are methods because the source builds
its output by appending to a variable. `Editor.Textarea` and
`Editor.Preview` are classes because the source overwrites the textarea's
value and selection and the module-level `lastProcessedMarkdown`. Everything
else is functions and lemmas, as in the source.

A few facts about the code that the model keeps as they are:

- RTF headings use `\fs48`, `\fs36` and `\fs32` for `h1`, `h2` and `h3`,
  and restore `\fs24` (script.js:577-582).
- `ul`, `ol` and `li` are not cases of the RTF walk, so they pass their
  children's output through with no indent and no list marker
  (script.js:575-598).
- The format switch has no `odt` case, so `odt` fails as unsupported
  (script.js:242-262). The `docx` case writes the OpenDocument package and
  renames `.docx` to `.odt` (script.js:250-254, 389). The MIME table still
  maps `docx` to the Office Open XML type (script.js:616), but that entry is
  never used for a saved file.
- The ODT walk gives every `ol` the one style `Numbering` and every `ul` no
  style, whatever the nesting depth (script.js:497-504).

## Model

| member | source | states |
|---|---|---|
| Strings.ReplaceAll | script.js:528-535 | `replace(/lit/g, rep)` for a literal pattern, as `escapeXml` and the RTF escape use it: defined by its body (leftmost, non-overlapping, replacement not rescanned); `EscapeXmlPerChar` and `RtfEscapePerChar` state what its chains compute |
| Strings.IsJsSpace | script.js:209-215 | the JavaScript `\s` class and the set `trim` removes: defined by its body as the ECMAScript WhiteSpace and LineTerminator characters; `DropSpaces`, `Trim`, `CollapseSpaces` and `SanitizeFilenameClean` use it |
| Dom.ElementChildren | script.js:498-502 | `node.children`: every element among the child nodes is kept, and only elements of the child nodes remain, no more of them than there were child nodes |
| Dom.ElementChildrenOne | script.js:498-502 | a single child node: an element is kept, any other node gives no child |
| Dom.ElementChildrenConcat | script.js:498-502 | the element children of two runs of child nodes are those of the first run followed by those of the second, so with `ElementChildrenOne` the elements are kept one for one and in document order |
| Dom.TextContent | script.js:509-512 | `textContent`: defined by its body as the text of all descendant text nodes in order; `OdtCodeIgnoresMarkup`, `OdtCodeSpan`, `OdtPreBlock` and `OdtTextIsTextContent` state what the exporters do with it |
| Dom.LowerTag | script.js:482 | `tagName.toLowerCase()`: same length, upper-case ASCII letters (and the Kelvin sign) mapped to lower case, every other character kept |
| Dom.KindOf | script.js:482-514 | each case of the switch is chosen exactly when the lower-cased tag is its name (`strong` or `b`, `em` or `i`); `Unlisted` exactly when it is none of them |
| XmlEscape.EscapeXml | script.js:528-535 | `escapeXml`: defined by its body as the five global replacements in the source's order; its properties are the rows `EscapeXmlPerChar`, `XmlRoundTrip`, `EscapeXmlSafe`, `EscapeXmlConcat` and `EscapeXmlPlain` |
| XmlEscape.EscapeXmlPerChar | script.js:528-535 | the chain of five global replacements, `&` first, equals replacing each special character by its entity in one pass, so nothing is escaped twice |
| XmlEscape.XmlRoundTrip | script.js:528-535 | undoing the five substitutions in reverse order, `&amp;` last, gives back the input |
| XmlEscape.EscapeXmlSafe | script.js:528-535 | the output holds no `<`, `>`, `"` or `'`, and every `&` in it begins one of the five entities |
| XmlEscape.EscapeXmlConcat | script.js:528-535 | escaping distributes over concatenation |
| XmlEscape.EscapeXmlPlain | script.js:528-535 | a string without special characters is unchanged |
| Odt.OdtNode | script.js:473-518 | `processNode`: defined by its body as the case table of the source; the rows `OdtNodeText`, `OdtNodeBalanced`, `OdtTextLeaf`, `OdtCodeSpan`, `OdtPreBlock`, `OdtListShape` and `OdtPassThrough` state what it writes |
| Odt.OdtNodes | script.js:480 | `Array.from(node.childNodes).map(processNode).join('')`: defined by its body; `OdtNodesText` and `OdtNodesBalanced` state its properties |
| Odt.OdtListItems | script.js:497-504 | the entries of a list over `node.children`: defined by its body; `OdtListItemsByElements` and `ItemsOfShape` give it entry by entry |
| Odt.OdtNodeBalanced | script.js:473-518 | every node's ODT output balances its tags: scanning it, the count of open elements never drops below zero and ends at zero |
| Odt.OdtNodesBalanced | script.js:480 | the same balance for the walk of any sequence of nodes |
| Odt.OdtListItemsBalanced | script.js:497-504 | the same balance for the entries of a list |
| Odt.BalancedConcat | script.js:520-522 | two balanced fragments appended are balanced, as the `forEach` appends one node's output after another |
| Odt.ConvertHtmlToOdt | script.js:468-525 | the loop appends the walk of each child of `body` in order; the character data of the result is exactly `EscapeXml` of the text the walk shows (`OdtTexts(body)`), every `<` it writes has a later `>`, and its start and end tags balance (`TagsBalanced`) |
| Odt.OdtNodeText | script.js:473-518 | the character data of a node's ODT output is the escaped text the node shows, and every `<` in the output has a later `>` (no tag is cut off); the balance of start and end tags is `OdtNodeBalanced` |
| Odt.OdtNodesText | script.js:480 | the same for the concatenated walk of a sequence of nodes |
| Odt.OdtListItemsText | script.js:497-504 | the same for the entries of a list, which show only the element children's text |
| Odt.OdtTextRecoverable | script.js:520-535 | unescaping the character data of the ODT body gives back the text the walk shows, `OdtTexts(body)`: the document's `textContent`, except that inside `ul` and `ol` text that is not in an element child is dropped (equal to `textContent` away from lists, `OdtTextIsTextContent`) |
| Odt.OdtTextLeaf | script.js:474-477 | an empty text node yields nothing; any other becomes `<text:span>`, its escaped text and `</text:span>` |
| Odt.OdtCodeIgnoresMarkup | script.js:509-512 | `code` and `pre` give the same output as if their subtree were one text node holding its `textContent` |
| Odt.OdtCodeSpan | script.js:509-510 | `code` is its escaped `textContent` inside the Monospace span |
| Odt.OdtPreBlock | script.js:511-512 | `pre` is its escaped `textContent` inside a Monospace paragraph |
| Odt.OdtListItemsByElements | script.js:498-504 | the entries of a list are one per element child, in order; other children add nothing |
| Odt.ItemsOfShape | script.js:499-503 | entry i is `<text:list-item><text:p>`, the walk of element child i, `</text:p></text:list-item>` |
| Odt.OdtListShape | script.js:497-504 | a `ul` or `ol` is the list tag, one entry per element child and `</text:list>`; only `ol` carries the `Numbering` style |
| Odt.OdtPassThrough | script.js:505-506 | `li` and every tag not in the switch give their children's output with nothing around it |
| Odt.OdtTextIsTextContent | script.js:473-518 | away from lists, the text a node shows in ODT is its `textContent` |
| Odt.OdtTextsAreTextContents | script.js:480 | the same for a sequence of nodes |
| Rtf.RtfEscapeText | script.js:567-571 | the escape of a text node: defined by its body as the two replacements of the source; `RtfEscapePerChar`, `RtfRoundTrip` and `RtfEscapeNeutral` state its properties |
| Rtf.RtfEscapePerChar | script.js:567-571 | the two replacements equal a one-pass substitution: `\`, `{`, `}` gain one backslash, a line feed becomes `\par` and a line feed, every other character is copied in order |
| Rtf.RtfRoundTrip | script.js:567-571 | reading the escaped text back gives the text |
| Rtf.RtfEscapeNeutral | script.js:567-571 | escaped text opens and closes no group and does not end in a pending backslash |
| Rtf.MarkupNeutral | script.js:576-598 | the control words each case writes before and after the content open and close no group |
| Rtf.RtfNodeNeutral | script.js:566-602 | the RTF of any node opens and closes no group, so text can never unbalance the document's braces |
| Rtf.RtfNodesNeutral | script.js:574 | the same for the concatenated walk of a sequence of nodes |
| Rtf.RtfNode | script.js:566-602 | `processNode`: defined by its body as the text escape, the empty string for other nodes, and each case's control words around the content; `RtfHeadingShape`, `RtfPassThrough` and `RtfNodeNeutral` state its properties |
| Rtf.RtfNodes | script.js:574 | the children's outputs joined in order: defined by its body; `RtfNodesNeutral` states its property |
| Rtf.RtfHeadingShape | script.js:577-582 | `h1`, `h2` and `h3` are a paragraph at `\fs48`, `\fs36` and `\fs32`, bold on, the content, bold off, `\fs24` restored and the paragraph ended |
| Rtf.RtfPassThrough | script.js:597-598 | `ul`, `ol`, `li` and every tag not in the switch give their children's output unchanged |
| Rtf.RtfHeaderText | script.js:557-560 | the header constant is, character for character, the four lines the source starts the document with (each line written as the concatenation of its groups) |
| Rtf.FontTableBraces | script.js:558 | the font table is one group holding two font groups |
| Rtf.ColorTableBraces | script.js:559 | the colour table is one group |
| Rtf.RtfDocumentBraces | script.js:557-560 | header, body and closing brace form one group around the font and colour tables, whatever the body |
| Rtf.BodyPassesThrough | script.js:604 | walking `body` itself adds nothing around its children |
| Rtf.ConvertToRtf | script.js:553-607 | the document is the fixed header, the walk of `body`'s children and `}`; an empty body gives header and `}`; its groups are exactly `{{{}{}}{}}` |
| Filename.SanitizeFilename | script.js:206-217 | `sanitizeFilename`: defined by its body as the slug or `document`; its properties are the `FilenameLemmas` rows below |
| Filename.StripHeadingMarks | script.js:209 | `replace(/^#*\s*/, '')`: defined by its body as `DropHashes` then `DropSpaces`, whose rows state each step |
| Filename.FirstLine | script.js:208 | `split('\n')[0]`: a prefix of the text with no line feed, ending just before the first line feed if there is one |
| Filename.DropHashes | script.js:209 | removes the leading run of `#` and nothing after it |
| Filename.DropSpaces | script.js:209 | removes the leading run of whitespace and nothing after it |
| Filename.Take | script.js:210 | `substring(0, 30)`: a prefix of length min(30, length) |
| Filename.KeepFilenameChars | script.js:213 | every remaining character is in `[a-zA-Z0-9-_\s]`, and the result is no longer than the input |
| FilenameLemmas.KeepChar | script.js:213 | one character: a character of `[a-zA-Z0-9-_\s]` is copied, any other is dropped |
| FilenameLemmas.KeepConcat | script.js:213 | the filter works character by character: filtering two parts and joining them is filtering the whole, so kept characters survive in order |
| Filename.DropTrailingSpaces | script.js:214 | removes the trailing run of whitespace and nothing before it |
| Filename.Trim | script.js:214 | the result neither starts nor ends with whitespace |
| Filename.CollapseSpaces | script.js:215 | the result holds no whitespace and is no longer than the input |
| FilenameLemmas.CollapseCons | script.js:215 | a character that is not whitespace is copied in front of the collapsed rest |
| FilenameLemmas.CollapseRun | script.js:215 | a non-empty maximal run of whitespace, followed by a non-space or by nothing, becomes exactly one `-` in front of the collapsed rest |
| FilenameLemmas.CollapseConcat | script.js:215 | a stretch without whitespace is copied whole in front of the collapsed rest |
| Filename.Lower | script.js:216 | each character lower-cased, length kept |
| FilenameLemmas.SanitizeFilenameClean | script.js:206-217 | every name is 1 to 30 characters from `[a-z0-9_-]` |
| FilenameLemmas.SanitizeFirstLineOnly | script.js:208 | the name depends only on the text before the first line feed |
| FilenameLemmas.SanitizeFallback | script.js:213-216 | the slug is empty exactly when what survives the filtering is blank (whitespace only); the fallback `document` is taken exactly then, and otherwise the name is the slug |
| FilenameLemmas.SanitizeIdempotent | script.js:206-217 | sanitizing a produced name returns it unchanged |
| FilenameLemmas.CleanNameIsFixed | script.js:206-217 | any name of 1 to 30 characters from `[a-z0-9_-]` is its own sanitized name |
| FilenameLemmas.SanitizeGreeting | script.js:206-217 | a first line `# A, B! ` made of two words of ASCII letters with `|A| + |B| <= 26` (so the whole of `A, B! ` fits in the 30-character cut) becomes the lower-cased `A-B` |
| FilenameLemmas.SanitizeExample | script.js:206-217 | `# Hello, World! ` becomes `hello-world` |
| Formats.FormatOf | script.js:242-262 | each case of the format switch is chosen exactly for its own format string |
| Formats.GetExtension | script.js:220-225 | `html`, `pdf`, `docx` and `txt` get a dot and their own name; every other format gets `.rtf` |
| Formats.GetMimeType | script.js:610-619 | `html` gets `text/html`, `txt` `text/plain`, `rtf` `application/rtf`, `pdf` `application/pdf`, `docx` the Office Open XML type; every other format `text/plain` |
| Formats.ReplaceDocxSuffix | script.js:389 | `replace(/\.docx$/, '.odt')`: defined by its body; `ReplaceDocxSuffixOf` and `ReplaceDocxSuffixElse` state both cases |
| Formats.ReplaceDocxSuffixOf | script.js:389 | a name ending in `.docx` ends in `.odt` instead, the rest kept |
| Formats.ReplaceDocxSuffixElse | script.js:389 | a name not ending in `.docx` is unchanged |
| Formats.ConvertAndDownload | script.js:228-275 | `convertAndDownload` past the busy gate: defined by its body; `DispatchOutcomes`, `DispatchNames`, `SavedMimeMatchesExtension`, `OdtIsNotAFormat` and `DispatchNameIsClean` state its properties |
| Formats.DispatchOutcomes | script.js:233-262 | blank text is refused whatever the format; other text fails exactly for formats outside `html`, `pdf`, `docx`, `txt`, `rtf` |
| Formats.SavedExtension | script.js:220-225 | a saved file ends in `.html`, `.pdf`, `.odt`, `.txt` or `.rtf`; every format but `docx` keeps the extension `getExtension` gives it |
| Formats.DispatchNames | script.js:240-268 | a saved file is named by the sanitized first line and its extension; `docx` alone becomes an `.odt` OpenDocument package; the others use the table's MIME type |
| Formats.SavedMimeMatchesExtension | script.js:240-268 | a saved file's MIME type matches its extension each way round: `.html` with `text/html`, `.txt` with `text/plain`, `.rtf` with `application/rtf`, `.odt` with the OpenDocument type |
| Formats.OdtIsNotAFormat | script.js:242-262 | asking for `odt` fails as unsupported |
| Formats.DispatchNameIsClean | script.js:240 | every file name is a clean name followed by one of the five extensions |
| Editor.PlaceholderFor | script.js:129-140 | `**` gets `bold text`, `*` `italic text`, `# ` `heading`, `- ` `list item`, `> ` `quotation`, `[` `link text`, a code fence and line feed `code`; any other prefix `text`; so the placeholder is never empty |
| Editor.Splice | script.js:101-121 | the new text is the text before the selection, prefix, middle, suffix and the text after it; the new selection spans exactly the middle, which is the old selection or, with none, the placeholder |
| Editor.UnwrapSelection | script.js:117-120 | cutting the prefix and suffix out of a wrapped selection gives back the old text |
| Editor.UndoInsertion | script.js:109-115 | an insertion at the caret only adds prefix, placeholder and suffix; removing them gives back the old text |
| Editor.Textarea.SetSelectionRange | script.js:115 | the selection becomes the given range; the value is unchanged |
| Editor.Preview.UpdatePreview | script.js:143-145 | renders exactly when the text differs from the last rendered one, and remembers the text |
| Editor.InsertMarkdown | script.js:101-123 | the textarea takes the spliced text and selection of `Splice`, and the preview remembers the new text |

## Left out

- Character positions: a Dafny string is a sequence of Unicode scalar
  values, while JavaScript counts UTF-16 code units. `substring(0, 30)` and
  the textarea's selection offsets therefore agree with the model only for
  text inside the Basic Multilingual Plane.
- Parsing: showdown's `makeHtml` and `DOMParser` are foreign code. The model
  takes the parsed tree as its input.
- Foreign output libraries: JSZip packaging (mimetype entry, manifest and
  `styles.xml`), `html2pdf`, `Blob` and `saveAs` are left out. So is the
  asynchronous scheduling of `convertAndDownload`. The outcome of the switch
  names which writer gets the file, and `content.xml`'s body is
  `ConvertHtmlToOdt`'s result.
- Templates: the `content.xml` wrapper, the manifest, the styles and the
  HTML page of `convertToHTML` are constant text with one interpolation, so
  they are not modelled.
- Styles: `styles.xml` defines no `Quotation` or `Numbering` style, and the
  manifest lists a `meta.xml` that is never added. These mismatches lie in
  the constant text left out above.
- `convertToTxt`: a chain of JavaScript regular expressions (lazy
  quantifiers, multi-line anchors) that would need a model of the regular
  expression engine.
- Browser side effects: the `isProcessing` gate, `setLoading`, `debounce`,
  notifications (including the `toUpperCase` of the format in their
  messages), `focus` and the preview's DOM writes are left out.
  `UpdatePreview` models only the check against and update of
  `lastProcessedMarkdown`.
- The thrown `Unsupported format` error is the outcome `UnsupportedFormat`.
  The `catch` and `finally` around it only notify and clear the busy flag.
- Formats.GetMimeType: a format string naming a property every JavaScript
  object inherits (such as `constructor`) would make `mimeTypes[format]`
  truthy. The model treats the table as a plain map. Only the five fixed
  formats ever reach the lookup.
- Dom.LowerTag: lower-cases ASCII letters and the Kelvin sign only, and
  leaves every other character as it is. No other character lower-cases to
  something that can complete one of the switch's tag names, so no other
  character can change which case of a switch is taken.
- Rtf header: the constants are written as control-word lists and groups
  (`Controls`, `Group`). They spell the same characters as the source's
  header text.
- Rtf.ConvertToRtf: the group structure is stated as the brace skeleton
  `{{{}{}}{}}`; no parser of RTF control words is modelled.
