/** The editor toolbar and preview: `insertMarkdown` (script.js:101-125),
    `getPlaceholderForMarkdown` (script.js:129-140) and the memo check of
    `updatePreview` (script.js:143-145). */
module Editor {

  /** `getPlaceholderForMarkdown(prefix)`: the sample text a toolbar button
      inserts when nothing is selected. */
  function PlaceholderFor(prefix: string): (p: string)
    ensures p != ""
    ensures prefix == "**" ==> p == "bold text"
    ensures prefix == "*" ==> p == "italic text"
    ensures prefix == "# " ==> p == "heading"
    ensures prefix == "- " ==> p == "list item"
    ensures prefix == "> " ==> p == "quotation"
    ensures prefix == "[" ==> p == "link text"
    ensures prefix == "```\n" ==> p == "code"
    ensures prefix !in {"**", "*", "# ", "- ", "> ", "[", "```\n"} ==> p == "text"
  {
    if prefix == "**" then "bold text"
    else if prefix == "*" then "italic text"
    else if prefix == "# " then "heading"
    else if prefix == "- " then "list item"
    else if prefix == "> " then "quotation"
    else if prefix == "[" then "link text"
    else if prefix == "```\n" then "code"
    else "text"
  }

  /** The new value of the textarea and its new selection. */
  datatype Edit = Edit(text: string, selStart: nat, selEnd: nat)

  /** The five pieces of a spliced text can be cut out again. */
  lemma FiveParts(a: string, b: string, c: string, d: string, f: string)
    ensures var t := a + b + c + d + f;
      var i, j, k := |a| + |b|, |a| + |b| + |c|, |a| + |b| + |c| + |d|;
      && t[..|a|] == a && t[|a|..i] == b && t[i..j] == c && t[j..k] == d && t[k..] == f
  {
    var t := a + b + c + d + f;
    assert t == a + (b + (c + (d + f)));
    assert t[|a|..] == b + (c + (d + f));
    assert t[|a| + |b|..] == c + (d + f);
    assert t[|a| + |b| + |c|..] == d + f;
  }

  /** The string and selection arithmetic of `insertMarkdown`: with nothing
      selected, `prefix`, the placeholder and `suffix` go in at the caret and
      the placeholder is selected; otherwise the selection is wrapped in
      `prefix` and `suffix` and stays selected. */
  function Splice(text: string, start: nat, end: nat, prefix: string, suffix: string): (e: Edit)
    requires start <= end <= |text|
    ensures var middle := if start == end then PlaceholderFor(prefix) else text[start..end];
      && e.selStart == start + |prefix| && e.selEnd == e.selStart + |middle|
      && e.selEnd + |suffix| <= |e.text|
      && e.text[..start] == text[..start]
      && e.text[start..e.selStart] == prefix
      && e.text[e.selStart..e.selEnd] == middle
      && e.text[e.selEnd..e.selEnd + |suffix|] == suffix
      && e.text[e.selEnd + |suffix|..] == text[end..]
  {
    var middle := if start == end then PlaceholderFor(prefix) else text[start..end];
    var cursor := start + |prefix|;
    FiveParts(text[..start], prefix, middle, suffix, text[end..]);
    Edit(text[..start] + prefix + middle + suffix + text[end..], cursor, cursor + |middle|)
  }

  /** Wrapping a selection is undone by cutting out the inserted prefix and
      suffix. */
  lemma UnwrapSelection(text: string, start: nat, end: nat, prefix: string, suffix: string)
    requires start < end <= |text|
    ensures var e := Splice(text, start, end, prefix, suffix);
      e.text[..start] + e.text[e.selStart..e.selEnd] + e.text[e.selEnd + |suffix|..] == text
  {
    var e := Splice(text, start, end, prefix, suffix);
    assert text == text[..start] + text[start..end] + text[end..];
  }

  /** Inserting at a caret only adds: removing the inserted run gives the
      old text back. */
  lemma UndoInsertion(text: string, at: nat, prefix: string, suffix: string)
    requires at <= |text|
    ensures var e := Splice(text, at, at, prefix, suffix);
      && |e.text| == |text| + |prefix| + |PlaceholderFor(prefix)| + |suffix|
      && e.text[..at] + e.text[e.selEnd + |suffix|..] == text
  {
    assert text == text[..at] + text[at..];
  }

  /** The textarea the toolbar edits: its text and its selection, a range of
      positions with the start never after the end. */
  class Textarea {
    var value: string
    var selectionStart: nat
    var selectionEnd: nat

    predicate Valid()
      reads this
    {
      selectionStart <= selectionEnd <= |value|
    }

    constructor(value: string, selectionStart: nat, selectionEnd: nat)
      requires selectionStart <= selectionEnd <= |value|
      ensures Valid()
      ensures this.value == value && this.selectionStart == selectionStart && this.selectionEnd == selectionEnd
    {
      this.value := value;
      this.selectionStart := selectionStart;
      this.selectionEnd := selectionEnd;
    }

    /** `setSelectionRange(a, b)` for a range inside the text. */
    method SetSelectionRange(a: nat, b: nat)
      requires a <= b <= |value|
      modifies this
      ensures Valid() && value == old(value) && selectionStart == a && selectionEnd == b
    {
      selectionStart := a;
      selectionEnd := b;
    }
  }

  /** The preview's memory of the Markdown it last rendered. */
  class Preview {
    var lastProcessedMarkdown: string

    constructor()
      ensures lastProcessedMarkdown == ""
    {
      lastProcessedMarkdown := "";
    }

    /** `updatePreview(markdown)`: renders only when the text differs from
        the last rendered one, and remembers it. */
    method UpdatePreview(markdown: string) returns (rendered: bool)
      modifies this
      ensures rendered <==> markdown != old(lastProcessedMarkdown)
      ensures lastProcessedMarkdown == markdown
    {
      if markdown == lastProcessedMarkdown {
        return false;
      }
      lastProcessedMarkdown := markdown;
      rendered := true;
    }
  }

  /** `insertMarkdown(prefix, suffix)`: the textarea takes the spliced text
      and selection, and the preview is brought up to date with it. */
  method InsertMarkdown(textarea: Textarea, preview: Preview, prefix: string, suffix: string)
    requires textarea.Valid()
    modifies textarea, preview
    ensures textarea.Valid()
    ensures var e := Splice(old(textarea.value), old(textarea.selectionStart), old(textarea.selectionEnd), prefix, suffix);
      textarea.value == e.text && textarea.selectionStart == e.selStart && textarea.selectionEnd == e.selEnd
    ensures preview.lastProcessedMarkdown == textarea.value
  {
    var start := textarea.selectionStart;
    var end := textarea.selectionEnd;
    var text := textarea.value;
    var selectedText := text[start..end];
    if start == end {
      var placeholder := PlaceholderFor(prefix);
      var newText := text[..start] + prefix + placeholder + suffix + text[end..];
      textarea.value := newText;
      var cursorPosition := start + |prefix|;
      textarea.SetSelectionRange(cursorPosition, cursorPosition + |placeholder|);
    } else {
      var newText := text[..start] + prefix + selectedText + suffix + text[end..];
      textarea.value := newText;
      textarea.SetSelectionRange(start + |prefix|, end + |prefix|);
    }
    var _ := preview.UpdatePreview(textarea.value);
  }
}
