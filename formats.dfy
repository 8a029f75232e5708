/** The export dispatch: `getExtension` (script.js:220-225), `getMimeType`
    (script.js:610-619), the format switch of `convertAndDownload`
    (script.js:228-275) and the renaming in `convertToOdt` (script.js:389). */
module Formats {
  import opened Strings
  import opened Filename
  import opened FilenameLemmas

  /** The cases of the format switch of `convertAndDownload`. */
  datatype Format = Html | Pdf | Docx | Txt | Rtf | Other

  function FormatOf(format: string): (f: Format)
    ensures (f == Html <==> format == "html") && (f == Pdf <==> format == "pdf")
    ensures (f == Docx <==> format == "docx") && (f == Txt <==> format == "txt")
    ensures f == Rtf <==> format == "rtf"
  {
    if format == "html" then Html
    else if format == "pdf" then Pdf
    else if format == "docx" then Docx
    else if format == "txt" then Txt
    else if format == "rtf" then Rtf
    else Other
  }

  /** `getExtension(format)`: the four named formats get their own
      extension, every other value `.rtf`. */
  function GetExtension(format: string): (ext: string)
    ensures format in {"html", "pdf", "docx", "txt"} ==> ext == "." + format
    ensures format !in {"html", "pdf", "docx", "txt"} ==> ext == ".rtf"
  {
    match FormatOf(format)
    case Html => ".html"
    case Pdf => ".pdf"
    case Docx => ".docx"
    case Txt => ".txt"
    case _ => ".rtf"
  }

  const OdtMimeType: string := "application/vnd.oasis.opendocument.text"
  const DocxMimeType: string := "application/vnd.openxmlformats-officedocument.wordprocessingml.document"

  /** The table of `getMimeType`. */
  const MimeTypes: map<string, string> := map[
    "html" := "text/html",
    "txt" := "text/plain",
    "rtf" := "application/rtf",
    "pdf" := "application/pdf",
    "docx" := DocxMimeType
  ]

  /** `getMimeType(format)`: the table's entry, `text/plain` for a format
      the table does not have. */
  function GetMimeType(format: string): (mime: string)
    ensures format == "html" ==> mime == "text/html"
    ensures format == "txt" ==> mime == "text/plain"
    ensures format == "rtf" ==> mime == "application/rtf"
    ensures format == "pdf" ==> mime == "application/pdf"
    ensures format == "docx" ==> mime == DocxMimeType
    ensures format !in {"html", "txt", "rtf", "pdf", "docx"} ==> mime == "text/plain"
  {
    if format in MimeTypes then MimeTypes[format] else "text/plain"
  }

  /** `filename.replace(/\.docx$/, '.odt')`. */
  function ReplaceDocxSuffix(name: string): (r: string)
  {
    if |name| >= 5 && name[|name| - 5..] == ".docx" then name[..|name| - 5] + ".odt" else name
  }

  lemma ReplaceDocxSuffixOf(base: string)
    ensures ReplaceDocxSuffix(base + ".docx") == base + ".odt"
  {
    var name := base + ".docx";
    assert name[|name| - 5..] == ".docx";
    assert name[..|name| - 5] == base;
  }

  /** Renaming touches only a name that ends in `.docx`. */
  lemma ReplaceDocxSuffixElse(name: string)
    requires !(|name| >= 5 && name[|name| - 5..] == ".docx")
    ensures ReplaceDocxSuffix(name) == name
  {
  }

  /** Who writes the file. */
  datatype Exporter = HtmlPage | PlainText | RichText | OdtPackage

  /** The result of `convertAndDownload(format)` on the editor's text. */
  datatype Outcome =
    | NothingToConvert
    | Saved(filename: string, mimeType: string, exporter: Exporter)
    | PdfSaved(filename: string)
    | UnsupportedFormat

  /** `convertAndDownload(format)`, past the busy gate: blank text is
      refused before anything else; otherwise the file name is the sanitized
      first line plus the format's extension, `pdf` goes to the PDF renderer,
      `docx` is written as an OpenDocument package renamed to `.odt`, `html`,
      `txt` and `rtf` are saved with their MIME type, and every other format,
      `odt` among them, fails. */
  function ConvertAndDownload(markdown: string, format: string): Outcome
  {
    if IsBlank(markdown) then NothingToConvert
    else
      var filename := SanitizeFilename(markdown) + GetExtension(format);
      match FormatOf(format)
      case Html => Saved(filename, GetMimeType(format), HtmlPage)
      case Pdf => PdfSaved(filename)
      case Docx => Saved(ReplaceDocxSuffix(filename), OdtMimeType, OdtPackage)
      case Txt => Saved(filename, GetMimeType(format), PlainText)
      case Rtf => Saved(filename, GetMimeType(format), RichText)
      case Other => UnsupportedFormat
  }

  /** Blank text is refused whatever the format; other text fails exactly
      for the formats without an exporter. */
  lemma DispatchOutcomes(markdown: string, format: string)
    ensures IsBlank(markdown) <==> ConvertAndDownload(markdown, format) == NothingToConvert
    ensures !IsBlank(markdown) ==>
      (ConvertAndDownload(markdown, format) == UnsupportedFormat <==> format !in {"html", "pdf", "docx", "txt", "rtf"})
  {
  }

  /** The extension a saved file of `format` ends in: `docx` output is
      renamed to `.odt`. */
  function SavedExtension(format: string): (ext: string)
    ensures ext in {".html", ".pdf", ".odt", ".txt", ".rtf"}
    ensures format != "docx" ==> ext == GetExtension(format)
  {
    if format == "docx" then ".odt" else GetExtension(format)
  }

  /** Every saved file is named by the sanitized first line and an extension
      that matches its content: `docx` yields an `.odt` file of the
      OpenDocument MIME type, the other formats their own extension and the
      MIME type of the table. */
  lemma DispatchNames(markdown: string, format: string)
    ensures var o := ConvertAndDownload(markdown, format);
      o.Saved? ==>
        && o.filename == SanitizeFilename(markdown) + SavedExtension(format)
        && (o.exporter == OdtPackage <==> format == "docx")
        && (format == "docx" ==> o.mimeType == OdtMimeType)
        && (format != "docx" ==> o.mimeType == GetMimeType(format) && format in MimeTypes)
    ensures var o := ConvertAndDownload(markdown, format);
      o.PdfSaved? ==> format == "pdf" && o.filename == SanitizeFilename(markdown) + GetExtension(format)
  {
    if !IsBlank(markdown) && FormatOf(format) == Docx {
      assert GetExtension(format) == ".docx";
      ReplaceDocxSuffixOf(SanitizeFilename(markdown));
    }
  }

  /** A saved file's MIME type matches its extension, each way round:
      `.html` is `text/html`, `.txt` is `text/plain`, `.rtf` is
      `application/rtf` and `.odt` is the OpenDocument type. */
  lemma SavedMimeMatchesExtension(markdown: string, format: string)
    ensures var o := ConvertAndDownload(markdown, format);
      o.Saved? ==>
        && (SavedExtension(format) == ".html" <==> o.mimeType == "text/html")
        && (SavedExtension(format) == ".txt" <==> o.mimeType == "text/plain")
        && (SavedExtension(format) == ".rtf" <==> o.mimeType == "application/rtf")
        && (SavedExtension(format) == ".odt" <==> o.mimeType == OdtMimeType)
  {
    var o := ConvertAndDownload(markdown, format);
    if o.Saved? {
      SavedFormats(markdown, format);
      MimeTypesDiffer();
    }
  }

  /** Only `html`, `docx`, `txt` and `rtf` are saved with a MIME type. */
  lemma SavedFormats(markdown: string, format: string)
    ensures ConvertAndDownload(markdown, format).Saved? ==> format in {"html", "docx", "txt", "rtf"}
  {
  }

  lemma MimeTypesDiffer()
    ensures "text/html" != "text/plain" && "text/html" != "application/rtf" && "text/html" != OdtMimeType
    ensures "text/plain" != "application/rtf" && "text/plain" != OdtMimeType && "application/rtf" != OdtMimeType
  {
    assert "text/html"[5] != "text/plain"[5];
    assert "text/html"[0] != "application/rtf"[0] && "text/plain"[0] != "application/rtf"[0];
    assert "text/html"[0] != OdtMimeType[0] && "text/plain"[0] != OdtMimeType[0];
    assert |"application/rtf"| != |OdtMimeType|;
  }

  /** The `odt` format has no case of its own: asking for it fails. */
  lemma OdtIsNotAFormat(markdown: string)
    requires !IsBlank(markdown)
    ensures ConvertAndDownload(markdown, "odt") == UnsupportedFormat
  {
  }

  /** The name part before the extension is a clean name, so the extension
      is the only dot in the file name. */
  lemma DispatchNameIsClean(markdown: string, format: string)
    ensures var o := ConvertAndDownload(markdown, format);
      (o.Saved? || o.PdfSaved?) ==>
        exists ext :: o.filename == SanitizeFilename(markdown) + ext && ext in {".html", ".pdf", ".odt", ".txt", ".rtf"}
    ensures IsCleanName(SanitizeFilename(markdown))
  {
    SanitizeFilenameClean(markdown);
    DispatchNames(markdown, format);
    var ext := SavedExtension(format);
    assert ext in {".html", ".pdf", ".odt", ".txt", ".rtf"};
  }
}
