/** The download file name: `sanitizeFilename` (script.js:206-217), which
    turns the first line of the Markdown into a short, lower-case name. */
module Filename {
  import opened Strings

  /** `text.split('\n')[0]`: everything before the first line feed. */
  function FirstLine(text: string): (r: string)
    ensures r <= text && '\n' !in r
    ensures |r| < |text| ==> text[|r|] == '\n'
  {
    if text == [] || text[0] == '\n' then [] else [text[0]] + FirstLine(text[1..])
  }

  /** The leading run of `#` removed. */
  function DropHashes(s: string): (r: string)
    ensures |r| <= |s| && r == s[|s| - |r|..]
    ensures forall i :: 0 <= i < |s| - |r| ==> s[i] == '#'
    ensures r == [] || r[0] != '#'
  {
    if s != [] && s[0] == '#' then DropHashes(s[1..]) else s
  }

  /** The leading run of whitespace removed. */
  function DropSpaces(s: string): (r: string)
    ensures |r| <= |s| && r == s[|s| - |r|..]
    ensures forall i {:trigger IsJsSpace(s[i])} :: 0 <= i < |s| - |r| ==> IsJsSpace(s[i])
    ensures r == [] || !IsJsSpace(r[0])
  {
    if s != [] && IsJsSpace(s[0]) then DropSpaces(s[1..]) else s
  }

  /** The trailing run of whitespace removed. */
  function DropTrailingSpaces(s: string): (r: string)
    ensures r <= s
    ensures forall i {:trigger IsJsSpace(s[i])} :: |r| <= i < |s| ==> IsJsSpace(s[i])
    ensures r == [] || !IsJsSpace(r[|r| - 1])
  {
    if s != [] && IsJsSpace(s[|s| - 1]) then DropTrailingSpaces(s[..|s| - 1]) else s
  }

  /** Replacing the pattern `^#*\s*` by nothing: one run of heading marks,
      then one run of whitespace, removed from the front. */
  function StripHeadingMarks(s: string): string
  {
    DropSpaces(DropHashes(s))
  }

  /** `.substring(0, 30)`. */
  function Take(s: string, n: nat): (r: string)
    ensures r <= s && |r| == if |s| < n then |s| else n
  {
    if |s| <= n then s else s[..n]
  }

  /** A character of the class `[a-zA-Z0-9-_\s]`. */
  predicate IsKept(c: char)
  {
    IsAsciiUpper(c) || IsAsciiLower(c) || IsAsciiDigit(c) || c == '-' || c == '_' || IsJsSpace(c)
  }

  /** `.replace(/[^a-zA-Z0-9-_\s]/g, '')`: every other character removed. */
  function KeepFilenameChars(s: string): (r: string)
    ensures |r| <= |s|
    ensures forall i :: 0 <= i < |r| ==> IsKept(r[i])
  {
    if s == [] then []
    else (if IsKept(s[0]) then [s[0]] else []) + KeepFilenameChars(s[1..])
  }

  /** `.trim()`. */
  function Trim(s: string): (r: string)
    ensures r == [] || (!IsJsSpace(r[0]) && !IsJsSpace(r[|r| - 1]))
  {
    DropTrailingSpaces(DropSpaces(s))
  }

  /** `.replace(/\s+/g, '-')`: each maximal run of whitespace becomes one
      hyphen. */
  function CollapseSpaces(s: string): (r: string)
    ensures |r| <= |s|
    ensures forall i {:trigger IsJsSpace(r[i])} :: 0 <= i < |r| ==> !IsJsSpace(r[i])
    decreases |s|
  {
    if s == [] then []
    else if IsJsSpace(s[0]) then "-" + CollapseSpaces(DropSpaces(s))
    else [s[0]] + CollapseSpaces(s[1..])
  }

  /** `.toLowerCase()` on a string of ASCII letters, digits, `-` and `_`. */
  function Lower(s: string): (r: string)
    ensures |r| == |s|
    ensures forall i :: 0 <= i < |s| ==> r[i] == LowerAscii(s[i])
  {
    if s == [] then [] else [LowerAscii(s[0])] + Lower(s[1..])
  }

  /** What is left of the first line once the heading marks are gone, the
      cut to 30 characters is made and the other characters are dropped. */
  function Survivors(text: string): string
  {
    KeepFilenameChars(Take(StripHeadingMarks(FirstLine(text)), 30))
  }

  /** The name the first line yields before the fallback. */
  function Slug(text: string): string
  {
    Lower(CollapseSpaces(Trim(Survivors(text))))
  }

  /** `sanitizeFilename(text)`: the slug, or `document` when it is empty. */
  function SanitizeFilename(text: string): string
  {
    var slug := Slug(text);
    if slug == "" then "document" else slug
  }

  /** A character of a finished name. */
  predicate IsNameChar(c: char)
  {
    IsAsciiLower(c) || IsAsciiDigit(c) || c == '-' || c == '_'
  }

  /** A finished name: 1 to 30 name characters. */
  predicate IsCleanName(s: string)
  {
    0 < |s| <= 30 && forall i :: 0 <= i < |s| ==> IsNameChar(s[i])
  }
}
