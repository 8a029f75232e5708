/** String operations of the JavaScript runtime that the converter relies on,
    stated over Dafny strings (sequences of characters). */
module Strings {

  /** `s.replace(/pat/g, rep)` for a literal pattern: every leftmost,
      non-overlapping occurrence of `pat` is replaced by `rep`, and the
      replacement text is never scanned again. */
  function ReplaceAll(s: string, pat: string, rep: string): string
    requires |pat| > 0
    decreases |s|
  {
    if s == [] then []
    else if pat <= s then rep + ReplaceAll(s[|pat|..], pat, rep)
    else [s[0]] + ReplaceAll(s[1..], pat, rep)
  }

  /** A one-character pattern cannot straddle a cut, so replacing it
      distributes over concatenation. */
  lemma {:induction false} ReplaceCharConcat(a: string, b: string, c: char, rep: string)
    ensures ReplaceAll(a + b, [c], rep) == ReplaceAll(a, [c], rep) + ReplaceAll(b, [c], rep)
    decreases |a|
  {
    if a != [] {
      assert (a + b)[1..] == a[1..] + b;
      assert [c] <= a + b <==> [c] <= a;
      ReplaceCharConcat(a[1..], b, c, rep);
    } else {
      assert a + b == b;
    }
  }

  /** Replacing a character that does not occur changes nothing. */
  lemma {:induction false} ReplaceCharAbsent(s: string, c: char, rep: string)
    requires c !in s
    ensures ReplaceAll(s, [c], rep) == s
    decreases |s|
  {
    if s != [] {
      assert s[0] != c;
      ReplaceCharAbsent(s[1..], c, rep);
    }
  }

  /** Replacing a character in the one-character string made of it. */
  lemma ReplaceCharSelf(c: char, rep: string)
    ensures ReplaceAll([c], [c], rep) == rep
  {
    assert [c][1..] == [];
  }

  /** When `s` starts with the pattern, the pattern is replaced there. */
  lemma ReplaceAtPattern(pat: string, rep: string, rest: string)
    requires |pat| > 0
    ensures ReplaceAll(pat + rest, pat, rep) == rep + ReplaceAll(rest, pat, rep)
  {
    assert pat <= pat + rest;
    assert (pat + rest)[|pat|..] == rest;
  }

  /** `t` is copied unchanged when the pattern starts with a character
      `t` has only in its first position, and `t` disagrees with the
      pattern somewhere in their common length if it starts with that
      character. */
  lemma {:induction false} ReplacePassThrough(pat: string, rep: string, t: string, rest: string)
    requires |pat| > 0
    requires forall i :: 1 <= i < |t| ==> t[i] != pat[0]
    requires |t| > 0 && t[0] == pat[0] ==> exists j :: 0 < j < |t| && j < |pat| && t[j] != pat[j]
    ensures ReplaceAll(t + rest, pat, rep) == t + ReplaceAll(rest, pat, rep)
    decreases |t|
  {
    if t == [] {
      assert t + rest == rest;
    } else {
      var s := t + rest;
      assert !(pat <= s) by {
        if t[0] == pat[0] {
          var j :| 0 < j < |t| && j < |pat| && t[j] != pat[j];
          assert s[j] == t[j];
        } else {
          assert s[0] == t[0];
        }
      }
      assert s[1..] == t[1..] + rest;
      ReplacePassThrough(pat, rep, t[1..], rest);
      assert [s[0]] + t[1..] == t;
    }
  }

  /** The concatenation of a sequence of strings, `array.join('')`. */
  function Concat(ss: seq<string>): string
  {
    if ss == [] then [] else ss[0] + Concat(ss[1..])
  }

  /** A character matched by the JavaScript class `\s`: the WhiteSpace and
      LineTerminator characters of ECMAScript, which are also the characters
      `String.prototype.trim` removes. */
  predicate IsJsSpace(c: char)
  {
    || c == '\t' || c == '\n' || c == '\U{000B}' || c == '\U{000C}' || c == '\r' || c == ' '
    || c == '\U{00A0}' || c == '\U{1680}' || ('\U{2000}' <= c <= '\U{200A}')
    || c == '\U{2028}' || c == '\U{2029}' || c == '\U{202F}' || c == '\U{205F}'
    || c == '\U{3000}' || c == '\U{FEFF}'
  }

  /** `s.trim() === ''`. */
  predicate IsBlank(s: string)
  {
    forall i :: 0 <= i < |s| ==> IsJsSpace(s[i])
  }

  predicate IsAsciiUpper(c: char) { 'A' <= c <= 'Z' }

  predicate IsAsciiLower(c: char) { 'a' <= c <= 'z' }

  predicate IsAsciiDigit(c: char) { '0' <= c <= '9' }

  /** `toLowerCase` on a character that is an ASCII letter or not a letter. */
  function LowerAscii(c: char): (r: char)
    ensures IsAsciiUpper(c) ==> IsAsciiLower(r)
    ensures !IsAsciiUpper(c) ==> r == c
  {
    if IsAsciiUpper(c) then (c as int + 32) as char else c
  }
}
