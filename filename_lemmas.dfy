/** What `sanitizeFilename` (script.js:206-217) guarantees about the names
    it produces, proved about the pipeline of module `Filename`. */
module FilenameLemmas {
  import opened Strings
  import opened Filename

  lemma DocumentIsClean()
    ensures IsCleanName("document")
  {
  }

  /** Every name is 1 to 30 lower-case letters, digits, hyphens and
      underscores: no whitespace, no path separator, no dot. */
  lemma SanitizeFilenameClean(text: string)
    ensures IsCleanName(SanitizeFilename(text))
  {
    SlugChars(text);
    if Slug(text) == "" {
      DocumentIsClean();
    }
  }

  /** The slug has at most 30 characters, all of them name characters. */
  lemma SlugChars(text: string)
    ensures |Slug(text)| <= 30
    ensures forall i :: 0 <= i < |Slug(text)| ==> IsNameChar(Slug(text)[i])
  {
    var k := Survivors(text);
    var c := CollapseSpaces(Trim(k));
    TrimKeeps(k);
    CollapseKeeps(Trim(k));
    forall i | 0 <= i < |Lower(c)|
      ensures IsNameChar(Lower(c)[i])
    {
      assert IsKept(c[i]) && !IsJsSpace(c[i]);
    }
  }

  /** Trimming keeps only characters of its input. */
  lemma TrimKeeps(s: string)
    requires forall i :: 0 <= i < |s| ==> IsKept(s[i])
    ensures |Trim(s)| <= |s|
    ensures forall i :: 0 <= i < |Trim(s)| ==> IsKept(Trim(s)[i])
  {
    SuffixKeeps(s, DropSpaces(s));
    PrefixKeeps(DropSpaces(s), Trim(s));
  }

  lemma SuffixKeeps(s: string, d: string)
    requires forall i :: 0 <= i < |s| ==> IsKept(s[i])
    requires |d| <= |s| && d == s[|s| - |d|..]
    ensures forall i :: 0 <= i < |d| ==> IsKept(d[i])
  {
    forall i | 0 <= i < |d|
      ensures IsKept(d[i])
    {
      assert d[i] == s[|s| - |d| + i];
    }
  }

  lemma PrefixKeeps(d: string, t: string)
    requires forall i :: 0 <= i < |d| ==> IsKept(d[i])
    requires t <= d
    ensures |t| <= |d| && forall i :: 0 <= i < |t| ==> IsKept(t[i])
  {
    forall i | 0 <= i < |t|
      ensures IsKept(t[i])
    {
      assert t[i] == d[i];
    }
  }

  lemma {:induction false} CollapseKeeps(s: string)
    requires forall i :: 0 <= i < |s| ==> IsKept(s[i])
    ensures forall i :: 0 <= i < |CollapseSpaces(s)| ==> IsKept(CollapseSpaces(s)[i])
    decreases |s|
  {
    if s != [] {
      if IsJsSpace(s[0]) {
        var d := DropSpaces(s);
        assert forall i :: 0 <= i < |d| ==> d[i] == s[|s| - |d| + i];
        CollapseKeeps(d);
      } else {
        CollapseKeeps(s[1..]);
      }
    }
  }

  /** Only the first line of the text names the file. */
  lemma SanitizeFirstLineOnly(line: string, rest: string)
    requires '\n' !in line
    ensures SanitizeFilename(line + "\n" + rest) == SanitizeFilename(line)
  {
    FirstLineOf(line, rest);
    FirstLineOf(line, []);
    assert line + [] == line;
  }

  lemma {:induction false} FirstLineOf(line: string, rest: string)
    requires '\n' !in line
    ensures FirstLine(line + "\n" + rest) == line
    ensures FirstLine(line) == line
  {
    if line == [] {
      assert line + "\n" + rest == "\n" + rest;
    } else {
      assert (line + "\n" + rest)[1..] == line[1..] + "\n" + rest;
      FirstLineOf(line[1..], rest);
    }
  }

  /** `document` is the fallback exactly when nothing but whitespace
      survives: otherwise the slug is the name. */
  lemma SanitizeFallback(text: string)
    ensures Slug(text) == "" <==> IsBlank(Survivors(text))
    ensures IsBlank(Survivors(text)) ==> SanitizeFilename(text) == "document"
    ensures !IsBlank(Survivors(text)) ==> SanitizeFilename(text) == Slug(text)
  {
    TrimEmpty(Survivors(text));
    CollapseEmpty(Trim(Survivors(text)));
  }

  lemma TrimEmpty(s: string)
    ensures Trim(s) == [] <==> IsBlank(s)
  {
    var d := DropSpaces(s);
    if d != [] {
      assert !IsJsSpace(d[0]) && d[0] == s[|s| - |d|];
      assert DropTrailingSpaces(d) != [];
    }
  }

  lemma CollapseEmpty(s: string)
    ensures CollapseSpaces(s) == [] <==> s == []
  {
  }

  // ---------------------------------------------------------------------
  // A finished name is its own name

  lemma {:induction false} LowerClean(s: string)
    requires forall i :: 0 <= i < |s| ==> IsNameChar(s[i])
    ensures Lower(s) == s
  {
    if s != [] {
      LowerClean(s[1..]);
    }
  }

  lemma {:induction false} FirstLineClean(s: string)
    requires forall i :: 0 <= i < |s| ==> IsNameChar(s[i])
    ensures FirstLine(s) == s
  {
    if s != [] {
      FirstLineClean(s[1..]);
    }
  }

  /** Sanitizing is idempotent: a name it produced comes back unchanged. */
  lemma SanitizeIdempotent(text: string)
    ensures SanitizeFilename(SanitizeFilename(text)) == SanitizeFilename(text)
  {
    var r := SanitizeFilename(text);
    SanitizeFilenameClean(text);
    CleanNameIsFixed(r);
  }

  /** A clean name is its own file name. */
  lemma CleanNameIsFixed(s: string)
    requires IsCleanName(s)
    ensures SanitizeFilename(s) == s
  {
    CleanSurvives(s);
    CleanSlug(s);
  }

  lemma CleanSurvives(s: string)
    requires IsCleanName(s)
    ensures Survivors(s) == s
  {
    FirstLineClean(s);
    assert s[0] != '#' && !IsJsSpace(s[0]);
    assert StripHeadingMarks(s) == s;
    assert Take(s, 30) == s;
    KeepAllKept(s);
  }

  lemma CleanSlug(s: string)
    requires IsCleanName(s)
    ensures Lower(CollapseSpaces(Trim(s))) == s
  {
    assert !IsJsSpace(s[0]) && !IsJsSpace(s[|s| - 1]);
    assert DropSpaces(s) == s;
    assert DropTrailingSpaces(s) == s;
    CollapseNoSpace(s);
    LowerClean(s);
  }

  // ---------------------------------------------------------------------
  // The single steps on concatenations

  lemma DropOneSpace(x: string)
    requires x != [] && !IsJsSpace(x[0])
    ensures DropSpaces([' '] + x) == x
  {
    assert ([' '] + x)[1..] == x;
  }

  /** One character: a kept character is copied, any other dropped. With
      `KeepConcat` this fixes the filter character by character. */
  lemma KeepChar(c: char)
    ensures KeepFilenameChars([c]) == if IsKept(c) then [c] else []
  {
    assert [c][1..] == [];
  }

  lemma {:induction false} KeepConcat(a: string, b: string)
    ensures KeepFilenameChars(a + b) == KeepFilenameChars(a) + KeepFilenameChars(b)
  {
    if a == [] {
      assert a + b == b;
    } else {
      assert (a + b)[1..] == a[1..] + b;
      KeepConcat(a[1..], b);
    }
  }

  lemma {:induction false} KeepAllKept(s: string)
    requires forall i :: 0 <= i < |s| ==> IsKept(s[i])
    ensures KeepFilenameChars(s) == s
  {
    if s != [] {
      KeepAllKept(s[1..]);
    }
  }

  lemma {:induction false} CollapseNoSpace(s: string)
    requires forall i :: 0 <= i < |s| ==> !IsJsSpace(s[i])
    ensures CollapseSpaces(s) == s
    decreases |s|
  {
    if s != [] {
      CollapseNoSpace(s[1..]);
    }
  }

  /** Splitting off the first character, kept apart from the string
      functions so that the solver does not unfold them here. */
  lemma HeadTail(a: string, r: string)
    requires a != []
    ensures [a[0]] + (a[1..] + r) == a + r
  {
    assert a == [a[0]] + a[1..];
  }

  lemma CollapseCons(c: char, x: string)
    requires !IsJsSpace(c)
    ensures CollapseSpaces([c] + x) == [c] + CollapseSpaces(x)
  {
    assert ([c] + x)[1..] == x;
  }

  /** A leading run of whitespace followed by a non-space (or by nothing)
      is dropped whole. */
  lemma {:induction false} DropRun(w: string, x: string)
    requires forall i :: 0 <= i < |w| ==> IsJsSpace(w[i])
    requires x == [] || !IsJsSpace(x[0])
    ensures DropSpaces(w + x) == x
    decreases |w|
  {
    if w == [] {
      assert w + x == x;
    } else {
      assert (w + x)[0] == w[0];
      assert (w + x)[1..] == w[1..] + x;
      DropRun(w[1..], x);
    }
  }

  /** A maximal run of whitespace becomes exactly one `-`. */
  lemma CollapseRun(w: string, x: string)
    requires w != [] && forall i :: 0 <= i < |w| ==> IsJsSpace(w[i])
    requires x == [] || !IsJsSpace(x[0])
    ensures CollapseSpaces(w + x) == "-" + CollapseSpaces(x)
  {
    assert (w + x)[0] == w[0];
    DropRun(w, x);
  }

  lemma {:induction false} CollapseConcat(a: string, b: string)
    requires forall i :: 0 <= i < |a| ==> !IsJsSpace(a[i])
    ensures CollapseSpaces(a + b) == a + CollapseSpaces(b)
    decreases |a|
  {
    if a == [] {
      assert a + b == b;
    } else {
      CollapseConcat(a[1..], b);
      HeadTail(a, b);
      CollapseCons(a[0], a[1..] + b);
      HeadTail(a, CollapseSpaces(b));
    }
  }

  // ---------------------------------------------------------------------
  // A worked example: a heading of two words

  /** A non-empty run of ASCII letters. */
  predicate IsWord(s: string)
  {
    s != [] && forall i :: 0 <= i < |s| ==> IsAsciiUpper(s[i]) || IsAsciiLower(s[i])
  }

  lemma CollapseOneSpace(b: string)
    requires IsWord(b)
    ensures CollapseSpaces([' '] + b) == ['-'] + b
  {
    assert ([' '] + b)[0] == ' ';
    DropOneSpace(b);
    CollapseNoSpace(b);
  }

  lemma CollapseTwoWords(a: string, b: string)
    requires IsWord(a) && IsWord(b)
    ensures CollapseSpaces(a + ([' '] + b)) == a + (['-'] + b)
  {
    CollapseConcat(a, [' '] + b);
    CollapseOneSpace(b);
  }

  lemma TrimTwoWords(a: string, b: string)
    requires IsWord(a) && IsWord(b)
    ensures Trim(a + ([' '] + (b + [' ']))) == a + ([' '] + b)
  {
    var k := a + ([' '] + (b + [' ']));
    assert k[0] == a[0];
    assert DropSpaces(k) == k;
    assert k[..|k| - 1] == a + ([' '] + b);
    var m := a + ([' '] + b);
    assert m[|m| - 1] == b[|b| - 1];
    assert DropTrailingSpaces(m) == m;
  }

  lemma KeepPunctuation()
    ensures !IsKept(',') && !IsKept('!') && IsKept(' ')
  {
  }

  lemma KeepDropsOne(c: char, x: string)
    requires !IsKept(c)
    ensures KeepFilenameChars([c] + x) == KeepFilenameChars(x)
  {
    assert ([c] + x)[1..] == x;
  }

  lemma KeepKeepsOne(c: char, x: string)
    requires IsKept(c)
    ensures KeepFilenameChars([c] + x) == [c] + KeepFilenameChars(x)
  {
    assert ([c] + x)[1..] == x;
  }

  lemma KeepSecondWord(b: string)
    requires IsWord(b)
    ensures KeepFilenameChars(b + (['!'] + [' '])) == b + [' ']
  {
    KeepPunctuation();
    KeepConcat(b, ['!'] + [' ']);
    KeepAllKept(b);
    KeepDropsOne('!', [' ']);
    KeepAllKept([' ']);
  }

  lemma KeepPieces(a: string, b: string)
    requires IsWord(a) && IsWord(b)
    ensures KeepFilenameChars(a + ([','] + ([' '] + (b + (['!'] + [' ']))))) == a + ([' '] + (b + [' ']))
  {
    var tail := b + (['!'] + [' ']);
    KeepPunctuation();
    KeepConcat(a, [','] + ([' '] + tail));
    KeepAllKept(a);
    KeepDropsOne(',', [' '] + tail);
    KeepKeepsOne(' ', tail);
    KeepSecondWord(b);
  }

  lemma StripPieces(a: string, rest: string)
    requires IsWord(a) && |a| + |rest| <= 30 && '\n' !in a + rest
    ensures Take(StripHeadingMarks(FirstLine(['#'] + ([' '] + (a + rest)))), 30) == a + rest
  {
    var s := a + rest;
    var t := ['#'] + ([' '] + s);
    assert '\n' !in t;
    FirstLineOf(t, "");
    assert t[1..] == [' '] + s;
    assert ([' '] + s)[0] == ' ';
    assert DropHashes(t) == [' '] + s;
    assert s[0] == a[0];
    DropOneSpace(s);
  }

  lemma HelloWorldAreWords()
    ensures IsWord("Hello") && IsWord("World")
  {
  }

  lemma ExampleText(a: string, b: string)
    ensures "# " + a + ", " + b + "! " == ['#'] + ([' '] + (a + ([','] + ([' '] + (b + (['!'] + [' ']))))))
  {
  }

  /** A heading `# A, B! ` of two words is named `a-b`. */
  lemma SanitizeGreeting(a: string, b: string)
    requires IsWord(a) && IsWord(b) && |a| + |b| <= 26
    ensures SanitizeFilename("# " + a + ", " + b + "! ") == Lower(a + (['-'] + b))
  {
    var rest := [','] + ([' '] + (b + (['!'] + [' '])));
    ExampleText(a, b);
    StripPieces(a, rest);
    KeepPieces(a, b);
    TrimTwoWords(a, b);
    CollapseTwoWords(a, b);
  }

  lemma HelloWorldLower()
    ensures Lower("Hello" + (['-'] + "World")) == "hello-world"
  {
    assert "Hello" + (['-'] + "World") == "Hello-World";
  }

  lemma SanitizeExample(text: string)
    requires text == "# Hello, World! "
    ensures SanitizeFilename(text) == "hello-world"
  {
    HelloWorldAreWords();
    HelloWorldText(text);
    SanitizeGreeting("Hello", "World");
    HelloWorldLower();
  }

  lemma HelloWorldText(text: string)
    requires text == "# Hello, World! "
    ensures text == "# " + "Hello" + ", " + "World" + "! "
  {
  }
}
