/** `escapeXml` of the ODT exporter (script.js:528-535): the five predefined
    XML entities, substituted one after the other with `&` first. */
module XmlEscape {
  import opened Strings

  /** The five characters, in the order the source substitutes them. */
  const Specials: seq<char> := ['&', '<', '>', '"', '\'']

  /** The entity each of them becomes, index for index. */
  const Entities: seq<string> := ["&amp;", "&lt;", "&gt;", "&quot;", "&apos;"]

  /** `escapeXml(str)`: five global replacements, `&` first. */
  function EscapeXml(s: string): string
  {
    ReplaceAll(ReplaceAll(ReplaceAll(ReplaceAll(ReplaceAll(
      s, "&", "&amp;"), "<", "&lt;"), ">", "&gt;"), "\"", "&quot;"), "'", "&apos;")
  }

  /** The five substitutions undone in reverse order, `&amp;` last. */
  function UnescapeXml(s: string): string
  {
    ReplaceAll(ReplaceAll(ReplaceAll(ReplaceAll(ReplaceAll(
      s, "&apos;", "'"), "&quot;", "\""), "&gt;", ">"), "&lt;", "<"), "&amp;", "&")
  }

  /** The position of `c` among the five special characters, 5 if it is not one. */
  function SpecialIndex(c: char): (k: nat)
    ensures k <= 5
    ensures k < 5 ==> Specials[k] == c
    ensures k == 5 <==> c !in Specials
  {
    if c == '&' then 0 else if c == '<' then 1 else if c == '>' then 2
    else if c == '"' then 3 else if c == '\'' then 4 else 5
  }

  /** What `c` has become once the first `k` substitutions have run. */
  function StageChar(k: nat, c: char): string
    requires k <= 5
  {
    if SpecialIndex(c) < k then Entities[SpecialIndex(c)] else [c]
  }

  /** The string after the first `k` substitutions, character by character. */
  function Staged(k: nat, s: string): string
    requires k <= 5
  {
    if s == [] then [] else StageChar(k, s[0]) + Staged(k, s[1..])
  }

  /** `t` begins with one of the five entities. */
  predicate StartsWithEntity(t: string)
  {
    exists k :: 0 <= k < 5 && Entities[k] <= t
  }

  lemma EntityShape(j: nat)
    requires j < 5
    ensures |Entities[j]| >= 4 && Entities[j][0] == '&'
    ensures forall i :: 1 <= i < |Entities[j]| ==> Entities[j][i] != '&'
    ensures '<' !in Entities[j] && '>' !in Entities[j] && '"' !in Entities[j] && '\'' !in Entities[j]
  {
  }

  /** Two different entities disagree after their common `&`. */
  lemma EntitiesDiffer(j: nat, k: nat)
    requires j < 5 && k < 5 && j != k
    ensures exists i :: 0 < i < |Entities[j]| && i < |Entities[k]| && Entities[j][i] != Entities[k][i]
  {
    var i := if (j == 0 && k == 4) || (j == 4 && k == 0) then 2 else 1;
    assert Entities[j][i] != Entities[k][i];
  }

  lemma {:induction false} StagedNone(s: string)
    ensures Staged(0, s) == s
  {
    if s != [] {
      StagedNone(s[1..]);
    }
  }

  lemma {:induction false} StagedConcat(k: nat, a: string, b: string)
    requires k <= 5
    ensures Staged(k, a + b) == Staged(k, a) + Staged(k, b)
  {
    if a == [] {
      assert a + b == b;
    } else {
      assert (a + b)[1..] == a[1..] + b;
      StagedConcat(k, a[1..], b);
    }
  }

  /** Substitution number `k` turns stage `k` into stage `k + 1`. */
  lemma {:induction false} SubstituteStep(k: nat, s: string)
    requires k < 5
    ensures ReplaceAll(Staged(k, s), [Specials[k]], Entities[k]) == Staged(k + 1, s)
  {
    if s != [] {
      var d := s[0];
      var t := StageChar(k, d);
      ReplaceCharConcat(t, Staged(k, s[1..]), Specials[k], Entities[k]);
      SubstituteStep(k, s[1..]);
      if SpecialIndex(d) == k {
        ReplaceCharSelf(d, Entities[k]);
      } else if SpecialIndex(d) < k {
        EntityShape(SpecialIndex(d));
        ReplaceCharAbsent(t, Specials[k], Entities[k]);
      } else {
        ReplaceCharAbsent(t, Specials[k], Entities[k]);
      }
    }
  }

  /** Undoing substitution number `k` turns stage `k + 1` back into stage `k`. */
  lemma {:induction false} RestoreStep(k: nat, s: string)
    requires k < 5
    ensures ReplaceAll(Staged(k + 1, s), Entities[k], [Specials[k]]) == Staged(k, s)
  {
    if s != [] {
      var d := s[0];
      var t := StageChar(k + 1, d);
      var rest := Staged(k + 1, s[1..]);
      RestoreStep(k, s[1..]);
      EntityShape(k);
      if SpecialIndex(d) == k {
        ReplaceAtPattern(Entities[k], [Specials[k]], rest);
      } else {
        assert t == StageChar(k, d);
        if SpecialIndex(d) < k {
          EntityShape(SpecialIndex(d));
          EntitiesDiffer(SpecialIndex(d), k);
        } else {
          assert d != '&';
        }
        ReplacePassThrough(Entities[k], [Specials[k]], t, rest);
      }
    }
  }

  /** The chain of replacements is a character-by-character substitution:
      since `&` goes first, no entity is ever escaped a second time. */
  lemma EscapeXmlPerChar(s: string)
    ensures EscapeXml(s) == Staged(5, s)
  {
    StagedNone(s);
    SubstituteStep(0, s);
    SubstituteStep(1, s);
    SubstituteStep(2, s);
    SubstituteStep(3, s);
    SubstituteStep(4, s);
  }

  /** Reversing the five substitutions, `&amp;` last, recovers the text. */
  lemma XmlRoundTrip(s: string)
    ensures UnescapeXml(EscapeXml(s)) == s
  {
    EscapeXmlPerChar(s);
    RestoreQuotes(s);
    RestoreRest(s);
  }

  /** The first two undoings bring the text back to stage 3. */
  lemma RestoreQuotes(s: string)
    ensures ReplaceAll(ReplaceAll(Staged(5, s), "&apos;", "'"), "&quot;", "\"") == Staged(3, s)
  {
    RestoreStep(4, s);
    RestoreStep(3, s);
  }

  /** The last three bring stage 3 back to the text. */
  lemma RestoreRest(s: string)
    ensures ReplaceAll(ReplaceAll(ReplaceAll(Staged(3, s), "&gt;", ">"), "&lt;", "<"), "&amp;", "&") == s
  {
    RestoreStep(2, s);
    RestoreStep(1, s);
    RestoreStep(0, s);
    StagedNone(s);
  }

  lemma {:induction false} StagedSafe(s: string)
    ensures var r := Staged(5, s);
      && '<' !in r && '>' !in r && '"' !in r && '\'' !in r
      && forall i :: 0 <= i < |r| && r[i] == '&' ==> StartsWithEntity(r[i..])
  {
    if s != [] {
      var t := StageChar(5, s[0]);
      var rest := Staged(5, s[1..]);
      var r := t + rest;
      StagedSafe(s[1..]);
      if SpecialIndex(s[0]) < 5 {
        EntityShape(SpecialIndex(s[0]));
      }
      forall i | 0 <= i < |r| && r[i] == '&'
        ensures StartsWithEntity(r[i..])
      {
        if i < |t| {
          assert i == 0 && SpecialIndex(s[0]) < 5;
          assert Entities[SpecialIndex(s[0])] <= r[i..];
        } else {
          assert r[i..] == rest[i - |t|..];
          assert rest[i - |t|] == '&';
        }
      }
    }
  }

  /** The escaped text holds no raw `<`, `>`, `"` or `'`, and every `&` in it
      begins one of the five entities. */
  lemma EscapeXmlSafe(s: string)
    ensures var r := EscapeXml(s);
      && '<' !in r && '>' !in r && '"' !in r && '\'' !in r
      && forall i :: 0 <= i < |r| && r[i] == '&' ==> StartsWithEntity(r[i..])
  {
    EscapeXmlPerChar(s);
    StagedSafe(s);
  }

  /** Escaping text piece by piece is escaping the whole. */
  lemma EscapeXmlConcat(a: string, b: string)
    ensures EscapeXml(a + b) == EscapeXml(a) + EscapeXml(b)
  {
    EscapeXmlPerChar(a + b);
    EscapeXmlPerChar(a);
    EscapeXmlPerChar(b);
    StagedConcat(5, a, b);
  }

  lemma {:induction false} StagedPlain(s: string)
    requires forall i :: 0 <= i < |s| ==> s[i] !in Specials
    ensures Staged(5, s) == s
  {
    if s != [] {
      StagedPlain(s[1..]);
    }
  }

  /** Text without any of the five characters is left as it is. */
  lemma EscapeXmlPlain(s: string)
    requires forall i :: 0 <= i < |s| ==> s[i] !in Specials
    ensures EscapeXml(s) == s
  {
    EscapeXmlPerChar(s);
    StagedPlain(s);
  }
}
