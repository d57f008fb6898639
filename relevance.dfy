/** The brand relevance gate `_is_relevant` of harvesters.py: a text is about the
    brand when, lower-cased, it holds one of four phrases as a whole word
    (`\bphrase\b`). */
module Relevance {
  import opened Text

  /** The four patterns, without their `\b` anchors. */
  const Phrases: seq<string> := ["leapscholar", "leap scholar", "leap finance", "leap ielts"]

  /** `\b` p `\b` matches in t at position i. Every phrase starts and ends with a
      word character, so each `\b` asks for a non-word neighbour or an end of t. */
  predicate WholeWordAt(t: string, i: int, p: string) {
    && 0 <= i && i + |p| <= |t| && t[i..i + |p|] == p
    && (i == 0 || !IsWordChar(t[i - 1]))
    && (i + |p| == |t| || !IsWordChar(t[i + |p|]))
  }

  /** `re.search(r'\b' + p + r'\b', t)` finds a match. */
  predicate ContainsWholeWord(t: string, p: string) {
    exists i | 0 <= i <= |t| - |p| :: WholeWordAt(t, i, p)
  }

  /** `_is_relevant(text)`: false on the empty text, otherwise `any` pattern matches
      the lower-cased text. */
  predicate IsRelevant(text: string) {
    && text != ""
    && exists k | 0 <= k < |Phrases| :: ContainsWholeWord(Lower(text), Phrases[k])
  }

  // ---------------------------------------------------------------------------

  lemma LowerCharKeepsWordChar(c: char)
    ensures IsWordChar(LowerChar(c)) == IsWordChar(c)
  {
  }

  /** The gate ignores case: two texts that lower-case alike are judged alike. */
  lemma RelevanceIgnoresCase(a: string, b: string)
    requires Lower(a) == Lower(b)
    ensures IsRelevant(a) == IsRelevant(b)
  {
    assert |a| == |Lower(a)| == |Lower(b)| == |b|;
  }

  /** The empty text is never relevant. */
  lemma EmptyIsIrrelevant()
    ensures !IsRelevant("")
  {
  }

  /** "LeapScholar" in any casing, standing as a whole word, makes a text relevant. */
  lemma BrandInAnyCaseIsRelevant(text: string, i: int)
    requires 0 <= i && i + 11 <= |text|
    requires Lower(text[i..i + 11]) == "leapscholar"
    requires i == 0 || !IsWordChar(text[i - 1])
    requires i + 11 == |text| || !IsWordChar(text[i + 11])
    ensures IsRelevant(text)
  {
    var t := Lower(text);
    assert t[i..i + 11] == Lower(text[i..i + 11]);
    if i > 0 { LowerCharKeepsWordChar(text[i - 1]); }
    if i + 11 < |text| { LowerCharKeepsWordChar(text[i + 11]); }
    assert WholeWordAt(t, i, Phrases[0]);
  }

  /** A phrase does not match at i when one of its characters differs from the text. */
  lemma Mismatch(t: string, i: int, p: string, j: int)
    requires 0 <= j < |p| && 0 <= i && i + j < |t| && t[i + j] != p[j]
    ensures !WholeWordAt(t, i, p)
  {
  }

  lemma PluralMissesFirstPhrase()
    ensures !ContainsWholeWord("leapscholars", Phrases[0])
  {
    var t := "leapscholars";
    assert !WholeWordAt(t, 0, Phrases[0]) by {
      assert IsWordChar(t[11]);
    }
    Mismatch(t, 1, Phrases[0], 0);
  }

  lemma PluralMissesOtherPhrases()
    ensures !ContainsWholeWord("leapscholars", Phrases[1])
    ensures !ContainsWholeWord("leapscholars", Phrases[2])
    ensures !ContainsWholeWord("leapscholars", Phrases[3])
  {
    var t := "leapscholars";
    Mismatch(t, 0, Phrases[1], 4);
    Mismatch(t, 0, Phrases[2], 4);
    Mismatch(t, 0, Phrases[3], 4);
    Mismatch(t, 1, Phrases[3], 0);
    Mismatch(t, 2, Phrases[3], 0);
  }

  /** Matches must be whole words: "leapscholars" on its own is rejected. */
  lemma PluralIsIrrelevant()
    ensures !IsRelevant("leapscholars")
  {
    assert Lower("leapscholars") == "leapscholars";
    PluralMissesFirstPhrase();
    PluralMissesOtherPhrases();
  }

  lemma LowerAppend(a: string, b: string)
    ensures Lower(a + b) == Lower(a) + Lower(b)
  {
  }

  lemma WholeWordBeforeSeparator(t: string, c: string, i: int, p: string)
    requires WholeWordAt(t, i, p)
    requires c == [] || !IsWordChar(c[0])
    ensures WholeWordAt(t + c, i, p)
  {
    assert (t + c)[i..i + |p|] == t[i..i + |p|];
    if i > 0 { assert (t + c)[i - 1] == t[i - 1]; }
    if i + |p| < |t| { assert (t + c)[i + |p|] == t[i + |p|]; }
  }

  lemma WholeWordAfterSeparator(c: string, t: string, i: int, p: string)
    requires WholeWordAt(t, i, p)
    requires c == [] || !IsWordChar(c[|c| - 1])
    ensures WholeWordAt(c + t, |c| + i, p)
  {
    var j := |c| + i;
    assert (c + t)[j..j + |p|] == t[i..i + |p|];
    if i > 0 { assert (c + t)[j - 1] == t[i - 1]; }
    if i + |p| < |t| { assert (c + t)[j + |p|] == t[i + |p|]; }
  }

  /** Text appended after a non-word character does not hide a match. */
  lemma RelevantBeforeSeparator(a: string, b: string)
    requires IsRelevant(a)
    requires b == [] || !IsWordChar(b[0])
    ensures IsRelevant(a + b)
  {
    var k, i :| 0 <= k < |Phrases| && 0 <= i <= |a| - |Phrases[k]| && WholeWordAt(Lower(a), i, Phrases[k]);
    LowerAppend(a, b);
    if b != [] { LowerCharKeepsWordChar(b[0]); }
    WholeWordBeforeSeparator(Lower(a), Lower(b), i, Phrases[k]);
    assert ContainsWholeWord(Lower(a + b), Phrases[k]);
  }

  /** Text prepended before a non-word character does not hide a match. */
  lemma RelevantAfterSeparator(a: string, b: string)
    requires IsRelevant(b)
    requires a == [] || !IsWordChar(a[|a| - 1])
    ensures IsRelevant(a + b)
  {
    var k, i :| 0 <= k < |Phrases| && 0 <= i <= |b| - |Phrases[k]| && WholeWordAt(Lower(b), i, Phrases[k]);
    LowerAppend(a, b);
    if a != [] { LowerCharKeepsWordChar(a[|a| - 1]); }
    WholeWordAfterSeparator(Lower(a), Lower(b), i, Phrases[k]);
    assert ContainsWholeWord(Lower(a + b), Phrases[k]);
  }
}
