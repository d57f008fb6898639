/** `clean_text` of engine.py: three regular-expression passes over one string,
    stated as left-to-right scans, then the whitespace collapse and `strip()`.

      pass 1  `re.sub(r'http\S+|www\.\S+', '', s)`   StripUrls
      pass 2  `re.sub(r'@\w+', '', s)`               StripMentions
      pass 3  `re.sub(r'\s+', ' ', s).strip()`       Strip(Collapse(s))

    Run in that order (CleanTextAsWritten) the passes are not idempotent: removing a
    mention can splice `www` and `.x` into a new URL. The rest of the model uses
    CleanTextAsWritten; CleanText, which strips URLs once more after the mentions,
    is the corrected version that the finding proposes. */
module TextCleaning {
  import opened Text

  // ---------------------------------------------------------------------------
  // The patterns, position by position

  /** `http\S+` or `www\.\S+` matches at position i. */
  predicate UrlAt(s: string, i: int) {
    && 0 <= i && i + 4 < |s| && !IsSpace(s[i + 4])
    && ((s[i] == 'h' && s[i + 1] == 't' && s[i + 2] == 't' && s[i + 3] == 'p')
        || (s[i] == 'w' && s[i + 1] == 'w' && s[i + 2] == 'w' && s[i + 3] == '.'))
  }

  /** `@\w+` matches at position i. */
  predicate MentionAt(s: string, i: int) {
    0 <= i && i + 1 < |s| && s[i] == '@' && IsWordChar(s[i + 1])
  }

  predicate UrlFree(s: string) {
    forall i :: 0 <= i < |s| ==> !UrlAt(s, i)
  }

  predicate MentionFree(s: string) {
    forall i :: 0 <= i < |s| ==> !MentionAt(s, i)
  }

  /** Every whitespace character is a plain space and is not followed by another. */
  predicate SingleSpaced(s: string) {
    forall i :: 0 <= i < |s| && IsSpace(s[i]) ==> s[i] == ' ' && (i + 1 < |s| ==> !IsSpace(s[i + 1]))
  }

  predicate Trimmed(s: string) {
    s == [] || (!IsSpace(s[0]) && !IsSpace(s[|s| - 1]))
  }

  // ---------------------------------------------------------------------------
  // Greedy runs: what is left after a `\S+`, `\w+` or `\s+` match

  function DropNonSpace(s: string): (r: string)
    ensures |r| <= |s| && r == s[|s| - |r|..]
    ensures r == [] || IsSpace(r[0])
  {
    if s == [] || IsSpace(s[0]) then s else DropNonSpace(s[1..])
  }

  function DropWordRun(s: string): (r: string)
    ensures |r| <= |s| && r == s[|s| - |r|..]
    ensures r == [] || !IsWordChar(r[0])
  {
    if s == [] || !IsWordChar(s[0]) then s else DropWordRun(s[1..])
  }

  function DropSpace(s: string): (r: string)
    ensures |r| <= |s| && r == s[|s| - |r|..]
    ensures r == [] || !IsSpace(r[0])
  {
    if s == [] || !IsSpace(s[0]) then s else DropSpace(s[1..])
  }

  function DropTrailingSpace(s: string): (r: string)
    ensures |r| <= |s| && r == s[..|r|]
    ensures r == [] || !IsSpace(r[|r| - 1])
  {
    if s != [] && IsSpace(s[|s| - 1]) then DropTrailingSpace(s[..|s| - 1]) else s
  }

  // ---------------------------------------------------------------------------
  // The passes

  /** Pass 1: every URL match is deleted, scanning left to right. */
  function StripUrls(s: string): string
    decreases |s|
  {
    if s == [] then []
    else if UrlAt(s, 0) then StripUrls(DropNonSpace(s[4..]))
    else [s[0]] + StripUrls(s[1..])
  }

  /** Pass 2: every mention is deleted, scanning left to right. */
  function StripMentions(s: string): string
    decreases |s|
  {
    if s == [] then []
    else if MentionAt(s, 0) then StripMentions(DropWordRun(s[1..]))
    else [s[0]] + StripMentions(s[1..])
  }

  /** `re.sub(r'\s+', ' ', s)`: each maximal whitespace run becomes one space. */
  function Collapse(s: string): string
    decreases |s|
  {
    if s == [] then []
    else if IsSpace(s[0]) then [' '] + Collapse(DropSpace(s))
    else [s[0]] + Collapse(s[1..])
  }

  /** `str.strip()`. */
  function Strip(s: string): string {
    DropTrailingSpace(DropSpace(s))
  }

  /** `clean_text` exactly as engine.py:63-72 writes it. */
  function CleanTextAsWritten(s: string): string {
    Strip(Collapse(StripMentions(StripUrls(s))))
  }

  /** `clean_text` with URLs stripped again after the mentions, so that its result
      holds neither pattern. */
  function CleanText(s: string): string {
    Strip(Collapse(StripUrls(StripMentions(StripUrls(s)))))
  }

  // ---------------------------------------------------------------------------
  // Closure of the pattern-free predicates

  lemma UrlFreeSuffix(s: string, k: nat)
    requires UrlFree(s) && k <= |s|
    ensures UrlFree(s[k..])
  {
    forall i | 0 <= i < |s| - k ensures !UrlAt(s[k..], i) {
      assert !UrlAt(s, i + k);
    }
  }

  lemma UrlFreePrefix(s: string, k: nat)
    requires UrlFree(s) && k <= |s|
    ensures UrlFree(s[..k])
  {
    forall i | 0 <= i < k ensures !UrlAt(s[..k], i) {
      assert !UrlAt(s, i);
    }
  }

  lemma MentionFreeSuffix(s: string, k: nat)
    requires MentionFree(s) && k <= |s|
    ensures MentionFree(s[k..])
  {
    forall i | 0 <= i < |s| - k ensures !MentionAt(s[k..], i) {
      assert !MentionAt(s, i + k);
    }
  }

  lemma MentionFreePrefix(s: string, k: nat)
    requires MentionFree(s) && k <= |s|
    ensures MentionFree(s[..k])
  {
    forall i | 0 <= i < k ensures !MentionAt(s[..k], i) {
      assert !MentionAt(s, i);
    }
  }

  /** A pattern-free tail stays pattern-free behind a character that does not start a match. */
  lemma UrlFreeCons(c: char, r: string)
    requires UrlFree(r) && !UrlAt([c] + r, 0)
    ensures UrlFree([c] + r)
  {
    forall i | 1 <= i < |r| + 1 ensures !UrlAt([c] + r, i) {
      assert !UrlAt(r, i - 1);
    }
  }

  lemma MentionFreeCons(c: char, r: string)
    requires MentionFree(r) && !MentionAt([c] + r, 0)
    ensures MentionFree([c] + r)
  {
    forall i | 1 <= i < |r| + 1 ensures !MentionAt([c] + r, i) {
      assert !MentionAt(r, i - 1);
    }
  }

  // ---------------------------------------------------------------------------
  // What a pass leaves at the front of its result

  lemma StripUrlsSpaceStart(t: string)
    requires t == [] || IsSpace(t[0])
    ensures StripUrls(t) == [] || IsSpace(StripUrls(t)[0])
  {
  }

  /** A non-space prefix of StripUrls(t) is copied unchanged from t: after a
      deleted URL the result resumes at whitespace or ends. */
  lemma {:induction false} StripUrlsPrefix(t: string, n: nat)
    requires n <= |StripUrls(t)|
    requires forall k :: 0 <= k < n ==> !IsSpace(StripUrls(t)[k])
    ensures n <= |t| && StripUrls(t)[..n] == t[..n]
    decreases |t|
  {
    if t == [] || n == 0 {
    } else if UrlAt(t, 0) {
      StripUrlsSpaceStart(DropNonSpace(t[4..]));
    } else {
      var r := StripUrls(t[1..]);
      assert StripUrls(t) == [t[0]] + r;
      assert forall k :: 0 <= k < n - 1 ==> r[k] == StripUrls(t)[k + 1];
      StripUrlsPrefix(t[1..], n - 1);
      assert StripUrls(t)[..n] == [t[0]] + r[..n - 1];
    }
  }

  /** StripMentions never resumes on a word character it did not start on. */
  lemma {:induction false} StripMentionsNonWordStart(t: string)
    requires t == [] || !IsWordChar(t[0])
    ensures StripMentions(t) == [] || !IsWordChar(StripMentions(t)[0])
    decreases |t|
  {
    if t != [] && MentionAt(t, 0) {
      StripMentionsNonWordStart(DropWordRun(t[1..]));
    }
  }

  lemma CollapseSpaceStart(t: string)
    requires t != [] && IsSpace(t[0])
    ensures Collapse(t) != [] && Collapse(t)[0] == ' '
  {
  }

  lemma {:induction false} CollapsePrefix(t: string, n: nat)
    requires n <= |Collapse(t)|
    requires forall k :: 0 <= k < n ==> !IsSpace(Collapse(t)[k])
    ensures n <= |t| && Collapse(t)[..n] == t[..n]
    decreases |t|
  {
    if t == [] || n == 0 {
    } else if IsSpace(t[0]) {
      CollapseSpaceStart(t);
    } else {
      var c := Collapse(t[1..]);
      assert Collapse(t) == [t[0]] + c;
      assert forall k :: 0 <= k < n - 1 ==> c[k] == Collapse(t)[k + 1];
      CollapsePrefix(t[1..], n - 1);
      assert Collapse(t)[..n] == [t[0]] + c[..n - 1];
    }
  }

  lemma CollapseNonSpaceStart(t: string)
    requires t == [] || !IsSpace(t[0])
    ensures Collapse(t) == [] || !IsSpace(Collapse(t)[0])
  {
  }

  // ---------------------------------------------------------------------------
  // Each pass removes its own pattern and does not bring back the other

  /** Whether a URL starts at the front depends only on the first five characters. */
  lemma NoUrlAtHeadCons(s: string, r: string)
    requires s != [] && !UrlAt(s, 0)
    requires |r| >= 4 && !IsSpace(r[0]) && !IsSpace(r[1]) && !IsSpace(r[2]) && !IsSpace(r[3]) ==>
      |s| >= 5 && r[..4] == s[1..5]
    ensures !UrlAt([s[0]] + r, 0)
  {
    var x := [s[0]] + r;
    if |r| >= 4 && !IsSpace(r[0]) && !IsSpace(r[1]) && !IsSpace(r[2]) && !IsSpace(r[3]) {
      assert x[1] == s[1] && x[2] == s[2] && x[3] == s[3] && x[4] == s[4];
    } else {
      assert |x| < 5 || IsSpace(x[1]) || IsSpace(x[2]) || IsSpace(x[3]) || IsSpace(x[4]);
    }
  }

  /** A character StripUrls keeps does not start a URL in the result either. */
  lemma StripUrlsNoUrlAtHead(s: string)
    requires s != [] && !UrlAt(s, 0)
    ensures !UrlAt([s[0]] + StripUrls(s[1..]), 0)
  {
    var r := StripUrls(s[1..]);
    if |r| >= 4 && !IsSpace(r[0]) && !IsSpace(r[1]) && !IsSpace(r[2]) && !IsSpace(r[3]) {
      StripUrlsPrefix(s[1..], 4);
      assert r[..4] == s[1..5];
    }
    NoUrlAtHeadCons(s, r);
  }

  lemma {:induction false} StripUrlsUrlFree(s: string)
    ensures UrlFree(StripUrls(s))
    decreases |s|
  {
    if s == [] {
    } else if UrlAt(s, 0) {
      StripUrlsUrlFree(DropNonSpace(s[4..]));
    } else {
      StripUrlsUrlFree(s[1..]);
      StripUrlsNoUrlAtHead(s);
      UrlFreeCons(s[0], StripUrls(s[1..]));
    }
  }

  lemma {:induction false} StripMentionsMentionFree(s: string)
    ensures MentionFree(StripMentions(s))
    decreases |s|
  {
    if s == [] {
    } else if MentionAt(s, 0) {
      StripMentionsMentionFree(DropWordRun(s[1..]));
    } else {
      var t := s[1..];
      StripMentionsMentionFree(t);
      if t != [] && MentionAt(t, 0) {
        StripMentionsNonWordStart(DropWordRun(t[1..]));
      }
      MentionFreeCons(s[0], StripMentions(t));
    }
  }

  lemma {:induction false} StripUrlsKeepsMentionFree(s: string)
    requires MentionFree(s)
    ensures MentionFree(StripUrls(s))
    decreases |s|
  {
    if s == [] {
    } else if UrlAt(s, 0) {
      var d := DropNonSpace(s[4..]);
      MentionFreeSuffix(s, |s| - |d|);
      StripUrlsKeepsMentionFree(d);
    } else {
      var r := StripUrls(s[1..]);
      MentionFreeSuffix(s, 1);
      StripUrlsKeepsMentionFree(s[1..]);
      if MentionAt([s[0]] + r, 0) {
        StripUrlsPrefix(s[1..], 1);
        assert MentionAt(s, 0);
      }
      MentionFreeCons(s[0], r);
    }
  }

  lemma {:induction false} CollapseKeepsPatternFree(s: string)
    ensures UrlFree(s) ==> UrlFree(Collapse(s))
    ensures MentionFree(s) ==> MentionFree(Collapse(s))
    decreases |s|
  {
    if s == [] {
    } else if IsSpace(s[0]) {
      var d := DropSpace(s);
      CollapseKeepsPatternFree(d);
      if UrlFree(s) {
        UrlFreeSuffix(s, |s| - |d|);
        UrlFreeCons(' ', Collapse(d));
      }
      if MentionFree(s) {
        MentionFreeSuffix(s, |s| - |d|);
        MentionFreeCons(' ', Collapse(d));
      }
    } else {
      var c := Collapse(s[1..]);
      CollapseKeepsPatternFree(s[1..]);
      if UrlFree(s) {
        UrlFreeSuffix(s, 1);
        if UrlAt([s[0]] + c, 0) {
          CollapsePrefix(s[1..], 4);
          assert c[..4] == s[1..5];
          assert UrlAt(s, 0);
        }
        UrlFreeCons(s[0], c);
      }
      if MentionFree(s) {
        MentionFreeSuffix(s, 1);
        if MentionAt([s[0]] + c, 0) {
          CollapsePrefix(s[1..], 1);
          assert MentionAt(s, 0);
        }
        MentionFreeCons(s[0], c);
      }
    }
  }

  lemma StripKeepsPatternFree(s: string)
    ensures UrlFree(s) ==> UrlFree(Strip(s))
    ensures MentionFree(s) ==> MentionFree(Strip(s))
  {
    var d := DropSpace(s);
    if UrlFree(s) {
      UrlFreeSuffix(s, |s| - |d|);
      UrlFreePrefix(d, |DropTrailingSpace(d)|);
    }
    if MentionFree(s) {
      MentionFreeSuffix(s, |s| - |d|);
      MentionFreePrefix(d, |DropTrailingSpace(d)|);
    }
  }

  // ---------------------------------------------------------------------------
  // Whitespace shape

  lemma {:induction false} CollapseSingleSpaced(s: string)
    ensures SingleSpaced(Collapse(s))
    decreases |s|
  {
    if s == [] {
    } else if IsSpace(s[0]) {
      var d := DropSpace(s);
      CollapseSingleSpaced(d);
      CollapseNonSpaceStart(d);
      var c := Collapse(d);
      forall i | 0 <= i < |c| + 1 && IsSpace(([' '] + c)[i])
        ensures ([' '] + c)[i] == ' ' && (i + 1 < |c| + 1 ==> !IsSpace(([' '] + c)[i + 1]))
      {
        if i > 0 { assert c[i - 1] == ([' '] + c)[i]; }
      }
    } else {
      CollapseSingleSpaced(s[1..]);
      var c := Collapse(s[1..]);
      forall i | 0 <= i < |c| + 1 && IsSpace(([s[0]] + c)[i])
        ensures ([s[0]] + c)[i] == ' ' && (i + 1 < |c| + 1 ==> !IsSpace(([s[0]] + c)[i + 1]))
      {
        assert i > 0 && c[i - 1] == ([s[0]] + c)[i];
      }
    }
  }

  lemma StripShape(s: string)
    ensures Trimmed(Strip(s))
    ensures SingleSpaced(s) ==> SingleSpaced(Strip(s))
  {
    var d := DropSpace(s);
    var r := DropTrailingSpace(d);
    assert r == d[..|r|];
    if r != [] { assert r[0] == d[0]; }
    if SingleSpaced(s) {
      forall i | 0 <= i < |r| && IsSpace(r[i]) ensures r[i] == ' ' && (i + 1 < |r| ==> !IsSpace(r[i + 1])) {
        assert r[i] == s[|s| - |d| + i];
        if i + 1 < |r| { assert r[i + 1] == s[|s| - |d| + i + 1]; }
      }
    }
  }

  lemma SingleSpacedTail(s: string)
    requires s != [] && SingleSpaced(s)
    ensures SingleSpaced(s[1..])
  {
    var t := s[1..];
    forall i | 0 <= i < |t| && IsSpace(t[i]) ensures t[i] == ' ' && (i + 1 < |t| ==> !IsSpace(t[i + 1])) {
      assert t[i] == s[i + 1];
      if i + 1 < |t| { assert t[i + 1] == s[i + 2]; }
    }
  }

  lemma {:induction false} CollapseIdentity(s: string)
    requires SingleSpaced(s)
    ensures Collapse(s) == s
    decreases |s|
  {
    if s != [] {
      SingleSpacedTail(s);
      CollapseIdentity(s[1..]);
      if IsSpace(s[0]) {
        assert s[0] == ' ';
        assert |s| == 1 || !IsSpace(s[1]);
        assert DropSpace(s) == s[1..];
      }
    }
  }

  lemma StripIdentity(s: string)
    requires Trimmed(s)
    ensures Strip(s) == s
  {
  }

  lemma {:induction false} StripUrlsIdentity(s: string)
    requires UrlFree(s)
    ensures StripUrls(s) == s
    decreases |s|
  {
    if s != [] {
      UrlFreeSuffix(s, 1);
      StripUrlsIdentity(s[1..]);
    }
  }

  lemma {:induction false} StripMentionsIdentity(s: string)
    requires MentionFree(s)
    ensures StripMentions(s) == s
    decreases |s|
  {
    if s != [] {
      MentionFreeSuffix(s, 1);
      StripMentionsIdentity(s[1..]);
    }
  }

  // ---------------------------------------------------------------------------
  // The promises of clean_text

  /** The whitespace shape both versions share: no leading or trailing whitespace,
      every remaining whitespace character a single space between non-spaces. */
  lemma NormalizedShape(s: string)
    ensures Trimmed(Strip(Collapse(s))) && SingleSpaced(Strip(Collapse(s)))
  {
    CollapseSingleSpaced(s);
    StripShape(Collapse(s));
  }

  lemma CleanTextAsWrittenShape(s: string)
    ensures Trimmed(CleanTextAsWritten(s)) && SingleSpaced(CleanTextAsWritten(s))
    ensures MentionFree(CleanTextAsWritten(s))
  {
    var m := StripMentions(StripUrls(s));
    NormalizedShape(m);
    StripMentionsMentionFree(StripUrls(s));
    CollapseKeepsPatternFree(m);
    StripKeepsPatternFree(Collapse(m));
  }

  /** The cleaned text is trimmed, single-spaced and holds no URL and no mention. */
  lemma CleanTextShape(s: string)
    ensures Trimmed(CleanText(s)) && SingleSpaced(CleanText(s))
    ensures UrlFree(CleanText(s)) && MentionFree(CleanText(s))
  {
    var m := StripMentions(StripUrls(s));
    var u := StripUrls(m);
    NormalizedShape(u);
    StripMentionsMentionFree(StripUrls(s));
    StripUrlsKeepsMentionFree(m);
    StripUrlsUrlFree(m);
    CollapseKeepsPatternFree(u);
    StripKeepsPatternFree(Collapse(u));
  }

  /** Cleaning a cleaned text changes nothing. */
  lemma CleanTextIdempotent(s: string)
    ensures CleanText(CleanText(s)) == CleanText(s)
  {
    var c := CleanText(s);
    CleanTextShape(s);
    StripUrlsIdentity(c);
    StripMentionsIdentity(c);
    CollapseIdentity(c);
    StripIdentity(c);
  }

  /** Deleting the mentions joins no fragments into a URL. */
  predicate SplicesNoUrl(s: string) {
    UrlFree(StripMentions(StripUrls(s)))
  }

  /** The correction changes nothing on a text where the as-written passes leave no URL. */
  lemma CleanTextAgrees(s: string)
    requires SplicesNoUrl(s)
    ensures CleanText(s) == CleanTextAsWritten(s)
  {
    StripUrlsIdentity(StripMentions(StripUrls(s)));
  }

  /** Both versions leave a text alone that is already clean: trimmed, single-spaced,
      without URLs and without mentions. */
  lemma CleanTextKeepsCleanText(s: string)
    requires Trimmed(s) && SingleSpaced(s) && UrlFree(s) && MentionFree(s)
    ensures CleanTextAsWritten(s) == s
    ensures CleanText(s) == s
  {
    StripUrlsIdentity(s);
    StripMentionsIdentity(s);
    CollapseIdentity(s);
    StripIdentity(s);
  }

  // ---------------------------------------------------------------------------
  // When the code as written is idempotent

  /** The URL pass never lengthens a text, and shortens every text holding a URL. */
  lemma {:induction false} StripUrlsLength(s: string)
    ensures |StripUrls(s)| <= |s|
    ensures !UrlFree(s) ==> |StripUrls(s)| < |s|
    decreases |s|
  {
    if s == [] {
    } else if UrlAt(s, 0) {
      StripUrlsLength(DropNonSpace(s[4..]));
    } else {
      StripUrlsLength(s[1..]);
      if !UrlFree(s) {
        var i :| 0 <= i < |s| && UrlAt(s, i);
        assert UrlAt(s[1..], i - 1);
      }
    }
  }

  lemma {:induction false} StripMentionsLength(s: string)
    ensures |StripMentions(s)| <= |s|
    decreases |s|
  {
    if s == [] {
    } else if MentionAt(s, 0) {
      StripMentionsLength(DropWordRun(s[1..]));
    } else {
      StripMentionsLength(s[1..]);
    }
  }

  lemma {:induction false} CollapseLength(s: string)
    ensures |Collapse(s)| <= |s|
    decreases |s|
  {
    if s == [] {
    } else if IsSpace(s[0]) {
      assert DropSpace(s) == DropSpace(s[1..]);
      CollapseLength(DropSpace(s));
    } else {
      CollapseLength(s[1..]);
    }
  }

  /** A text the code as written leaves unchanged holds no URL: a URL in it would be
      deleted, and no later pass makes the text longer again. */
  lemma CleanTextAsWrittenFixedIsUrlFree(c: string)
    requires CleanTextAsWritten(c) == c
    ensures UrlFree(c)
  {
    StripUrlsLength(c);
    StripMentionsLength(StripUrls(c));
    CollapseLength(StripMentions(StripUrls(c)));
  }

  /** Cleaning the code's own result again changes nothing exactly when that result
      holds no URL, which is the case whenever deleting mentions splices none together. */
  lemma CleanTextAsWrittenStable(s: string)
    ensures var c := CleanTextAsWritten(s);
      CleanTextAsWritten(c) == c <==> UrlFree(c)
    ensures SplicesNoUrl(s) ==> CleanTextAsWritten(CleanTextAsWritten(s)) == CleanTextAsWritten(s)
  {
    var c := CleanTextAsWritten(s);
    CleanTextAsWrittenShape(s);
    if UrlFree(c) {
      CleanTextKeepsCleanText(c);
    }
    if CleanTextAsWritten(c) == c {
      CleanTextAsWrittenFixedIsUrlFree(c);
    }
    if SplicesNoUrl(s) {
      CleanTextAgrees(s);
      CleanTextShape(s);
    }
  }

  /** A character other than `@` never starts a mention. */
  lemma StripMentionsCons(c: char, t: string)
    requires c != '@'
    ensures StripMentions([c] + t) == [c] + StripMentions(t)
  {
    assert ([c] + t)[1..] == t;
  }

  lemma DropWordRunExample()
    ensures DropWordRun("x.y") == ".y"
  {
    assert !IsWordChar('.');
    assert DropWordRun(".y") == ".y";
    assert IsWordChar('x') && "x.y"[1..] == ".y";
  }

  lemma StripMentionsExample()
    ensures StripMentions("@x.y") == ".y"
  {
    DropWordRunExample();
    assert IsWordChar('x') && MentionAt("@x.y", 0) && "@x.y"[1..] == "x.y";
    StripMentionsCons('y', "");
    StripMentionsCons('.', "y");
  }

  lemma UrlFreeExample()
    ensures UrlFree("www@x.y")
  {
    var s := "www@x.y";
    forall i | 0 <= i < |s| ensures !UrlAt(s, i) {
      if i + 4 < |s| {
        assert s[3] == '@';
      }
    }
  }

  lemma StripUrlsExample()
    ensures StripUrls("www.y") == ""
  {
    var t := "www.y";
    assert UrlAt(t, 0);
    assert t[4..] == "y";
    assert DropNonSpace("y") == "";
  }

  lemma NormalizeExample()
    ensures Strip(Collapse("www.y")) == "www.y"
  {
    var t := "www.y";
    assert SingleSpaced(t) && Trimmed(t);
    CollapseIdentity(t);
    StripIdentity(t);
  }

  /** As written, clean_text is not idempotent: deleting the mention `@x` joins
      `www` and `.y` into a URL that a second cleaning deletes. */
  lemma CleanTextAsWrittenNotIdempotent()
    ensures CleanTextAsWritten("www@x.y") == "www.y"
    ensures CleanTextAsWritten(CleanTextAsWritten("www@x.y")) == ""
  {
    UrlFreeExample();
    StripUrlsIdentity("www@x.y");
    StripMentionsExample();
    StripMentionsCons('w', "@x.y");
    StripMentionsCons('w', "w@x.y");
    StripMentionsCons('w', "ww@x.y");
    NormalizeExample();
    StripUrlsExample();
    assert StripMentions("") == "" && Strip(Collapse("")) == "";
  }
}
