/** Character classes and small string operations shared by the harvesters and
    the analysis engine: the `\s` and `\w` classes of Python's `re`, `str.lower`,
    `str.isdigit`, `str.join` and `re.findall(r'\w+', ...)`. */
module Text {

  /** Python's whitespace (`str.isspace`, and `\s` in a `str` pattern). */
  predicate IsSpace(c: char) {
    || c == ' ' || c == '\t' || c == '\n' || c == '\r' || c == '\U{0B}' || c == '\U{0C}'
    || ('\U{1C}' <= c <= '\U{1F}') || c == '\U{85}' || c == '\U{A0}' || c == '\U{1680}'
    || ('\U{2000}' <= c <= '\U{200A}') || c == '\U{2028}' || c == '\U{2029}'
    || c == '\U{202F}' || c == '\U{205F}' || c == '\U{3000}'
  }

  /** The `\w` class, restricted to ASCII: letters, digits and underscore. */
  predicate IsWordChar(c: char) {
    ('a' <= c <= 'z') || ('A' <= c <= 'Z') || ('0' <= c <= '9') || c == '_'
  }

  predicate IsDigitChar(c: char) {
    '0' <= c <= '9'
  }

  /** `str.isdigit`: non-empty and made of digits only. */
  predicate IsDigits(s: string) {
    |s| > 0 && forall i :: 0 <= i < |s| ==> IsDigitChar(s[i])
  }

  /** `str.strip()` would leave nothing: the string is empty or all whitespace. */
  predicate IsBlank(s: string) {
    forall i :: 0 <= i < |s| ==> IsSpace(s[i])
  }

  function LowerChar(c: char): char {
    if 'A' <= c <= 'Z' then (c as int + 32) as char else c
  }

  /** `str.lower`, on ASCII letters. */
  function Lower(s: string): string {
    seq(|s|, i requires 0 <= i < |s| => LowerChar(s[i]))
  }

  /** `sep.join(xs)`. */
  function Join(xs: seq<string>, sep: string): string {
    if |xs| == 0 then ""
    else if |xs| == 1 then xs[0]
    else xs[0] + sep + Join(xs[1..], sep)
  }

  /** Length of the run of word characters that `s` starts with. */
  function WordRunLength(s: string): (n: nat)
    ensures n <= |s|
    ensures forall i :: 0 <= i < n ==> IsWordChar(s[i])
    ensures n < |s| ==> !IsWordChar(s[n])
  {
    if s == [] || !IsWordChar(s[0]) then 0 else 1 + WordRunLength(s[1..])
  }

  /** `re.findall(r'\w+', s)`: the maximal runs of word characters, left to right. */
  function Words(s: string): (ws: seq<string>)
    ensures forall k :: 0 <= k < |ws| ==> |ws[k]| > 0
    ensures forall k, i :: 0 <= k < |ws| && 0 <= i < |ws[k]| ==> IsWordChar(ws[k][i])
    decreases |s|
  {
    if s == [] then []
    else if !IsWordChar(s[0]) then Words(s[1..])
    else
      var n := WordRunLength(s);
      [s[..n]] + Words(s[n..])
  }
  /** Appending text that starts with a non-word character does not extend a run. */
  lemma {:induction false} WordRunLengthAppend(a: string, t: string)
    requires t == [] || !IsWordChar(t[0])
    ensures WordRunLength(a + t) == WordRunLength(a)
    decreases |a|
  {
    if a == [] {
      assert a + t == t;
    } else if IsWordChar(a[0]) {
      assert (a + t)[0] == a[0];
      assert (a + t)[1..] == a[1..] + t;
      WordRunLengthAppend(a[1..], t);
    } else {
      assert (a + t)[0] == a[0];
    }
  }

  /** A non-word character separates: the words on either side of it are found apart. */
  lemma {:induction false} WordsSplit(a: string, c: char, b: string)
    requires !IsWordChar(c)
    ensures Words(a + [c] + b) == Words(a) + Words(b)
    decreases |a|
  {
    var s := a + [c] + b;
    if a == [] {
      assert s == [c] + b;
      assert s[1..] == b;
    } else if !IsWordChar(a[0]) {
      assert s[0] == a[0];
      assert s[1..] == a[1..] + [c] + b;
      WordsSplit(a[1..], c, b);
    } else {
      var n := WordRunLength(a);
      assert s == a + ([c] + b);
      WordRunLengthAppend(a, [c] + b);
      assert s[0] == a[0];
      assert s[..n] == a[..n];
      assert s[n..] == a[n..] + [c] + b;
      WordsSplit(a[n..], c, b);
    }
  }

  /** A non-empty run of word characters is found whole, as one word. */
  lemma WordsOfWord(w: string)
    requires |w| > 0 && forall i :: 0 <= i < |w| ==> IsWordChar(w[i])
    ensures Words(w) == [w]
  {
    var n := WordRunLength(w);
    assert IsWordChar(w[0]);
    assert n == |w|;
    assert Words(w) == [w[..n]] + Words(w[n..]);
    assert w[..n] == w && w[n..] == [];
  }
}
