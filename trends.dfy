/** `extract_trends` and `_simple_keyword_extraction` of engine.py: the contents of
    all rows are joined into one text; the keyword model ranks its phrases when it is
    loaded and answers, and otherwise the ten most frequent kept words are returned,
    each scored by its share of all kept words. */
module Trends {
  import opened Text
  import opened Models
  import opened Records

  const StopWords: set<string> := {
    "the", "and", "to", "of", "a", "in", "is", "that", "for", "it", "on",
    "with", "as", "are", "was", "this", "by", "at", "be", "or", "from",
    "an", "not", "you", "we", "have", "can", "has", "but", "if", "leapscholar", "leap", "scholar",
    "video", "comments", "watch", "http", "https", "com", "www", "review", "about"
  }

  /** `most_common(10)`. */
  const TopCount: nat := 10

  /** A word survives the filter: longer than three characters, not a stop word, not all digits. */
  predicate Keep(w: string) {
    |w| > 3 && w !in StopWords && !IsDigits(w)
  }

  /** `re.findall(r'\w+', text.lower())`. */
  function Tokens(text: string): seq<string> {
    Words(Lower(text))
  }

  function Count(ws: seq<string>, w: string): nat {
    multiset(ws)[w]
  }

  /** `filtered_words`: the kept words, in order, each as often as it occurs. */
  function Filtered(ws: seq<string>): (fs: seq<string>)
    ensures forall k | 0 <= k < |fs| :: Keep(fs[k])
  {
    if ws == [] then []
    else
      var init := ws[..|ws| - 1];
      var last := ws[|ws| - 1];
      assert ws == init + [last];
      Filtered(init) + (if Keep(last) then [last] else [])
  }

  /** The distinct words in order of first occurrence: the keys of the `Counter`. */
  function DistinctWords(ws: seq<string>): (d: seq<string>)
    ensures forall i, j | 0 <= i < j < |d| :: d[i] != d[j]
    ensures forall w :: w in d <==> w in ws
  {
    if ws == [] then []
    else
      var init := ws[..|ws| - 1];
      var last := ws[|ws| - 1];
      assert ws == init + [last];
      var d := DistinctWords(init);
      if last in d then d else d + [last]
  }

  /** One counter entry: the word, how often it occurs, and its position among the
      distinct words (the order ties are broken in). */
  datatype Entry = Entry(word: string, count: nat, rank: nat)

  function TallyOver(ws: seq<string>, d: seq<string>): seq<Entry> {
    seq(|d|, i requires 0 <= i < |d| => Entry(d[i], Count(ws, d[i]), i))
  }

  /** `Counter(ws)`, as its entries in insertion order. */
  function Tally(ws: seq<string>): seq<Entry> {
    TallyOver(ws, DistinctWords(ws))
  }

  /** `most_common` order: higher count first, and among equal counts the word seen first. */
  predicate Precedes(a: Entry, b: Entry) {
    a.count > b.count || (a.count == b.count && a.rank < b.rank)
  }

  predicate Ranked(s: seq<Entry>) {
    forall i, j | 0 <= i < j < |s| :: Precedes(s[i], s[j])
  }

  predicate DistinctRanks(s: seq<Entry>) {
    forall i, j | 0 <= i < j < |s| :: s[i].rank != s[j].rank
  }

  function SumCounts(s: seq<Entry>): nat {
    if s == [] then 0 else s[0].count + SumCounts(s[1..])
  }

  /** Insert `e` before the first entry of `s` it precedes. */
  function Insert(e: Entry, s: seq<Entry>): seq<Entry> {
    if s == [] || Precedes(e, s[0]) then [e] + s
    else [s[0]] + Insert(e, s[1..])
  }

  /** The counter entries sorted into `most_common` order, by insertion. */
  function RankOrder(es: seq<Entry>): seq<Entry> {
    if es == [] then [] else Insert(es[0], RankOrder(es[1..]))
  }

  function Take<T>(s: seq<T>, n: nat): seq<T> {
    if |s| <= n then s else s[..n]
  }

  /** `counter.most_common(10)`. */
  function MostCommon(ws: seq<string>): seq<Entry> {
    Take(RankOrder(Tally(ws)), TopCount)
  }

  /** The `(word, count/total)` pairs. */
  function Scored(es: seq<Entry>, total: nat): seq<Trend>
    requires total > 0
  {
    seq(|es|, i requires 0 <= i < |es| => Trend(es[i].word, es[i].count as real / total as real))
  }

  /** `_simple_keyword_extraction`; `total` is the sum of the counter's values, or 1
      for an empty counter. */
  function SimpleKeywords(text: string): seq<Trend> {
    var fs := Filtered(Tokens(text));
    var tally := Tally(fs);
    var total := if tally != [] then SumCounts(tally) else 1;
    if total == 0 then [] else Scored(MostCommon(fs), total)
  }

  function Contents(rows: seq<Row>): seq<string> {
    seq(|rows|, i requires 0 <= i < |rows| => rows[i].content)
  }

  /** `extract_trends`: nothing for an empty frame or a blank joined text; the keyword
      model's phrases when it is loaded and does not raise; the frequency fallback otherwise. */
  function ExtractTrends(rows: seq<Row>, models: LoadedModels): seq<Trend> {
    if rows == [] then []
    else
      var fullText := Join(Contents(rows), " ");
      if IsBlank(fullText) then []
      else if models.keywords.Some? && models.keywords.value(fullText).Some? then
        models.keywords.value(fullText).value
      else SimpleKeywords(fullText)
  }

  // ---------------------------------------------------------------------------
  // The counter

  lemma TallyRanks(ws: seq<string>)
    ensures DistinctRanks(Tally(ws))
    ensures forall i | 0 <= i < |Tally(ws)| :: Tally(ws)[i].rank == i
  {
  }

  lemma {:induction false} InsertContents(e: Entry, s: seq<Entry>)
    ensures multiset(Insert(e, s)) == multiset(s) + multiset{e}
    ensures SumCounts(Insert(e, s)) == SumCounts(s) + e.count
  {
    if s != [] && !Precedes(e, s[0]) {
      InsertContents(e, s[1..]);
      assert s == [s[0]] + s[1..];
    }
  }

  lemma {:induction false} InsertRanked(e: Entry, s: seq<Entry>)
    requires Ranked(s)
    requires forall k | 0 <= k < |s| :: s[k].rank != e.rank
    ensures Ranked(Insert(e, s))
  {
    if s == [] || Precedes(e, s[0]) {
      if s != [] {
        forall k | 0 < k < |s| ensures Precedes(e, s[k]) {
          assert Precedes(s[0], s[k]);
        }
      }
    } else {
      var rest := Insert(e, s[1..]);
      InsertRanked(e, s[1..]);
      InsertContents(e, s[1..]);
      assert Precedes(s[0], e);
      forall k | 0 <= k < |rest| ensures Precedes(s[0], rest[k]) {
        assert rest[k] in multiset(rest);
        if rest[k] != e {
          assert rest[k] in multiset(s[1..]);
          var j :| 0 <= j < |s[1..]| && s[1..][j] == rest[k];
          assert Precedes(s[0], s[j + 1]);
        }
      }
    }
  }

  /** Sorting keeps the entries and their total and puts them in `most_common` order. */
  lemma {:induction false} RankOrderSorts(es: seq<Entry>)
    requires DistinctRanks(es)
    ensures Ranked(RankOrder(es))
    ensures multiset(RankOrder(es)) == multiset(es)
    ensures SumCounts(RankOrder(es)) == SumCounts(es)
    ensures |RankOrder(es)| == |es|
  {
    if es != [] {
      var tail := RankOrder(es[1..]);
      RankOrderSorts(es[1..]);
      assert es == [es[0]] + es[1..];
      forall k | 0 <= k < |tail| ensures tail[k].rank != es[0].rank {
        assert tail[k] in multiset(es[1..]);
        var j :| 0 <= j < |es[1..]| && es[1..][j] == tail[k];
        assert es[j + 1] == tail[k];
      }
      InsertRanked(es[0], tail);
      InsertContents(es[0], tail);
      assert |Insert(es[0], tail)| == |multiset(Insert(es[0], tail))|;
    }
  }

  /** The tally, sorted. */
  lemma TallySorted(ws: seq<string>)
    ensures Ranked(RankOrder(Tally(ws)))
    ensures multiset(RankOrder(Tally(ws))) == multiset(Tally(ws))
    ensures SumCounts(RankOrder(Tally(ws))) == SumCounts(Tally(ws))
    ensures |RankOrder(Tally(ws))| == |Tally(ws)|
  {
    TallyRanks(ws);
    RankOrderSorts(Tally(ws));
  }

  function TotalCount(ws: seq<string>, d: seq<string>): nat {
    if d == [] then 0 else TotalCount(ws, d[..|d| - 1]) + Count(ws, d[|d| - 1])
  }

  lemma {:induction false} SumCountsAppend(a: seq<Entry>, b: seq<Entry>)
    ensures SumCounts(a + b) == SumCounts(a) + SumCounts(b)
  {
    if a == [] {
      assert a + b == b;
    } else {
      assert (a + b)[0] == a[0];
      assert (a + b)[1..] == a[1..] + b;
      SumCountsAppend(a[1..], b);
    }
  }

  lemma {:induction false} TallyOverSum(ws: seq<string>, d: seq<string>)
    ensures SumCounts(TallyOver(ws, d)) == TotalCount(ws, d)
  {
    if d != [] {
      var init := d[..|d| - 1];
      var x := d[|d| - 1];
      assert TallyOver(ws, d) == TallyOver(ws, init) + [Entry(x, Count(ws, x), |init|)];
      SumCountsAppend(TallyOver(ws, init), [Entry(x, Count(ws, x), |init|)]);
      TallyOverSum(ws, init);
    }
  }

  /** Adding one occurrence of w adds to the total as many times as w is counted. */
  lemma {:induction false} TotalCountGrows(ws: seq<string>, w: string, d: seq<string>)
    ensures TotalCount(ws + [w], d) == TotalCount(ws, d) + multiset(d)[w]
  {
    if d != [] {
      var init := d[..|d| - 1];
      assert d == init + [d[|d| - 1]];
      TotalCountGrows(ws, w, init);
    }
  }

  lemma {:induction false} TotalCountEmpty(d: seq<string>)
    ensures TotalCount([], d) == 0
  {
    if d != [] {
      TotalCountEmpty(d[..|d| - 1]);
    }
  }

  lemma {:induction false} DistinctOnce(d: seq<string>, w: string)
    requires forall i, j | 0 <= i < j < |d| :: d[i] != d[j]
    requires w in d
    ensures multiset(d)[w] == 1
  {
    var init := d[..|d| - 1];
    assert d == init + [d[|d| - 1]];
    if d[|d| - 1] == w {
      assert w !in init;
    } else {
      DistinctOnce(init, w);
    }
  }

  lemma {:induction false} TotalCountCovers(ws: seq<string>, d: seq<string>)
    requires forall i, j | 0 <= i < j < |d| :: d[i] != d[j]
    requires forall w | w in ws :: w in d
    ensures TotalCount(ws, d) == |ws|
  {
    if ws == [] {
      TotalCountEmpty(d);
    } else {
      var init := ws[..|ws| - 1];
      var w := ws[|ws| - 1];
      assert ws == init + [w];
      TotalCountCovers(init, d);
      TotalCountGrows(init, w, d);
      DistinctOnce(d, w);
    }
  }

  /** The counter's values sum to the number of kept words. */
  lemma TallySum(ws: seq<string>)
    ensures SumCounts(Tally(ws)) == |ws|
  {
    TallyOverSum(ws, DistinctWords(ws));
    TotalCountCovers(ws, DistinctWords(ws));
  }

  /** `d[i]` occurs in `ws` before any occurrence of `d[j]`. */
  predicate OccursBefore(ws: seq<string>, a: string, b: string) {
    exists p | 0 <= p < |ws| :: ws[p] == a && forall q | 0 <= q <= p :: ws[q] != b
  }

  /** The counter's keys are in order of first occurrence. */
  lemma {:induction false} DistinctWordsFirstSeen(ws: seq<string>)
    ensures forall i, j | 0 <= i < j < |DistinctWords(ws)| ::
      OccursBefore(ws, DistinctWords(ws)[i], DistinctWords(ws)[j])
  {
    if ws != [] {
      var init := ws[..|ws| - 1];
      var last := ws[|ws| - 1];
      var d0 := DistinctWords(init);
      var d := DistinctWords(ws);
      DistinctWordsFirstSeen(init);
      forall i, j | 0 <= i < j < |d| ensures OccursBefore(ws, d[i], d[j]) {
        if j < |d0| {
          assert d[i] == d0[i] && d[j] == d0[j];
          assert OccursBefore(init, d0[i], d0[j]);
          var p :| 0 <= p < |init| && init[p] == d0[i] && forall q | 0 <= q <= p :: init[q] != d0[j];
          assert ws[p] == d[i] && forall q | 0 <= q <= p :: ws[q] == init[q];
        } else {
          assert d[j] == last && last !in init;
          assert d[i] == d0[i] && d0[i] in init;
          var p :| 0 <= p < |init| && init[p] == d0[i];
          assert ws[p] == d[i] && forall q | 0 <= q <= p :: ws[q] == init[q];
        }
      }
    }
  }

  // ---------------------------------------------------------------------------
  // The filter

  /** The filter works word by word: it keeps a word alone exactly when the word passes. */
  lemma FilteredOne(w: string)
    ensures Filtered([w]) == if Keep(w) then [w] else []
  {
    assert [w][..0] == [];
  }

  /** The filter looks at one more word. */
  lemma FilteredSnoc(ws: seq<string>, w: string)
    ensures Filtered(ws + [w]) == Filtered(ws) + (if Keep(w) then [w] else [])
  {
    assert (ws + [w])[..|ws|] == ws;
  }

  /** The filter distributes over concatenation, so the kept words stay in text order. */
  lemma {:induction false} FilteredAppend(a: seq<string>, b: seq<string>)
    ensures Filtered(a + b) == Filtered(a) + Filtered(b)
    decreases |b|
  {
    if b == [] {
      assert a + b == a;
    } else {
      var init := b[..|b| - 1];
      var w := b[|b| - 1];
      var kept := if Keep(w) then [w] else [];
      assert b == init + [w];
      calc {
        Filtered(a + b);
        { assert a + b == (a + init) + [w]; }
        Filtered((a + init) + [w]);
        { FilteredSnoc(a + init, w); }
        Filtered(a + init) + kept;
        { FilteredAppend(a, init); }
        Filtered(a) + Filtered(init) + kept;
        { FilteredSnoc(init, w); }
        Filtered(a) + Filtered(b);
      }
    }
  }

  /** Each word is kept exactly as often as it occurs when it passes, and never otherwise. */
  lemma {:induction false} FilteredCounts(ws: seq<string>, w: string)
    ensures Count(Filtered(ws), w) == if Keep(w) then Count(ws, w) else 0
  {
    if ws != [] {
      var init := ws[..|ws| - 1];
      var last := ws[|ws| - 1];
      assert ws == init + [last];
      FilteredSnoc(init, last);
      FilteredCounts(init, w);
    }
  }

  /** A kept word that the filter never keeps does not occur. */
  lemma FilteredMissing(ws: seq<string>, b: string)
    requires Keep(b) && b !in Filtered(ws)
    ensures b !in ws
  {
    FilteredCounts(ws, b);
  }

  /** How `a` can occur before `b` in a list with one more element. */
  lemma OccursBeforeSnoc(xs: seq<string>, x: string, a: string, b: string)
    ensures OccursBefore(xs + [x], a, b) <==> OccursBefore(xs, a, b) || (x == a && a != b && b !in xs)
  {
    var ys := xs + [x];
    if OccursBefore(ys, a, b) {
      var p :| 0 <= p < |ys| && ys[p] == a && forall q | 0 <= q <= p :: ys[q] != b;
      if p < |xs| {
        assert xs[p] == a && forall q | 0 <= q <= p :: xs[q] != b by {
          forall q | 0 <= q <= p ensures xs[q] != b { assert ys[q] == xs[q]; }
        }
      } else {
        forall q | 0 <= q < |xs| ensures xs[q] != b { assert ys[q] == xs[q]; }
      }
    }
    if OccursBefore(xs, a, b) {
      var p :| 0 <= p < |xs| && xs[p] == a && forall q | 0 <= q <= p :: xs[q] != b;
      assert ys[p] == a && forall q | 0 <= q <= p :: ys[q] != b by {
        forall q | 0 <= q <= p ensures ys[q] != b { assert ys[q] == xs[q]; }
      }
    } else if x == a && a != b && b !in xs {
      assert ys[|xs|] == a && forall q | 0 <= q <= |xs| :: ys[q] != b by {
        forall q | 0 <= q <= |xs| ensures ys[q] != b {
          if q < |xs| { assert ys[q] == xs[q]; }
        }
      }
    }
  }

  /** A kept word that occurs before a kept word in the filtered list occurs before it
      in the unfiltered one. */
  lemma {:induction false} FilteredKeepsOrder(ws: seq<string>, a: string, b: string)
    requires Keep(b)
    requires OccursBefore(Filtered(ws), a, b)
    ensures OccursBefore(ws, a, b)
    decreases |ws|
  {
    assert ws != [];
    var init := ws[..|ws| - 1];
    var last := ws[|ws| - 1];
    assert ws == init + [last];
    FilteredSnoc(init, last);
    var fi := Filtered(init);
    if Keep(last) {
      OccursBeforeSnoc(fi, last, a, b);
      if OccursBefore(fi, a, b) {
        FilteredKeepsOrder(init, a, b);
      } else {
        FilteredMissing(init, b);
      }
    } else {
      assert Filtered(ws) == fi;
      FilteredKeepsOrder(init, a, b);
    }
    OccursBeforeSnoc(init, last, a, b);
  }

  // ---------------------------------------------------------------------------
  // The fallback's promises

  /** Every listed entry is a counter entry: its word is kept, its count is the word's
      number of occurrences, its rank the word's place among the distinct words. */
  lemma MostCommonEntries(ws: seq<string>, k: int)
    requires 0 <= k < |MostCommon(ws)|
    ensures var e := MostCommon(ws)[k];
      && e.rank < |DistinctWords(ws)| && e.word == DistinctWords(ws)[e.rank]
      && e.word in ws && e.count == Count(ws, e.word) && e.count > 0
  {
    TallySorted(ws);
    var r := RankOrder(Tally(ws));
    var e := MostCommon(ws)[k];
    assert e == r[k] && e in multiset(r);
    assert e in multiset(Tally(ws));
    var i :| 0 <= i < |Tally(ws)| && Tally(ws)[i] == e;
  }

  /** At most ten entries, and exactly ten unless there are fewer distinct words. */
  lemma MostCommonSize(ws: seq<string>)
    ensures |MostCommon(ws)| == if |DistinctWords(ws)| <= TopCount then |DistinctWords(ws)| else TopCount
  {
    TallySorted(ws);
    assert |Tally(ws)| == |DistinctWords(ws)|;
    assert |MostCommon(ws)| == |Take(RankOrder(Tally(ws)), TopCount)|;
  }

  /** The first ten sorted entries are the ones listed. */
  lemma MostCommonPrefix(ws: seq<string>)
    ensures var r := RankOrder(Tally(ws));
      && |MostCommon(ws)| == (if |r| <= TopCount then |r| else TopCount)
      && forall p | 0 <= p < |MostCommon(ws)| :: MostCommon(ws)[p] == r[p]
  {
  }

  /** With at most ten distinct words, every counter entry is listed. */
  lemma MostCommonAll(ws: seq<string>)
    requires |DistinctWords(ws)| <= TopCount
    ensures MostCommon(ws) == RankOrder(Tally(ws))
  {
    TallySorted(ws);
  }

  /** Two listed entries at k < l: the first occurs more often, or as often and was seen first. */
  lemma MostCommonPair(ws: seq<string>, k: int, l: int)
    requires 0 <= k < l < |MostCommon(ws)|
    ensures var top := MostCommon(ws);
      top[k].count > top[l].count || (top[k].count == top[l].count && top[k].rank < top[l].rank)
  {
    TallySorted(ws);
    MostCommonPrefix(ws);
    assert Precedes(RankOrder(Tally(ws))[k], RankOrder(Tally(ws))[l]);
  }

  /** Higher counts come first; equal counts keep the order the words were first seen in. */
  lemma MostCommonOrdered(ws: seq<string>)
    ensures var top := MostCommon(ws);
      forall k, l | 0 <= k < l < |top| ::
        top[k].count > top[l].count || (top[k].count == top[l].count && OccursBefore(ws, top[k].word, top[l].word))
  {
    var top := MostCommon(ws);
    var d := DistinctWords(ws);
    DistinctWordsFirstSeen(ws);
    forall k, l | 0 <= k < l < |top|
      ensures top[k].count > top[l].count || (top[k].count == top[l].count && OccursBefore(ws, top[k].word, top[l].word))
    {
      MostCommonPair(ws, k, l);
      MostCommonEntries(ws, k);
      MostCommonEntries(ws, l);
      if top[k].count == top[l].count {
        assert OccursBefore(ws, d[top[k].rank], d[top[l].rank]);
      }
    }
  }

  /** A word left out of the top ten occurs less often than every word listed, or as
      often and first seen after it. */
  lemma MostCommonComplete(ws: seq<string>, w: string)
    requires w in ws
    requires forall k | 0 <= k < |MostCommon(ws)| :: MostCommon(ws)[k].word != w
    ensures |MostCommon(ws)| == TopCount
    ensures forall k | 0 <= k < TopCount ::
      MostCommon(ws)[k].count > Count(ws, w)
      || (MostCommon(ws)[k].count == Count(ws, w) && OccursBefore(ws, MostCommon(ws)[k].word, w))
  {
    TallySorted(ws);
    var tally := Tally(ws);
    var r := RankOrder(tally);
    var d := DistinctWords(ws);
    var i :| 0 <= i < |d| && d[i] == w;
    var e := tally[i];
    assert e in multiset(r);
    var p :| 0 <= p < |r| && r[p] == e;
    if p < TopCount {
      MostCommonPrefix(ws);
      assert false;
    }
    TallyRanks(ws);
    DistinctWordsFirstSeen(ws);
    MostCommonPrefix(ws);
    forall k | 0 <= k < TopCount
      ensures MostCommon(ws)[k].count > Count(ws, w)
        || (MostCommon(ws)[k].count == Count(ws, w) && OccursBefore(ws, MostCommon(ws)[k].word, w))
    {
      assert Precedes(r[k], r[p]);
      MostCommonEntries(ws, k);
      if r[k].count == e.count {
        assert OccursBefore(ws, d[r[k].rank], d[i]);
      }
    }
  }

  /** With kept words, the fallback scores the top entries by their share of all kept words. */
  lemma SimpleKeywordsScored(text: string)
    requires Filtered(Tokens(text)) != []
    ensures var fs := Filtered(Tokens(text));
      SimpleKeywords(text) == Scored(MostCommon(fs), |fs|)
  {
    var fs := Filtered(Tokens(text));
    TallySum(fs);
    assert fs[0] in DistinctWords(fs);
  }

  /** No kept words, no trends; otherwise at least one and at most ten. */
  lemma SimpleKeywordsSize(text: string)
    ensures |SimpleKeywords(text)| <= TopCount
    ensures Filtered(Tokens(text)) == [] <==> SimpleKeywords(text) == []
  {
    var fs := Filtered(Tokens(text));
    MostCommonSize(fs);
    if fs != [] {
      SimpleKeywordsScored(text);
      assert fs[0] in DistinctWords(fs);
    } else {
      assert Tally(fs) == [];
    }
  }

  /** Each fallback trend is a kept word of the text, scored by its share of all kept words. */
  lemma SimpleKeywordsEntry(text: string, k: int)
    requires 0 <= k < |SimpleKeywords(text)|
    ensures var fs := Filtered(Tokens(text));
      var t := SimpleKeywords(text)[k];
      && Keep(t.phrase) && t.phrase in Tokens(text)
      && t.score == Count(fs, t.phrase) as real / |fs| as real
  {
    var fs := Filtered(Tokens(text));
    SimpleKeywordsSize(text);
    SimpleKeywordsScored(text);
    MostCommonEntries(fs, k);
    var w := MostCommon(fs)[k].word;
    FilteredCounts(Tokens(text), w);
    assert Count(Tokens(text), w) > 0;
  }

  /** The fallback's phrases are distinct and listed by decreasing score. */
  lemma SimpleKeywordsPair(text: string, k: int, l: int)
    requires 0 <= k < l < |SimpleKeywords(text)|
    ensures var ts := SimpleKeywords(text);
      ts[k].phrase != ts[l].phrase && ts[k].score >= ts[l].score
  {
    var fs := Filtered(Tokens(text));
    SimpleKeywordsSize(text);
    SimpleKeywordsScored(text);
    var top := MostCommon(fs);
    MostCommonPair(fs, k, l);
    MostCommonEntries(fs, k);
    MostCommonEntries(fs, l);
    ScoreMonotone(top[l].count, top[k].count, |fs|);
  }

  /** Trends with equal scores are listed in the order their words first occur in the
      text, as the counter's insertion order breaks ties. */
  lemma SimpleKeywordsTieBreak(text: string, k: int, l: int)
    requires 0 <= k < l < |SimpleKeywords(text)|
    requires SimpleKeywords(text)[k].score == SimpleKeywords(text)[l].score
    ensures OccursBefore(Tokens(text), SimpleKeywords(text)[k].phrase, SimpleKeywords(text)[l].phrase)
  {
    var fs := Filtered(Tokens(text));
    SimpleKeywordsSize(text);
    SimpleKeywordsScored(text);
    var top := MostCommon(fs);
    MostCommonOrdered(fs);
    MostCommonEntries(fs, k);
    MostCommonEntries(fs, l);
    ScoreInjective(top[k].count, top[l].count, |fs|);
    assert top[l].word in fs;
    FilteredKeepsOrder(Tokens(text), top[k].word, top[l].word);
  }

  lemma ScoreInjective(a: nat, b: nat, total: nat)
    requires total > 0
    requires a as real / total as real == b as real / total as real
    ensures a == b
  {
    assert a as real == (a as real / total as real) * total as real;
    assert b as real == (b as real / total as real) * total as real;
  }

  lemma ScoreMonotone(a: nat, b: nat, total: nat)
    requires a <= b && total > 0
    ensures a as real / total as real <= b as real / total as real
  {
  }

  function SumScores(ts: seq<Trend>): real {
    if ts == [] then 0.0 else ts[0].score + SumScores(ts[1..])
  }

  lemma {:induction false} ScoredSum(es: seq<Entry>, total: nat)
    requires total > 0
    ensures SumScores(Scored(es, total)) == SumCounts(es) as real / total as real
  {
    if es != [] {
      assert Scored(es, total)[1..] == Scored(es[1..], total);
      ScoredSum(es[1..], total);
      var a := es[0].count as real;
      var b := SumCounts(es[1..]) as real;
      var t := total as real;
      assert a / t + b / t == (a + b) / t;
    }
  }

  /** With at most ten distinct kept words, the scores are everybody's shares and add up to 1. */
  lemma SimpleKeywordsShares(text: string)
    requires Filtered(Tokens(text)) != []
    requires |DistinctWords(Filtered(Tokens(text)))| <= TopCount
    ensures SumScores(SimpleKeywords(text)) == 1.0
  {
    SimpleKeywordsScored(text);
    MostCommonShares(Filtered(Tokens(text)));
  }

  lemma MostCommonShares(ws: seq<string>)
    requires ws != [] && |DistinctWords(ws)| <= TopCount
    ensures SumScores(Scored(MostCommon(ws), |ws|)) == 1.0
  {
    var top := MostCommon(ws);
    MostCommonAll(ws);
    TallySorted(ws);
    TallySum(ws);
    assert SumCounts(top) == |ws|;
    ScoredSum(top, |ws|);
    WholeShare(|ws|);
  }

  lemma WholeShare(n: nat)
    requires n > 0
    ensures n as real / n as real == 1.0
  {
  }

  // ---------------------------------------------------------------------------
  // extract_trends

  /** On a non-empty cleaned frame the joined text is never blank, so the frame's
      trends are the keyword model's answer or the fallback's. */
  lemma ExtractTrendsOnCleanedRows(records: seq<RawRecord>, models: LoadedModels)
    requires records != []
    ensures var rows := CleanRecords(records);
      var fullText := Join(Contents(rows), " ");
      ExtractTrends(rows, models) ==
        if models.keywords.Some? && models.keywords.value(fullText).Some?
        then models.keywords.value(fullText).value
        else SimpleKeywords(fullText)
  {
    var rows := CleanRecords(records);
    CleanRecordsShape(records);
    var i :| 0 <= i < |records| && rows[0] == CleanRow(records[i]);
    ContentNeverBlank(records[i]);
    JoinKeepsFirst(Contents(rows), " ");
  }

  /** The joined text starts with the first piece. */
  lemma JoinKeepsFirst(xs: seq<string>, sep: string)
    requires xs != []
    ensures |xs[0]| <= |Join(xs, sep)| && Join(xs, sep)[..|xs[0]|] == xs[0]
  {
  }

  /** An empty frame has no trends; without the keyword model there are at most ten. */
  lemma ExtractTrendsFallback(rows: seq<Row>, models: LoadedModels)
    ensures rows == [] ==> ExtractTrends(rows, models) == []
    ensures models.keywords.None? ==> |ExtractTrends(rows, models)| <= TopCount
  {
    if rows != [] && models.keywords.None? {
      var fullText := Join(Contents(rows), " ");
      assert ExtractTrends(rows, models) == if IsBlank(fullText) then [] else SimpleKeywords(fullText);
      SimpleKeywordsSize(fullText);
    }
  }
}
