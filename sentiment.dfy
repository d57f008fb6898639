/** `analyze_sentiment` and `_vader_sentiment` of engine.py: each row's content is
    labelled positive, neutral or negative, by the transformer model for everything
    but YouTube when that model is loaded, and by the VADER lexicon otherwise or when
    the transformer fails. */
module Sentiment {
  import opened Wrappers
  import opened Text
  import opened Models
  import opened Records

  datatype Sentiment = Positive | Neutral | Negative {
    /** The label the frame holds. */
    function Name(): string {
      match this
      case Positive => "positive"
      case Neutral => "neutral"
      case Negative => "negative"
    }
  }

  /** The rank used to compare labels: negative below neutral below positive. */
  function Rank(s: Sentiment): int {
    match s
    case Negative => -1
    case Neutral => 0
    case Positive => 1
  }

  /** The transformer's answer is cut to its first 1000 characters. */
  const RobertaInputLimit: nat := 1000
  /** The compound score from which VADER calls a text positive (and, negated, negative). */
  const CompoundThreshold: real := 0.05

  /** `roberta_map`. */
  const RobertaLabels: map<string, Sentiment> :=
    map["LABEL_0" := Negative, "LABEL_1" := Neutral, "LABEL_2" := Positive]

  /** `roberta_map.get(label, "neutral")`. */
  function RobertaSentiment(labelName: string): Sentiment {
    if labelName in RobertaLabels then RobertaLabels[labelName] else Neutral
  }

  /** The sentiment the transformer's answer yields, or `None` when reading it raised:
      the pipeline raised, the (first) dictionary has no `label`, or the list is empty. */
  function RobertaVerdict(out: RobertaOutput): Option<Sentiment> {
    match out
    case RobertaRaised => None
    case OneResult(name) => if name.Some? then Some(RobertaSentiment(name.value)) else None
    case ResultList(names) =>
      if names == [] || names[0].None? then None else Some(RobertaSentiment(names[0].value))
  }

  /** VADER's verdict on a compound score. */
  function CompoundSentiment(compound: real): Sentiment {
    if compound >= CompoundThreshold then Positive
    else if compound <= -CompoundThreshold then Negative
    else Neutral
  }

  /** `_vader_sentiment`: neutral without an analyzer or when it raises; a missing
      compound score counts as 0. */
  function VaderSentiment(text: string, models: LoadedModels): (s: Sentiment)
    ensures models.vader.None? ==> s == Neutral
  {
    if models.vader.None? then Neutral
    else match models.vader.value(text)
      case VaderRaised => Neutral
      case Scores(compound) => CompoundSentiment(compound.GetOr(0.0))
  }

  /** `content[:1000]`. */
  function Truncated(content: string): string {
    if |content| <= RobertaInputLimit then content else content[..RobertaInputLimit]
  }

  predicate IsYouTube(source: Option<string>) {
    source == Some("youtube")
  }

  /** The sentiment one row receives in the loop of `analyze_sentiment`. */
  function Classify(source: Option<string>, content: string, models: LoadedModels): (s: Sentiment)
    ensures IsBlank(content) ==> s == Neutral
    ensures IsYouTube(source) && !IsBlank(content) ==> s == VaderSentiment(content, models)
    ensures models.roberta.None? ==> s == (if IsBlank(content) then Neutral else VaderSentiment(content, models))
    ensures models.vader.None? && models.roberta.None? ==> s == Neutral
  {
    if IsBlank(content) then Neutral
    else if !IsYouTube(source) && models.roberta.Some? then
      match RobertaVerdict(models.roberta.value(Truncated(content)))
      case Some(s) => s
      case None => VaderSentiment(content, models)
    else VaderSentiment(content, models)
  }

  /** The labels `analyze_sentiment` assigns, row by row. */
  function Classified(rows: seq<Row>, models: LoadedModels): seq<Sentiment> {
    seq(|rows|, i requires 0 <= i < |rows| => Classify(rows[i].source, rows[i].content, models))
  }

  /** `analyze_sentiment`: the loop over the frame's rows, collecting one label per row. */
  method AnalyzeSentiment(rows: seq<Row>, models: LoadedModels) returns (sentiments: seq<Sentiment>)
    ensures |sentiments| == |rows|
    ensures sentiments == Classified(rows, models)
  {
    if |rows| == 0 {
      return [];
    }
    sentiments := [];
    var i := 0;
    while i < |rows|
      invariant 0 <= i <= |rows|
      invariant sentiments == Classified(rows[..i], models)
    {
      var source := rows[i].source;
      var content := rows[i].content;
      var res: Sentiment;
      if IsBlank(content) {
        res := Neutral;
      } else if !IsYouTube(source) && models.roberta.Some? {
        var verdict := RobertaVerdict(models.roberta.value(Truncated(content)));
        if verdict.Some? {
          res := verdict.value;
        } else {
          res := VaderSentiment(content, models);
        }
      } else {
        res := VaderSentiment(content, models);
      }
      assert Classified(rows[..i + 1], models) == Classified(rows[..i], models) + [res];
      sentiments := sentiments + [res];
      i := i + 1;
    }
    assert rows[..i] == rows;
  }

  // ---------------------------------------------------------------------------
  // What the labelling promises

  /** VADER's verdict is monotone in the compound score. */
  lemma CompoundSentimentMonotone(a: real, b: real)
    requires a <= b
    ensures Rank(CompoundSentiment(a)) <= Rank(CompoundSentiment(b))
  {
  }

  /** VADER's verdict is symmetric: negating the score swaps positive and negative. */
  lemma CompoundSentimentSymmetric(c: real)
    ensures Rank(CompoundSentiment(-c)) == -Rank(CompoundSentiment(c))
  {
  }

  /** Scores strictly between the two thresholds, and a missing score, are neutral. */
  lemma CompoundDeadZone(c: real)
    ensures (-CompoundThreshold < c < CompoundThreshold) <==> CompoundSentiment(c) == Neutral
  {
  }

  /** Only the three known transformer labels give a polar verdict; any other is neutral. */
  lemma RobertaSentimentCases(labelName: string)
    ensures RobertaSentiment(labelName) == Positive <==> labelName == "LABEL_2"
    ensures RobertaSentiment(labelName) == Negative <==> labelName == "LABEL_0"
  {
  }

  /** A transformer failure is invisible: the row gets what it would get with no
      transformer loaded. */
  lemma RobertaFailureFallsBack(source: Option<string>, content: string, models: LoadedModels)
    requires models.roberta.Some? && RobertaVerdict(models.roberta.value(Truncated(content))).None?
    ensures Classify(source, content, models) == Classify(source, content, models.(roberta := None))
  {
  }

  /** YouTube rows never consult the transformer. */
  lemma YouTubeIgnoresRoberta(content: string, models: LoadedModels, other: Option<string -> RobertaOutput>)
    ensures Classify(Some("youtube"), content, models) == Classify(Some("youtube"), content, models.(roberta := other))
  {
  }

  /** The transformer sees at most the first 1000 characters: contents that agree on
      them get the same label when the transformer answers. */
  lemma RobertaSeesPrefix(source: Option<string>, a: string, b: string, models: LoadedModels)
    requires !IsYouTube(source) && models.roberta.Some?
    requires |a| >= RobertaInputLimit && |b| >= RobertaInputLimit
    requires a[..RobertaInputLimit] == b[..RobertaInputLimit]
    requires !IsBlank(a) && !IsBlank(b)
    requires RobertaVerdict(models.roberta.value(Truncated(a))).Some?
    ensures Classify(source, a, models) == Classify(source, b, models)
  {
    assert Truncated(a) == a[..RobertaInputLimit] == b[..RobertaInputLimit] == Truncated(b);
  }

  /** On cleaned rows the blank-content branch never fires: with no models at all the
      label is neutral, and otherwise it is the model's verdict. */
  lemma CleanedRowsSkipBlankCheck(rec: RawRecord, models: LoadedModels)
    ensures var r := CleanRow(rec);
      Classify(r.source, r.content, models) ==
        if !IsYouTube(r.source) && models.roberta.Some?
           && RobertaVerdict(models.roberta.value(Truncated(r.content))).Some?
        then RobertaVerdict(models.roberta.value(Truncated(r.content))).value
        else VaderSentiment(r.content, models)
  {
    ContentNeverBlank(rec);
    var r := CleanRow(rec);
    assert !IsBlank(r.content);
  }
}
