/** The three optional machine-learning models of engine.py, as the engine sees
    them once `_load_models` has run: each one loaded or not (`None` when its import
    or construction failed), and, when loaded, a function from its input text to
    what it answers, including the answer "it raised". */
module Models {
  import opened Wrappers

  /** One trend: a key phrase and its score, the `(str, float)` pairs that both the
      keyword model and the frequency fallback return. */
  datatype Trend = Trend(phrase: string, score: real)

  /** What `polarity_scores` gives: an exception, or a score dictionary that holds a
      `compound` value or lacks it. */
  datatype VaderOutput = VaderRaised | Scores(compound: Option<real>)

  /** What the transformer pipeline gives: an exception, a single dictionary, or a
      list of dictionaries; each dictionary holds a `label` or lacks it. */
  datatype RobertaOutput =
    | RobertaRaised
    | OneResult(labelName: Option<string>)
    | ResultList(labelNames: seq<Option<string>>)

  /** The module-level model cache: `VADER_ANALYZER`, `ROBERTA_PIPELINE` and
      `KEYWORD_MODEL`. The keyword model answers `None` when `extract_keywords` raises. */
  datatype LoadedModels = LoadedModels(
    vader: Option<string -> VaderOutput>,
    roberta: Option<string -> RobertaOutput>,
    keywords: Option<string -> Option<seq<Trend>>>)
}
