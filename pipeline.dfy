/** `process_data` of engine.py: the records are cleaned, labelled and mined for
    trends, and the response dictionary is filled in step by step; a failure in one
    stage leaves the defaults of the steps it stops. */
module Pipeline {
  import opened Models
  import opened Records
  import opened Sentiment
  import opened Trends

  /** Exceptions raised inside a stage by the data-frame library itself, which the
      model cannot otherwise produce: while cleaning the records (for instance a url
      that cannot be hashed for de-duplication), while labelling, while extracting
      trends, and while exporting the frame as records. */
  datatype Faults = Faults(cleaning: bool, labelling: bool, trends: bool, exporting: bool)

  /** One exported record: the cleaned row with its `sentiment` column. */
  datatype LabelledRecord = LabelledRecord(row: Row, sentiment: Sentiment)

  /** The response dictionary. */
  datatype AnalysisResult = AnalysisResult(
    cleanedRecords: seq<LabelledRecord>,
    sentimentSummary: map<string, nat>,
    trends: seq<Trend>)

  /** The response before any stage has run. */
  function DefaultResponse(): AnalysisResult {
    AnalysisResult([], map["positive" := 0, "neutral" := 0, "negative" := 0], [])
  }

  function Names(ss: seq<Sentiment>): seq<string> {
    seq(|ss|, i requires 0 <= i < |ss| => ss[i].Name())
  }

  /** `df['sentiment'].value_counts().to_dict()`: each label present, with how often. */
  function ValueCounts(names: seq<string>): map<string, nat> {
    map x | x in names :: multiset(names)[x]
  }

  /** `counts.get(label, 0)`. */
  function CountOr0(counts: map<string, nat>, labelName: string): nat {
    if labelName in counts then counts[labelName] else 0
  }

  function Summary(counts: map<string, nat>): map<string, nat> {
    map["positive" := CountOr0(counts, "positive"),
        "neutral" := CountOr0(counts, "neutral"),
        "negative" := CountOr0(counts, "negative")]
  }

  function Labelled(rows: seq<Row>, ss: seq<Sentiment>): seq<LabelledRecord>
    requires |rows| == |ss|
  {
    seq(|rows|, i requires 0 <= i < |rows| => LabelledRecord(rows[i], ss[i]))
  }

  /** The labels after the sentiment stage: the classifier's, or all neutral when it raised. */
  function StageSentiments(rows: seq<Row>, models: LoadedModels, labellingFails: bool): (ss: seq<Sentiment>)
    ensures |ss| == |rows|
  {
    if labellingFails then seq(|rows|, _ => Neutral) else Classified(rows, models)
  }

  /** `process_data`. */
  method ProcessData(records: seq<RawRecord>, models: LoadedModels, faults: Faults)
    returns (response: AnalysisResult)
    ensures response.sentimentSummary.Keys == {"positive", "neutral", "negative"}
    ensures Total(response.sentimentSummary) == if faults.cleaning then 0 else |CleanRecords(records)|
    ensures faults.cleaning ==> response == DefaultResponse()
    ensures !faults.cleaning ==>
      var rows := CleanRecords(records);
      var ss := StageSentiments(rows, models, faults.labelling);
      && response.sentimentSummary == Summary(ValueCounts(Names(ss)))
      && response.cleanedRecords == (if faults.exporting then [] else Labelled(rows, ss))
      && response.trends == (if faults.exporting || faults.trends then [] else ExtractTrends(rows, models))
  {
    response := DefaultResponse();
    if faults.cleaning {
      return;
    }
    var rows := CleanRecords(records);
    var sentiments: seq<Sentiment>;
    if faults.labelling {
      sentiments := seq(|rows|, _ => Neutral);
    } else {
      sentiments := AnalyzeSentiment(rows, models);
    }
    var trends: seq<Trend>;
    if faults.trends {
      trends := [];
    } else {
      trends := ExtractTrends(rows, models);
    }
    var counts := ValueCounts(Names(sentiments));
    SummaryCountsRows(sentiments);
    response := response.(sentimentSummary := Summary(counts));
    if faults.exporting {
      return;
    }
    response := response.(cleanedRecords := Labelled(rows, sentiments));
    response := response.(trends := trends);
  }

  // ---------------------------------------------------------------------------
  // What the response promises

  function Total(summary: map<string, nat>): nat
    requires summary.Keys == {"positive", "neutral", "negative"}
  {
    summary["positive"] + summary["neutral"] + summary["negative"]
  }

  /** Each summary entry counts the rows carrying that label. */
  lemma {:induction false} NameCounts(ss: seq<Sentiment>)
    ensures CountOr0(ValueCounts(Names(ss)), "positive") == multiset(ss)[Positive]
    ensures CountOr0(ValueCounts(Names(ss)), "neutral") == multiset(ss)[Neutral]
    ensures CountOr0(ValueCounts(Names(ss)), "negative") == multiset(ss)[Negative]
  {
    NamesMultiset(ss);
  }

  lemma NamesMultiset(ss: seq<Sentiment>)
    ensures multiset(Names(ss))["positive"] == multiset(ss)[Positive]
    ensures multiset(Names(ss))["neutral"] == multiset(ss)[Neutral]
    ensures multiset(Names(ss))["negative"] == multiset(ss)[Negative]
  {
    NameCount(ss, Positive);
    NameCount(ss, Neutral);
    NameCount(ss, Negative);
  }

  /** Different labels have different names. */
  lemma NameInjective(a: Sentiment, b: Sentiment)
    ensures a.Name() == b.Name() ==> a == b
  {
    if a != b {
      assert a.Name()[2] != b.Name()[2];
    }
  }

  /** A label's name occurs among the names as often as the label among the labels. */
  lemma {:induction false} NameCount(ss: seq<Sentiment>, t: Sentiment)
    ensures multiset(Names(ss))[t.Name()] == multiset(ss)[t]
  {
    if ss != [] {
      var init := ss[..|ss| - 1];
      var x := ss[|ss| - 1];
      assert ss == init + [x];
      assert Names(ss) == Names(init) + [x.Name()];
      NameInjective(x, t);
      NameCount(init, t);
    }
  }

  lemma {:induction false} ThreeLabels(ss: seq<Sentiment>)
    ensures multiset(ss)[Positive] + multiset(ss)[Neutral] + multiset(ss)[Negative] == |ss|
  {
    if ss != [] {
      var init := ss[..|ss| - 1];
      var x := ss[|ss| - 1];
      assert ss == init + [x];
      assert multiset(ss) == multiset(init) + multiset{x};
      ThreeLabels(init);
      assert x == Positive || x == Neutral || x == Negative;
    }
  }

  /** The summary accounts for every labelled row exactly once. */
  lemma SummaryCountsRows(ss: seq<Sentiment>)
    ensures Total(Summary(ValueCounts(Names(ss)))) == |ss|
    ensures Summary(ValueCounts(Names(ss)))["positive"] == multiset(ss)[Positive]
    ensures Summary(ValueCounts(Names(ss)))["neutral"] == multiset(ss)[Neutral]
    ensures Summary(ValueCounts(Names(ss)))["negative"] == multiset(ss)[Negative]
  {
    NameCounts(ss);
    ThreeLabels(ss);
  }

  /** Without faults: one exported record per cleaned row, each labelled by the
      classifier, and the summary adds up to the number of exported records. */
  lemma ProcessedRecordsConsistent(records: seq<RawRecord>, models: LoadedModels, response: AnalysisResult)
    requires response.sentimentSummary.Keys == {"positive", "neutral", "negative"}
    requires var rows := CleanRecords(records);
      var ss := StageSentiments(rows, models, false);
      && response.sentimentSummary == Summary(ValueCounts(Names(ss)))
      && response.cleanedRecords == Labelled(rows, ss)
    ensures |response.cleanedRecords| == |CleanRecords(records)| <= |records|
    ensures Total(response.sentimentSummary) == |response.cleanedRecords|
    ensures forall k | 0 <= k < |response.cleanedRecords| ::
      var r := response.cleanedRecords[k];
      r.sentiment == Classify(r.row.source, r.row.content, models)
  {
    var rows := CleanRecords(records);
    CleanRecordsShape(records);
    SummaryCountsRows(StageSentiments(rows, models, false));
  }

  /** When the sentiment stage raises, every row counts as neutral. */
  lemma LabellingFailureIsNeutral(rows: seq<Row>, models: LoadedModels)
    ensures var summary := Summary(ValueCounts(Names(StageSentiments(rows, models, true))));
      summary["neutral"] == |rows| && summary["positive"] == 0 && summary["negative"] == 0
  {
    var ss := StageSentiments(rows, models, true);
    SummaryCountsRows(ss);
    assert forall x | x in multiset(ss) :: x == Neutral;
    assert multiset(ss)[Positive] == 0 by { assert Positive !in multiset(ss); }
    assert multiset(ss)[Negative] == 0 by { assert Negative !in multiset(ss); }
  }

  /** No records: nothing to export, no trends and an all-zero summary, whatever fails. */
  lemma EmptyInputGivesDefault(models: LoadedModels, faults: Faults)
    ensures var rows := CleanRecords([]);
      var ss := StageSentiments(rows, models, faults.labelling);
      && Summary(ValueCounts(Names(ss))) == DefaultResponse().sentimentSummary
      && Labelled(rows, ss) == []
      && ExtractTrends(rows, models) == []
  {
    var ss := StageSentiments([], models, faults.labelling);
    assert Names(ss) == [];
    assert ValueCounts([]) == map[];
  }
}
