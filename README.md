# Brand-mention pipeline: a Dafny model

This project models the ingestion-and-analysis core of a brand monitor for
"LeapScholar". It covers two source files.

`harvesters.py` holds three harvesters: a video search, a forum search and a
news feed. Each walks the items its source returned. It skips the items it
cannot read and the ones that fail the brand relevance gate (`_is_relevant`).
For every item it keeps, it emits one mention record. `harvest_all`
concatenates the three lists.

`engine.py` turns such records into an analysis result:

- `clean_records` cleans the title and text of each record (URLs, @-mentions,
  whitespace). It derives `content = title + ". " + text` and drops the rows
  whose url repeats an earlier one.
- `analyze_sentiment` labels each row positive, neutral or negative. It uses a
  cascade: the transformer model first (never for YouTube rows), then the VADER
  lexicon, then neutral.
- `extract_trends` asks the keyword model for phrases. When that model is
  absent or fails, `_simple_keyword_extraction` ranks the ten most frequent
  kept words, each scored by its share of all kept words.
- `process_data` runs the three stages and fills in the response dictionary.
  A stage that raises leaves that stage's documented default.

## Modelling choices

- **What the network returns is an input.** A harvester receives the search
  reply, the forum listing or the feed as a datatype. That datatype includes
  each way the fetch can fail: no API key, an exception, a non-200 status or an
  unreadable body. A fetched item's fields are `Option`s, because a field may
  be missing.
- **Harvest results come from one function.** Each harvester method is a loop
  that appends. It is proved equal to `Somes` of its per-item outcomes, and
  every property of the harvest is proved about those functions.
- **The models are parameters.** The three optional models are in
  `Models.LoadedModels`:
  - each model is either not loaded, or a function from its input to its
    answer;
  - an answer can be "raised";
  - the transformer can answer with one dictionary or with a list of them;
  - the lexicon's score dictionary can lack `compound`.
- **`clean_text` passes are left-to-right scans.** The URL and mention passes
  (`StripUrls`, `StripMentions`) are scans that delete the leftmost-longest
  match. The whitespace pass (`Collapse`) is a scan that replaces each maximal
  whitespace run with one space. `Strip` models `str.strip()`: it drops leading
  and trailing whitespace.
- **The data frame is a sequence of rows.**
  - A missing key (NaN) and a non-string cell are both cleaned to "" by
    `clean_text`, and `Records.Field` keeps the two apart.
  - An incoming url cell is `Records.UrlCell`: the key is absent, it holds
    `None`, or it holds a string. The frame has a url column as soon as one
    record has the key, even with `None`. In the column, an absent key and
    `None` are both null, and the model treats all nulls as one value when
    de-duplicating. That is what the library does for a column holding only
    nulls; for a mixed column see `Records.UrlValue` under "Left out".
  - The sentiment column is the sequence of labels the loop collects.
- **Stage faults are a parameter.** A stage that raises because of the
  data-frame library is given by `Pipeline.Faults`. One example is an url cell
  that cannot be hashed when de-duplicating. Every failure of a model or a
  fetched item is already modelled where it happens.
- **`_simple_keyword_extraction` ranks by sorting the counter.** `Counter.most_common(10)` is
  a stable sort by decreasing count. The model sorts the counter entries by
  count and, among equal counts, by first occurrence (`Trends.Precedes`). It
  then takes ten.

## Model

| member | source | states |
|---|---|---|
| `Text.Words` | engine.py:209 | every token found is a non-empty run of word characters |
| `Text.WordsSplit` | engine.py:209 | a non-word character separates: the words of `a + [c] + b` are the words of `a` followed by the words of `b` |
| `Text.WordsOfWord` | engine.py:209 | a non-empty run of word characters is found whole, as one word; with `Text.WordsSplit` this fixes the tokens as the maximal runs, left to right |
| `Relevance.IsRelevant` | harvesters.py:20-33 | `_is_relevant`: a non-empty text whose lower-cased form contains one of the four brand phrases as whole words; its properties are the `Relevance` lemmas below |
| `Relevance.BrandInAnyCaseIsRelevant` | harvesters.py:20-33 | "LeapScholar" in any letter case, standing as a whole word, makes a text relevant |
| `Relevance.PluralIsIrrelevant` | harvesters.py:26-33 | the patterns need whole words: "leapscholars" is not relevant |
| `Relevance.RelevanceIgnoresCase` | harvesters.py:24 | two texts that lower-case alike are judged alike |
| `Relevance.EmptyIsIrrelevant` | harvesters.py:21-22 | the empty text is never relevant |
| `Relevance.RelevantBeforeSeparator` | harvesters.py:26-33 | appending text that starts with a non-word character keeps a relevant text relevant |
| `Relevance.RelevantAfterSeparator` | harvesters.py:26-33 | prepending text that ends with a non-word character keeps a relevant text relevant |
| `Harvesters.VideoMention` | harvesters.py:58-104 | the outcome for one search item: nothing when its id or snippet cannot be read or neither title nor built text passes the gate, otherwise the tagged mention; see `Harvesters.VideoMentionTagged`, `Harvesters.RelevantDescriptionKept`, `Harvesters.YouTubeHarvestKeepsRelevant`, `Harvesters.VideoTextShape` and `Harvesters.YouTubeHarvestTagged` |
| `Harvesters.RedditMention` | harvesters.py:134-159 | the outcome for one listing child: nothing when it is malformed, its timestamp cannot be converted or it fails the gate, otherwise the tagged mention; see `Harvesters.RedditMentionTagged`, `Harvesters.RedditHarvestTagged` and `Harvesters.RedditHarvestKeepsRelevant` |
| `Harvesters.NewsMention` | harvesters.py:188-222 | the outcome for one feed entry: summary or description as text, the parsed time or published or updated date as timestamp, kept when it passes the gate; see `Harvesters.NewsMentionTagged`, `Harvesters.NewsHarvestTagged`, `Harvesters.NewsHarvestKeepsRelevant` and `Harvesters.NewsHarvestBounded` |
| `Harvesters.YouTubeHarvest` | harvesters.py:35-112 | the video mentions: none without a key or when the search fails, otherwise the readable relevant items in search order; see `Harvesters.HarvestYouTube`, `Harvesters.YouTubeHarvestTagged` and `Harvesters.YouTubeHarvestKeepsRelevant` |
| `Harvesters.RedditHarvest` | harvesters.py:114-166 | the forum mentions: none when the listing fails, has another status or carries no listing data, otherwise the relevant posts in listing order; see `Harvesters.HarvestReddit`, `Harvesters.RedditHarvestTagged` and `Harvesters.RedditHarvestKeepsRelevant` |
| `Harvesters.NewsHarvest` | harvesters.py:168-227 | the news mentions: none when the feed fails or has another status, otherwise the relevant entries among the first ten; see `Harvesters.HarvestGoogleNews`, `Harvesters.NewsHarvestTagged`, `Harvesters.NewsHarvestKeepsRelevant` and `Harvesters.NewsHarvestBounded` |
| `Harvesters.ReadComments` | harvesters.py:67-88 | the comment text is the readable comments joined by the separator; it is empty when the request failed or no comment could be read |
| `Harvesters.HarvestYouTube` | harvesters.py:35-112 | the loop's result is the per-item outcome for every readable and relevant video, in search order; nothing without a key or when the search fails |
| `Harvesters.HarvestReddit` | harvesters.py:114-166 | the loop's result is the per-post outcome for every readable and relevant post, in listing order; nothing on failure or a non-200 status |
| `Harvesters.HarvestGoogleNews` | harvesters.py:168-227 | the loop's result is the per-entry outcome over the first ten entries; nothing on failure or a non-200 status |
| `Harvesters.HarvestAll` | harvesters.py:229-257 | the result is the video, forum and news harvests concatenated in that order |
| `Harvesters.YouTubeHarvestTagged` | harvesters.py:92-104 | every video mention passes the gate and is tagged "youtube", "LeapScholar" and matched |
| `Harvesters.RedditHarvestTagged` | harvesters.py:147-159 | every forum mention passes the gate and is tagged "reddit", "LeapScholar" and matched |
| `Harvesters.NewsHarvestTagged` | harvesters.py:210-222 | every news mention passes the gate and is tagged "google_news", "LeapScholar" and matched |
| `Harvesters.YouTubeHarvestKeepsRelevant` | harvesters.py:58-104 | a readable video whose title or built text passes the gate is emitted |
| `Harvesters.RedditHarvestKeepsRelevant` | harvesters.py:134-159 | a well-formed forum post whose timestamp converts and whose title or selftext is relevant is emitted by a successful listing |
| `Harvesters.NewsHarvestKeepsRelevant` | harvesters.py:185-222 | a feed entry among the first ten whose title or summary is relevant is emitted by a successful feed |
| `Harvesters.VideoTextShape` | harvesters.py:67-90 | a video's text is its description, the comments label and the readable comments joined by the separator |
| `Harvesters.RelevantDescriptionKept` | harvesters.py:90-94 | a readable video whose description is relevant is never filtered out, whatever its comments |
| `Harvesters.NewsHarvestBounded` | harvesters.py:185-188 | the news harvest has at most ten mentions, each from one of the first ten entries |
| `Harvesters.FailingSourcesContributeNothing` | harvesters.py:35-227 | an unreachable source, a missing key or a non-200 status gives an empty list |
| `Harvesters.HarvestAllOrdered` | harvesters.py:229-257 | every aggregated mention is relevant and tagged; video mentions precede forum mentions, which precede news mentions; the length is the sum of the three |
| `TextCleaning.CleanTextAsWritten` | engine.py:63-72 | `clean_text` as written: the URL pass, the mention pass, the whitespace collapse and `strip()`, in that order; its properties are `TextCleaning.CleanTextAsWrittenShape`, `TextCleaning.CleanTextAsWrittenStable` and `TextCleaning.CleanTextAsWrittenNotIdempotent` |
| `TextCleaning.StripUrls` | engine.py:67 | the URL pass: scanning left to right, each `http` or `www.` that a non-whitespace character follows is deleted together with the rest of its non-whitespace run; see `TextCleaning.StripUrlsUrlFree` |
| `TextCleaning.StripMentions` | engine.py:69 | the mention pass: scanning left to right, each `@` that a word character follows is deleted together with its word run; see `TextCleaning.StripMentionsMentionFree` |
| `TextCleaning.Collapse` | engine.py:71 | the whitespace pass: every whitespace run becomes one space; see `TextCleaning.CollapseSingleSpaced` |
| `TextCleaning.Strip` | engine.py:71 | `strip()`: leading and trailing whitespace is dropped; see `TextCleaning.CleanTextAsWrittenShape` |
| `TextCleaning.StripUrlsUrlFree` | engine.py:67 | after the URL pass no URL match remains |
| `TextCleaning.StripMentionsMentionFree` | engine.py:69 | after the mention pass no mention match remains |
| `TextCleaning.CollapseSingleSpaced` | engine.py:71 | after the whitespace pass every whitespace character is one space between non-spaces |
| `TextCleaning.CleanTextAsWrittenShape` | engine.py:63-72 | the text as written is trimmed, single-spaced and free of mentions |
| `TextCleaning.CleanTextShape` | engine.py:63-72 | the corrected definition proposed under ## Findings gives a text that is trimmed, single-spaced and free of URLs and mentions |
| `TextCleaning.CleanTextIdempotent` | engine.py:63-72 | the corrected definition proposed under ## Findings is idempotent: cleaning its result again changes nothing |
| `TextCleaning.CleanTextAsWrittenFixedIsUrlFree` | engine.py:63-72 | a text that the code as written leaves unchanged holds no URL |
| `TextCleaning.CleanTextAsWrittenStable` | engine.py:63-72 | as written, cleaning the result again changes nothing exactly when the result holds no URL, which is so whenever deleting mentions splices no URL together |
| `TextCleaning.CleanTextKeepsCleanText` | engine.py:63-72 | both versions leave an already clean text unchanged |
| `TextCleaning.CleanTextAgrees` | engine.py:67-69 | the correction agrees with the code whenever the as-written passes leave no URL |
| `TextCleaning.CleanTextAsWrittenNotIdempotent` | engine.py:67-69 | as written, "www@x.y" cleans to "www.y", and cleaning that again gives "" |
| `Records.CleanRow` | engine.py:63-84 | one record cleaned: title and text through `clean_text` as written (non-strings become ""), content = title + ". " + text, the url as the column's value; see `Records.CleanRowShape`, `Records.ContentNeverBlank` and `Records.CleanRowIdempotent` |
| `Records.CleanRecords` | engine.py:54-89 | `clean_records`: no records give no rows; otherwise every record is cleaned and, when there is a url column, only the first row of each url is kept; see `Records.CleanRecordsShape` and `Records.CleanRecordsIdempotent` |
| `Records.DropDuplicateUrls` | engine.py:86-87 | `drop_duplicates(subset=['url'])`: the rows whose url no earlier row has, in order; see `Records.KeptIndices`, `Records.DropDuplicateUrlsSound`, `Records.DropDuplicateUrlsComplete`, `Records.DropDuplicateUrlsKeepsFirst` and `Records.DropDuplicateUrlsIdempotent` |
| `Records.KeptIndices` | engine.py:86-87 | the kept positions increase, and a position is kept exactly when no earlier row has its url |
| `Records.DropDuplicateUrlsSound` | engine.py:86-87 | the kept rows have pairwise different urls and are no more than the input |
| `Records.DropDuplicateUrlsComplete` | engine.py:86-87 | every url of the input is the url of some kept row |
| `Records.DropDuplicateUrlsKeepsFirst` | engine.py:86-87 | each kept row is an input row that no earlier row shares its url with |
| `Records.DropDuplicateUrlsIdempotent` | engine.py:86-87 | de-duplicating twice is de-duplicating once |
| `Records.CleanRowShape` | engine.py:63-84 | a cleaned title and text are trimmed, single-spaced and free of mentions, and free of URLs unless deleting a mention spliced one together; missing or non-string cells become ""; content is title + ". " + text; the other fields pass through, absent and `None` urls both becoming null |
| `Records.ContentNeverBlank` | engine.py:84 | the content of a cleaned row is never blank |
| `Records.CleanRowIdempotent` | engine.py:63-84 | cleaning a cleaned row again changes nothing exactly when no URL is left in its title and text |
| `Records.CleanRowNotIdempotent` | engine.py:63-84 | as written, a record titled "www@x.y" is cleaned to the title "www.y", and cleaning that row again gives "" |
| `Records.CleanRecordsShape` | engine.py:54-89 | there are at most as many rows as records, and some when there are records; without a url column every record gives its row; with one, urls do not repeat; every row is a cleaned record |
| `Records.CleanRecordsIdempotent` | engine.py:54-89 | when no URL is left in the cleaned rows, cleaning them again (exported with the url column the frame had) gives the same rows |
| `Records.HarvestedRowsHaveDistinctUrls` | engine.py:86-87 | harvested records always carry a url, so their cleaned rows have distinct urls |
| `Sentiment.CompoundSentiment` | engine.py:153-160 | the lexicon's label for a compound score: positive from 0.05, negative up to -0.05, neutral between; see `Sentiment.CompoundDeadZone`, `Sentiment.CompoundSentimentMonotone` and `Sentiment.CompoundSentimentSymmetric` |
| `Sentiment.RobertaVerdict` | engine.py:121-133 | the transformer's label read from its answer (one dictionary, or the first of a list), or nothing when it raised, has no label or is an empty list; see `Sentiment.RobertaFailureFallsBack` and `Sentiment.RobertaSentimentCases` |
| `Sentiment.VaderSentiment` | engine.py:147-162 | without an analyzer the label is neutral |
| `Sentiment.Classify` | engine.py:109-142 | blank content is neutral; a YouTube row gets the lexicon's label; with no transformer the lexicon decides; with neither model the label is neutral |
| `Sentiment.AnalyzeSentiment` | engine.py:91-145 | the loop yields one label per row, the row's classification |
| `Sentiment.CompoundSentimentMonotone` | engine.py:153-160 | a higher compound score never gives a lower label |
| `Sentiment.CompoundSentimentSymmetric` | engine.py:153-160 | negating the score swaps positive and negative |
| `Sentiment.CompoundDeadZone` | engine.py:153-160 | a score is neutral exactly when strictly between -0.05 and 0.05 |
| `Sentiment.RobertaSentimentCases` | engine.py:103-107 | only LABEL_2 gives positive and only LABEL_0 gives negative; any other label is neutral |
| `Sentiment.RobertaFailureFallsBack` | engine.py:121-133 | when the transformer raises or its answer has no label, the row gets what it would get without a transformer |
| `Sentiment.YouTubeIgnoresRoberta` | engine.py:120-137 | a YouTube row's label does not depend on the transformer |
| `Sentiment.RobertaSeesPrefix` | engine.py:124-125 | when the transformer answers, two contents that agree on their first 1000 characters get the same label |
| `Sentiment.CleanedRowsSkipBlankCheck` | engine.py:113-115 | on a cleaned row the blank-content branch never fires |
| `Trends.Filtered` | engine.py:211-214 | every kept word passes the filter |
| `Trends.FilteredOne` | engine.py:211-214 | a single word is kept exactly when it passes the filter |
| `Trends.FilteredAppend` | engine.py:211-214 | the filter distributes over concatenation, so with `Trends.FilteredOne` the kept words are exactly the passing ones, in text order |
| `Trends.FilteredCounts` | engine.py:211-214 | each word is kept exactly as often as it occurs when it passes, and never otherwise |
| `Trends.FilteredKeepsOrder` | engine.py:211-214 | a word that occurs before a kept word in the filtered list occurs before it in the text's tokens |
| `Trends.Tokens` | engine.py:209 | the word runs of the lower-cased text; see `Text.WordsSplit` and `Text.WordsOfWord` |
| `Trends.Tally` | engine.py:216 | the counter: one entry per distinct kept word, in first-seen order, with its count; see `Trends.DistinctWordsFirstSeen` and `Trends.TallySum` |
| `Trends.MostCommon` | engine.py:219 | `most_common(10)`: the first ten counter entries by count, ties in first-seen order; see `Trends.MostCommonSize`, `Trends.MostCommonOrdered` and `Trends.MostCommonComplete` |
| `Trends.DistinctWords` | engine.py:216 | the counter's keys are distinct and are exactly the words that occur |
| `Trends.DistinctWordsFirstSeen` | engine.py:216 | the counter's keys are in order of first occurrence |
| `Trends.TallySum` | engine.py:216-217 | the counter's values add up to the number of kept words |
| `Trends.RankOrderSorts` | engine.py:219 | sorting keeps the entries and their total, and orders them by count with first occurrence breaking ties |
| `Trends.MostCommonSize` | engine.py:219 | the result has ten entries, or all distinct words when there are fewer |
| `Trends.MostCommonOrdered` | engine.py:219 | higher counts come first; equal counts keep first-seen order |
| `Trends.MostCommonComplete` | engine.py:219 | when a word is left out, ten words are listed, and each occurs more often than the left-out word, or as often and first seen before it |
| `Trends.SimpleKeywords` | engine.py:197-222 | `_simple_keyword_extraction`: the ten most common kept tokens, each scored by its count over the number of kept tokens; see `Trends.SimpleKeywordsSize`, `Trends.SimpleKeywordsEntry`, `Trends.SimpleKeywordsPair`, `Trends.SimpleKeywordsTieBreak` and `Trends.SimpleKeywordsShares` |
| `Trends.SimpleKeywordsSize` | engine.py:197-222 | at most ten trends, and none exactly when no word survives the filter |
| `Trends.SimpleKeywordsEntry` | engine.py:209-219 | each trend is a kept word of the text, scored by its count over the number of kept words |
| `Trends.SimpleKeywordsPair` | engine.py:216-219 | the trend words are distinct and their scores do not increase |
| `Trends.SimpleKeywordsTieBreak` | engine.py:209-219 | two trends with equal scores are listed in the order their words first occur in the text's tokens |
| `Trends.SimpleKeywordsShares` | engine.py:216-219 | with at most ten distinct kept words, the scores add up to 1 |
| `Trends.ExtractTrends` | engine.py:164-195 | `extract_trends`: nothing for an empty frame or a blank joined text, the keyword model's phrases when it is loaded and answers, the frequency fallback otherwise; see `Trends.ExtractTrendsOnCleanedRows` and `Trends.ExtractTrendsFallback` |
| `Trends.ExtractTrendsOnCleanedRows` | engine.py:164-195 | on a non-empty cleaned frame the joined text is never blank: the trends are the keyword model's answer when it gives one, the fallback's otherwise |
| `Trends.ExtractTrendsFallback` | engine.py:164-195 | an empty frame has no trends; without the keyword model there are at most ten |
| `Pipeline.ValueCounts` | engine.py:249 | `value_counts()`: each label that occurs, mapped to its number of rows; see `Pipeline.SummaryCountsRows` |
| `Pipeline.Summary` | engine.py:253-257 | the three summary keys, each with its label's count or 0; see `Pipeline.SummaryCountsRows` and `Pipeline.EmptyInputGivesDefault` |
| `Pipeline.ProcessData` | engine.py:224-265 | the summary always has exactly the three keys, and its values add up to the number of cleaned rows (0 when cleaning fails); a cleaning fault gives the default response; labels, records and trends follow the stages, with each fault's default |
| `Pipeline.SummaryCountsRows` | engine.py:248-257 | each summary value counts the rows with that label, and together they count every row |
| `Pipeline.ProcessedRecordsConsistent` | engine.py:224-265 | without faults, there is one exported record per cleaned row, labelled by the classifier, and the summary adds up to the number of exported records |
| `Pipeline.LabellingFailureIsNeutral` | engine.py:238-241 | when labelling raises, every row counts as neutral |
| `Pipeline.EmptyInputGivesDefault` | engine.py:224-265 | no records give no rows, no trends and an all-zero summary |

## Left out

- Network access, API clients, query strings, headers, timeouts and reading
  the API key from the environment are left out. Each harvester receives what
  its fetch returned; a missing key is `NoApiKey`.
- Request limits (`maxResults=10`, `maxResults=2`, `limit=25`) are left out.
  They are honoured by the remote service, so the model accepts any number of
  returned items.
- Timestamp conversions (`fromtimestamp`, `published_parsed`) are left out.
  They are given as their ISO result, or as the failure that makes a forum
  post be skipped.
- A fetched title, description, selftext or summary that is neither a string
  nor absent is left out; fetched fields here are strings or absent. In the
  code, a falsy value such as `None` makes `_is_relevant` return False without
  raising (harvesters.py:21-22), so the item is still emitted when its other
  text is relevant. A truthy non-string makes `.lower()` raise when the
  relevance check reaches it: that skips the video or forum post, but empties
  the whole news harvest, because `harvest_google_news` has no handler per
  entry (harvesters.py:224-225). The check stops after a relevant title
  (harvesters.py:148, 211), so behind a relevant title such a selftext or
  summary is emitted as is. A
  video description never reaches the gate alone: it is formatted into the
  text at harvesters.py:90.
- `Records.UrlValue`: merges an absent url key and a `None` url into one null
  value. In a url column that mixes strings, `None` and absent keys, the
  library's object hashing may tell `None` apart from the NaN of an absent
  key, so `[{"url":"u"},{"url":None},{}]` may keep three rows where the model
  keeps two.
- A url cell holding a value other than a string or `None` is left out. Such a
  value that cannot be hashed is one of the cleaning faults.
- `_load_models` and its cache are left out. The loaded models are a
  parameter shared by every stage.
- Floating point is left out. Scores and compound values are reals.
- Python's `\w`, `str.lower` and `str.isdigit` are restricted to ASCII.
  Whitespace (`\s`, `strip`) uses Python's full set.
- Column order is left out, and so are keys beyond the seven harvester fields.
  The column list of the empty frame returned for no records is also left out;
  the model keeps only its rows.
- `analyze_sentiment` assigns the sentiment column in place on the caller's
  frame, and the model returns the labels instead. `process_data` reads only
  the returned frame, so nothing observable is lost.
- Three exception handlers are not modelled, because every call inside them
  is already guarded or cannot fail on the modelled data:
  - the outer one in `analyze_sentiment` (engine.py:139-140);
  - the one around joining the contents in `extract_trends`
    (engine.py:173-176);
  - the one in `_simple_keyword_extraction` (engine.py:221-222).
- The keyword model's answer is passed through unchanged. Its options
  (`top_n=10`, n-gram range, stop words) are that model's concern.
- `Trends.ExtractTrendsFallback`: bounds the number of trends only when the
  keyword model is absent, because the code returns whatever that model
  answers.
- `Harvesters.HarvestYouTube`: the YouTube harvest is not bounded in length,
  because the bound comes from the remote `maxResults`, not from the code.
- `Sentiment.VaderSentiment`: its contract states only the no-analyzer case.
  The threshold behaviour is stated by `Sentiment.CompoundDeadZone`,
  `Sentiment.CompoundSentimentMonotone` and
  `Sentiment.CompoundSentimentSymmetric` about the function it calls.

## Findings

| source | as written | input that shows it | evidently intended | confidence | as-written member | corrected member |
|---|---|---|---|---|---|---|
| engine.py:63-72 | URLs are removed before mentions, so removing a mention can join two fragments into a new URL that stays in the result | "www@x.y" cleans to "www.y", and cleaning that again gives "" | a cleaned text with no URL or mention left, so that cleaning twice equals cleaning once | medium, not executed | `TextCleaning.CleanTextAsWrittenNotIdempotent` | `TextCleaning.CleanTextIdempotent` |

The rest of the model (`Records.CleanField` and everything after it) follows
the code as written. `Records.CleanRowNotIdempotent` shows the same input at
the level of a record. The corrected `CleanText` removes URLs, then mentions,
then URLs again. `TextCleaning.CleanTextAgrees` proves that the two
versions give the same result on every text where the as-written passes leave
no URL. `TextCleaning.CleanTextKeepsCleanText` proves that both leave an
already-clean text alone.
