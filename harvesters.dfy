/** The three source harvesters of harvesters.py and `harvest_all`. What the network
    returns is an input: a search reply, a forum listing, a news feed, each with the
    ways it can fail. Each harvester walks the fetched items, skips the malformed and
    the irrelevant ones, and appends one mention per item it keeps. */
module Harvesters {
  import opened Wrappers
  import opened Text
  import opened Relevance

  /** The keyword every mention is tagged with. */
  const Keyword: string := "LeapScholar"
  /** The news harvester reads at most this many feed entries. */
  const NewsEntryLimit: nat := 10
  const WatchUrlPrefix: string := "https://www.youtube.com/watch?v="
  const RedditUrlPrefix: string := "https://www.reddit.com"
  const CommentsLabel: string := "\nComments: "
  const CommentSeparator: string := " | "

  /** One record as a harvester emits it (the dict built in each harvester). */
  datatype Mention = Mention(
    source: string, title: string, text: string, url: string,
    timestamp: string, keyword: string, matched: bool)

  /** The strict filter every harvester applies before emitting. */
  predicate PassesGate(title: string, text: string) {
    IsRelevant(title) || IsRelevant(text)
  }

  // ---------------------------------------------------------------------------
  // Fetched data

  datatype Snippet = Snippet(title: Option<string>, description: Option<string>, publishedAt: Option<string>)

  /** The comment-thread request for one video: it raised, or it returned threads,
      each with its `textDisplay` or without it (a thread missing a nested key). */
  datatype CommentReply = CommentsFailed | CommentThreads(threads: seq<Option<string>>)

  /** One search result: `id.videoId` and `snippet` may be missing. */
  datatype VideoItem = VideoItem(videoId: Option<string>, snippet: Option<Snippet>, comments: CommentReply)

  /** The YouTube search: no API key, a failure building the client or running the
      search, or the list of items. */
  datatype VideoSearch = NoApiKey | SearchFailed | SearchResults(items: seq<VideoItem>)

  /** One listing child: not an object (`post.get` raises), or its `data` fields; a
      missing `data` object reads as all fields absent. `created` is the ISO form of
      `created_utc` (default 0), absent when the conversion raises. */
  datatype RedditChild =
    | MalformedChild
    | RedditChild(title: Option<string>, selftext: Option<string>, permalink: Option<string>, created: Option<string>)

  /** The forum search: unreachable, or a status code with the listing's children,
      absent when the body is not JSON of the expected shape. */
  datatype RedditReply = RedditUnreachable | RedditResponse(status: int, children: Option<seq<RedditChild>>)

  /** One feed entry; `parsedTime` is the ISO form of `published_parsed` when it is
      present and converts. */
  datatype NewsEntry = NewsEntry(
    title: Option<string>, summary: Option<string>, description: Option<string>, link: Option<string>,
    published: Option<string>, updated: Option<string>, parsedTime: Option<string>)

  datatype NewsReply = NewsUnreachable | NewsResponse(status: int, entries: seq<NewsEntry>)

  // ---------------------------------------------------------------------------
  // What each item becomes

  /** The comments joined into a video's text; empty when the request failed. */
  function CommentsText(reply: CommentReply): string {
    match reply
    case CommentsFailed => ""
    case CommentThreads(threads) =>
      var comments := Somes(threads);
      if comments != [] then Join(comments, CommentSeparator) else ""
  }

  function VideoMention(item: VideoItem): Option<Mention> {
    if item.videoId.None? || item.snippet.None? then None
    else
      var sn := item.snippet.value;
      var title := sn.title.GetOr("");
      var text := sn.description.GetOr("") + CommentsLabel + CommentsText(item.comments);
      if PassesGate(title, text) then
        Some(Mention("youtube", title, text, WatchUrlPrefix + item.videoId.value, sn.publishedAt.GetOr(""), Keyword, true))
      else None
  }

  function RedditMention(child: RedditChild): Option<Mention> {
    if child.MalformedChild? || child.created.None? then None
    else
      var title := child.title.GetOr("");
      var text := child.selftext.GetOr("");
      if PassesGate(title, text) then
        Some(Mention("reddit", title, text, RedditUrlPrefix + child.permalink.GetOr(""), child.created.value, Keyword, true))
      else None
  }

  /** The entry's summary, or its description when the summary is empty. */
  function NewsSummary(e: NewsEntry): string {
    var summary := e.summary.GetOr("");
    if summary == "" && e.description.Some? then e.description.value else summary
  }

  /** `published`, else `updated`, else empty; replaced by the parsed time when there is one. */
  function NewsTimestamp(e: NewsEntry): string {
    if e.parsedTime.Some? then e.parsedTime.value
    else if e.published.Some? then e.published.value
    else e.updated.GetOr("")
  }

  function NewsMention(e: NewsEntry): Option<Mention> {
    var title := e.title.GetOr("");
    var text := NewsSummary(e);
    if PassesGate(title, text) then
      Some(Mention("google_news", title, text, e.link.GetOr(""), NewsTimestamp(e), Keyword, true))
    else None
  }

  // ---------------------------------------------------------------------------
  // What each harvester returns

  function VideoOutcomes(items: seq<VideoItem>): seq<Option<Mention>> {
    seq(|items|, i requires 0 <= i < |items| => VideoMention(items[i]))
  }

  function RedditOutcomes(children: seq<RedditChild>): seq<Option<Mention>> {
    seq(|children|, i requires 0 <= i < |children| => RedditMention(children[i]))
  }

  function NewsOutcomes(entries: seq<NewsEntry>): seq<Option<Mention>> {
    seq(|entries|, i requires 0 <= i < |entries| => NewsMention(entries[i]))
  }

  /** `feed.entries[:10]`. */
  function FirstEntries(entries: seq<NewsEntry>): seq<NewsEntry> {
    if |entries| <= NewsEntryLimit then entries else entries[..NewsEntryLimit]
  }

  function YouTubeHarvest(search: VideoSearch): seq<Mention> {
    match search
    case NoApiKey => []
    case SearchFailed => []
    case SearchResults(items) => Somes(VideoOutcomes(items))
  }

  function RedditHarvest(reply: RedditReply): seq<Mention> {
    match reply
    case RedditUnreachable => []
    case RedditResponse(status, children) =>
      if status != 200 || children.None? then [] else Somes(RedditOutcomes(children.value))
  }

  function NewsHarvest(reply: NewsReply): seq<Mention> {
    match reply
    case NewsUnreachable => []
    case NewsResponse(status, entries) =>
      if status != 200 then [] else Somes(NewsOutcomes(FirstEntries(entries)))
  }

  // ---------------------------------------------------------------------------
  // The harvesters

  /** The comment part of `harvest_youtube`: the readable comment texts of the
      threads, joined by " | "; empty when the request failed or nothing was read. */
  method ReadComments(reply: CommentReply) returns (commentsText: string)
    ensures commentsText == CommentsText(reply)
  {
    commentsText := "";
    if reply.CommentsFailed? {
      return;
    }
    var threads := reply.threads;
    var commentsList: seq<string> := [];
    var j := 0;
    while j < |threads|
      invariant 0 <= j <= |threads|
      invariant commentsList == Somes(threads[..j])
    {
      assert threads[..j + 1][..j] == threads[..j];
      if threads[j].Some? {
        commentsList := commentsList + [threads[j].value];
      }
      j := j + 1;
    }
    assert threads[..j] == threads;
    if commentsList != [] {
      commentsText := Join(commentsList, CommentSeparator);
    }
  }

  /** `harvest_youtube`: for each search result, read its fields, collect the
      comments that can be read, build the text and keep the item if it passes the gate. */
  method HarvestYouTube(search: VideoSearch) returns (results: seq<Mention>)
    ensures results == YouTubeHarvest(search)
  {
    if search.NoApiKey? || search.SearchFailed? {
      return [];
    }
    var items := search.items;
    results := [];
    var i := 0;
    while i < |items|
      invariant 0 <= i <= |items|
      invariant results == Somes(VideoOutcomes(items)[..i])
    {
      var item := items[i];
      assert VideoOutcomes(items)[..i + 1] == VideoOutcomes(items)[..i] + [VideoMention(item)];
      if item.videoId.Some? && item.snippet.Some? {
        var snippet := item.snippet.value;
        var title := snippet.title.GetOr("");
        var description := snippet.description.GetOr("");
        var publishedAt := snippet.publishedAt.GetOr("");
        var videoUrl := WatchUrlPrefix + item.videoId.value;
        var commentsText := ReadComments(item.comments);
        var fullText := description + CommentsLabel + commentsText;
        if IsRelevant(title) || IsRelevant(fullText) {
          results := results + [Mention("youtube", title, fullText, videoUrl, publishedAt, Keyword, true)];
        }
      }
      i := i + 1;
    }
    assert VideoOutcomes(items)[..i] == VideoOutcomes(items);
  }

  /** `harvest_reddit`: a non-200 status or an unreadable body gives nothing; each
      child that can be read and passes the gate gives one mention. */
  method HarvestReddit(reply: RedditReply) returns (results: seq<Mention>)
    ensures results == RedditHarvest(reply)
  {
    if reply.RedditUnreachable? || reply.status != 200 || reply.children.None? {
      return [];
    }
    var children := reply.children.value;
    results := [];
    var i := 0;
    while i < |children|
      invariant 0 <= i <= |children|
      invariant results == Somes(RedditOutcomes(children)[..i])
    {
      var post := children[i];
      assert RedditOutcomes(children)[..i + 1] == RedditOutcomes(children)[..i] + [RedditMention(post)];
      if post.RedditChild? && post.created.Some? {
        var title := post.title.GetOr("");
        var selftext := post.selftext.GetOr("");
        var postUrl := RedditUrlPrefix + post.permalink.GetOr("");
        var fullText := selftext;
        if IsRelevant(title) || IsRelevant(fullText) {
          results := results + [Mention("reddit", title, fullText, postUrl, post.created.value, Keyword, true)];
        }
      }
      i := i + 1;
    }
    assert RedditOutcomes(children)[..i] == RedditOutcomes(children);
  }

  /** `harvest_google_news`: a failed or non-200 fetch gives nothing; of the first ten
      entries, each that passes the gate gives one mention. */
  method HarvestGoogleNews(reply: NewsReply) returns (results: seq<Mention>)
    ensures results == NewsHarvest(reply)
  {
    if reply.NewsUnreachable? || reply.status != 200 {
      return [];
    }
    if |reply.entries| == 0 {
      return [];
    }
    var entries := FirstEntries(reply.entries);
    results := [];
    var i := 0;
    while i < |entries|
      invariant 0 <= i <= |entries|
      invariant results == Somes(NewsOutcomes(entries)[..i])
    {
      var entry := entries[i];
      assert NewsOutcomes(entries)[..i + 1] == NewsOutcomes(entries)[..i] + [NewsMention(entry)];
      var title := entry.title.GetOr("");
      var summary := entry.summary.GetOr("");
      if summary == "" && entry.description.Some? {
        summary := entry.description.value;
      }
      var link := entry.link.GetOr("");
      var timestamp := "";
      if entry.published.Some? {
        timestamp := entry.published.value;
      } else if entry.updated.Some? {
        timestamp := entry.updated.value;
      }
      if entry.parsedTime.Some? {
        timestamp := entry.parsedTime.value;
      }
      var fullText := summary;
      if IsRelevant(title) || IsRelevant(fullText) {
        results := results + [Mention("google_news", title, fullText, link, timestamp, Keyword, true)];
      }
      i := i + 1;
    }
    assert NewsOutcomes(entries)[..i] == NewsOutcomes(entries);
  }

  /** `harvest_all`: the three harvesters in a fixed order, their results concatenated. */
  method HarvestAll(search: VideoSearch, forum: RedditReply, feed: NewsReply) returns (allData: seq<Mention>)
    ensures allData == YouTubeHarvest(search) + RedditHarvest(forum) + NewsHarvest(feed)
  {
    allData := [];
    var ytData := HarvestYouTube(search);
    allData := allData + ytData;
    var redditData := HarvestReddit(forum);
    allData := allData + redditData;
    var newsData := HarvestGoogleNews(feed);
    allData := allData + newsData;
  }

  // ---------------------------------------------------------------------------
  // What the harvesters promise

  /** Every mention is relevant by title or text, and carries its source's tag, the
      brand keyword and `matched`. */
  predicate WellTagged(m: Mention, source: string) {
    PassesGate(m.title, m.text) && m.source == source && m.keyword == Keyword && m.matched
  }

  lemma VideoMentionTagged(item: VideoItem)
    ensures VideoMention(item).Some? ==> WellTagged(VideoMention(item).value, "youtube")
  {
  }

  lemma RedditMentionTagged(child: RedditChild)
    ensures RedditMention(child).Some? ==> WellTagged(RedditMention(child).value, "reddit")
  {
  }

  lemma NewsMentionTagged(e: NewsEntry)
    ensures NewsMention(e).Some? ==> WellTagged(NewsMention(e).value, "google_news")
  {
  }

  lemma YouTubeHarvestTagged(search: VideoSearch)
    ensures forall m :: m in YouTubeHarvest(search) ==> WellTagged(m, "youtube")
  {
    if search.SearchResults? {
      var outcomes := VideoOutcomes(search.items);
      forall m | m in Somes(outcomes) ensures WellTagged(m, "youtube") {
        SomesFrom(outcomes, m);
        var j :| 0 <= j < |outcomes| && outcomes[j] == Some(m);
        VideoMentionTagged(search.items[j]);
      }
    }
  }

  lemma RedditHarvestTagged(reply: RedditReply)
    ensures forall m :: m in RedditHarvest(reply) ==> WellTagged(m, "reddit")
  {
    if reply.RedditResponse? && reply.status == 200 && reply.children.Some? {
      var outcomes := RedditOutcomes(reply.children.value);
      forall m | m in Somes(outcomes) ensures WellTagged(m, "reddit") {
        SomesFrom(outcomes, m);
        var j :| 0 <= j < |outcomes| && outcomes[j] == Some(m);
        RedditMentionTagged(reply.children.value[j]);
      }
    }
  }

  lemma NewsHarvestTagged(reply: NewsReply)
    ensures forall m :: m in NewsHarvest(reply) ==> WellTagged(m, "google_news")
  {
    if reply.NewsResponse? && reply.status == 200 {
      var entries := FirstEntries(reply.entries);
      var outcomes := NewsOutcomes(entries);
      forall m | m in Somes(outcomes) ensures WellTagged(m, "google_news") {
        SomesFrom(outcomes, m);
        var j :| 0 <= j < |outcomes| && outcomes[j] == Some(m);
        NewsMentionTagged(entries[j]);
      }
    }
  }

  /** A readable video that passes the gate is emitted; the irrelevant ones are not
      (by YouTubeHarvestTagged). */
  lemma YouTubeHarvestKeepsRelevant(items: seq<VideoItem>, j: int)
    requires 0 <= j < |items| && items[j].videoId.Some? && items[j].snippet.Some?
    requires PassesGate(items[j].snippet.value.title.GetOr(""),
                        items[j].snippet.value.description.GetOr("") + CommentsLabel + CommentsText(items[j].comments))
    ensures VideoMention(items[j]).Some? && VideoMention(items[j]).value in YouTubeHarvest(SearchResults(items))
  {
    SomesHas(VideoOutcomes(items), j);
  }

  /** A well-formed forum post with a timestamp that passes the gate is emitted; the
      irrelevant ones are not (by RedditHarvestTagged). */
  lemma RedditHarvestKeepsRelevant(children: seq<RedditChild>, j: int)
    requires 0 <= j < |children| && children[j].RedditChild? && children[j].created.Some?
    requires PassesGate(children[j].title.GetOr(""), children[j].selftext.GetOr(""))
    ensures RedditMention(children[j]).Some?
    ensures RedditMention(children[j]).value in RedditHarvest(RedditResponse(200, Some(children)))
  {
    SomesHas(RedditOutcomes(children), j);
  }

  /** A feed entry among the first ten that passes the gate is emitted; the irrelevant
      ones are not (by NewsHarvestTagged). */
  lemma NewsHarvestKeepsRelevant(entries: seq<NewsEntry>, j: int)
    requires 0 <= j < |entries| && j < NewsEntryLimit
    requires PassesGate(entries[j].title.GetOr(""), NewsSummary(entries[j]))
    ensures NewsMention(entries[j]).Some?
    ensures NewsMention(entries[j]).value in NewsHarvest(NewsResponse(200, entries))
  {
    assert FirstEntries(entries)[j] == entries[j];
    SomesHas(NewsOutcomes(FirstEntries(entries)), j);
  }

  /** A video's text is its description, the comments label and the readable comments
      joined by " | "; no comments at all when the comment request failed. */
  lemma VideoTextShape(item: VideoItem)
    requires VideoMention(item).Some?
    ensures item.comments.CommentThreads? ==>
      VideoMention(item).value.text
        == item.snippet.value.description.GetOr("") + CommentsLabel + Join(Somes(item.comments.threads), CommentSeparator)
    ensures item.comments.CommentsFailed? ==>
      VideoMention(item).value.text == item.snippet.value.description.GetOr("") + CommentsLabel
  {
  }

  /** A readable video whose description names the brand is never filtered out: the
      comments appended after the newline cannot hide the match. */
  lemma RelevantDescriptionKept(item: VideoItem)
    requires item.videoId.Some? && item.snippet.Some?
    requires IsRelevant(item.snippet.value.description.GetOr(""))
    ensures VideoMention(item).Some?
  {
    var d := item.snippet.value.description.GetOr("");
    assert !IsWordChar((CommentsLabel + CommentsText(item.comments))[0]);
    RelevantBeforeSeparator(d, CommentsLabel + CommentsText(item.comments));
    assert d + CommentsLabel + CommentsText(item.comments) == d + (CommentsLabel + CommentsText(item.comments));
  }

  /** The news harvester emits at most ten mentions, each from one of the first ten entries. */
  lemma NewsHarvestBounded(reply: NewsReply)
    ensures |NewsHarvest(reply)| <= NewsEntryLimit
    ensures reply.NewsResponse? ==>
      forall m :: m in NewsHarvest(reply) ==>
        exists j :: 0 <= j < |reply.entries| && j < NewsEntryLimit && NewsMention(reply.entries[j]) == Some(m)
  {
    if reply.NewsResponse? && reply.status == 200 {
      var entries := FirstEntries(reply.entries);
      SomesLength(NewsOutcomes(entries));
      forall m | m in NewsHarvest(reply)
        ensures exists j :: 0 <= j < |reply.entries| && j < NewsEntryLimit && NewsMention(reply.entries[j]) == Some(m)
      {
        SomesFrom(NewsOutcomes(entries), m);
        var j :| 0 <= j < |entries| && NewsOutcomes(entries)[j] == Some(m);
        assert entries[j] == reply.entries[j];
      }
    }
  }

  /** A harvester that cannot reach its source, or gets a non-200 status, contributes nothing. */
  lemma FailingSourcesContributeNothing(search: VideoSearch, forum: RedditReply, feed: NewsReply)
    ensures (search.NoApiKey? || search.SearchFailed?) ==> YouTubeHarvest(search) == []
    ensures (forum.RedditUnreachable? || (forum.RedditResponse? && forum.status != 200)) ==> RedditHarvest(forum) == []
    ensures (feed.NewsUnreachable? || (feed.NewsResponse? && feed.status != 200)) ==> NewsHarvest(feed) == []
  {
  }

  function SourceRank(source: string): nat {
    if source == "youtube" then 0 else if source == "reddit" then 1 else 2
  }

  /** `harvest_all` emits only relevant, tagged mentions, video first, then forum,
      then news, and exactly as many as the three harvesters together. */
  lemma HarvestAllOrdered(search: VideoSearch, forum: RedditReply, feed: NewsReply)
    ensures var all := YouTubeHarvest(search) + RedditHarvest(forum) + NewsHarvest(feed);
      && |all| == |YouTubeHarvest(search)| + |RedditHarvest(forum)| + |NewsHarvest(feed)|
      && (forall m :: m in all ==> PassesGate(m.title, m.text) && m.keyword == Keyword && m.matched)
      && (forall i, j :: 0 <= i < j < |all| ==> SourceRank(all[i].source) <= SourceRank(all[j].source))
  {
    var yt, rd, nw := YouTubeHarvest(search), RedditHarvest(forum), NewsHarvest(feed);
    YouTubeHarvestTagged(search);
    RedditHarvestTagged(forum);
    NewsHarvestTagged(feed);
    var all := yt + rd + nw;
    forall i | 0 <= i < |all|
      ensures SourceRank(all[i].source) == if i < |yt| then 0 else if i < |yt| + |rd| then 1 else 2
    {
      if i < |yt| {
        assert all[i] == yt[i] && all[i] in yt;
      } else if i < |yt| + |rd| {
        assert all[i] == rd[i - |yt|] && all[i] in rd;
      } else {
        assert all[i] == nw[i - |yt| - |rd|] && all[i] in nw;
      }
    }
  }
}
