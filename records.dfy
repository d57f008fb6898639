/** `clean_records` of engine.py: raw records become rows whose title and text are
    cleaned, which gain a `content` column, and of which only the first row per url
    survives when the records carry urls at all. */
module Records {
  import opened Wrappers
  import opened Text
  import opened TextCleaning
  import Harvesters

  /** One field of an incoming record as the frame holds it: the key was missing
      (NaN), the value is a string, or it is some other value. */
  datatype Field = Missing | Str(s: string) | NonString

  /** The `url` cell of an incoming record: the key is absent, it holds `None`, or it
      holds a string. */
  datatype UrlCell = NoUrlKey | NullUrl | Url(s: string)

  /** One incoming record, with the keys the harvesters emit. */
  datatype RawRecord = RawRecord(
    source: Option<string>, title: Field, text: Field, url: UrlCell,
    timestamp: Option<string>, keyword: Option<string>, matched: Option<bool>)

  /** The url column's value for a record: a missing key and `None` are both null, and
      the library treats all nulls as one value when de-duplicating. */
  function UrlValue(c: UrlCell): Option<string> {
    if c.Url? then Some(c.s) else None
  }

  /** One row of the cleaned frame. */
  datatype Row = Row(
    source: Option<string>, title: string, text: string, url: Option<string>,
    timestamp: Option<string>, keyword: Option<string>, matched: Option<bool>,
    content: string)

  const ContentSeparator: string := ". "

  /** `clean_text` applied to a frame cell: anything but a string becomes empty. */
  function CleanField(f: Field): string {
    if f.Str? then CleanTextAsWritten(f.s) else ""
  }

  function CleanRow(rec: RawRecord): Row {
    var title := CleanField(rec.title);
    var text := CleanField(rec.text);
    Row(rec.source, title, text, UrlValue(rec.url), rec.timestamp, rec.keyword, rec.matched,
        title + ContentSeparator + text)
  }

  /** The frame has a `url` column: at least one record has the key, even with `None`. */
  predicate HasUrlColumn(records: seq<RawRecord>) {
    exists i | 0 <= i < |records| :: !records[i].url.NoUrlKey?
  }

  /** No earlier row has the same url; rows without a url all share the missing one. */
  predicate FirstWithUrl(rows: seq<Row>, i: int)
    requires 0 <= i < |rows|
  {
    forall j | 0 <= j < i :: rows[j].url != rows[i].url
  }

  /** The positions among the first n rows that `drop_duplicates(subset=['url'])` keeps. */
  function KeptIndices(rows: seq<Row>, n: nat): (ks: seq<nat>)
    requires n <= |rows|
    ensures forall k | 0 <= k < |ks| :: ks[k] < n
    ensures forall k, l | 0 <= k < l < |ks| :: ks[k] < ks[l]
    ensures forall i | 0 <= i < n :: i in ks <==> FirstWithUrl(rows, i)
  {
    if n == 0 then []
    else KeptIndices(rows, n - 1) + (if FirstWithUrl(rows, n - 1) then [n - 1] else [])
  }

  /** `drop_duplicates(subset=['url'])`, keeping the first row of each url. */
  function DropDuplicateUrls(rows: seq<Row>): seq<Row> {
    var ks := KeptIndices(rows, |rows|);
    seq(|ks|, k requires 0 <= k < |ks| => rows[ks[k]])
  }

  function CleanAll(records: seq<RawRecord>): seq<Row> {
    seq(|records|, i requires 0 <= i < |records| => CleanRow(records[i]))
  }

  /** `clean_records`: no records give an empty frame; otherwise every record is
      cleaned, and rows repeating an earlier url are dropped when there is a url column. */
  function CleanRecords(records: seq<RawRecord>): seq<Row> {
    if records == [] then []
    else if HasUrlColumn(records) then DropDuplicateUrls(CleanAll(records))
    else CleanAll(records)
  }

  // ---------------------------------------------------------------------------
  // One row

  /** Deleting the mentions of the cell joins no fragments into a URL. */
  predicate CellSplicesNoUrl(f: Field) {
    f.Str? ==> SplicesNoUrl(f.s)
  }

  /** A cleaned row's title and text are trimmed, single-spaced and free of mentions,
      and free of URLs unless deleting a mention spliced one together; a missing or
      non-string cell becomes empty; the content is the title, ". " and the text. */
  lemma CleanRowShape(rec: RawRecord)
    ensures var r := CleanRow(rec);
      && Trimmed(r.title) && SingleSpaced(r.title) && MentionFree(r.title)
      && Trimmed(r.text) && SingleSpaced(r.text) && MentionFree(r.text)
      && (CellSplicesNoUrl(rec.title) ==> UrlFree(r.title))
      && (CellSplicesNoUrl(rec.text) ==> UrlFree(r.text))
      && (!rec.title.Str? ==> r.title == "")
      && (!rec.text.Str? ==> r.text == "")
      && r.content == r.title + ContentSeparator + r.text
      && r.source == rec.source && r.url == UrlValue(rec.url) && r.timestamp == rec.timestamp
      && r.keyword == rec.keyword && r.matched == rec.matched
  {
    if rec.title.Str? {
      CleanTextAsWrittenShape(rec.title.s);
      if SplicesNoUrl(rec.title.s) {
        CleanTextAgrees(rec.title.s);
        CleanTextShape(rec.title.s);
      }
    }
    if rec.text.Str? {
      CleanTextAsWrittenShape(rec.text.s);
      if SplicesNoUrl(rec.text.s) {
        CleanTextAgrees(rec.text.s);
        CleanTextShape(rec.text.s);
      }
    }
  }

  /** The content of a cleaned row always holds the '.' of its separator, so it is never
      blank, even when title and text are both empty. */
  lemma ContentNeverBlank(rec: RawRecord)
    ensures !IsBlank(CleanRow(rec).content)
    ensures |CleanRow(rec).content| >= 2
  {
    var r := CleanRow(rec);
    assert r.content[|r.title|] == '.';
  }

  /** No URL is left in the row's title or text. */
  predicate RowUrlFree(r: Row) {
    UrlFree(r.title) && UrlFree(r.text)
  }

  /** Cleaning a cleaned row again changes nothing exactly when no URL is left in its
      title and text. */
  lemma CleanRowIdempotent(rec: RawRecord, urlColumn: bool)
    ensures CleanRow(Reread(CleanRow(rec), urlColumn)) == CleanRow(rec) <==> RowUrlFree(CleanRow(rec))
  {
    if rec.title.Str? { CleanTextAsWrittenStable(rec.title.s); }
    if rec.text.Str? { CleanTextAsWrittenStable(rec.text.s); }
  }

  /** As written, a row is not always stable under cleaning: the title "www@x.y" becomes
      "www.y", which a second cleaning deletes. */
  lemma CleanRowNotIdempotent()
    ensures var rec := RawRecord(None, Str("www@x.y"), Missing, NoUrlKey, None, None, None);
      && CleanRow(rec).title == "www.y"
      && CleanRow(Reread(CleanRow(rec), false)).title == ""
  {
    CleanTextAsWrittenNotIdempotent();
  }

  /** A cleaned row read back as a raw record, as when cleaned records are cleaned again;
      a null url keeps its key when the frame has a url column. */
  function Reread(r: Row, urlColumn: bool): RawRecord {
    var url := if r.url.Some? then Url(r.url.value) else if urlColumn then NullUrl else NoUrlKey;
    RawRecord(r.source, Str(r.title), Str(r.text), url, r.timestamp, r.keyword, r.matched)
  }

  // ---------------------------------------------------------------------------
  // De-duplication

  /** The kept rows have pairwise different urls, appear in their original order, and
      each is the first row with its url. */
  lemma DropDuplicateUrlsSound(rows: seq<Row>)
    ensures var d := DropDuplicateUrls(rows);
      && |d| <= |rows|
      && (forall k, l | 0 <= k < l < |d| :: d[k].url != d[l].url)
  {
    var ks := KeptIndices(rows, |rows|);
    var d := DropDuplicateUrls(rows);
    forall k, l | 0 <= k < l < |d| ensures d[k].url != d[l].url {
      assert ks[k] < ks[l];
      assert ks[l] in ks;
    }
    KeptIndicesLength(rows, |rows|);
  }

  lemma {:induction false} KeptIndicesLength(rows: seq<Row>, n: nat)
    requires n <= |rows|
    ensures |KeptIndices(rows, n)| <= n
  {
    if n > 0 {
      KeptIndicesLength(rows, n - 1);
    }
  }

  /** Every row has a row with the same url at or before it that is first with it. */
  lemma {:induction false} FirstOccurrence(rows: seq<Row>, i: int)
    requires 0 <= i < |rows|
    ensures exists j | 0 <= j <= i :: FirstWithUrl(rows, j) && rows[j].url == rows[i].url
    decreases i
  {
    if !FirstWithUrl(rows, i) {
      var j :| 0 <= j < i && rows[j].url == rows[i].url;
      FirstOccurrence(rows, j);
    } else {
      assert FirstWithUrl(rows, i) && rows[i].url == rows[i].url;
    }
  }

  /** No url is lost: every url of the input is the url of a kept row. */
  lemma DropDuplicateUrlsComplete(rows: seq<Row>, i: int)
    requires 0 <= i < |rows|
    ensures exists k | 0 <= k < |DropDuplicateUrls(rows)| :: DropDuplicateUrls(rows)[k].url == rows[i].url
  {
    var ks := KeptIndices(rows, |rows|);
    FirstOccurrence(rows, i);
    var j :| 0 <= j <= i && FirstWithUrl(rows, j) && rows[j].url == rows[i].url;
    assert j in ks;
    var k :| 0 <= k < |ks| && ks[k] == j;
    assert DropDuplicateUrls(rows)[k] == rows[j];
  }

  /** A kept row is a row of the input that no earlier row shares its url with. */
  lemma DropDuplicateUrlsKeepsFirst(rows: seq<Row>, k: int)
    requires 0 <= k < |DropDuplicateUrls(rows)|
    ensures exists i | 0 <= i < |rows| :: rows[i] == DropDuplicateUrls(rows)[k] && FirstWithUrl(rows, i)
  {
    var ks := KeptIndices(rows, |rows|);
    assert ks[k] in ks;
  }

  /** Rows whose urls already differ are all kept. */
  lemma {:induction false} KeptIndicesAll(rows: seq<Row>, n: nat)
    requires n <= |rows|
    requires forall i, j | 0 <= i < j < |rows| :: rows[i].url != rows[j].url
    ensures KeptIndices(rows, n) == seq(n, i => i)
  {
    if n > 0 {
      KeptIndicesAll(rows, n - 1);
      assert FirstWithUrl(rows, n - 1);
    }
  }

  /** De-duplicating twice is de-duplicating once. */
  lemma DropDuplicateUrlsIdempotent(rows: seq<Row>)
    ensures DropDuplicateUrls(DropDuplicateUrls(rows)) == DropDuplicateUrls(rows)
  {
    var d := DropDuplicateUrls(rows);
    DropDuplicateUrlsSound(rows);
    KeptIndicesAll(d, |d|);
  }

  // ---------------------------------------------------------------------------
  // The whole frame

  /** The row is what cleaning makes of one of the records. */
  predicate FromSomeRecord(row: Row, records: seq<RawRecord>) {
    exists i | 0 <= i < |records| :: row == CleanRow(records[i])
  }

  /** Every cleaned row comes from a record; there are never more rows than records and
      exactly as many when there is no url column; with one, urls do not repeat. */
  lemma CleanRecordsShape(records: seq<RawRecord>)
    ensures |CleanRecords(records)| <= |records|
    ensures records != [] ==> CleanRecords(records) != []
    ensures !HasUrlColumn(records) ==> CleanRecords(records) == CleanAll(records)
    ensures HasUrlColumn(records) ==>
      forall k, l | 0 <= k < l < |CleanRecords(records)| :: CleanRecords(records)[k].url != CleanRecords(records)[l].url
    ensures forall k | 0 <= k < |CleanRecords(records)| :: FromSomeRecord(CleanRecords(records)[k], records)
  {
    var rows := CleanRecords(records);
    if records != [] && HasUrlColumn(records) {
      var all := CleanAll(records);
      DropDuplicateUrlsSound(all);
      DropDuplicateUrlsComplete(all, 0);
      forall k | 0 <= k < |rows| ensures FromSomeRecord(rows[k], records) {
        DropDuplicateUrlsKeepsFirst(all, k);
        var i :| 0 <= i < |all| && all[i] == rows[k] && FirstWithUrl(all, i);
        assert rows[k] == CleanRow(records[i]);
      }
    } else if records != [] {
      assert rows == CleanAll(records);
      forall k | 0 <= k < |rows| ensures FromSomeRecord(rows[k], records) {
        assert rows[k] == CleanRow(records[k]);
      }
    }
  }

  /** The cleaned frame exported as records, with or without its url column. */
  function RereadAll(rows: seq<Row>, urlColumn: bool): seq<RawRecord> {
    seq(|rows|, i requires 0 <= i < |rows| => Reread(rows[i], urlColumn))
  }

  /** Row by row, cleaning the exported rows again gives them back when no URL is left. */
  lemma RecleanRows(records: seq<RawRecord>, urlColumn: bool)
    requires forall k | 0 <= k < |CleanRecords(records)| :: RowUrlFree(CleanRecords(records)[k])
    ensures CleanAll(RereadAll(CleanRecords(records), urlColumn)) == CleanRecords(records)
  {
    var rows := CleanRecords(records);
    var recleaned := CleanAll(RereadAll(rows, urlColumn));
    CleanRecordsShape(records);
    forall k | 0 <= k < |rows| ensures recleaned[k] == rows[k] {
      var i :| 0 <= i < |records| && rows[k] == CleanRow(records[i]);
      CleanRowIdempotent(records[i], urlColumn);
    }
  }

  /** Exported without a url column, no record regains the key. */
  lemma RereadKeepsNoUrlColumn(records: seq<RawRecord>)
    requires !HasUrlColumn(records)
    ensures !HasUrlColumn(RereadAll(CleanRecords(records), false))
  {
    var rows := CleanRecords(records);
    CleanRecordsShape(records);
    forall k | 0 <= k < |rows| ensures RereadAll(rows, false)[k].url.NoUrlKey? {
      var i :| 0 <= i < |records| && rows[k] == CleanRow(records[i]);
      assert records[i].url.NoUrlKey?;
    }
  }

  /** Cleaning the cleaned records again gives the same rows when no URL is left in them. */
  lemma CleanRecordsIdempotent(records: seq<RawRecord>)
    ensures var rows := CleanRecords(records);
      (forall k | 0 <= k < |rows| :: RowUrlFree(rows[k])) ==>
        CleanRecords(RereadAll(rows, HasUrlColumn(records))) == rows
  {
    var rows := CleanRecords(records);
    var urlColumn := HasUrlColumn(records);
    var again := RereadAll(rows, urlColumn);
    if forall k | 0 <= k < |rows| :: RowUrlFree(rows[k]) {
      RecleanRows(records, urlColumn);
      if records != [] && urlColumn {
        CleanRecordsShape(records);
        assert !again[0].url.NoUrlKey?;
        KeptIndicesAll(rows, |rows|);
      } else if records != [] {
        RereadKeepsNoUrlColumn(records);
      }
    }
  }

  // ---------------------------------------------------------------------------
  // Records that come from the harvesters

  function FromMention(m: Harvesters.Mention): RawRecord {
    RawRecord(Some(m.source), Str(m.title), Str(m.text), Url(m.url), Some(m.timestamp),
              Some(m.keyword), Some(m.matched))
  }

  function FromMentions(ms: seq<Harvesters.Mention>): seq<RawRecord> {
    seq(|ms|, i requires 0 <= i < |ms| => FromMention(ms[i]))
  }

  /** Harvested records always carry a url, so cleaning them keeps one row per url. */
  lemma HarvestedRowsHaveDistinctUrls(ms: seq<Harvesters.Mention>)
    ensures var rows := CleanRecords(FromMentions(ms));
      && |rows| <= |ms|
      && (ms != [] ==> rows != [])
      && (forall k, l | 0 <= k < l < |rows| :: rows[k].url != rows[l].url)
      && (forall k | 0 <= k < |rows| :: rows[k].url.Some?)
  {
    var records := FromMentions(ms);
    CleanRecordsShape(records);
    if ms != [] {
      assert records[0].url.Url?;
    }
    var rows := CleanRecords(records);
    forall k | 0 <= k < |rows| ensures rows[k].url.Some? {
      var i :| 0 <= i < |records| && rows[k] == CleanRow(records[i]);
    }
  }
}
