/** `IngestionService.run` (src/services/ingestion.service.ts): collect article urls from the
    feeds, de-duplicate them, fetch the articles, cut them into chunks, embed the chunks in
    batches and store them in the vector database. The feeds, the pages and the embedder are
    parameters: functions from what the service asks for to what it gets back. */
module Ingestion {
  import opened Wrappers
  import opened Seqs
  import Article
  import Chunker
  import VectorStore

  /** A feed entry as this file declares it (line 27). */
  datatype FeedRecord = FeedRecord(url: string, lastmod: Option<string>)

  /** What reading a feed gives: its records, or None when it throws. */
  type FeedSource = string -> Option<seq<FeedRecord>>
  /** What loading a url gives: the parsed page, or None when there is no usable HTML. */
  type PageSource = string -> Option<Article.Dom>
  /** The embedder: one vector per text it answers for. */
  type Embedder = seq<string> -> seq<VectorStore.Vector>

  /** Every article is cut with windows of 500 characters and an overlap of 120 (lines 59-66). */
  const ChunkSize := 500
  const ChunkOverlap := 120
  /** The defaults of INGEST_MAX_ARTICLES and EMBED_BATCH_SIZE (lines 14-15). */
  const DefaultMaxArticles := 50
  const DefaultEmbedBatchSize := 32

  datatype Status = NothingToIndex | Indexed | Aborted

  // ---------------------------------------------------------------------------------------
  // Step 1: the feed loop (lines 27-36).

  /** The records a feed contributes: none when reading it throws. */
  function Answer(fetchFeed: FeedSource, feed: string): seq<FeedRecord> {
    match fetchFeed(feed)
    case Some(rs) => rs
    case None => []
  }

  /** The records the feeds contribute, one feed after another. */
  function Contributed(fetchFeed: FeedSource, feeds: seq<string>): seq<FeedRecord> {
    if feeds == [] then []
    else Contributed(fetchFeed, feeds[..|feeds| - 1]) + Answer(fetchFeed, feeds[|feeds| - 1])
  }

  lemma {:induction false} ContributedAppend(fetchFeed: FeedSource, a: seq<string>, b: seq<string>)
    ensures Contributed(fetchFeed, a + b) == Contributed(fetchFeed, a) + Contributed(fetchFeed, b)
  {
    if b == [] {
      assert a + b == a;
    } else {
      var init, last := b[..|b| - 1], b[|b| - 1];
      assert (a + b)[..|a + b| - 1] == a + init;
      ContributedAppend(fetchFeed, a, init);
      AppendAssoc(Contributed(fetchFeed, a), Contributed(fetchFeed, init), Answer(fetchFeed, last));
    }
  }

  /** A feed that throws contributes nothing, and the feeds after it still do. */
  lemma FailingFeedContributesNothing(fetchFeed: FeedSource, before: seq<string>, feed: string, after: seq<string>)
    requires fetchFeed(feed).None?
    ensures Contributed(fetchFeed, before + [feed] + after) == Contributed(fetchFeed, before + after)
  {
    ContributedAppend(fetchFeed, before + [feed], after);
    ContributedAppend(fetchFeed, before, after);
    assert (before + [feed])[..|before|] == before;
  }

  /** The number of feeds the loop reads when it has read the first `k`: it stops after the
      first feed that brings the collected records to `max`. */
  function TriedFrom(fetchFeed: FeedSource, feeds: seq<string>, max: nat, k: nat): (n: nat)
    requires k <= |feeds|
    ensures k <= n <= |feeds|
    decreases |feeds| - k
  {
    if k == |feeds| then k
    else if |Contributed(fetchFeed, feeds[..k + 1])| >= max then k + 1
    else TriedFrom(fetchFeed, feeds, max, k + 1)
  }

  function Tried(fetchFeed: FeedSource, feeds: seq<string>, max: nat): nat {
    TriedFrom(fetchFeed, feeds, max, 0)
  }

  /** The loop reads at least one feed when there is one, stops only when the records
      collected reach `max` or the feeds run out, and never stops while fewer are collected. */
  lemma {:induction false} TriedFacts(fetchFeed: FeedSource, feeds: seq<string>, max: nat, k: nat)
    requires k <= |feeds|
    ensures var n := TriedFrom(fetchFeed, feeds, max, k);
      && (k < |feeds| ==> n > k)
      && (forall j :: k < j < n ==> |Contributed(fetchFeed, feeds[..j])| < max)
      && (n < |feeds| ==> |Contributed(fetchFeed, feeds[..n])| >= max)
    decreases |feeds| - k
  {
    if k < |feeds| && |Contributed(fetchFeed, feeds[..k + 1])| < max {
      TriedFacts(fetchFeed, feeds, max, k + 1);
    }
  }

  /** Lines 27-36: read the feeds in order, skipping one that throws, until the records
      collected reach `max`. `tried` is the number of feeds read. */
  method GatherUrls(fetchFeed: FeedSource, feeds: seq<string>, max: nat)
    returns (allUrls: seq<FeedRecord>, tried: nat)
    ensures tried == Tried(fetchFeed, feeds, max)
    ensures allUrls == Contributed(fetchFeed, feeds[..tried])
  {
    allUrls := [];
    tried := 0;
    while tried < |feeds|
      invariant tried <= |feeds|
      invariant allUrls == Contributed(fetchFeed, feeds[..tried])
      invariant TriedFrom(fetchFeed, feeds, max, tried) == Tried(fetchFeed, feeds, max)
      decreases |feeds| - tried
    {
      var urls := fetchFeed(feeds[tried]);
      if urls.Some? {
        allUrls := allUrls + urls.value;
      }
      assert feeds[..tried + 1][..tried] == feeds[..tried];
      tried := tried + 1;
      if |allUrls| >= max {
        break;
      }
    }
  }

  // ---------------------------------------------------------------------------------------
  // Step 2: de-duplication through a Map (lines 38-40).

  function Urls(rs: seq<FeedRecord>): (us: seq<string>)
    ensures |us| == |rs|
    ensures forall k :: 0 <= k < |rs| ==> us[k] == rs[k].url
  {
    if rs == [] then [] else Urls(rs[..|rs| - 1]) + [rs[|rs| - 1].url]
  }

  /** The position of the last record with url `u`. */
  function LastIndex(rs: seq<FeedRecord>, u: string): (k: nat)
    requires u in Urls(rs)
    ensures k < |rs| && rs[k].url == u
    ensures forall j :: k < j < |rs| ==> rs[j].url != u
  {
    var n := |rs| - 1;
    if rs[n].url == u then n
    else
      var i :| 0 <= i < |rs| && Urls(rs)[i] == u;
      assert Urls(rs[..n])[i] == u;
      LastIndex(rs[..n], u)
  }

  /** For each url of `us`, the last record of `rs` with that url. */
  function Latest(rs: seq<FeedRecord>, us: seq<string>): (r: seq<FeedRecord>)
    requires forall k :: 0 <= k < |us| ==> us[k] in Urls(rs)
    ensures |r| == |us|
    ensures forall k :: 0 <= k < |us| ==> r[k] == rs[LastIndex(rs, us[k])]
  {
    seq(|us|, k requires 0 <= k < |us| => rs[LastIndex(rs, us[k])])
  }

  /** `Array.from(new Map(rs.map(a => [a.url, a])).values())`: a Map keeps a key where it was
      first set and the value it was last set to. */
  function Deduped(rs: seq<FeedRecord>): seq<FeedRecord> {
    Latest(rs, Distinct(Urls(rs)))
  }

  /** The de-duplicated records carry the distinct urls, in order. */
  lemma DedupedUrls(rs: seq<FeedRecord>)
    ensures |Deduped(rs)| == |Distinct(Urls(rs))|
    ensures forall i :: 0 <= i < |Deduped(rs)| ==> Deduped(rs)[i].url == Distinct(Urls(rs))[i]
  {
  }

  /** The de-duplicated list, cut to `max`, has at most `max` records with distinct urls:
      the distinct urls of `rs`, in order. */
  lemma UniqueFacts(rs: seq<FeedRecord>, max: nat)
    ensures var us := Take(Deduped(rs), max);
      && |us| <= max
      && (forall i, j :: 0 <= i < j < |us| ==> us[i].url != us[j].url)
      && (forall i :: 0 <= i < |us| ==> us[i].url == Distinct(Urls(rs))[i])
  {
    var d, dd := Distinct(Urls(rs)), Deduped(rs);
    DedupedUrls(rs);
    var us := Take(dd, max);
    forall i | 0 <= i < |us| ensures us[i].url == d[i] {
      assert us[i] == dd[i];
    }
  }

  /** The urls of the de-duplicated list come in the order of their first occurrence in `rs`. */
  lemma UniqueOrder(rs: seq<FeedRecord>, max: nat)
    ensures var us := Take(Deduped(rs), max);
      forall i, j :: 0 <= i < j < |us| ==>
        && us[i].url in Urls(rs) && us[j].url in Urls(rs)
        && FirstIndex(Urls(rs), us[i].url) < FirstIndex(Urls(rs), us[j].url)
  {
    var d, dd := Distinct(Urls(rs)), Deduped(rs);
    DedupedUrls(rs);
    DistinctKeepsFirstOccurrenceOrder(Urls(rs));
    var us := Take(dd, max);
    forall i | 0 <= i < |us| ensures us[i].url == d[i] && us[i].url in Urls(rs) {
      assert us[i] == dd[i];
    }
  }

  /** Each record of the de-duplicated list is the last record of `rs` with its url. */
  lemma UniqueLatest(rs: seq<FeedRecord>, max: nat)
    ensures var us := Take(Deduped(rs), max);
      forall i :: 0 <= i < |us| ==> us[i].url in Urls(rs) && us[i] == rs[LastIndex(rs, us[i].url)]
  {
    var d, dd := Distinct(Urls(rs)), Deduped(rs);
    DedupedUrls(rs);
    var us := Take(dd, max);
    forall i | 0 <= i < |us| ensures us[i].url in Urls(rs) && us[i] == rs[LastIndex(rs, us[i].url)] {
      assert us[i] == dd[i] && us[i].url == d[i];
    }
  }

  /** Every url of `rs` is in the de-duplicated list unless the cut to `max` dropped it. */
  lemma UniqueKeepsEveryUrl(rs: seq<FeedRecord>, max: nat, k: nat)
    requires k < |rs|
    ensures var us := Take(Deduped(rs), max);
      rs[k].url in Urls(us) || |us| == max
  {
    var us := Take(Deduped(rs), max);
    var d := Distinct(Urls(rs));
    assert Urls(rs)[k] == rs[k].url;
    if |us| < max {
      assert |us| == |d|;
      var i :| 0 <= i < |d| && d[i] == rs[k].url;
      assert Urls(us)[i] == us[i].url == Deduped(rs)[i].url;
    }
  }

  /** The value a Map built by setting the records `rs` in order holds for url `u`: the last
      record with that url, if any. */
  function LastOf(rs: seq<FeedRecord>, u: string): Option<FeedRecord> {
    if rs == [] then None
    else if rs[|rs| - 1].url == u then Some(rs[|rs| - 1])
    else LastOf(rs[..|rs| - 1], u)
  }

  /** The Map holds a url exactly when some record carries it, and then the last such record. */
  lemma {:induction false} LastOfIndex(rs: seq<FeedRecord>, u: string)
    ensures LastOf(rs, u).Some? <==> u in Urls(rs)
    ensures u in Urls(rs) ==> LastOf(rs, u) == Some(rs[LastIndex(rs, u)])
  {
    if rs != [] {
      var n := |rs| - 1;
      LastOfIndex(rs[..n], u);
      assert Urls(rs) == Urls(rs[..n]) + [rs[n].url];
      if rs[n].url != u && u in Urls(rs) {
        assert u in Urls(rs[..n]);
      }
    }
  }

  /** `keys` (in insertion order) and `entries` are the Map that the records `rs` build. */
  ghost predicate MapOf(rs: seq<FeedRecord>, keys: seq<string>, entries: map<string, FeedRecord>) {
    && keys == Distinct(Urls(rs))
    && (forall u :: LastOf(rs, u) == if u in entries then Some(entries[u]) else None)
  }

  /** Setting the next record's url keeps the Map that the records so far build. */
  lemma MapStep(allUrls: seq<FeedRecord>, i: nat, keys: seq<string>, entries: map<string, FeedRecord>)
    requires i < |allUrls| && MapOf(allUrls[..i], keys, entries)
    ensures var a := allUrls[i];
      MapOf(allUrls[..i + 1], if a.url in entries then keys else keys + [a.url], entries[a.url := a])
  {
    var rs, a := allUrls[..i + 1], allUrls[i];
    assert rs[..i] == allUrls[..i];
    UniqueStep(allUrls, i, keys);
    LastOfIndex(allUrls[..i], a.url);
    assert a.url in entries <==> a.url in keys;
  }

  /** Every key of the Map has an entry. */
  lemma MapKeys(rs: seq<FeedRecord>, keys: seq<string>, entries: map<string, FeedRecord>)
    requires MapOf(rs, keys, entries)
    ensures forall u :: u in keys ==> u in entries
  {
    forall u | u in keys ensures u in entries {
      LastOfIndex(rs, u);
    }
  }

  /** The Map's values in key order are the de-duplicated records. */
  lemma MapValues(rs: seq<FeedRecord>, keys: seq<string>, entries: map<string, FeedRecord>, values: seq<FeedRecord>)
    requires MapOf(rs, keys, entries)
    requires |values| == |keys| && forall j :: 0 <= j < |keys| ==> keys[j] in entries && values[j] == entries[keys[j]]
    ensures values == Deduped(rs)
  {
    forall j | 0 <= j < |keys| ensures values[j] == Deduped(rs)[j] {
      LastOfIndex(rs, keys[j]);
    }
  }

  /** `Array.from(map.values())` for a Map with keys `keys` (lines 38-40). */
  method Values(keys: seq<string>, entries: map<string, FeedRecord>) returns (values: seq<FeedRecord>)
    requires forall u :: u in keys ==> u in entries
    ensures |values| == |keys|
    ensures forall j :: 0 <= j < |keys| ==> keys[j] in entries && values[j] == entries[keys[j]]
  {
    values := [];
    for k := 0 to |keys|
      invariant |values| == k
      invariant forall j :: 0 <= j < k ==> keys[j] in entries && values[j] == entries[keys[j]]
    {
      values := values + [entries[keys[k]]];
    }
  }

  /** Lines 38-40: a Map from url to record, kept as its keys in insertion order and its
      entries; then its values in key order, cut to `max`. */
  method UniqueUrls(allUrls: seq<FeedRecord>, max: nat) returns (unique: seq<FeedRecord>)
    ensures unique == Take(Deduped(allUrls), max)
  {
    var keys: seq<string> := [];
    var entries: map<string, FeedRecord> := map[];
    for i := 0 to |allUrls|
      invariant MapOf(allUrls[..i], keys, entries)
    {
      var a := allUrls[i];
      MapStep(allUrls, i, keys, entries);
      if a.url !in entries {
        keys := keys + [a.url];
      }
      entries := entries[a.url := a];
    }
    assert allUrls[..|allUrls|] == allUrls;
    MapKeys(allUrls, keys, entries);
    var values := Values(keys, entries);
    MapValues(allUrls, keys, entries, values);
    unique := values[..Min(max, |values|)];
  }

  /** One record more: the distinct urls grow by the new url unless it is already there. */
  lemma UniqueStep(allUrls: seq<FeedRecord>, i: nat, keys: seq<string>)
    requires i < |allUrls| && keys == Distinct(Urls(allUrls[..i]))
    ensures var rs, u := allUrls[..i + 1], allUrls[i].url;
      && Urls(rs) == Urls(allUrls[..i]) + [u]
      && Distinct(Urls(rs)) == (if u in keys then keys else keys + [u])
  {
    var rs := allUrls[..i + 1];
    assert rs[..i] == allUrls[..i];
    var s := Urls(rs);
    assert s[..|s| - 1] == Urls(allUrls[..i]);
    assert s[i] == allUrls[i].url;
  }

  // ---------------------------------------------------------------------------------------
  // Step 2 continued: fetching the articles (lines 45-53).

  /** What `fetchArticle` returns for a record: its `lastmod` is passed but ignored, since
      `fetchArticle` takes the url only. */
  function ArticleFor(pages: PageSource, r: FeedRecord): Option<Article.RawArticle> {
    Article.ArticleOf(r.url, pages(r.url))
  }

  /** The articles fetched for `rs`, in order, leaving out the records that yield none. */
  function Articles(pages: PageSource, rs: seq<FeedRecord>): seq<Article.RawArticle> {
    if rs == [] then []
    else
      var a := ArticleFor(pages, rs[|rs| - 1]);
      Articles(pages, rs[..|rs| - 1]) + (if a.Some? then [a.value] else [])
  }

  /** The articles are an in-order selection: those of `a + b` are those of `a`, then those of
      `b`; a single record yields its article or nothing. */
  lemma {:induction false} ArticlesAppend(pages: PageSource, a: seq<FeedRecord>, b: seq<FeedRecord>)
    ensures Articles(pages, a + b) == Articles(pages, a) + Articles(pages, b)
  {
    if b == [] {
      assert a + b == a;
    } else {
      var init, last := b[..|b| - 1], b[|b| - 1];
      assert (a + b)[..|a + b| - 1] == a + init;
      ArticlesAppend(pages, a, init);
      var x := ArticleFor(pages, last);
      AppendAssoc(Articles(pages, a), Articles(pages, init), if x.Some? then [x.value] else []);
    }
  }

  /** At most one article per record, each with a url of a record and a text of at least 200
      characters. */
  lemma {:induction false} ArticlesFacts(pages: PageSource, rs: seq<FeedRecord>)
    ensures var arts := Articles(pages, rs);
      && |arts| <= |rs|
      && (forall i :: 0 <= i < |arts| ==> arts[i].url in Urls(rs))
      && (forall i :: 0 <= i < |arts| ==> |arts[i].text| >= Article.MinArticleLength)
  {
    if rs != [] {
      var init, last := rs[..|rs| - 1], rs[|rs| - 1];
      ArticlesFacts(pages, init);
      Article.ArticleOfFacts(last.url, pages(last.url));
      assert Urls(rs) == Urls(init) + [last.url];
    }
  }

  /** Lines 45-53: fetch the article of every record, keeping those that are not null. */
  method FetchArticles(pages: PageSource, unique: seq<FeedRecord>) returns (articles: seq<Article.RawArticle>)
    ensures articles == Articles(pages, unique)
  {
    articles := [];
    for i := 0 to |unique|
      invariant articles == Articles(pages, unique[..i])
    {
      var art := Article.FetchArticle(unique[i].url, pages(unique[i].url));
      if art.Some? {
        articles := articles + [art.value];
      }
      assert unique[..i + 1][..i] == unique[..i];
    }
    assert unique[..|unique|] == unique;
  }

  // ---------------------------------------------------------------------------------------
  // Step 3: chunking (lines 57-69).

  /** The chunks of `articles`, article after article; each article's chunks take their ids
      from the count of chunks before them, standing in for fresh uuids. */
  function AllChunks(articles: seq<Article.RawArticle>): seq<Chunker.ArticleChunk> {
    if articles == [] then []
    else
      var pre := AllChunks(articles[..|articles| - 1]);
      var a := articles[|articles| - 1];
      pre + Chunker.Chunks(a.text, a.url, a.title, a.publishedAt, ChunkSize, ChunkOverlap, |pre|)
  }

  /** The urls of `articles`. */
  function Sources(articles: seq<Article.RawArticle>): (us: set<string>)
    ensures forall k :: 0 <= k < |articles| ==> articles[k].url in us
    ensures forall u :: u in us ==> exists k :: 0 <= k < |articles| && articles[k].url == u
  {
    if articles == [] then {}
    else
      var init := articles[..|articles| - 1];
      var r := Sources(init) + {articles[|articles| - 1].url};
      assert forall u :: u in Sources(init) ==> exists k :: 0 <= k < |articles| && articles[k].url == u by {
        forall u | u in Sources(init) ensures exists k :: 0 <= k < |articles| && articles[k].url == u {
          var k :| 0 <= k < |init| && init[k].url == u;
          assert articles[k] == init[k];
        }
      }
      r
  }

  /** The chunks are numbered 0, 1, ..., so no two share an id; each has a text of 51 to 500
      characters and one of the urls `sources`. */
  predicate NumberedChunks(cs: seq<Chunker.ArticleChunk>, sources: set<string>) {
    forall k :: 0 <= k < |cs| ==>
      && cs[k].id == k
      && Chunker.MinChunkLength < |cs[k].text| <= ChunkSize
      && cs[k].sourceUrl in sources
  }

  lemma NumberedAppend(pre: seq<Chunker.ArticleChunk>, own: seq<Chunker.ArticleChunk>, sources: set<string>,
                       url: string, title: Option<string>, publishedAt: Option<string>)
    requires NumberedChunks(pre, sources)
    requires Chunker.WellFormedChunks(own, url, title, publishedAt, ChunkSize, |pre|)
    ensures NumberedChunks(pre + own, sources + {url})
  {
    var cs := pre + own;
    forall k | 0 <= k < |cs|
      ensures cs[k].id == k && Chunker.MinChunkLength < |cs[k].text| <= ChunkSize && cs[k].sourceUrl in sources + {url}
    {
      if k >= |pre| {
        assert cs[k] == own[k - |pre|];
      }
    }
  }

  /** The chunks of all articles are numbered 0, 1, ... across the articles, so no two share
      an id, and each has a text of 51 to 500 characters and the url of one of the articles. */
  lemma {:induction false} AllChunksFacts(articles: seq<Article.RawArticle>)
    ensures NumberedChunks(AllChunks(articles), Sources(articles))
  {
    if articles != [] {
      var init, a := articles[..|articles| - 1], articles[|articles| - 1];
      AllChunksFacts(init);
      var pre := AllChunks(init);
      Chunker.ChunksFacts(a.text, a.url, a.title, a.publishedAt, ChunkSize, ChunkOverlap, |pre|);
      NumberedAppend(pre, Chunker.Chunks(a.text, a.url, a.title, a.publishedAt, ChunkSize, ChunkOverlap, |pre|),
                     Sources(init), a.url, a.title, a.publishedAt);
    }
  }

  /** Lines 57-69. */
  method ChunkAll(articles: seq<Article.RawArticle>) returns (chunks: seq<Chunker.ArticleChunk>)
    ensures chunks == AllChunks(articles)
  {
    chunks := [];
    for i := 0 to |articles|
      invariant chunks == AllChunks(articles[..i])
    {
      var art := articles[i];
      var cs := Chunker.ChunkArticleText(art.text, art.url, art.title, art.publishedAt,
                                         ChunkSize, ChunkOverlap, |chunks|);
      assert articles[..i + 1][..i] == articles[..i];
      chunks := chunks + cs;
    }
    assert articles[..|articles|] == articles;
  }

  // ---------------------------------------------------------------------------------------
  // Step 4: embedding and assembling the points (lines 76-108).

  function Texts(cs: seq<Chunker.ArticleChunk>): (ts: seq<string>)
    ensures |ts| == |cs|
  {
    seq(|cs|, k requires 0 <= k < |cs| => cs[k].text)
  }

  lemma {:induction false} TextsAppend(a: seq<Chunker.ArticleChunk>, b: seq<Chunker.ArticleChunk>)
    ensures Texts(a + b) == Texts(a) + Texts(b)
  {
    if a == [] {
      assert a + b == b;
    } else {
      assert (a + b)[0] == a[0] && (a + b)[1..] == a[1..] + b;
      TextsAppend(a[1..], b);
    }
  }

  /** The payload stored with a chunk (lines 99-105). */
  function PayloadOf(c: Chunker.ArticleChunk): VectorStore.Payload {
    VectorStore.Payload(c.sourceUrl, c.title, c.publishedAt, c.chunkIndex, c.text)
  }

  /** The points of one batch: the `j`-th chunk with the `j`-th vector, which is missing when
      the embedder returned fewer vectors (lines 95-107). */
  function PointsFor(batch: seq<Chunker.ArticleChunk>, vectors: seq<VectorStore.Vector>): seq<VectorStore.Point> {
    seq(|batch|, j requires 0 <= j < |batch| =>
      VectorStore.Point(batch[j].id, VectorAt(vectors, j), PayloadOf(batch[j])))
  }

  /** The embedding requests for batches `bs`, one per batch. */
  function TextBatches(bs: seq<seq<Chunker.ArticleChunk>>): (r: seq<seq<string>>)
    ensures |r| == |bs|
  {
    if bs == [] then [] else [Texts(bs[0])] + TextBatches(bs[1..])
  }

  /** The `k`-th request holds the texts of the `k`-th batch. */
  lemma {:induction false} TextBatchesAt(bs: seq<seq<Chunker.ArticleChunk>>)
    ensures forall k :: 0 <= k < |bs| ==> TextBatches(bs)[k] == Texts(bs[k])
  {
    if bs != [] {
      TextBatchesAt(bs[1..]);
    }
  }

  /** The points of batches `bs`, batch after batch. */
  function BatchPoints(embed: Embedder, bs: seq<seq<Chunker.ArticleChunk>>): seq<VectorStore.Point> {
    if bs == [] then [] else PointsFor(bs[0], embed(Texts(bs[0]))) + BatchPoints(embed, bs[1..])
  }

  /** The embedder sees consecutive slices of at most `b` texts, as many as ceil(n/b) for n
      chunks (every one but the last full), which cover the chunks' texts in order. */
  lemma EmbedRequests(chunks: seq<Chunker.ArticleChunk>, b: nat)
    requires b >= 1
    ensures var reqs := TextBatches(Batches(chunks, b));
      && (|reqs| == 0 || (|reqs| - 1) * b < |chunks|) && |chunks| <= |reqs| * b
      && (forall k :: 0 <= k < |reqs| ==> 0 < |reqs[k]| <= b)
      && (forall k :: 0 <= k < |reqs| - 1 ==> |reqs[k]| == b)
      && Flatten(reqs) == Texts(chunks)
  {
    BatchesCount(chunks, b);
    TextBatchesAt(Batches(chunks, b));
    FlattenTexts(Batches(chunks, b));
  }

  lemma {:induction false} FlattenTexts(bs: seq<seq<Chunker.ArticleChunk>>)
    ensures Flatten(TextBatches(bs)) == Texts(Flatten(bs))
  {
    if bs != [] {
      FlattenTexts(bs[1..]);
      TextsAppend(bs[0], Flatten(bs[1..]));
    }
  }

  /** The points line up with the chunks: the `k`-th point has the `k`-th chunk's id and a
      payload copied from it. */
  lemma {:induction false} PointsAligned(embed: Embedder, bs: seq<seq<Chunker.ArticleChunk>>)
    ensures var ps, cs := BatchPoints(embed, bs), Flatten(bs);
      && |ps| == |cs|
      && (forall k :: 0 <= k < |ps| ==> ps[k].id == cs[k].id && ps[k].payload == PayloadOf(cs[k]))
  {
    if bs != [] {
      PointsAligned(embed, bs[1..]);
    }
  }

  /** The `j`-th vector of an answer, if there is one. */
  function VectorAt(vectors: seq<VectorStore.Vector>, j: nat): Option<VectorStore.Vector> {
    if j < |vectors| then Some(vectors[j]) else None
  }

  /** The number of points is the number of chunks. */
  lemma {:induction false} PointsCount(embed: Embedder, bs: seq<seq<Chunker.ArticleChunk>>)
    ensures |BatchPoints(embed, bs)| == |Flatten(bs)|
  {
    if bs != [] {
      PointsCount(embed, bs[1..]);
    }
  }

  /** The `j`-th point of the `i`-th batch, which sits after the points of the batches before
      it, is the `j`-th chunk of that batch with the `j`-th vector of the embedder's answer for
      the batch, or with none when the answer is shorter than the batch (line 98). */
  predicate CarriesVector(embed: Embedder, bs: seq<seq<Chunker.ArticleChunk>>, i: nat, j: nat)
    requires i < |bs| && j < |bs[i]|
  {
    var ps, k := BatchPoints(embed, bs), |Flatten(bs[..i])| + j;
    && k < |ps|
    && ps[k].id == bs[i][j].id
    && ps[k].vector == VectorAt(embed(Texts(bs[i])), j)
  }

  lemma {:induction false} PointOfBatch(embed: Embedder, bs: seq<seq<Chunker.ArticleChunk>>, i: nat, j: nat)
    requires i < |bs| && j < |bs[i]|
    ensures CarriesVector(embed, bs, i, j)
  {
    var ps, rest := BatchPoints(embed, bs), BatchPoints(embed, bs[1..]);
    var head := PointsFor(bs[0], embed(Texts(bs[0])));
    assert ps == head + rest && |head| == |bs[0]|;
    if i == 0 {
      assert bs[..0] == [];
    } else {
      PointOfBatch(embed, bs[1..], i - 1, j);
      assert bs[..i][0] == bs[0] && bs[..i][1..] == bs[1..][..i - 1];
      assert Flatten(bs[..i]) == bs[0] + Flatten(bs[1..][..i - 1]);
      var k := |Flatten(bs[1..][..i - 1])| + j;
      assert ps[|bs[0]| + k] == rest[k];
    }
  }

  /** Every point carries the vector the embedder returned for its chunk's text, in the
      position of that text within its batch's request. */
  lemma PointsHaveVectors(embed: Embedder, bs: seq<seq<Chunker.ArticleChunk>>)
    ensures |BatchPoints(embed, bs)| == |Flatten(bs)|
    ensures forall i: nat, j: nat :: i < |bs| && j < |bs[i]| ==> CarriesVector(embed, bs, i, j)
  {
    PointsCount(embed, bs);
    forall i: nat, j: nat | i < |bs| && j < |bs[i]| {
      PointOfBatch(embed, bs, i, j);
    }
  }

  /** The batch at `i` and the requests and points of the ones after it. */
  lemma BatchesAt(embed: Embedder, chunks: seq<Chunker.ArticleChunk>, b: nat, i: nat)
    requires b >= 1 && i < |chunks|
    ensures var batch := chunks[i..Min(i + b, |chunks|)];
      var later := if i + b >= |chunks| then [] else Batches(chunks[i + b..], b);
      && TextBatches(Batches(chunks[i..], b)) == [Texts(batch)] + TextBatches(later)
      && BatchPoints(embed, Batches(chunks[i..], b)) == PointsFor(batch, embed(Texts(batch))) + BatchPoints(embed, later)
  {
    BatchesFrom(chunks, b, i);
    var batch := chunks[i..Min(i + b, |chunks|)];
    var later := if i + b >= |chunks| then [] else Batches(chunks[i + b..], b);
    assert ([batch] + later)[0] == batch && ([batch] + later)[1..] == later;
  }

  /** The embedding requests of the loop from position `i` on, which moves `b` at a time. */
  function RequestsFrom(chunks: seq<Chunker.ArticleChunk>, b: nat, i: nat): seq<seq<string>>
    requires b >= 1
    decreases |chunks| - i
  {
    if i >= |chunks| then [] else [Texts(chunks[i..Min(i + b, |chunks|)])] + RequestsFrom(chunks, b, i + b)
  }

  /** The points the loop assembles from position `i` on. */
  function PointsFrom(embed: Embedder, chunks: seq<Chunker.ArticleChunk>, b: nat, i: nat): seq<VectorStore.Point>
    requires b >= 1
    decreases |chunks| - i
  {
    if i >= |chunks| then []
    else
      var batch := chunks[i..Min(i + b, |chunks|)];
      PointsFor(batch, embed(Texts(batch))) + PointsFrom(embed, chunks, b, i + b)
  }

  /** What the loop does from `i` on is what it does with the batches of `chunks[i..]`. */
  lemma {:induction false} FromIsBatches(embed: Embedder, chunks: seq<Chunker.ArticleChunk>, b: nat, i: nat)
    requires b >= 1 && i <= |chunks|
    ensures RequestsFrom(chunks, b, i) == TextBatches(Batches(chunks[i..], b))
    ensures PointsFrom(embed, chunks, b, i) == BatchPoints(embed, Batches(chunks[i..], b))
    decreases |chunks| - i
  {
    if i < |chunks| {
      BatchesAt(embed, chunks, b, i);
      if i + b < |chunks| {
        FromIsBatches(embed, chunks, b, i + b);
      }
    } else {
      assert chunks[i..] == [];
    }
  }

  /** The loop has sent `requests` so far and, from position `i` on, sends the rest. */
  predicate SentFrom(chunks: seq<Chunker.ArticleChunk>, b: nat, i: nat, requests: seq<seq<string>>)
    requires b >= 1
  {
    requests + RequestsFrom(chunks, b, i) == RequestsFrom(chunks, b, 0)
  }

  /** The loop has assembled `points` so far and, from position `i` on, assembles the rest. */
  predicate AssembledFrom(embed: Embedder, chunks: seq<Chunker.ArticleChunk>, b: nat, i: nat,
                          points: seq<VectorStore.Point>)
    requires b >= 1
  {
    points + PointsFrom(embed, chunks, b, i) == PointsFrom(embed, chunks, b, 0)
  }

  /** The database before the loop's first turn is as it was, and after it as ensuring the
      collection for the first batch left it. */
  predicate StoreSoFar(i: nat, cols0: map<string, VectorStore.CollectionConfig>, log0: seq<VectorStore.Call>,
                       e: VectorStore.EnsureOutcome, cols: map<string, VectorStore.CollectionConfig>,
                       log: seq<VectorStore.Call>)
  {
    if i == 0 then cols == cols0 && log == log0 else cols == e.cols && log == log0 + e.calls && e.ok
  }

  /** One turn of the embedding loop, which sends the batch's texts and gets `vectors` back,
      keeps both. */
  lemma LoopStep(embed: Embedder, chunks: seq<Chunker.ArticleChunk>, b: nat, i: nat,
                 requests: seq<seq<string>>, points: seq<VectorStore.Point>, vectors: seq<VectorStore.Vector>)
    requires b >= 1 && i < |chunks|
    requires vectors == embed(Texts(chunks[i..Min(i + b, |chunks|)]))
    requires SentFrom(chunks, b, i, requests) && AssembledFrom(embed, chunks, b, i, points)
    ensures var batch := chunks[i..Min(i + b, |chunks|)];
      && SentFrom(chunks, b, i + b, requests + [Texts(batch)])
      && AssembledFrom(embed, chunks, b, i + b, points + PointsFor(batch, vectors))
  {
    var batch := chunks[i..Min(i + b, |chunks|)];
    AppendAssoc(requests, [Texts(batch)], RequestsFrom(chunks, b, i + b));
    AppendAssoc(points, PointsFor(batch, vectors), PointsFrom(embed, chunks, b, i + b));
  }

  /** What `ensureCollection` does for a batch's embedding: it is called only when the
      embedding has a vector, with that vector's length (lines 92-94). */
  function EnsureFor(cols: map<string, VectorStore.CollectionConfig>, collection: string,
                     vectors: seq<VectorStore.Vector>, getFails: bool): VectorStore.EnsureOutcome
  {
    if |vectors| > 0 then VectorStore.Ensure(cols, collection, |vectors[0]|, getFails)
    else VectorStore.EnsureOutcome(cols, [], true)
  }

  /** What the first batch makes `ensureCollection` do; nothing when there are no chunks. */
  function FirstEnsure(cols: map<string, VectorStore.CollectionConfig>, collection: string, embed: Embedder,
                       chunks: seq<Chunker.ArticleChunk>, b: nat, getFails: bool): VectorStore.EnsureOutcome
  {
    if chunks == [] then VectorStore.EnsureOutcome(cols, [], true)
    else EnsureFor(cols, collection, embed(Texts(chunks[..Min(b, |chunks|)])), getFails)
  }

  /** The first batch is the loop's batch at 0, and ensuring the collection for its answer
      is what FirstEnsure says. */
  lemma FirstEnsureIs(cols: map<string, VectorStore.CollectionConfig>, collection: string, embed: Embedder,
                      chunks: seq<Chunker.ArticleChunk>, b: nat, getFails: bool, vectors: seq<VectorStore.Vector>)
    requires b >= 1 && chunks != [] && vectors == embed(Texts(chunks[0..Min(b, |chunks|)]))
    ensures FirstEnsure(cols, collection, embed, chunks, b, getFails) == EnsureFor(cols, collection, vectors, getFails)
  {
    assert chunks[0..Min(b, |chunks|)] == chunks[..Min(b, |chunks|)];
  }

  /** The chunks a run indexes. */
  function RunChunks(fetchFeed: FeedSource, pages: PageSource, feeds: seq<string>, max: nat): seq<Chunker.ArticleChunk> {
    var allUrls := Contributed(fetchFeed, feeds[..Tried(fetchFeed, feeds, max)]);
    AllChunks(Articles(pages, Take(Deduped(allUrls), max)))
  }

  /** End to end: a run indexes chunks of at most `max` articles; the chunks are numbered
      0, 1, ..., each has a text of 51 to 500 characters, and each comes from the url of a
      record that one of the feeds read contributed. */
  lemma RunChunksFacts(fetchFeed: FeedSource, pages: PageSource, feeds: seq<string>, max: nat)
    ensures var allUrls := Contributed(fetchFeed, feeds[..Tried(fetchFeed, feeds, max)]);
      var articles := Articles(pages, Take(Deduped(allUrls), max));
      var chunks := RunChunks(fetchFeed, pages, feeds, max);
      && |articles| <= max
      && forall k :: 0 <= k < |chunks| ==>
           && chunks[k].id == k
           && Chunker.MinChunkLength < |chunks[k].text| <= ChunkSize
           && chunks[k].sourceUrl in Urls(allUrls)
  {
    var allUrls := Contributed(fetchFeed, feeds[..Tried(fetchFeed, feeds, max)]);
    var unique := Take(Deduped(allUrls), max);
    var articles := Articles(pages, unique);
    AllChunksFacts(articles);
    ArticlesFacts(pages, unique);
    UniqueLatest(allUrls, max);
    SourcesFromRecords(pages, unique, allUrls);
  }

  /** The articles of records whose urls all occur in `rs` have urls that occur in `rs`. */
  lemma SourcesFromRecords(pages: PageSource, unique: seq<FeedRecord>, rs: seq<FeedRecord>)
    requires forall i :: 0 <= i < |unique| ==> unique[i].url in Urls(rs)
    ensures forall u :: u in Sources(Articles(pages, unique)) ==> u in Urls(rs)
  {
    var articles := Articles(pages, unique);
    ArticlesFacts(pages, unique);
    forall u | u in Sources(articles) ensures u in Urls(rs) {
      var k :| 0 <= k < |articles| && articles[k].url == u;
      var i :| 0 <= i < |unique| && Urls(unique)[i] == u;
      assert unique[i].url == u;
    }
  }

  /** Lines 95-107: append a batch's points. */
  method PushPoints(points: seq<VectorStore.Point>, batch: seq<Chunker.ArticleChunk>, vectors: seq<VectorStore.Vector>)
    returns (ps: seq<VectorStore.Point>)
    ensures ps == points + PointsFor(batch, vectors)
  {
    ps := points;
    for j := 0 to |batch|
      invariant |ps| == |points| + j
      invariant ps[..|points|] == points
      invariant forall k :: 0 <= k < j ==> ps[|points| + k] == PointsFor(batch, vectors)[k]
    {
      var vector := if j < |vectors| then Some(vectors[j]) else None;
      ps := ps + [VectorStore.Point(batch[j].id, vector, PayloadOf(batch[j]))];
    }
  }

  class IngestionService {
    const qdrant: VectorStore.QdrantRepository

    constructor(qdrant: VectorStore.QdrantRepository)
      ensures this.qdrant == qdrant
    {
      this.qdrant := qdrant;
    }

    /** Lines 92-94: ensure the collection with the length of the batch's first vector, if
        the embedder returned one. */
    method EnsureForBatch(vectors: seq<VectorStore.Vector>, getFails: bool) returns (ok: bool)
      modifies qdrant
      ensures var e := EnsureFor(old(qdrant.collections), qdrant.collection, vectors, getFails);
        && qdrant.collections == e.cols && qdrant.log == old(qdrant.log) + e.calls && ok == e.ok
    {
      ok := true;
      if |vectors| > 0 {
        ok := qdrant.EnsureCollection(|vectors[0]|, getFails);
      }
    }

    /** Lines 82-108: embed the chunks batch by batch, ensure the collection on the first
        batch, and assemble the points. `requests` are the texts sent to the embedder; `ok`
        is false when ensuring the collection fails, which ends the run. */
    method EmbedChunks(chunks: seq<Chunker.ArticleChunk>, b: nat, embed: Embedder, getFails: bool)
      returns (points: seq<VectorStore.Point>, requests: seq<seq<string>>, ok: bool)
      requires b >= 1
      modifies qdrant
      ensures var e := FirstEnsure(old(qdrant.collections), qdrant.collection, embed, chunks, b, getFails);
        && qdrant.collections == e.cols && qdrant.log == old(qdrant.log) + e.calls && ok == e.ok
      ensures ok ==> requests == TextBatches(Batches(chunks, b))
      ensures ok ==> points == BatchPoints(embed, Batches(chunks, b))
      ensures !ok ==> requests == [Texts(chunks[..Min(b, |chunks|)])]
    {
      ghost var e := FirstEnsure(qdrant.collections, qdrant.collection, embed, chunks, b, getFails);
      points, requests, ok := [], [], true;
      FromIsBatches(embed, chunks, b, 0);
      assert chunks[0..] == chunks;
      var i := 0;
      while i < |chunks|
        invariant StoreSoFar(i, old(qdrant.collections), old(qdrant.log), e, qdrant.collections, qdrant.log)
        invariant i == 0 ==> requests == [] && points == []
        invariant SentFrom(chunks, b, i, requests) && AssembledFrom(embed, chunks, b, i, points)
      {
        var batch := chunks[i..Min(i + b, |chunks|)];
        var texts := Texts(batch);
        var vectors := embed(texts);
        LoopStep(embed, chunks, b, i, requests, points, vectors);
        requests := requests + [texts];
        if i == 0 {
          FirstEnsureIs(qdrant.collections, qdrant.collection, embed, chunks, b, getFails, vectors);
          ok := EnsureForBatch(vectors, getFails);
          if !ok {
            return;
          }
        }
        points := PushPoints(points, batch, vectors);
        i := i + b;
      }
    }

    /** Lines 24-114. A run with no chunks touches neither the collection nor the points;
        otherwise it ensures the collection as the first batch says and, unless that fails,
        upserts all points once. */
    method Run(feeds: seq<string>, max: nat, b: nat, fetchFeed: FeedSource, pages: PageSource,
               embed: Embedder, getFails: bool)
      returns (status: Status, requests: seq<seq<string>>)
      requires b >= 1
      modifies qdrant
      ensures var chunks := RunChunks(fetchFeed, pages, feeds, max);
        chunks == [] ==>
          && status == NothingToIndex && requests == []
          && qdrant.collections == old(qdrant.collections) && qdrant.log == old(qdrant.log)
      ensures var chunks := RunChunks(fetchFeed, pages, feeds, max);
        var e := FirstEnsure(old(qdrant.collections), qdrant.collection, embed, chunks, b, getFails);
        chunks != [] ==>
          && qdrant.collections == e.cols
          && (e.ok ==> status == Indexed && requests == TextBatches(Batches(chunks, b)))
          && (e.ok ==> qdrant.log == old(qdrant.log) + e.calls + VectorStore.UpsertCalls(
                qdrant.collection, Batches(BatchPoints(embed, Batches(chunks, b)), VectorStore.Batch)))
          && (!e.ok ==> status == Aborted && qdrant.log == old(qdrant.log) + e.calls)
    {
      var allUrls, tried := GatherUrls(fetchFeed, feeds, max);
      var unique := UniqueUrls(allUrls, max);
      var articles := FetchArticles(pages, unique);
      var chunks := ChunkAll(articles);
      if |chunks| == 0 {
        return NothingToIndex, [];
      }
      var points, ok;
      points, requests, ok := EmbedChunks(chunks, b, embed, getFails);
      if !ok {
        return Aborted, requests;
      }
      qdrant.UpsertPoints(points);
      status := Indexed;
    }
  }
}
