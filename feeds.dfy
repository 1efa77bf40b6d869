/** `fetchFeedUrls` (src/ingestion/fetchNews.ts:11-72): the article URLs of a news feed, taken
    from a sitemap index (recursively), an Atom feed or a urlset, de-duplicated and capped.
    The HTTP fetch and the XML parse are one partial map from URL to parsed document; a URL
    outside the map is a fetch that throws. */
module Feeds {
  import opened Wrappers
  import opened Seqs

  /** The first `<link>` of an Atom entry as the XML parser yields it: an empty element (a
      falsy empty string), an element with text but no attributes (a string, whose `$` is
      undefined, so reading `$.href` throws), or an element with attributes and its `href`
      ("" when there is none). */
  datatype AtomLink = EmptyLink | TextLink | AttrLink(href: string)

  /** An Atom `<entry>` and its `<link>` elements (none when the entry has no link). */
  datatype AtomEntry = AtomEntry(link: seq<AtomLink>)

  /** A parsed feed document. Each part is None when the document lacks it: `sitemaps` holds
      the `loc` of every `sitemapindex.sitemap`, `entries` the `feed.entry` elements and
      `urls` the `loc` of every `urlset.url`; a missing or empty `loc` is "". */
  datatype FeedDoc = FeedDoc(sitemaps: Option<seq<string>>, entries: Option<seq<AtomEntry>>,
                             urls: Option<seq<string>>)

  /** The documents that fetching and parsing each URL yields; a URL without one throws. */
  type Fetcher = map<string, FeedDoc>

  /** Lines 22-24: the non-empty locations, in order. */
  function NonEmpty(locs: seq<string>): (r: seq<string>)
    ensures |r| <= |locs|
    ensures forall u :: u in r <==> u in locs && u != ""
  {
    if locs == [] then []
    else (if locs[0] != "" then [locs[0]] else []) + NonEmpty(locs[1..])
  }

  /** The hrefs the Atom loop reads: those of entries whose first link has a non-empty href. */
  function Hrefs(entries: seq<AtomEntry>): set<string> {
    if entries == [] then {}
    else
      var e := entries[0];
      (if |e.link| > 0 && e.link[0].AttrLink? && e.link[0].href != "" then {e.link[0].href} else {})
      + Hrefs(entries[1..])
  }

  /** Lines 47-52, from the entries not yet visited and the URLs `urls` collected so far: an
      entry with a non-empty href adds it; the loop stops once `max` URLs are collected, and
      a link whose `$` is undefined throws, which ends the loop (lines 54-56). */
  function AtomCollect(entries: seq<AtomEntry>, max: nat, urls: seq<string>): (r: seq<string>)
    ensures urls <= r
    ensures |r| <= (if |urls| < max then max else |urls| + 1)
    ensures forall i :: |urls| <= i < |r| ==> r[i] in Hrefs(entries)
  {
    if entries == [] then urls
    else
      var e := entries[0];
      if |e.link| > 0 && e.link[0].TextLink? then urls
      else
        var urls' := if |e.link| > 0 && e.link[0].AttrLink? && e.link[0].href != "" then urls + [e.link[0].href] else urls;
        if |urls'| >= max then urls' else AtomCollect(entries[1..], max, urls')
  }

  /** The non-empty locations, as a set. */
  function LocSet(locs: seq<string>): set<string> {
    set u | u in locs && u != ""
  }

  /** Lines 61-64, from the locations not yet visited and the URLs `urls` collected so far:
      a non-empty location is added, and the loop stops once `max` URLs are collected. */
  function UrlsetCollect(locs: seq<string>, max: nat, urls: seq<string>): (r: seq<string>)
    ensures urls <= r
    ensures |r| <= (if |urls| < max then max else |urls| + 1)
    ensures forall i :: |urls| <= i < |r| ==> r[i] in LocSet(locs)
  {
    if locs == [] then urls
    else
      var urls' := if locs[0] != "" then urls + [locs[0]] else urls;
      if |urls'| >= max then urls' else UrlsetCollect(locs[1..], max, urls')
  }

  function EntriesOf(doc: FeedDoc): seq<AtomEntry> {
    if doc.entries.Some? then doc.entries.value else []
  }

  function UrlsOf(doc: FeedDoc): seq<string> {
    if doc.urls.Some? then doc.urls.value else []
  }

  /** Lines 44-68: the URLs a document without a sitemap index yields, the Atom entries' first,
      then the urlset's, both loops sharing the one list and its cap. */
  function OwnUrls(doc: FeedDoc, max: nat): seq<string> {
    UrlsetCollect(UrlsOf(doc), max, AtomCollect(EntriesOf(doc), max, []))
  }

  /** What `fetchFeedUrls(url, max)` returns, or None when it throws. A sitemap index may list
      itself, and the source then never returns; here each level of nesting uses up one unit
      of `fuel`, and a fetch with no fuel left fails like one that throws. */
  function FeedUrls(fetch: Fetcher, url: string, max: nat, fuel: nat): (r: Option<seq<string>>)
    ensures r.Some? ==> NoDup(r.value) && |r.value| <= max
    decreases fuel, 0, 0
  {
    if fuel == 0 || url !in fetch then None
    else Some(Take(Distinct(Collected(fetch, fetch[url], max, fuel - 1)), max))
  }

  /** The URLs collected from a document before de-duplication (lines 19-39 or 44-68). */
  function Collected(fetch: Fetcher, doc: FeedDoc, max: nat, fuel: nat): seq<string>
    decreases fuel, 2, 0
  {
    if doc.sitemaps.Some? then NestedUrls(fetch, NonEmpty(doc.sitemaps.value), max, fuel, [])
    else OwnUrls(doc, max)
  }

  /** Lines 27-37, from the nested sitemaps not yet visited and the URLs `acc` collected so
      far: a sitemap that throws is skipped, and the loop stops once `max` URLs are collected. */
  function NestedUrls(fetch: Fetcher, sms: seq<string>, max: nat, fuel: nat, acc: seq<string>): seq<string>
    decreases fuel, 1, |sms|
  {
    if sms == [] then acc
    else
      match FeedUrls(fetch, sms[0], max, fuel)
      case None => NestedUrls(fetch, sms[1..], max, fuel, acc)
      case Some(u) =>
        var acc' := acc + u;
        if |acc'| >= max then acc' else NestedUrls(fetch, sms[1..], max, fuel, acc')
  }

  /** The URLs a feed may contribute: the non-empty hrefs and locations of its own document,
      or, for a sitemap index, those of the sitemaps it references, level by level. */
  function Sources(fetch: Fetcher, url: string, fuel: nat): set<string>
    decreases fuel, 0, 0
  {
    if fuel == 0 || url !in fetch then {} else DocSources(fetch, fetch[url], fuel - 1)
  }

  function DocSources(fetch: Fetcher, doc: FeedDoc, fuel: nat): set<string>
    decreases fuel, 2, 0
  {
    if doc.sitemaps.Some? then NestedSources(fetch, NonEmpty(doc.sitemaps.value), fuel)
    else Hrefs(EntriesOf(doc)) + LocSet(UrlsOf(doc))
  }

  function NestedSources(fetch: Fetcher, sms: seq<string>, fuel: nat): set<string>
    decreases fuel, 1, |sms|
  {
    if sms == [] then {} else Sources(fetch, sms[0], fuel) + NestedSources(fetch, sms[1..], fuel)
  }

  /** Every URL a feed returns is one of its sources: an href or location of its document or,
      for a sitemap index, of a sitemap it references. */
  lemma {:induction false} FeedUrlsFromSources(fetch: Fetcher, url: string, max: nat, fuel: nat)
    ensures FeedUrls(fetch, url, max, fuel).Some? ==>
      forall u :: u in FeedUrls(fetch, url, max, fuel).value ==> u in Sources(fetch, url, fuel)
    decreases fuel, 0, 0
  {
    if fuel > 0 && url in fetch {
      var c := Collected(fetch, fetch[url], max, fuel - 1);
      CollectedFromSources(fetch, fetch[url], max, fuel - 1);
      var d := Distinct(c);
      var r := Take(d, max);
      forall u | u in r ensures u in Sources(fetch, url, fuel) {
        var i :| 0 <= i < |r| && r[i] == u;
        assert d[i] in c;
      }
    }
  }

  lemma {:induction false} CollectedFromSources(fetch: Fetcher, doc: FeedDoc, max: nat, fuel: nat)
    ensures forall u :: u in Collected(fetch, doc, max, fuel) ==> u in DocSources(fetch, doc, fuel)
    decreases fuel, 2, 0
  {
    if doc.sitemaps.Some? {
      NestedFromSources(fetch, NonEmpty(doc.sitemaps.value), max, fuel, []);
    } else {
      var a := AtomCollect(EntriesOf(doc), max, []);
      var r := UrlsetCollect(UrlsOf(doc), max, a);
      forall u | u in r ensures u in Hrefs(EntriesOf(doc)) + LocSet(UrlsOf(doc)) {
        var i :| 0 <= i < |r| && r[i] == u;
        if i < |a| {
          assert r[i] == a[i];
        }
      }
    }
  }

  lemma {:induction false} NestedFromSources(fetch: Fetcher, sms: seq<string>, max: nat, fuel: nat,
                                             acc: seq<string>)
    ensures forall u :: u in NestedUrls(fetch, sms, max, fuel, acc) ==>
      u in acc || u in NestedSources(fetch, sms, fuel)
    decreases fuel, 1, |sms|
  {
    if sms != [] {
      FeedUrlsFromSources(fetch, sms[0], max, fuel);
      match FeedUrls(fetch, sms[0], max, fuel)
      case None =>
        NestedFromSources(fetch, sms[1..], max, fuel, acc);
      case Some(v) =>
        NestedFromSources(fetch, sms[1..], max, fuel, acc + v);
    }
  }

  /** The returned URLs are collected ones in the order of their first occurrences, and every
      collected URL is returned unless `max` URLs already are; those left out first occur after
      every returned one (lines 38 and 71). */
  lemma FeedUrlsKeepFirstOccurrences(fetch: Fetcher, url: string, max: nat, fuel: nat)
    requires fuel > 0 && url in fetch
    ensures var r := FeedUrls(fetch, url, max, fuel).value;
      var c := Collected(fetch, fetch[url], max, fuel - 1);
      && (forall i :: 0 <= i < |r| ==> r[i] in c)
      && (forall i, j :: 0 <= i < j < |r| ==> FirstIndex(c, r[i]) < FirstIndex(c, r[j]))
      && (forall u :: u in c ==> u in r || |r| == max)
      && (forall u :: u in c && u !in r ==>
            forall i :: 0 <= i < |r| ==> FirstIndex(c, r[i]) < FirstIndex(c, u))
  {
    var c := Collected(fetch, fetch[url], max, fuel - 1);
    DistinctKeepsFirstOccurrenceOrder(c);
    var d := Distinct(c);
    var r := Take(d, max);
    assert forall i :: 0 <= i < |r| ==> r[i] == d[i];
    if |d| <= max {
      assert r == d;
    }
    forall u | u in c && u !in r
      ensures forall i :: 0 <= i < |r| ==> FirstIndex(c, r[i]) < FirstIndex(c, u)
    {
      var k :| 0 <= k < |d| && d[k] == u;
      assert forall i :: 0 <= i < |r| ==> r[i] != u;
      forall i | 0 <= i < |r| ensures FirstIndex(c, r[i]) < FirstIndex(c, u) {
        assert r[i] == d[i] && i < k;
      }
    }
  }

  /** The nested sitemaps that fail are skipped as though they were not listed (lines 32-36). */
  function Succeeding(fetch: Fetcher, sms: seq<string>, max: nat, fuel: nat): seq<string> {
    if sms == [] then []
    else (if FeedUrls(fetch, sms[0], max, fuel).Some? then [sms[0]] else []) + Succeeding(fetch, sms[1..], max, fuel)
  }

  lemma {:induction false} NestedSkipsFailures(fetch: Fetcher, sms: seq<string>, max: nat, fuel: nat,
                                               acc: seq<string>)
    ensures NestedUrls(fetch, sms, max, fuel, acc) == NestedUrls(fetch, Succeeding(fetch, sms, max, fuel), max, fuel, acc)
  {
    if sms != [] {
      var ok := Succeeding(fetch, sms, max, fuel);
      var rest := Succeeding(fetch, sms[1..], max, fuel);
      match FeedUrls(fetch, sms[0], max, fuel)
      case None =>
        assert ok == rest;
        NestedSkipsFailures(fetch, sms[1..], max, fuel, acc);
      case Some(v) =>
        assert ok == [sms[0]] + rest && ok[0] == sms[0] && ok[1..] == rest;
        NestedSkipsFailures(fetch, sms[1..], max, fuel, acc + v);
    }
  }

  /** Once `max` URLs are collected no further nested sitemap is fetched (line 31): whatever
      sitemaps follow, the result is the same. */
  lemma {:induction false} NestedStopsAtCap(fetch: Fetcher, sms: seq<string>, more: seq<string>, max: nat,
                                            fuel: nat, acc: seq<string>)
    requires |acc| < max && |NestedUrls(fetch, sms, max, fuel, acc)| >= max
    ensures NestedUrls(fetch, sms + more, max, fuel, acc) == NestedUrls(fetch, sms, max, fuel, acc)
  {
    assert sms != [];
    assert (sms + more)[0] == sms[0] && (sms + more)[1..] == sms[1..] + more;
    match FeedUrls(fetch, sms[0], max, fuel)
    case None =>
      NestedStopsAtCap(fetch, sms[1..], more, max, fuel, acc);
    case Some(v) =>
      if |acc + v| < max {
        NestedStopsAtCap(fetch, sms[1..], more, max, fuel, acc + v);
      }
  }

  /** Each nested result holds at most `max` URLs and the loop stops as soon as `max` are
      collected, so fewer than twice `max` are ever collected. */
  lemma {:induction false} NestedBound(fetch: Fetcher, sms: seq<string>, max: nat, fuel: nat, acc: seq<string>)
    requires |acc| < max
    ensures |NestedUrls(fetch, sms, max, fuel, acc)| < 2 * max
  {
    if sms != [] {
      match FeedUrls(fetch, sms[0], max, fuel)
      case None =>
        NestedBound(fetch, sms[1..], max, fuel, acc);
      case Some(v) =>
        if |acc + v| < max {
          NestedBound(fetch, sms[1..], max, fuel, acc + v);
        }
    }
  }

  /** An entry whose link throws ends the Atom loop: the entries after it are never read. */
  lemma {:induction false} AtomStopsAtTextLink(pre: seq<AtomEntry>, e: AtomEntry, more: seq<AtomEntry>,
                                               max: nat, urls: seq<string>)
    requires |e.link| > 0 && e.link[0].TextLink?
    ensures AtomCollect(pre + [e] + more, max, urls) == AtomCollect(pre, max, urls)
  {
    if pre == [] {
      assert pre + [e] + more == [e] + more;
    } else {
      assert (pre + [e] + more)[0] == pre[0] && (pre + [e] + more)[1..] == pre[1..] + [e] + more;
      var f := pre[0];
      var urls' := if |f.link| > 0 && f.link[0].AttrLink? && f.link[0].href != "" then urls + [f.link[0].href] else urls;
      if !(|f.link| > 0 && f.link[0].TextLink?) && |urls'| < max {
        AtomStopsAtTextLink(pre[1..], e, more, max, urls');
      }
    }
  }

  /** Lines 21-24: the non-empty locations of the sitemap index, in order. */
  method SitemapLocations(sitemaps: seq<string>) returns (sitemapUrls: seq<string>)
    ensures sitemapUrls == NonEmpty(sitemaps)
  {
    sitemapUrls := [];
    for i := 0 to |sitemaps|
      invariant sitemapUrls + NonEmpty(sitemaps[i..]) == NonEmpty(sitemaps)
    {
      assert sitemaps[i..][1..] == sitemaps[i + 1..];
      if sitemaps[i] != "" {
        AppendAssoc(sitemapUrls, [sitemaps[i]], NonEmpty(sitemaps[i + 1..]));
        sitemapUrls := sitemapUrls + [sitemaps[i]];
      }
    }
  }

  /** Lines 26-37: the nested sitemaps' URLs, each sitemap fetched with one unit of fuel less. */
  method FetchNested(fetch: Fetcher, sitemapUrls: seq<string>, max: nat, fuel: nat)
    returns (articleUrls: seq<string>)
    ensures articleUrls == NestedUrls(fetch, sitemapUrls, max, fuel, [])
    decreases fuel, 1
  {
    articleUrls := [];
    var j := 0;
    while j < |sitemapUrls|
      invariant 0 <= j <= |sitemapUrls|
      invariant NestedUrls(fetch, sitemapUrls[j..], max, fuel, articleUrls) == NestedUrls(fetch, sitemapUrls, max, fuel, [])
    {
      assert sitemapUrls[j..][1..] == sitemapUrls[j + 1..];
      var nestedUrls := FetchFeedUrls(fetch, sitemapUrls[j], max, fuel);
      if nestedUrls.Some? {
        articleUrls := articleUrls + nestedUrls.value;
        if |articleUrls| >= max {
          break;
        }
      }
      j := j + 1;
    }
  }

  /** Lines 45-56: the Atom entries' hrefs. */
  method CollectAtom(entries: seq<AtomEntry>, max: nat) returns (urls: seq<string>)
    ensures urls == AtomCollect(entries, max, [])
  {
    urls := [];
    var i := 0;
    while i < |entries|
      invariant 0 <= i <= |entries|
      invariant AtomCollect(entries[i..], max, urls) == AtomCollect(entries, max, [])
    {
      assert entries[i..][1..] == entries[i + 1..];
      var entry := entries[i];
      if |entry.link| > 0 && entry.link[0].TextLink? {
        // reading `$.href` of a link without attributes throws, and the catch ends the loop
        break;
      }
      if |entry.link| > 0 && entry.link[0].AttrLink? && entry.link[0].href != "" {
        urls := urls + [entry.link[0].href];
      }
      if |urls| >= max {
        break;
      }
      i := i + 1;
    }
  }

  /** Lines 59-68: the urlset's locations, appended to the URLs `urls0` already collected. */
  method CollectUrlset(locs: seq<string>, max: nat, urls0: seq<string>) returns (urls: seq<string>)
    ensures urls == UrlsetCollect(locs, max, urls0)
  {
    urls := urls0;
    var i := 0;
    while i < |locs|
      invariant 0 <= i <= |locs|
      invariant UrlsetCollect(locs[i..], max, urls) == UrlsetCollect(locs, max, urls0)
    {
      assert locs[i..][1..] == locs[i + 1..];
      if locs[i] != "" {
        urls := urls + [locs[i]];
      }
      if |urls| >= max {
        break;
      }
      i := i + 1;
    }
  }

  /** Lines 11-72: None when fetching `feedUrl` throws. `fuel` bounds the nesting of sitemap
      indexes (see FeedUrls). */
  method FetchFeedUrls(fetch: Fetcher, feedUrl: string, max: nat, fuel: nat) returns (r: Option<seq<string>>)
    ensures r == FeedUrls(fetch, feedUrl, max, fuel)
    decreases fuel, 0
  {
    if fuel == 0 || feedUrl !in fetch {
      return None;
    }
    var xml := fetch[feedUrl];
    if xml.sitemaps.Some? {
      var sitemapUrls := SitemapLocations(xml.sitemaps.value);
      var articleUrls := FetchNested(fetch, sitemapUrls, max, fuel - 1);
      return Some(Take(Distinct(articleUrls), max));
    }
    var urls: seq<string> := [];
    if xml.entries.Some? {
      urls := CollectAtom(xml.entries.value, max);
    }
    if xml.urls.Some? {
      urls := CollectUrlset(xml.urls.value, max, urls);
    }
    return Some(Take(Distinct(urls), max));
  }
}
