/** The extraction half of `fetchArticle` (src/ingestion/fetchNews.ts:119-199) and
    `sanitizeHtml` (src/ingestion/fetchNews.ts:105-117). The HTML fetch and the DOM library are
    replaced by the results of the DOM queries the function makes. */
module Article {
  import opened Wrappers
  import opened Text
  import opened Seqs

  /** The results of the DOM queries of lines 143-191 on one loaded page. Text and attribute
      values are strings, "" standing both for an absent value and an empty one, which `||`
      treats alike. Paragraph lists hold the raw `text()` of each `p` matched, in document order:
      those inside `article` (empty when the page has none), those of `main p, section p`, and
      every `p`. */
  datatype Dom = Dom(
    ogTitle: string, titleText: string, h1Text: string,
    articleParagraphs: seq<string>, mainSectionParagraphs: seq<string>, allParagraphs: seq<string>,
    publishedTime: string, pubdate: string, publishDate: string)

  /** `RawArticle` (src/types/ingestion.ts:1-6). */
  datatype RawArticle = RawArticle(url: string, title: Option<string>, publishedAt: Option<string>, text: string)

  /** Paragraph texts are kept when longer than this many characters once trimmed. */
  const MinParagraphLength := 30
  /** Article texts shorter than this are rejected. */
  const MinArticleLength := 200

  /** The trimmed paragraphs longer than 30 characters, in order (the callbacks of lines
      154-157, 161-164 and 168-171). */
  function Kept(raw: seq<string>): (r: seq<string>)
    ensures |r| <= |raw|
    ensures forall j :: 0 <= j < |r| ==> |r[j]| > MinParagraphLength
  {
    if raw == [] then []
    else
      var t := Trim(raw[0]);
      (if |t| > MinParagraphLength then [t] else []) + Kept(raw[1..])
  }

  /** Every paragraph longer than 30 characters once trimmed is kept, and nothing is kept
      exactly when there is no such paragraph. */
  lemma {:induction false} KeptAllLong(raw: seq<string>)
    ensures forall i :: 0 <= i < |raw| && |Trim(raw[i])| > MinParagraphLength ==> Trim(raw[i]) in Kept(raw)
    ensures Kept(raw) == [] <==> forall i :: 0 <= i < |raw| ==> |Trim(raw[i])| <= MinParagraphLength
  {
    if raw != [] {
      KeptAllLong(raw[1..]);
      assert forall i :: 1 <= i < |raw| ==> raw[i] == raw[1..][i - 1];
    }
  }

  /** One paragraph is kept, trimmed, exactly when it is longer than 30 characters once
      trimmed. */
  lemma KeptSingle(x: string)
    ensures Kept([x]) == if |Trim(x)| > MinParagraphLength then [Trim(x)] else []
  {
    assert [x][1..] == [];
  }

  /** The paragraphs of consecutive lists are kept list by list, in input order. */
  lemma {:induction false} KeptAppend(a: seq<string>, b: seq<string>)
    ensures Kept(a + b) == Kept(a) + Kept(b)
  {
    if a == [] {
      assert a + b == b;
    } else {
      assert (a + b)[0] == a[0] && (a + b)[1..] == a[1..] + b;
      KeptAppend(a[1..], b);
      var t := Trim(a[0]);
      AppendAssoc(if |t| > MinParagraphLength then [t] else [], Kept(a[1..]), Kept(b));
    }
  }

  /** Every kept paragraph is the trimmed text of some input paragraph. */
  lemma {:induction false} KeptFromInput(raw: seq<string>)
    ensures forall j :: 0 <= j < |Kept(raw)| ==> exists i :: 0 <= i < |raw| && Kept(raw)[j] == Trim(raw[i])
  {
    if raw != [] {
      KeptFromInput(raw[1..]);
      var t := Trim(raw[0]);
      var head := if |t| > MinParagraphLength then [t] else [];
      forall j | 0 <= j < |Kept(raw)| ensures exists i :: 0 <= i < |raw| && Kept(raw)[j] == Trim(raw[i]) {
        if j < |head| {
          assert Kept(raw)[j] == Trim(raw[0]);
        } else {
          var i :| 0 <= i < |raw[1..]| && Kept(raw[1..])[j - |head|] == Trim(raw[1..][i]);
          assert Kept(raw)[j] == Trim(raw[i + 1]);
        }
      }
    }
  }

  /** Lines 150-172: the paragraphs of the first strategy that keeps any. */
  function SelectParagraphs(dom: Dom): (ps: seq<string>)
    ensures Kept(dom.articleParagraphs) != [] ==> ps == Kept(dom.articleParagraphs)
    ensures ps != Kept(dom.articleParagraphs) ==> Kept(dom.articleParagraphs) == []
    ensures Kept(dom.articleParagraphs) == [] && Kept(dom.mainSectionParagraphs) != [] ==>
      ps == Kept(dom.mainSectionParagraphs)
    ensures Kept(dom.articleParagraphs) == [] && Kept(dom.mainSectionParagraphs) == [] ==>
      ps == Kept(dom.allParagraphs)
    ensures ps == [] <==>
      Kept(dom.articleParagraphs) == [] && Kept(dom.mainSectionParagraphs) == [] && Kept(dom.allParagraphs) == []
    ensures forall j :: 0 <= j < |ps| ==> |ps[j]| > MinParagraphLength
  {
    var a := Kept(dom.articleParagraphs);
    if a != [] then a
    else
      var m := Kept(dom.mainSectionParagraphs);
      if m != [] then m else Kept(dom.allParagraphs)
  }

  /** One `.each` callback loop: the long trimmed paragraphs of `raw` pushed onto `paragraphs`. */
  method PushLong(raw: seq<string>, paragraphs: seq<string>) returns (ps: seq<string>)
    ensures ps == paragraphs + Kept(raw)
  {
    ps := paragraphs;
    for i := 0 to |raw|
      invariant ps + Kept(raw[i..]) == paragraphs + Kept(raw)
    {
      assert raw[i..][1..] == raw[i + 1..];
      var t := Trim(raw[i]);
      if |t| > MinParagraphLength {
        assert ps + Kept(raw[i..]) == (ps + [t]) + Kept(raw[i + 1..]);
        ps := ps + [t];
      }
    }
  }

  /** Lines 150-172. */
  method CollectParagraphs(dom: Dom) returns (paragraphs: seq<string>)
    ensures paragraphs == SelectParagraphs(dom)
  {
    paragraphs := [];
    paragraphs := PushLong(dom.articleParagraphs, paragraphs);
    if |paragraphs| == 0 {
      paragraphs := PushLong(dom.mainSectionParagraphs, paragraphs);
    }
    if |paragraphs| == 0 {
      paragraphs := PushLong(dom.allParagraphs, paragraphs);
    }
  }

  /** Lines 177-180: the paragraphs joined by blank lines, every whitespace run of two or more
      characters made one space, and trimmed. */
  function ArticleText(paragraphs: seq<string>): string {
    Trim(CollapseSpaces(Join(paragraphs, "\n\n")))
  }

  /** The article text holds the paragraphs' non-whitespace characters, in order, and nothing
      else but single spaces: no two whitespace characters are adjacent, and it neither starts
      nor ends with one. */
  lemma ArticleTextShape(paragraphs: seq<string>)
    ensures var t := ArticleText(paragraphs);
      && WithoutSpaces(t) == WithoutSpaces(Join(paragraphs, "\n\n"))
      && NoAdjacentSpaces(t)
      && (t != [] ==> !IsSpace(t[0]) && !IsSpace(t[|t| - 1]))
      && Words(t) == ParagraphWords(paragraphs)
  {
    ArticleTextWords(paragraphs);
    var c := CollapseSpaces(Join(paragraphs, "\n\n"));
    TrimKeepsNonSpaces(c);
    TrimEnds(c);
    TrimSlice(c);
    var a, r := TrimOffset(c), Trim(c);
    forall i | 0 <= i < |r| - 1 ensures !(IsSpace(r[i]) && IsSpace(r[i + 1])) {
      assert r[i] == c[a + i] && r[i + 1] == c[a + i + 1];
    }
  }

  /** The article text's words are those of the paragraphs, one paragraph after another. */
  lemma ArticleTextWords(paragraphs: seq<string>)
    ensures Words(ArticleText(paragraphs)) == ParagraphWords(paragraphs)
  {
    var j := Join(paragraphs, "\n\n");
    TrimWords(CollapseSpaces(j));
    CollapseSpacesWords(j);
    WordsOfJoin(paragraphs, "\n\n");
  }

  /** The position of the first non-empty string in `xs`, or `|xs|` when there is none. */
  function FirstNonEmptyAt(xs: seq<string>): (k: nat)
    ensures k <= |xs|
    ensures forall j :: 0 <= j < k ==> xs[j] == ""
    ensures k < |xs| ==> xs[k] != ""
  {
    if xs == [] || xs[0] != "" then 0 else 1 + FirstNonEmptyAt(xs[1..])
  }

  /** `xs[0] || xs[1] || ... || undefined` over strings. */
  function FirstNonEmpty(xs: seq<string>): (r: Option<string>)
    ensures r.None? <==> forall j :: 0 <= j < |xs| ==> xs[j] == ""
    ensures r.Some? ==> r.value != "" && r.value == xs[FirstNonEmptyAt(xs)]
  {
    var k := FirstNonEmptyAt(xs);
    if k < |xs| then Some(xs[k]) else None
  }

  /** Lines 143-147. */
  function Title(dom: Dom): Option<string> {
    FirstNonEmpty([dom.ogTitle, dom.titleText, dom.h1Text])
  }

  /** Lines 187-191. */
  function PublishedAt(dom: Dom): Option<string> {
    FirstNonEmpty([dom.publishedTime, dom.pubdate, dom.publishDate])
  }

  /** What `fetchArticle(url)` returns when loading the page yields `page`: None both when
      there is no page (the fetch failed, the HTML was empty or did not load, lines 120-140)
      and when the text is shorter than 200 characters (lines 181-184). */
  function ArticleOf(url: string, page: Option<Dom>): Option<RawArticle> {
    if page.None? then None
    else
      var text := ArticleText(SelectParagraphs(page.value));
      if |text| < MinArticleLength then None
      else Some(RawArticle(url, Title(page.value), PublishedAt(page.value), text))
  }

  /** An article is returned exactly when there is a page whose text has at least 200
      characters; it carries the url, the first non-empty title and date candidates, and a
      text made of the kept paragraphs' non-whitespace characters. */
  lemma ArticleOfFacts(url: string, page: Option<Dom>)
    ensures var r := ArticleOf(url, page);
      && (r.Some? <==> page.Some? && |ArticleText(SelectParagraphs(page.value))| >= MinArticleLength)
      && (r.Some? ==>
            && r.value.url == url
            && |r.value.text| >= MinArticleLength
            && WithoutSpaces(r.value.text) == WithoutSpaces(Join(SelectParagraphs(page.value), "\n\n"))
            && NoAdjacentSpaces(r.value.text)
            && (r.value.title.None? <==> page.value.ogTitle == "" && page.value.titleText == "" && page.value.h1Text == "")
            && (r.value.title.Some? ==> r.value.title.value != "")
            && (page.value.ogTitle != "" ==> r.value.title == Some(page.value.ogTitle))
            && (r.value.publishedAt.None? <==>
                  page.value.publishedTime == "" && page.value.pubdate == "" && page.value.publishDate == "")
            && (page.value.publishedTime != "" ==> r.value.publishedAt == Some(page.value.publishedTime)))
  {
    if page.Some? {
      var ps := SelectParagraphs(page.value);
      ArticleTextShape(ps);
      var ts := [page.value.ogTitle, page.value.titleText, page.value.h1Text];
      var ds := [page.value.publishedTime, page.value.pubdate, page.value.publishDate];
      assert ts[0] == page.value.ogTitle && ts[1] == page.value.titleText && ts[2] == page.value.h1Text;
      assert ds[0] == page.value.publishedTime && ds[1] == page.value.pubdate && ds[2] == page.value.publishDate;
    }
  }

  /** Lines 119-199 with their I/O left out. */
  method FetchArticle(url: string, page: Option<Dom>) returns (r: Option<RawArticle>)
    ensures r == ArticleOf(url, page)
  {
    if page.None? {
      return None;
    }
    var dom := page.value;
    var title := FirstNonEmpty([dom.ogTitle, dom.titleText, dom.h1Text]);
    var paragraphs := CollectParagraphs(dom);
    var text := Trim(CollapseSpaces(Join(paragraphs, "\n\n")));
    if |text| == 0 || |text| < MinArticleLength {
      return None;
    }
    var publishedAt := FirstNonEmpty([dom.publishedTime, dom.pubdate, dom.publishDate]);
    return Some(RawArticle(url, title, publishedAt, text));
  }

  const HtmlEnd := "</html>"

  /** Lines 105-117: `input` cut just after the first `</html>`, or unchanged when it has none. */
  function SanitizeHtml(input: string): (r: string)
    ensures IndexOf(input, HtmlEnd) == -1 ==> r == input
    ensures IndexOf(input, HtmlEnd) != -1 ==>
      && r <= input
      && |r| >= |HtmlEnd| && r[|r| - |HtmlEnd|..] == HtmlEnd
      && forall j :: 0 <= j < |r| - |HtmlEnd| ==> !OccursAt(r, HtmlEnd, j)
  {
    var k := IndexOf(input, HtmlEnd);
    if k == -1 then input
    else
      var r := input[..k + |HtmlEnd|];
      forall j | 0 <= j < k ensures !OccursAt(r, HtmlEnd, j) {
        assert r[j..j + |HtmlEnd|] == input[j..j + |HtmlEnd|];
        assert !OccursAt(input, HtmlEnd, j);
      }
      r
  }

  /** Sanitizing twice is sanitizing once. */
  lemma SanitizeHtmlIdempotent(input: string)
    ensures SanitizeHtml(SanitizeHtml(input)) == SanitizeHtml(input)
  {
    var k := IndexOf(input, HtmlEnd);
    if k != -1 {
      var r := SanitizeHtml(input);
      assert OccursAt(r, HtmlEnd, k);
      assert forall j :: 0 <= j < k ==> !OccursAt(r, HtmlEnd, j);
      assert IndexOf(r, HtmlEnd) == k;
    }
  }
}
