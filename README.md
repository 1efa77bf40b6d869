# rag-backend ingestion and retrieval core, in Dafny

rag-backend is a retrieval-augmented chat backend for news. It is made of two halves.

The **ingestion** half (`IngestionService.run`) does, in order:

1. reads a list of news feeds (sitemap indexes, Atom feeds or urlsets);
2. collects and de-duplicates the article urls;
3. downloads each article and extracts its text, title and publication date;
4. cuts every text into chunks of at most 500 characters;
5. embeds the chunks in batches;
6. stores them as points in a Qdrant collection, creating the collection on the first batch if it does not exist.

The **chat** half:

- searches the collection;
- lays the retrieved passages out in a prompt within a character budget (`buildPrompt`);
- keeps each chat session's message history in a key-value store (`SessionRepository`).

This project models that core and proves properties of the model. It contains one module per source file:

| file | module | models |
|---|---|---|
| `chunker.dfy` | `Chunker` | `chunkArticleText` (src/ingestion/chunkText.ts) as a loop, against the specification function `Chunks` |
| `feeds.dfy` | `Feeds` | `fetchFeedUrls` (src/ingestion/fetchNews.ts) as mutually recursive methods with loops, against `FeedUrls` |
| `article.dfy` | `Article` | the extraction part of `fetchArticle` over the results of its DOM queries, and `sanitizeHtml` |
| `prompt.dfy` | `Prompt` | `buildPrompt` (src/services/prompt.service.ts) as a loop, against the predicate `Greedy` |
| `vectorstore.dfy` | `VectorStore` | the class `QdrantRepository`, whose fields are the database's collections and the log of client requests |
| `session.dfy` | `Session` | the class `SessionRepository`, whose field is the key-value store |
| `ingestion.dfy` | `Ingestion` | the class `IngestionService` and its `run`, stage by stage, each stage a loop against a specification function |
| `seqs.dfy`, `text.dfy`, `wrappers.dfy` | | the JavaScript sequence and string operations the core relies on, e.g. `Array.from(new Set(xs))`, `slice`, `trim` and the two regular-expression replacements, plus `Option` |

Where the process talks to the outside world, it is modelled by parameters:

- reading a feed;
- loading a page;
- the embedder;
- whether the database's existence check errs.

Three places where the code does less than its own names and types promise (the `overlap` parameter, the `{url, lastmod}` record type and the `lastmod` argument); the model follows the code:

- **Chunk overlap.** chunkText.ts:48 sets the next start to `Math.max(end - overlap, end)`. This is `end` for every non-negative overlap, so consecutive chunks never overlap, despite the `overlap` parameter (`Chunker.WindowsNeverOverlap`).
- **Feed record type.** ingestion.service.ts:27 types the collected urls as records `{url, lastmod}`, but `fetchFeedUrls` returns plain strings (fetchNews.ts:14). The model keeps the record type the service states, and makes reading a feed a parameter of that type.
- **`lastmod` is dropped.** ingestion.service.ts:48 passes `lastmod` to `fetchArticle`, which takes only the url (fetchNews.ts:119), so `lastmod` has no effect.

## Model

The project verifies as a whole with `dafny verify *.dfy`.


| member | source | states |
|---|---|---|
| Chunker.CleanText | src/ingestion/chunkText.ts:12 | the cleaned text is no longer than the input, has no two newlines in a row, keeps every non-space character of the input in order, neither starts nor ends with white space, and is empty exactly when the input is all white space |
| Chunker.LastSentenceEnd | src/ingestion/chunkText.ts:21-25 | the result is the last position of `.`, `?` or `!`, or -1 if there is none |
| Chunker.WindowEnd | src/ingestion/chunkText.ts:17-34 | a window's end lies after its start, spans at most `maxChars`, and is the end of the text when the text ends within `maxChars` |
| Chunker.WindowEndSnaps | src/ingestion/chunkText.ts:19-34 | a window that does not reach the end of the text ends just after the last sentence end of its second half if there is one; otherwise at the last space of its second half if there is one; otherwise it is cut at `maxChars` |
| Chunker.CutWindow | src/ingestion/chunkText.ts:17-34 | the imperative window cut computes `WindowEnd` |
| Chunker.NextStart | src/ingestion/chunkText.ts:48-49 | the next start is never before the previous end, and equals it for every non-negative overlap |
| Chunker.Windows | src/ingestion/chunkText.ts:16-51 | the windows lie in the text, start at the given position, are non-empty and at most `maxChars` long, and each starts where `NextStart` puts it after the one before |
| Chunker.WindowsNeverOverlap | src/ingestion/chunkText.ts:48 | no two windows overlap, whatever the overlap argument |
| Chunker.WindowsPartition | src/ingestion/chunkText.ts:16-51 | for a non-negative overlap, the windows together cover the cleaned text exactly, in order |
| Chunker.LongTexts | src/ingestion/chunkText.ts:36-37 | only trimmed window texts longer than 50 characters are kept |
| Chunker.LongTextsAtMost | src/ingestion/chunkText.ts:36 | a kept text is no longer than its window |
| Chunker.Number | src/ingestion/chunkText.ts:38-46 | the `k`-th chunk carries the `k`-th text, chunk index `idx + k`, a fresh id, and the article's url, title and date |
| Chunker.ChunksAreLongWindowTexts | src/ingestion/chunkText.ts:16-51 | the chunks are exactly the windows' long trimmed texts, numbered in order |
| Chunker.ChunksFacts | src/ingestion/chunkText.ts:36-47 | chunks have 51 to `maxChars` characters, indexes 0, 1, ..., consecutive ids, and the article's url, title and date; an all-space text has no chunks |
| Chunker.ChunkArticleText | src/ingestion/chunkText.ts:4-54 | the loop returns `Chunks(...)`, and its result is well formed as in `ChunksFacts` |
| Feeds.NonEmpty | src/ingestion/fetchNews.ts:22-24 | keeps exactly the non-empty locations |
| Feeds.SitemapLocations | src/ingestion/fetchNews.ts:21-24 | the loop computes `NonEmpty` |
| Feeds.AtomCollect | src/ingestion/fetchNews.ts:45-56 | extends the list with hrefs of the entries only, and stops at the first entry past the cap |
| Feeds.AtomStopsAtTextLink | src/ingestion/fetchNews.ts:45-56 | an entry whose `link[0].$` is undefined throws, and the caught error ends the Atom loop: nothing after it is collected |
| Feeds.CollectAtom | src/ingestion/fetchNews.ts:45-56 | the Atom loop computes `AtomCollect` |
| Feeds.UrlsetCollect | src/ingestion/fetchNews.ts:59-68 | extends the same list with non-empty locations only, and stops at the first one that reaches the cap |
| Feeds.CollectUrlset | src/ingestion/fetchNews.ts:59-68 | the urlset loop computes `UrlsetCollect` |
| Feeds.FeedUrls | src/ingestion/fetchNews.ts:11-72 | a successful result has no duplicates and at most `max` urls |
| Feeds.FeedUrlsFromSources | src/ingestion/fetchNews.ts:11-72 | every url returned is an href or location of the feed, or of a sitemap nested in it |
| Feeds.FeedUrlsKeepFirstOccurrences | src/ingestion/fetchNews.ts:38-71 | the result is the collected urls in order of first occurrence; a collected url is missing only when `max` urls were returned, and then it first occurs after every returned one |
| Feeds.NestedSkipsFailures | src/ingestion/fetchNews.ts:27-37 | a nested sitemap that throws is skipped and contributes nothing |
| Feeds.NestedStopsAtCap | src/ingestion/fetchNews.ts:31 | once `max` urls are collected, the sitemaps after it are not read |
| Feeds.NestedBound | src/ingestion/fetchNews.ts:27-37 | the nested loop collects fewer than `2 * max` urls before de-duplication |
| Feeds.FetchNested | src/ingestion/fetchNews.ts:26-37 | the nested loop computes `NestedUrls` |
| Feeds.FetchFeedUrls | src/ingestion/fetchNews.ts:11-72 | the method's result is `FeedUrls`, or None when it throws |
| Article.Kept | src/ingestion/fetchNews.ts:154-157 | every kept paragraph is longer than 30 characters |
| Article.KeptSingle | src/ingestion/fetchNews.ts:154-157 | one paragraph is kept, as its trimmed text, exactly when that text is longer than 30 characters |
| Article.KeptAppend | src/ingestion/fetchNews.ts:154-157 | the paragraphs of consecutive lists are kept list by list, so input order is kept |
| Article.KeptFromInput | src/ingestion/fetchNews.ts:154-157 | every kept paragraph is the trimmed text of some input paragraph |
| Article.KeptAllLong | src/ingestion/fetchNews.ts:154-171 | every paragraph that is long after trimming is kept; none is kept exactly when all are short |
| Article.PushLong | src/ingestion/fetchNews.ts:154-157 | the `each` loop appends `Kept(raw)` |
| Article.SelectParagraphs | src/ingestion/fetchNews.ts:150-172 | uses the `article p` paragraphs when any is kept; otherwise the `main p, section p` ones when any is kept; otherwise every `p`; the result is empty exactly when all three keep nothing |
| Article.CollectParagraphs | src/ingestion/fetchNews.ts:150-175 | the three fallbacks compute `SelectParagraphs` |
| Article.ArticleTextShape | src/ingestion/fetchNews.ts:177-180 | the text keeps every non-space character of the joined paragraphs, has no two spaces in a row, starts and ends with a non-space, and its words are the paragraphs' words, paragraph after paragraph |
| Article.ArticleTextWords | src/ingestion/fetchNews.ts:177-180 | the words of the article text are those of the kept paragraphs, one paragraph after another: joining with blank lines, collapsing and trimming neither merge, split nor lose a word |
| Article.FirstNonEmpty | src/ingestion/fetchNews.ts:143-147 | the first non-empty candidate, or none when all are empty |
| Article.ArticleOfFacts | src/ingestion/fetchNews.ts:119-199 | an article exists exactly when a page loaded and its text is at least 200 characters; it keeps the url, a title from `og:title`, `title` or `h1` and a date from the three meta tags, in that order of preference |
| Article.FetchArticle | src/ingestion/fetchNews.ts:119-199 | the method returns `ArticleOf(url, page)` |
| Article.SanitizeHtml | src/ingestion/fetchNews.ts:105-117 | an input without `</html>` is returned unchanged; otherwise the result is the prefix ending at the first `</html>` |
| Article.SanitizeHtmlIdempotent | src/ingestion/fetchNews.ts:105-117 | sanitizing twice is sanitizing once |
| Prompt.SectionLines | src/services/prompt.service.ts:27-30 | read line by line, a section is the id line, then the title line and the url line, each showing N/A when the passage lacks the field, then the indented text and a blank line; the section ends with the text and two line feeds |
| Prompt.GreedyUnique | src/services/prompt.service.ts:26-41 | the number of passages the greedy rule takes is determined |
| Prompt.BuildPrompt | src/services/prompt.service.ts:17-49 | `included` is the longest prefix of the passages each of whose steps fits the budget, stopping at the first that does not; the prompt is the header, their sections and the question |
| Prompt.PromptOvershoot | src/services/prompt.service.ts:32-46 | the final prompt is 32 characters longer than the string measured, so it may exceed `maxChars` by up to 32 |
| VectorStore.EnsureFacts | src/repositories/qdrant/qdrant.repository.ts:17-27 | the existence check comes first; a create is sent exactly when the check errs or the collection is missing; a new collection gets the vector size and cosine distance; other collections are untouched; a collection that is found is left as it is, after a single existence check |
| VectorStore.EnsureTwiceCreatesOnce | src/repositories/qdrant/qdrant.repository.ts:17-27 | ensuring twice with a working check creates the collection at most once, and the second call changes nothing |
| VectorStore.UpsertCalls | src/repositories/qdrant/qdrant.repository.ts:33-43 | one upsert with `wait` per batch, in order |
| VectorStore.UpsertBatching | src/repositories/qdrant/qdrant.repository.ts:29-44 | points go out in ceil(n / 64) upserts; all but the last hold 64 points; together they send every point once, in order; no points means no request |
| VectorStore.UpsertOf130 | src/repositories/qdrant/qdrant.repository.ts:32-43 | 130 points go out as 64, 64 and 2 |
| VectorStore.QdrantRepository.EnsureCollection | src/repositories/qdrant/qdrant.repository.ts:17-27 | the collections and request log change as `Ensure` says |
| VectorStore.QdrantRepository.UpsertPoints | src/repositories/qdrant/qdrant.repository.ts:29-44 | the batch loop appends `UpsertCalls` of the 64-point batches to the log, and leaves the collections unchanged |
| VectorStore.QdrantRepository.Search | src/repositories/qdrant/qdrant.repository.ts:45-52 | one search request with payloads is logged, and the client's hits are returned unchanged |
| Session.Apply | src/repositories/redis/session.repositories.ts:7-29 | create sets an empty history, save appends the message to what `getHistory` reads, clear deletes the key, and other sessions are untouched |
| Session.SessionsIndependent | src/repositories/redis/session.repositories.ts:7-29 | a session's history depends only on the operations on that session |
| Session.ResetsSomewhere | src/repositories/redis/session.repositories.ts:7-29 | `Resets` holds exactly when some operation is a create or a clear |
| Session.HistoryIsSavesSinceReset | src/repositories/redis/session.repositories.ts:7-29 | a session's history is the messages saved since its last create or clear, or, with neither, those saved on top of the history it started with |
| Session.SessionRepository.CreateSession | src/repositories/redis/session.repositories.ts:7-9 | the store becomes `Apply(store, Create(id))` |
| Session.SessionRepository.SaveMessage | src/repositories/redis/session.repositories.ts:11-20 | the read-append-write sequence leaves the store as `Apply(store, Save(id, m))` |
| Session.SessionRepository.GetHistory | src/repositories/redis/session.repositories.ts:22-25 | the stored history, or `[]` for an unknown session |
| Session.SessionRepository.ClearSession | src/repositories/redis/session.repositories.ts:27-29 | the store becomes `Apply(store, Clear(id))` |
| Seqs.Distinct | src/ingestion/fetchNews.ts:38 | the result has no duplicates and the same elements as the input, and is no longer |
| Seqs.DistinctKeepsFirstOccurrenceOrder | src/ingestion/fetchNews.ts:71 | elements appear in order of their first occurrence, as a JavaScript Set iterates |
| Seqs.Take | src/ingestion/fetchNews.ts:71 | `slice(0, n)`: the first `min(n, len)` elements, without duplicates if the input has none |
| Seqs.Batches | src/repositories/qdrant/qdrant.repository.ts:33-34 | slices of 1 to `b` elements, all but the last full, concatenating back to the input |
| Seqs.BatchesCount | src/services/ingestion.service.ts:86-88 | there are ceil(len / b) batches |
| Text.TrimSlice | src/ingestion/chunkText.ts:12 | `trim()` removes only white space, from both ends |
| Text.TrimEnds | src/ingestion/chunkText.ts:12 | a trimmed non-empty string starts and ends with a non-space |
| Text.TrimEmpty | src/ingestion/chunkText.ts:12 | a string trims to empty exactly when it is all white space |
| Text.CollapseNewlines | src/ingestion/chunkText.ts:12 | `replace(/\n{2,}/g, "\n")`: no two newlines in a row, only newlines removed, every non-space character kept, first character kept |
| Text.CollapseNewlinesAppend | src/ingestion/chunkText.ts:12 | the replacement works independently on either side of a character other than a newline |
| Text.CollapseNewlinesRun | src/ingestion/chunkText.ts:12 | a maximal run of one or more newlines becomes exactly one newline |
| Text.AllSpaceKept | src/ingestion/chunkText.ts:12 | the replacement leaves a text all white space exactly when it was |
| Text.TrimKeepsNonSpaces | src/ingestion/chunkText.ts:12 | `trim()` keeps every non-space character |
| Text.CollapseSpaces | src/ingestion/fetchNews.ts:179 | `replace(/\s{2,}/g, " ")`: no two spaces in a row, every non-space kept, the first character a space exactly when the input's is |
| Text.CollapseSpacesAppend | src/ingestion/fetchNews.ts:179 | the replacement works independently on either side of a non-space character |
| Text.CollapseSpacesRun | src/ingestion/fetchNews.ts:179 | a maximal white-space run becomes one space when it has two or more characters, and stays as it is when it has one |
| Text.CollapseSpacesFixed | src/ingestion/fetchNews.ts:179 | a text with no two white-space characters in a row is left unchanged |
| Text.CollapseSpacesIdempotent | src/ingestion/fetchNews.ts:179 | collapsing twice is collapsing once |
| Text.Words | src/ingestion/fetchNews.ts:179 | the maximal runs of non-space characters: each word is non-empty and has no white space |
| Text.CollapseSpacesWords | src/ingestion/fetchNews.ts:179 | collapsing keeps the words exactly |
| Text.TrimWords | src/ingestion/fetchNews.ts:180 | `trim()` keeps the words exactly |
| Text.WordsOfJoin | src/ingestion/fetchNews.ts:177 | `join("\n\n")` gives the parts' words, part after part |
| Text.IndexOf | src/ingestion/fetchNews.ts:107 | `indexOf`: the first occurrence, or -1 when there is none |
| Ingestion.FailingFeedContributesNothing | src/services/ingestion.service.ts:29-33 | a feed that throws is skipped; it adds no records and the feeds after it are still read |
| Ingestion.ContributedAppend | src/services/ingestion.service.ts:28-36 | records from feeds read one after another are concatenated in feed order |
| Ingestion.TriedFacts | src/services/ingestion.service.ts:28-36 | the feed loop reads feeds until the records reach `max` or the feeds run out, and never stops earlier |
| Ingestion.GatherUrls | src/services/ingestion.service.ts:27-36 | the loop reads `Tried` feeds and collects the records they contribute |
| Ingestion.LastOfIndex | src/services/ingestion.service.ts:39 | a Map built from the records holds a url exactly when a record carries it, and then the last such record |
| Ingestion.MapStep | src/services/ingestion.service.ts:39 | setting the next record keeps a new key at the end and overwrites the value of an existing one |
| Ingestion.MapValues | src/services/ingestion.service.ts:39 | the Map's values in key order are `Deduped(records)` |
| Ingestion.UniqueUrls | src/services/ingestion.service.ts:38-40 | the Map-and-slice code returns the first `max` records of `Deduped` |
| Ingestion.UniqueFacts | src/services/ingestion.service.ts:38-40 | at most `max` records, with distinct urls: the distinct urls of the input, in order |
| Ingestion.UniqueOrder | src/services/ingestion.service.ts:38-40 | the urls come in the order of their first occurrence |
| Ingestion.UniqueLatest | src/services/ingestion.service.ts:38-40 | each record kept is the last record with its url |
| Ingestion.UniqueKeepsEveryUrl | src/services/ingestion.service.ts:38-40 | every collected url is kept unless the cut to `max` dropped it |
| Ingestion.ArticlesAppend | src/services/ingestion.service.ts:45-53 | the articles of consecutive record lists are concatenated in order |
| Ingestion.ArticlesFacts | src/services/ingestion.service.ts:45-53 | at most one article per record, each with a record's url and at least 200 characters of text |
| Ingestion.FetchArticles | src/services/ingestion.service.ts:45-53 | the loop collects `Articles(records)` |
| Ingestion.AllChunksFacts | src/services/ingestion.service.ts:57-69 | chunks of all articles are numbered 0, 1, ... across articles, so ids are unique; each has 51 to 500 characters and an article's url |
| Ingestion.ChunkAll | src/services/ingestion.service.ts:57-69 | the loop collects `AllChunks(articles)` |
| Ingestion.EmbedRequests | src/services/ingestion.service.ts:82-90 | the embedder gets ceil(n / b) requests of at most `b` texts, all but the last full, together holding every chunk's text once, in order |
| Ingestion.PointsAligned | src/services/ingestion.service.ts:95-107 | the `k`-th point has the `k`-th chunk's id and a payload copied from it |
| Ingestion.PointsHaveVectors | src/services/ingestion.service.ts:95-107 | there is one point per chunk, and the `j`-th point of batch `i` has that chunk's id and exactly the `j`-th vector the embedder returned for batch `i`, or none when the embedder returned fewer |
| Ingestion.PointOfBatch | src/services/ingestion.service.ts:95-107 | the point of chunk `j` of batch `i` sits at that chunk's position in the flattened chunks and carries the chunk's id and vector |
| Ingestion.FirstEnsureIs | src/services/ingestion.service.ts:82-94 | the collection ensured is the one the first batch's embedding says |
| Ingestion.Values | src/services/ingestion.service.ts:38-40 | `Array.from(map.values())`: one value per key, the `j`-th the Map's entry for the `j`-th key |
| Ingestion.FromIsBatches | src/services/ingestion.service.ts:82-108 | the loop's `i += b` iteration sends and assembles what the batches of the chunks give |
| Ingestion.PushPoints | src/services/ingestion.service.ts:95-107 | the inner loop appends the batch's points |
| Ingestion.IngestionService.EnsureForBatch | src/services/ingestion.service.ts:92-94 | `ensureCollection` is called only when the batch's embedding has a vector, with that vector's length |
| Ingestion.IngestionService.EmbedChunks | src/services/ingestion.service.ts:76-108 | the collection is ensured as the first batch says; unless that throws, the requests and points are those of the batches; if it throws, only the first request was sent |
| Ingestion.RunChunksFacts | src/services/ingestion.service.ts:24-74 | a run indexes chunks of at most `max` articles, numbered 0, 1, ..., each 51 to 500 characters long and from the url of a collected record |
| Ingestion.IngestionService.Run | src/services/ingestion.service.ts:24-114 | no chunks: nothing is sent to the database. Otherwise the collection is ensured; unless that throws, every point is upserted in 64-point batches after it, and the run ends as indexed |

Functions that only define the model and carry no contract of their own are characterised by the lemma and method rows that cite the same lines: `Chunker.Chunks` by `ChunksAreLongWindowTexts` and `ChunksFacts`; `Article.ArticleText` by `ArticleTextShape` and `ArticleTextWords`; `Article.ArticleOf` by `ArticleOfFacts`; `Prompt.Section` by `SectionLines`; `Prompt.PromptText` and `Prompt.Measured` by `BuildPrompt` and `PromptOvershoot`; `VectorStore.Ensure` by `EnsureFacts` and `EnsureTwiceCreatesOnce`; `Ingestion.Deduped` by `MapValues`, `UniqueFacts`, `UniqueOrder`, `UniqueLatest` and `UniqueKeepsEveryUrl`; `Ingestion.Articles` by `ArticlesFacts` and `ArticlesAppend`; `Ingestion.AllChunks` by `AllChunksFacts`; `Ingestion.PointsFor` by `PointsAligned` and `PointsHaveVectors`; `Ingestion.RunChunks` by `RunChunksFacts`; `Ingestion.FirstEnsure` by `FirstEnsureIs`.

## Left out

- Network, database and HTTP I/O, the XML parser and the DOM library. These are replaced by parameters:
  - feeds: a map from url to parsed document;
  - pages: the results of the DOM queries;
  - the embedder: a function from texts to vectors;
  - the existence check's error: a flag.
- The Redis TTL (`EX`, 24 hours) and the JSON encoding of histories. No expiry is modelled, and histories are stored as sequences. A JSON round trip is assumed to be the identity.
- `uuidv4()`. It is replaced by a counter: each chunk gets the next natural number, and the service passes the count of chunks so far. Fresh uuids are distinct with overwhelming probability; the counter makes that exact.
- Feeds.FeedUrls: a sitemap index that lists itself makes the source recurse without end. The model bounds nesting with a `fuel` parameter, and a fetch with no fuel left behaves as one that throws.
- Feeds.FetchFeedUrls: `max` is a `nat`. `slice(0, max)` with a negative `max` is not modelled.
- The catch at fetchNews.ts:40-42 can never be reached, because nothing in that block throws on a parsed document. It is not modelled.
- `fetchArticleHtml` and the `typeof` check of fetchNews.ts:120-130. A page that fails to load, or one without HTML, is the `None` page. `fetchArticle` then never throws, so the skip branch at ingestion.service.ts:50-52 never runs.
- A throw from `cheerio.load`, and the catch at fetchNews.ts:173-175. DOM queries over a loaded page do not throw here.
- Article.SanitizeHtml is modelled and proved, but nothing in the core calls it.
- String lengths count Dafny characters, which are UTF-16 code units only for text without surrogate pairs.
- `\s` and `trim()` are modelled with ASCII white space (tab, line feed, vertical tab, form feed, carriage return, space). The Unicode space characters are not modelled.
- Vector numbers, cosine ranking and search scores. `Search` returns the client's hits unchanged.
- The embedder's failures. An `embedTexts` error ends the source's run with a rejected promise, but the model's embedder always answers.
  - Ingestion.IngestionService.Run: covers only a failing `ensureCollection`. That failure ends the run as `Aborted`.
- Upsert failures are not modelled: every `upsert` succeeds.
- A `createCollection` for a collection that exists is modelled as failing. That case arises only when the existence check erred.
- Environment variables. `RSS_FEEDS`, `INGEST_MAX_ARTICLES`, `EMBED_BATCH_SIZE`, the Qdrant URL, the API key and the collection name are parameters; their defaults are constants. The parsing of these variables is not modelled, so `parseInt` returning NaN is not modelled. The batch size must be at least 1, because the source's loop does not terminate for 0.
- Chunker.Chunks and Chunker.ChunkArticleText require `maxChars >= 1`. For `maxChars <= 0` and a non-negative overlap, the source's window loop (chunkText.ts:16-51) never gets past its start and does not terminate. When `maxChars - overlap > 0` it advances over empty windows and returns no chunks; that case is not modelled either.
- Console logging and the progress messages.
- Concurrency is left out: every `await` is taken as sequential.
- Ingestion.IngestionService.Run: its contract is stated up to `RunChunks` and `FirstEnsure`. These are functions of the inputs; they depend on the feeds, pages and embedder, which are parameters. The service object's own construction of a `QdrantRepository` is replaced by passing one in.
