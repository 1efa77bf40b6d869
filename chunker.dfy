/** `chunkArticleText` in src/ingestion/chunkText.ts: cut an article's text into windows of at
    most `maxChars` characters, each snapped back to a sentence end or a space when it is cut
    early, and keep every trimmed window longer than 50 characters as a chunk. */
module Chunker {
  import opened Wrappers
  import opened Seqs
  import opened Text

  /** A chunk's id. The source draws a fresh uuid for every chunk; the model draws fresh
      numbers from a counter that the caller supplies. */
  type ChunkId = nat

  datatype ArticleChunk = ArticleChunk(
    id: ChunkId,
    sourceUrl: string,
    title: Option<string>,
    publishedAt: Option<string>,
    chunkIndex: nat,
    text: string)

  /** A chunk is kept only when its trimmed text is longer than this. */
  const MinChunkLength := 50

  /** The default window size and overlap of the source's signature. */
  const DefaultMaxChars := 500
  const DefaultOverlap := 100

  /** The text the windows are cut from: runs of line feeds collapsed to one, then trimmed. */
  function CleanText(text: string): (r: string)
    ensures |r| <= |text|
    ensures NoRepeatedNewline(r)
    ensures WithoutSpaces(r) == WithoutSpaces(text)
    ensures r != [] ==> !IsSpace(r[0]) && !IsSpace(r[|r| - 1])
    ensures r == [] <==> AllSpace(text)
  {
    var c := CollapseNewlines(text);
    TrimEmpty(c);
    CleanTextFacts(text, c, Trim(c));
    Trim(c)
  }

  lemma CleanTextFacts(text: string, c: string, r: string)
    requires c == CollapseNewlines(text) && r == Trim(c)
    ensures NoRepeatedNewline(r)
    ensures WithoutSpaces(r) == WithoutSpaces(text)
    ensures r != [] ==> !IsSpace(r[0]) && !IsSpace(r[|r| - 1])
    ensures r == [] <==> AllSpace(text)
  {
    TrimSlice(c);
    NoRepeatedNewlineSlice(c, TrimOffset(c), TrimOffset(c) + |r|);
    CleanTextKeeps(text, c, r);
  }

  lemma CleanTextKeeps(text: string, c: string, r: string)
    requires c == CollapseNewlines(text) && r == Trim(c)
    ensures WithoutSpaces(r) == WithoutSpaces(text)
    ensures r != [] ==> !IsSpace(r[0]) && !IsSpace(r[|r| - 1])
    ensures r == [] <==> AllSpace(text)
  {
    TrimKeepsNonSpaces(c);
    TrimEnds(c);
    TrimEmpty(c);
    AllSpaceKept(text);
  }

  predicate IsSentenceEnd(c: char) {
    c == '.' || c == '?' || c == '!'
  }

  /** `s.lastIndexOf(c)` for a one-character `c`: the last position holding `c`, or -1. */
  function LastIndexOf(s: string, c: char): (r: int)
    ensures -1 <= r < |s|
    ensures r >= 0 ==> s[r] == c
    ensures forall j :: r < j < |s| ==> s[j] != c
  {
    if s == [] then -1
    else if s[|s| - 1] == c then |s| - 1
    else LastIndexOf(s[..|s| - 1], c)
  }

  /** Lines 21-25: the largest of the last positions of '.', '?' and '!', that is, the last
      position holding any of the three, or -1. */
  function LastSentenceEnd(s: string): (r: int)
    ensures -1 <= r < |s|
    ensures r >= 0 ==> IsSentenceEnd(s[r])
    ensures forall j :: r < j < |s| ==> !IsSentenceEnd(s[j])
  {
    var dot, question, bang := LastIndexOf(s, '.'), LastIndexOf(s, '?'), LastIndexOf(s, '!');
    var m := if dot >= question then dot else question;
    if m >= bang then m else bang
  }

  /** How a window that is cut early ends, stated on the raw window `w`, the `maxChars`
      characters from the window's start, where `len` is the length the window gets. When a
      sentence end lies past the middle of `w`, the window ends just after the last one;
      otherwise, when a space lies past the middle, it ends at the last one; otherwise it is
      all of `w`. */
  ghost predicate SnapsCorrectly(w: string, len: nat)
    requires 0 < len <= |w|
  {
    var mid := |w| / 2;
    if exists p :: mid < p < |w| && IsSentenceEnd(w[p]) then
      mid < len - 1 && IsSentenceEnd(w[len - 1]) &&
      forall q :: len <= q < |w| ==> !IsSentenceEnd(w[q])
    else if exists p :: mid < p < |w| && w[p] == ' ' then
      mid < len < |w| && w[len] == ' ' &&
      forall q :: len < q < |w| ==> w[q] != ' '
    else
      len == |w|
  }

  /** Lines 17-34: where the window that starts at `start` ends. */
  function WindowEnd(clean: string, start: nat, maxChars: nat): (end: nat)
    requires start < |clean| && maxChars >= 1
    ensures start < end <= |clean| && end - start <= maxChars
    ensures start + maxChars >= |clean| ==> end == |clean|
  {
    var end := Min(start + maxChars, |clean|);
    if end < |clean| then
      var slice := clean[start..end];
      var lastPunc := LastSentenceEnd(slice);
      if lastPunc > |slice| / 2 then
        start + lastPunc + 1
      else
        var lastSpace := LastIndexOf(slice, ' ');
        if lastSpace > |slice| / 2 then
          start + lastSpace
        else
          end
    else end
  }

  /** A window cut early ends where SnapsCorrectly says. */
  lemma WindowEndSnaps(clean: string, start: nat, maxChars: nat)
    requires start < |clean| && maxChars >= 1 && start + maxChars < |clean|
    ensures SnapsCorrectly(clean[start..start + maxChars], WindowEnd(clean, start, maxChars) - start)
  {
  }

  /** Lines 48-49 as written: `Math.max(end - overlap, end)`, then clamped at 0. The maximum
      is never below `end`, so the next window never starts before this one ends, and for a
      non-negative overlap it starts exactly there. */
  function NextStart(end: nat, overlap: int): (next: int)
    ensures next >= end
    ensures overlap >= 0 ==> next == end
  {
    var m := if end - overlap >= end then end - overlap else end;
    if m < 0 then 0 else m
  }

  datatype Window = Window(start: nat, end: nat)

  /** Each window after the first starts at NextStart of the previous window's end. */
  predicate Chained(ws: seq<Window>, overlap: int) {
    |ws| <= 1 || (ws[1].start == NextStart(ws[0].end, overlap) && Chained(ws[1..], overlap))
  }

  /** The windows the loop of lines 16-51 visits, starting at `start`: each window ends where
      WindowEnd puts it, so it is non-empty and at most `maxChars` long; only the last one
      reaches the end of the text, and with a non-negative overlap the last one does. */
  function Windows(clean: string, maxChars: nat, overlap: int, start: nat): (ws: seq<Window>)
    requires maxChars >= 1
    ensures start < |clean| <==> ws != []
    ensures ws != [] ==> ws[0].start == start
    ensures forall k :: 0 <= k < |ws| ==>
      start <= ws[k].start < ws[k].end <= |clean| && ws[k].end - ws[k].start <= maxChars
    ensures Chained(ws, overlap)
    decreases |clean| - start
  {
    if start >= |clean| then []
    else
      var end := WindowEnd(clean, start, maxChars);
      if end == |clean| then [Window(start, end)]
      else
        var rest := Windows(clean, maxChars, overlap, NextStart(end, overlap));
        var ws := [Window(start, end)] + rest;
        assert ws[1..] == rest;
        ws
  }

  /** The first window and the windows after it. */
  lemma WindowsUnfold(clean: string, maxChars: nat, overlap: int, start: nat)
    requires maxChars >= 1 && start < |clean|
    ensures var end := WindowEnd(clean, start, maxChars);
      Windows(clean, maxChars, overlap, start) ==
        [Window(start, end)] +
        (if end == |clean| then [] else Windows(clean, maxChars, overlap, NextStart(end, overlap)))
  {
  }

  /** Window `k + 1` starts at NextStart of the end of window `k`. */
  lemma {:induction false} ChainStep(ws: seq<Window>, overlap: int, k: nat)
    requires Chained(ws, overlap) && k + 1 < |ws|
    ensures ws[k + 1].start == NextStart(ws[k].end, overlap)
    decreases k
  {
    if k > 0 {
      ChainStep(ws[1..], overlap, k - 1);
      assert ws[1..][k - 1] == ws[k] && ws[1..][k] == ws[k + 1];
    }
  }

  /** In a chain of non-empty windows, a later window starts at or after an earlier one's end. */
  lemma {:induction false} ChainOrdered(ws: seq<Window>, overlap: int, j: nat, k: nat)
    requires Chained(ws, overlap) && j < k < |ws|
    requires forall i :: 0 <= i < |ws| ==> ws[i].start < ws[i].end
    ensures ws[j].end <= ws[k].start
    decreases k - j
  {
    ChainStep(ws, overlap, j);
    if j + 1 < k {
      ChainOrdered(ws, overlap, j + 1, k);
    }
  }

  /** Window `k + 1` starts at NextStart of the end of window `k`. */
  lemma WindowsNext(clean: string, maxChars: nat, overlap: int, k: nat)
    requires maxChars >= 1 && k + 1 < |Windows(clean, maxChars, overlap, 0)|
    ensures var ws := Windows(clean, maxChars, overlap, 0);
      ws[k + 1].start == NextStart(ws[k].end, overlap)
  {
    ChainStep(Windows(clean, maxChars, overlap, 0), overlap, k);
  }

  /** The windows never overlap, whatever `overlap` is: line 48 takes the maximum of
      `end - overlap` and `end`, so every later window starts at or after an earlier one's end. */
  lemma WindowsNeverOverlap(clean: string, maxChars: nat, overlap: int)
    requires maxChars >= 1
    ensures var ws := Windows(clean, maxChars, overlap, 0);
      forall j, k :: 0 <= j < k < |ws| ==> ws[j].end <= ws[k].start
  {
    var ws := Windows(clean, maxChars, overlap, 0);
    forall j, k | 0 <= j < k < |ws| ensures ws[j].end <= ws[k].start {
      ChainOrdered(ws, overlap, j, k);
    }
  }

  /** The text of window `w`, trimmed (a window outside the text, which the loop never
      visits, has none). */
  function WindowText(clean: string, w: Window): string {
    if w.start <= w.end <= |clean| then Trim(clean[w.start..w.end]) else []
  }

  /** The trimmed texts of the windows `ws` that are longer than 50 characters, in order. */
  function LongTexts(clean: string, ws: seq<Window>): (ts: seq<string>)
    ensures |ts| <= |ws|
    ensures forall k :: 0 <= k < |ts| ==> |ts[k]| > MinChunkLength
  {
    if ws == [] then []
    else
      var t := WindowText(clean, ws[0]);
      (if |t| > MinChunkLength then [t] else []) + LongTexts(clean, ws[1..])
  }

  /** One window yields its trimmed text exactly when that is longer than 50 characters. */
  lemma LongTextsSingle(clean: string, w: Window)
    ensures LongTexts(clean, [w]) ==
      (if |WindowText(clean, w)| > MinChunkLength then [WindowText(clean, w)] else [])
  {
    assert [w][1..] == [];
  }

  /** The long texts of consecutive runs of windows follow each other: every long window
      yields one text, in window order, and nothing else does. */
  lemma {:induction false} LongTextsAppend(clean: string, ws: seq<Window>, more: seq<Window>)
    ensures LongTexts(clean, ws + more) == LongTexts(clean, ws) + LongTexts(clean, more)
  {
    if ws == [] {
      assert ws + more == more;
    } else {
      var t := WindowText(clean, ws[0]);
      var head := if |t| > MinChunkLength then [t] else [];
      assert (ws + more)[0] == ws[0] && (ws + more)[1..] == ws[1..] + more;
      LongTextsAppend(clean, ws[1..], more);
      AppendAssoc(head, LongTexts(clean, ws[1..]), LongTexts(clean, more));
    }
  }

  /** When no window is longer than `m`, no long text is either: trimming only shortens. */
  lemma {:induction false} LongTextsAtMost(clean: string, ws: seq<Window>, m: nat)
    requires forall k :: 0 <= k < |ws| ==> ws[k].end - ws[k].start <= m
    ensures forall k :: 0 <= k < |LongTexts(clean, ws)| ==> |LongTexts(clean, ws)[k]| <= m
  {
    if ws != [] {
      var t := WindowText(clean, ws[0]);
      var rest := LongTexts(clean, ws[1..]);
      LongTextsAtMost(clean, ws[1..], m);
      var ts := LongTexts(clean, ws);
      assert ts == (if |t| > MinChunkLength then [t] else []) + rest;
      var d := if |t| > MinChunkLength then 1 else 0;
      forall k | 0 <= k < |ts| ensures |ts[k]| <= m {
        if k >= d {
          assert ts[k] == rest[k - d];
        }
      }
    }
  }

  /** Lines 38-46: the texts `ts` as chunks numbered from `idx` on, with ids drawn from the
      counter and the article's metadata. */
  function Number(ts: seq<string>, sourceUrl: string, title: Option<string>,
                  publishedAt: Option<string>, idx: nat, nextId: nat): (cs: seq<ArticleChunk>)
    ensures |cs| == |ts|
    ensures forall k :: 0 <= k < |cs| ==>
      cs[k] == ArticleChunk(nextId + idx + k, sourceUrl, title, publishedAt, idx + k, ts[k])
  {
    if ts == [] then []
    else [ArticleChunk(nextId + idx, sourceUrl, title, publishedAt, idx, ts[0])]
         + Number(ts[1..], sourceUrl, title, publishedAt, idx + 1, nextId)
  }

  /** The characters the windows `ws` cover, window after window (a window outside the text
      covers none). */
  function Covered(clean: string, ws: seq<Window>): string
  {
    if ws == [] then []
    else (if ws[0].start <= ws[0].end <= |clean| then clean[ws[0].start..ws[0].end] else [])
         + Covered(clean, ws[1..])
  }

  /** A window followed by windows that cover the text after it covers the text from its start. */
  lemma CoveredCons(clean: string, w: Window, rest: seq<Window>)
    requires w.start <= w.end <= |clean| && Covered(clean, rest) == clean[w.end..]
    ensures Covered(clean, [w] + rest) == clean[w.start..]
  {
    assert ([w] + rest)[1..] == rest;
    assert clean[w.start..] == clean[w.start..w.end] + clean[w.end..];
  }

  /** For a non-negative overlap the windows hold every character of the text from `start` on,
      in order, each once: they partition it with neither gap nor overlap. */
  lemma {:induction false} WindowsPartition(clean: string, maxChars: nat, overlap: int, start: nat)
    requires maxChars >= 1 && overlap >= 0 && start <= |clean|
    ensures Covered(clean, Windows(clean, maxChars, overlap, start)) == clean[start..]
    decreases |clean| - start
  {
    if start < |clean| {
      WindowsUnfold(clean, maxChars, overlap, start);
      var end := WindowEnd(clean, start, maxChars);
      if end < |clean| {
        WindowsPartition(clean, maxChars, overlap, end);
        CoveredCons(clean, Window(start, end), Windows(clean, maxChars, overlap, end));
      } else {
        CoveredCons(clean, Window(start, end), []);
      }
    }
  }

  /** Lines 17-34: the end of the window that starts at `start`, cut at `maxChars` characters
      and, when that is short of the end of the text, snapped back. */
  method CutWindow(cleanText: string, start: nat, maxChars: nat) returns (end: nat)
    requires start < |cleanText| && maxChars >= 1
    ensures end == WindowEnd(cleanText, start, maxChars)
  {
    end := Min(start + maxChars, |cleanText|);
    if end < |cleanText| {
      var slice := cleanText[start..end];
      var lastPunc := LastSentenceEnd(slice);
      if lastPunc > |slice| / 2 {
        end := start + lastPunc + 1;
      } else {
        var lastSpace := LastIndexOf(slice, ' ');
        if lastSpace > |slice| / 2 {
          end := start + lastSpace;
        }
      }
    }
  }

  /** The chunks the loop yields from the window at `start` on, numbered from `idx` on. */
  function ChunksFrom(clean: string, maxChars: nat, overlap: int, start: nat, sourceUrl: string,
                      title: Option<string>, publishedAt: Option<string>, idx: nat, nextId: nat): seq<ArticleChunk>
    requires maxChars >= 1
    decreases |clean| - start
  {
    if start >= |clean| then []
    else
      var end := WindowEnd(clean, start, maxChars);
      var t := Trim(clean[start..end]);
      var long := |t| > MinChunkLength;
      var rest := if end == |clean| then []
        else ChunksFrom(clean, maxChars, overlap, NextStart(end, overlap), sourceUrl, title, publishedAt,
                        if long then idx + 1 else idx, nextId);
      if long then [ArticleChunk(nextId + idx, sourceUrl, title, publishedAt, idx, t)] + rest else rest
  }

  /** One turn of the loop: the window at `start` yields its chunk, if long, before the rest. */
  lemma ChunksFromStep(clean: string, maxChars: nat, overlap: int, start: nat, sourceUrl: string,
                       title: Option<string>, publishedAt: Option<string>, idx: nat, nextId: nat,
                       done: seq<ArticleChunk>, all: seq<ArticleChunk>)
    requires maxChars >= 1 && start < |clean|
    requires done + ChunksFrom(clean, maxChars, overlap, start, sourceUrl, title, publishedAt, idx, nextId) == all
    ensures var end := WindowEnd(clean, start, maxChars);
      var t := Trim(clean[start..end]);
      var done' := if |t| > MinChunkLength then done + [ArticleChunk(nextId + idx, sourceUrl, title, publishedAt, idx, t)] else done;
      var idx' := if |t| > MinChunkLength then idx + 1 else idx;
      && (end == |clean| ==> done' == all)
      && (end < |clean| ==>
            done' + ChunksFrom(clean, maxChars, overlap, NextStart(end, overlap), sourceUrl, title, publishedAt, idx', nextId) == all)
  {
    var end := WindowEnd(clean, start, maxChars);
    var t := Trim(clean[start..end]);
    var idx' := if |t| > MinChunkLength then idx + 1 else idx;
    var later := if end == |clean| then []
      else ChunksFrom(clean, maxChars, overlap, NextStart(end, overlap), sourceUrl, title, publishedAt, idx', nextId);
    if |t| > MinChunkLength {
      AppendAssoc(done, [ArticleChunk(nextId + idx, sourceUrl, title, publishedAt, idx, t)], later);
    }
  }

  /** The loop's chunks are the long texts of its windows, numbered. */
  lemma {:induction false} ChunksFromIsNumbered(clean: string, maxChars: nat, overlap: int, start: nat,
                                                sourceUrl: string, title: Option<string>,
                                                publishedAt: Option<string>, idx: nat, nextId: nat)
    requires maxChars >= 1
    ensures ChunksFrom(clean, maxChars, overlap, start, sourceUrl, title, publishedAt, idx, nextId) ==
      Number(LongTexts(clean, Windows(clean, maxChars, overlap, start)), sourceUrl, title, publishedAt, idx, nextId)
    decreases |clean| - start
  {
    if start < |clean| {
      WindowsUnfold(clean, maxChars, overlap, start);
      var end := WindowEnd(clean, start, maxChars);
      var next := NextStart(end, overlap);
      var t := Trim(clean[start..end]);
      var idx' := if |t| > MinChunkLength then idx + 1 else idx;
      var ws := Windows(clean, maxChars, overlap, start);
      var rest := if end == |clean| then [] else Windows(clean, maxChars, overlap, next);
      assert ws[0] == Window(start, end) && ws[1..] == rest;
      var later := LongTexts(clean, rest);
      assert LongTexts(clean, ws) == (if |t| > MinChunkLength then [t] else []) + later;
      if end < |clean| {
        ChunksFromIsNumbered(clean, maxChars, overlap, next, sourceUrl, title, publishedAt, idx', nextId);
      }
      if |t| > MinChunkLength {
        var ts := [t] + later;
        assert ts[0] == t && ts[1..] == later;
      } else {
        assert LongTexts(clean, ws) == later;
      }
    }
  }

  /** What `chunkArticleText(text, sourceUrl, title, publishedAt, maxChars, overlap)` returns,
      when the chunk ids are drawn from `nextId` on. */
  function Chunks(text: string, sourceUrl: string, title: Option<string>, publishedAt: Option<string>,
                  maxChars: nat, overlap: int, nextId: nat): seq<ArticleChunk>
    requires maxChars >= 1
  {
    ChunksFrom(CleanText(text), maxChars, overlap, 0, sourceUrl, title, publishedAt, 0, nextId)
  }

  /** The chunks are the trimmed texts of the windows of the cleaned text that are longer than
      50 characters, in window order, numbered from 0. */
  lemma ChunksAreLongWindowTexts(text: string, sourceUrl: string, title: Option<string>,
                                 publishedAt: Option<string>, maxChars: nat, overlap: int, nextId: nat)
    requires maxChars >= 1
    ensures var clean := CleanText(text);
      Chunks(text, sourceUrl, title, publishedAt, maxChars, overlap, nextId) ==
      Number(LongTexts(clean, Windows(clean, maxChars, overlap, 0)), sourceUrl, title, publishedAt, 0, nextId)
  {
    ChunksFromIsNumbered(CleanText(text), maxChars, overlap, 0, sourceUrl, title, publishedAt, 0, nextId);
  }

  /** The chunks' indices are 0, 1, ..., n-1 and their ids the next n counter values from
      `nextId`; every text is longer than 50 and at most `maxChars` characters; every chunk
      carries the article's metadata unchanged. */
  predicate WellFormedChunks(cs: seq<ArticleChunk>, sourceUrl: string, title: Option<string>,
                             publishedAt: Option<string>, maxChars: nat, nextId: nat)
  {
    forall k :: 0 <= k < |cs| ==>
      && cs[k].chunkIndex == k && cs[k].id == nextId + k
      && MinChunkLength < |cs[k].text| <= maxChars
      && cs[k].sourceUrl == sourceUrl && cs[k].title == title && cs[k].publishedAt == publishedAt
  }

  /** The chunks are well formed, and a text that is empty or all whitespace yields none. */
  lemma ChunksFacts(text: string, sourceUrl: string, title: Option<string>, publishedAt: Option<string>,
                    maxChars: nat, overlap: int, nextId: nat)
    requires maxChars >= 1
    ensures WellFormedChunks(Chunks(text, sourceUrl, title, publishedAt, maxChars, overlap, nextId),
                             sourceUrl, title, publishedAt, maxChars, nextId)
    ensures AllSpace(text) ==> Chunks(text, sourceUrl, title, publishedAt, maxChars, overlap, nextId) == []
  {
    var clean := CleanText(text);
    var ws := Windows(clean, maxChars, overlap, 0);
    ChunksAreLongWindowTexts(text, sourceUrl, title, publishedAt, maxChars, overlap, nextId);
    LongTextsAtMost(clean, ws, maxChars);
  }

  /** Lines 4-54. The loop of lines 16-51 with the cursor `start`, the end `end` and the running
      chunk index `idx`; `nextId` is where the counter standing for `uuidv4()` starts. */
  method ChunkArticleText(text: string, sourceUrl: string, title: Option<string>,
                          publishedAt: Option<string>, maxChars: nat, overlap: int, nextId: nat)
    returns (chunks: seq<ArticleChunk>)
    requires maxChars >= 1
    ensures chunks == Chunks(text, sourceUrl, title, publishedAt, maxChars, overlap, nextId)
    ensures WellFormedChunks(chunks, sourceUrl, title, publishedAt, maxChars, nextId)
  {
    var cleanText := CleanText(text);
    ghost var all := Chunks(text, sourceUrl, title, publishedAt, maxChars, overlap, nextId);
    chunks := [];
    var start: int := 0;
    var idx: nat := 0;
    while start < |cleanText|
      invariant 0 <= start
      invariant chunks + ChunksFrom(cleanText, maxChars, overlap, start, sourceUrl, title, publishedAt, idx, nextId) == all
      decreases |cleanText| - start
    {
      var end := CutWindow(cleanText, start, maxChars);
      var chunkText := Trim(cleanText[start..end]);
      ChunksFromStep(cleanText, maxChars, overlap, start, sourceUrl, title, publishedAt, idx, nextId, chunks, all);
      if |chunkText| > MinChunkLength {
        chunks := chunks + [ArticleChunk(nextId + idx, sourceUrl, title, publishedAt, idx, chunkText)];
        idx := idx + 1;
      }
      start := if end - overlap >= end then end - overlap else end;
      if start < 0 {
        start := 0;
      }
      if end == |cleanText| {
        break;
      }
      assert start == NextStart(end, overlap);
    }
    ChunksFacts(text, sourceUrl, title, publishedAt, maxChars, overlap, nextId);
  }
}
