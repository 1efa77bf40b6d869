/** `buildPrompt` (src/services/prompt.service.ts:17-49): the passages retrieved for a question
    are laid out one section each under a header, as many leading ones as fit within a
    character budget, and the question follows. */
module Prompt {
  import opened Wrappers
  import opened Text

  /** The `metadata` of a passage: the title and source url it may carry (the other keys are
      not read). */
  datatype Metadata = Metadata(title: Option<string>, sourceUrl: Option<string>)

  /** `Passage` (lines 1-10); `score` is not read and is left out. */
  datatype Passage = Passage(id: string, text: string, metadata: Option<Metadata>)

  /** `PromptResult` (lines 12-15). */
  datatype PromptResult = PromptResult(prompt: string, included: seq<Passage>)

  const Header := "\n\n--- PASSAGES ---\n"
  const DefaultMaxChars := 15000

  /** `value ?? "N/A"`: an absent value renders as N/A, an empty one stays empty. */
  function OrNA(value: Option<string>): string {
    if value.Some? then value.value else "N/A"
  }

  function Title(p: Passage): Option<string> {
    if p.metadata.Some? then p.metadata.value.title else None
  }

  function SourceUrl(p: Passage): Option<string> {
    if p.metadata.Some? then p.metadata.value.sourceUrl else None
  }

  /** The first three lines of a passage's section (lines 27-29). */
  function IdLine(p: Passage): string {
    "=== PASSAGE id:" + p.id + " ==="
  }

  function TitleLine(p: Passage): string {
    "    Title: " + OrNA(Title(p))
  }

  function UrlLine(p: Passage): string {
    "    URL: " + OrNA(SourceUrl(p))
  }

  /** The parts of a template literal, one after another. */
  function Concat(parts: seq<string>): string {
    if parts == [] then "" else parts[0] + Concat(parts[1..])
  }

  /** Lines 27-30: the section of one passage, the template's line breaks and indentation
      included. */
  function Section(p: Passage): string {
    Concat(["=== PASSAGE id:", p.id, " ===\n    Title: ", OrNA(Title(p)), "\n    URL: ", OrNA(SourceUrl(p)),
            "\n    ", p.text, "\n\n"])
  }

  /** The section read line by line: the id line, then the title and the url, each shown as
      N/A when the passage lacks it; the passage's text closes the section, followed only by
      a blank line. (A field that itself holds a line feed spreads over several lines.) */
  lemma SectionLines(p: Passage)
    requires '\n' !in p.id
    requires Title(p).Some? ==> '\n' !in Title(p).value
    requires SourceUrl(p).Some? ==> '\n' !in SourceUrl(p).value
    ensures var s, ls := Section(p), Lines(Section(p));
      && |ls| >= 4
      && ls[0] == "=== PASSAGE id:" + p.id + " ==="
      && ls[1] == "    Title: " + (if Title(p).Some? then Title(p).value else "N/A")
      && ls[2] == "    URL: " + (if SourceUrl(p).Some? then SourceUrl(p).value else "N/A")
      && EndsWith(s, p.text + "\n\n")
      && ('\n' !in p.text ==> ls[3..] == ["    " + p.text, "", ""])
  {
    var rest := TextLines(p.text);
    SectionSplit(p);
    NoLineFeed("=== PASSAGE id:", p.id, " ===");
    NoLineFeed("    Title: ", OrNA(Title(p)), "");
    NoLineFeed("    URL: ", OrNA(SourceUrl(p)), "");
    LinesOfThree(IdLine(p), TitleLine(p), UrlLine(p), rest);
    TextEndsSection(IdLine(p), TitleLine(p), UrlLine(p), p.text);
    if '\n' !in p.text {
      TextLinesSplit(p.text);
    }
  }

  /** The text's line of a section and the blank line after it. */
  function TextLines(text: string): string {
    "    " + text + "\n\n"
  }

  lemma ConcatCons(a: string, rest: seq<string>)
    ensures Concat([a] + rest) == a + Concat(rest)
  {
    assert ([a] + rest)[1..] == rest;
  }

  lemma ConcatNine(a0: string, a1: string, a2: string, a3: string, a4: string, a5: string, a6: string,
                   a7: string, a8: string)
    ensures Concat([a0, a1, a2, a3, a4, a5, a6, a7, a8])
         == a0 + (a1 + (a2 + (a3 + (a4 + (a5 + (a6 + (a7 + a8)))))))
  {
    var r8 := [a8];
    var r7 := [a7] + r8;
    var r6 := [a6] + r7;
    var r5 := [a5] + r6;
    var r4 := [a4] + r5;
    var r3 := [a3] + r4;
    var r2 := [a2] + r3;
    var r1 := [a1] + r2;
    ConcatCons(a8, []);
    assert [a8] + [] == r8;
    ConcatCons(a7, r8);
    ConcatCons(a6, r7);
    ConcatCons(a5, r6);
    ConcatCons(a4, r5);
    ConcatCons(a3, r4);
    ConcatCons(a2, r3);
    ConcatCons(a1, r2);
    ConcatCons(a0, r1);
    assert [a0, a1, a2, a3, a4, a5, a6, a7, a8] == [a0] + r1;
  }

  /** Regrouping of the template's pieces at its line breaks. */
  lemma Regroup(h: string, id: string, e: string, n: string, tl: string, t: string, ul: string, u: string,
                ind: string, text: string, nn: string)
    ensures h + (id + ((e + n + tl) + (t + ((n + ul) + (u + ((n + ind) + (text + nn)))))))
         == (h + id + e) + n + ((tl + t) + n + ((ul + u) + n + (ind + text + nn)))
  {
  }

  lemma SectionSplit(p: Passage)
    ensures Section(p) == IdLine(p) + "\n" + (TitleLine(p) + "\n" + (UrlLine(p) + "\n" + TextLines(p.text)))
  {
    var t, u := OrNA(Title(p)), OrNA(SourceUrl(p));
    ConcatNine("=== PASSAGE id:", p.id, " ===\n    Title: ", t, "\n    URL: ", u, "\n    ", p.text, "\n\n");
    assert " ===\n    Title: " == " ===" + "\n" + "    Title: ";
    assert "\n    URL: " == "\n" + "    URL: ";
    assert "\n    " == "\n" + "    ";
    Regroup("=== PASSAGE id:", p.id, " ===", "\n", "    Title: ", t, "    URL: ", u, "    ", p.text, "\n\n");
  }

  lemma TextLinesSplit(text: string)
    requires '\n' !in text
    ensures Lines(TextLines(text)) == ["    " + text, "", ""]
  {
    var l3 := "    " + text;
    assert TextLines(text) == l3 + "\n" + ("" + "\n" + "");
    NoLineFeed("    ", text, "");
    LinesCons(l3, "" + "\n" + "");
    LinesCons("", "");
    assert Lines("") == [""];
  }

  lemma TextEndsSection(l0: string, l1: string, l2: string, text: string)
    ensures EndsWith(l0 + "\n" + (l1 + "\n" + (l2 + "\n" + TextLines(text))), text + "\n\n")
  {
    var x := l0 + "\n" + (l1 + "\n" + (l2 + "\n")) + "    ";
    var y := text + "\n\n";
    assert TextLines(text) == "    " + y;
    assert l0 + "\n" + (l1 + "\n" + (l2 + "\n" + TextLines(text))) == x + y;
    assert (x + y)[|x|..] == y;
  }

  lemma LinesOfThree(l0: string, l1: string, l2: string, rest: string)
    requires '\n' !in l0 && '\n' !in l1 && '\n' !in l2
    ensures var ls := Lines(l0 + "\n" + (l1 + "\n" + (l2 + "\n" + rest)));
      |ls| >= 4 && ls[0] == l0 && ls[1] == l1 && ls[2] == l2 && ls[3..] == Lines(rest)
  {
    var s2 := l2 + "\n" + rest;
    var s1 := l1 + "\n" + s2;
    LinesCons(l2, rest);
    LinesCons(l1, s2);
    LinesCons(l0, s1);
    DropThree(l0, l1, l2, Lines(rest));
  }

  lemma DropThree<T>(a: T, b: T, c: T, r: seq<T>)
    ensures ([a] + ([b] + ([c] + r)))[3..] == r
  {
    var s := [a] + ([b] + ([c] + r));
    assert forall i :: 0 <= i < |r| ==> s[3..][i] == r[i];
  }

  lemma NoLineFeed(a: string, b: string, c: string)
    requires '\n' !in b
    requires forall i :: 0 <= i < |a| ==> a[i] != '\n'
    requires forall i :: 0 <= i < |c| ==> c[i] != '\n'
    ensures '\n' !in a + b + c
  {
  }

  /** The sections of `ps`, one after another. */
  function Sections(ps: seq<Passage>): string {
    if ps == [] then "" else Sections(ps[..|ps| - 1]) + Section(ps[|ps| - 1])
  }

  /** The string whose length the budget check of lines 32-35 measures. */
  function Measured(context: string, userQuery: string): string {
    Header + context + "\nUser query: " + userQuery
  }

  /** Lines 43-46. */
  function PromptText(context: string, userQuery: string): string {
    Header + context + "\n" + "User question: " + userQuery + "\n\n" + "Answer (cite urls if used):"
  }

  /** The first `k` passages fit within the budget. */
  predicate Fits(userQuery: string, passages: seq<Passage>, maxChars: int, k: nat)
    requires k <= |passages|
  {
    |Measured(Sections(passages[..k]), userQuery)| <= maxChars
  }

  /** `n` leading passages are what the greedy selection includes: each of them fitted when
      it was added, and the next one, if any, did not. */
  predicate Greedy(userQuery: string, passages: seq<Passage>, maxChars: int, n: nat) {
    && n <= |passages|
    && (forall k :: 0 < k <= n ==> Fits(userQuery, passages, maxChars, k))
    && (n < |passages| ==> !Fits(userQuery, passages, maxChars, n + 1))
  }

  /** At most one count is greedy, so Greedy determines what `buildPrompt` includes. */
  lemma GreedyUnique(userQuery: string, passages: seq<Passage>, maxChars: int, n: nat, m: nat)
    requires Greedy(userQuery, passages, maxChars, n) && Greedy(userQuery, passages, maxChars, m)
    ensures n == m
  {
  }

  /** The sections of one more passage are those before it and its own. */
  lemma SectionsStep(userQuery: string, passages: seq<Passage>, maxChars: int, i: nat, context: string)
    requires i < |passages| && context == Sections(passages[..i])
    ensures Sections(passages[..i + 1]) == context + Section(passages[i])
    ensures passages[..i] + [passages[i]] == passages[..i + 1]
    ensures Fits(userQuery, passages, maxChars, i + 1) <==>
      |Measured(context + Section(passages[i]), userQuery)| <= maxChars
  {
    assert passages[..i + 1][..i] == passages[..i];
  }

  /** Lines 17-49. */
  method BuildPrompt(userQuery: string, passages: seq<Passage>, maxChars: int) returns (result: PromptResult)
    ensures |result.included| <= |passages| && result.included == passages[..|result.included|]
    ensures Greedy(userQuery, passages, maxChars, |result.included|)
    ensures result.prompt == PromptText(Sections(result.included), userQuery)
  {
    var context := "";
    var included: seq<Passage> := [];
    for i := 0 to |passages|
      invariant included == passages[..i]
      invariant context == Sections(included)
      invariant forall k :: 0 < k <= i ==> Fits(userQuery, passages, maxChars, k)
    {
      var passage := passages[i];
      var section := Section(passage);
      SectionsStep(userQuery, passages, maxChars, i, context);
      // the string of lines 33-34, HEADER + context + section + "\nUser query: " + userQuery
      if |Measured(context + section, userQuery)| > maxChars {
        return PromptResult(PromptText(context, userQuery), included);
      }
      included := included + [passage];
      context := context + section;
    }
    return PromptResult(PromptText(context, userQuery), included);
  }

  /** The budget checks a string 32 characters shorter than the prompt (it ends in
      "\nUser query: " where the prompt ends in "\nUser question: ", a blank line and the answer
      cue), so once a passage is included the prompt is at most `maxChars + 32` long; with
      none included nothing bounds it. */
  lemma PromptOvershoot(context: string, userQuery: string, maxChars: int)
    requires |Measured(context, userQuery)| <= maxChars
    ensures |PromptText(context, userQuery)| == |Measured(context, userQuery)| + 32
    ensures |PromptText(context, userQuery)| <= maxChars + 32
  {
  }
}
