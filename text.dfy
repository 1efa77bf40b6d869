/** Character-level string operations that the extraction and chunking stages use:
    JavaScript's `trim`, the two regular-expression replacements, `join` and `indexOf`. */
module Text {
  import opened Seqs

  /** Whitespace as `\s` and `String.prototype.trim` see it, within ASCII: space, tab,
      line feed, vertical tab, form feed and carriage return. */
  predicate IsSpace(c: char) {
    c == ' ' || 9 <= c as int <= 13
  }

  predicate AllSpace(s: string) {
    forall i :: 0 <= i < |s| ==> IsSpace(s[i])
  }

  lemma AllSpaceAppend(x: string, y: string)
    requires AllSpace(x) && AllSpace(y)
    ensures AllSpace(x + y)
  {
    forall i | 0 <= i < |x + y| ensures IsSpace((x + y)[i]) {
      if i >= |x| {
        assert (x + y)[i] == y[i - |x|];
      }
    }
  }

  /** `String.prototype.trim`: `s` without its leading and trailing whitespace. */
  function Trim(s: string): (r: string)
    ensures |r| <= |s|
  {
    if s != [] && IsSpace(s[0]) then Trim(s[1..])
    else if s != [] && IsSpace(s[|s| - 1]) then Trim(s[..|s| - 1])
    else s
  }

  /** How many characters Trim removes from the front of `s`. */
  function TrimOffset(s: string): (a: nat)
    ensures a + |Trim(s)| <= |s|
  {
    if s != [] && IsSpace(s[0]) then 1 + TrimOffset(s[1..])
    else if s != [] && IsSpace(s[|s| - 1]) then TrimOffset(s[..|s| - 1])
    else 0
  }

  /** `r` sits in `s` at `a`, between an all-whitespace front and an all-whitespace back. */
  predicate SpaceBordered(r: string, s: string, a: nat) {
    && a + |r| <= |s|
    && r == s[a..a + |r|]
    && (forall i :: 0 <= i < a ==> IsSpace(s[i]))
    && (forall i :: a + |r| <= i < |s| ==> IsSpace(s[i]))
  }

  lemma BorderedFront(s: string, r: string, b: nat)
    requires s != [] && IsSpace(s[0]) && SpaceBordered(r, s[1..], b)
    ensures SpaceBordered(r, s, b + 1)
  {
    var t := s[1..];
    assert s[b + 1..b + 1 + |r|] == t[b..b + |r|];
    forall i | 0 < i < |s| ensures s[i] == t[i - 1] { }
  }

  lemma BorderedBack(s: string, r: string, b: nat)
    requires s != [] && IsSpace(s[|s| - 1]) && SpaceBordered(r, s[..|s| - 1], b)
    ensures SpaceBordered(r, s, b)
  {
    var t := s[..|s| - 1];
    assert s[b..b + |r|] == t[b..b + |r|];
    forall i | 0 <= i < |s| - 1 ensures s[i] == t[i] { }
  }

  /** The trimmed text is the slice of `s` between an all-whitespace front and an
      all-whitespace back. */
  lemma {:induction false} TrimSlice(s: string)
    ensures SpaceBordered(Trim(s), s, TrimOffset(s))
    decreases |s|
  {
    if s != [] && IsSpace(s[0]) {
      TrimSlice(s[1..]);
      BorderedFront(s, Trim(s[1..]), TrimOffset(s[1..]));
    } else if s != [] && IsSpace(s[|s| - 1]) {
      TrimSlice(s[..|s| - 1]);
      BorderedBack(s, Trim(s[..|s| - 1]), TrimOffset(s[..|s| - 1]));
    }
  }

  /** The trimmed text neither starts nor ends with whitespace. */
  lemma {:induction false} TrimEnds(s: string)
    ensures Trim(s) != [] ==> !IsSpace(Trim(s)[0]) && !IsSpace(Trim(s)[|Trim(s)| - 1])
    decreases |s|
  {
    if s != [] && IsSpace(s[0]) {
      TrimEnds(s[1..]);
    } else if s != [] && IsSpace(s[|s| - 1]) {
      TrimEnds(s[..|s| - 1]);
    }
  }

  /** The trimmed text is empty exactly when `s` is all whitespace. */
  lemma {:induction false} TrimEmpty(s: string)
    ensures Trim(s) == [] <==> AllSpace(s)
    decreases |s|
  {
    if s != [] && IsSpace(s[0]) {
      var t := s[1..];
      TrimEmpty(t);
      assert s == [s[0]] + t;
      if AllSpace(t) {
        AllSpaceAppend([s[0]], t);
      }
    } else if s != [] && IsSpace(s[|s| - 1]) {
      // Here s[0] is not whitespace, so neither s nor t is all whitespace.
      var t := s[..|s| - 1];
      TrimEmpty(t);
      assert t[0] == s[0];
    }
  }

  /** No line feed is directly followed by another one. */
  predicate NoRepeatedNewline(s: string) {
    forall i :: 0 <= i < |s| - 1 ==> !(s[i] == '\n' && s[i + 1] == '\n')
  }

  /** `s` with every line feed removed. */
  function WithoutNewlines(s: string): string {
    if s == [] then [] else (if s[0] == '\n' then [] else [s[0]]) + WithoutNewlines(s[1..])
  }

  /** `s.replace(/\n{2,}/g, "\n")`: every run of two or more line feeds becomes one.
      Only line feeds are removed, and afterwards no two line feeds are adjacent. */
  function CollapseNewlines(s: string): (r: string)
    ensures |r| <= |s|
    ensures r != [] <==> s != []
    ensures r != [] ==> r[0] == s[0]
    ensures NoRepeatedNewline(r)
    ensures WithoutNewlines(r) == WithoutNewlines(s)
    ensures WithoutSpaces(r) == WithoutSpaces(s)
    ensures AllSpace(s) ==> AllSpace(r)
  {
    if s == [] then []
    else if |s| >= 2 && s[0] == '\n' && s[1] == '\n' then CollapseNewlines(s[1..])
    else
      var rest := CollapseNewlines(s[1..]);
      var r := [s[0]] + rest;
      assert r[1..] == rest;
      r
  }

  /** A text that ends in anything but a line feed is collapsed on its own: what follows it
      is collapsed separately. */
  lemma {:induction false} CollapseNewlinesAppend(a: string, b: string)
    requires a == [] || a[|a| - 1] != '\n'
    ensures CollapseNewlines(a + b) == CollapseNewlines(a) + CollapseNewlines(b)
    decreases |a|
  {
    if a == [] {
      assert a + b == b;
    } else {
      var s := a + b;
      assert s[0] == a[0] && s[1..] == a[1..] + b;
      CollapseNewlinesAppend(a[1..], b);
      if |a| >= 2 && a[0] == '\n' && a[1] == '\n' {
        assert s[1] == a[1];
        assert CollapseNewlines(s) == CollapseNewlines(a[1..] + b);
      } else {
        assert |a| == 1 ==> a[0] != '\n';
        assert !(|s| >= 2 && s[0] == '\n' && s[1] == '\n');
        assert CollapseNewlines(s) == [a[0]] + CollapseNewlines(a[1..] + b);
        assert CollapseNewlines(a) == [a[0]] + CollapseNewlines(a[1..]);
        AppendAssoc([a[0]], CollapseNewlines(a[1..]), CollapseNewlines(b));
      }
    }
  }

  /** A run of line feeds at the front, followed by anything but a line feed, becomes one. */
  lemma {:induction false} NewlineRun(w: string, b: string)
    requires w != [] && forall i :: 0 <= i < |w| ==> w[i] == '\n'
    requires b == [] || b[0] != '\n'
    ensures CollapseNewlines(w + b) == "\n" + CollapseNewlines(b)
    decreases |w|
  {
    var s := w + b;
    assert s[1..] == w[1..] + b;
    if |w| >= 2 {
      assert s[0] == '\n' && s[1] == '\n';
      NewlineRun(w[1..], b);
    } else {
      assert w[1..] + b == b;
    }
  }

  /** A maximal run of one or more line feeds becomes exactly one line feed, and the text on
      either side of it is collapsed on its own. */
  lemma CollapseNewlinesRun(a: string, w: string, b: string)
    requires a == [] || a[|a| - 1] != '\n'
    requires w != [] && forall i :: 0 <= i < |w| ==> w[i] == '\n'
    requires b == [] || b[0] != '\n'
    ensures CollapseNewlines(a + w + b) == CollapseNewlines(a) + "\n" + CollapseNewlines(b)
  {
    AppendAssoc(a, w, b);
    CollapseNewlinesAppend(a, w + b);
    NewlineRun(w, b);
    AppendAssoc(CollapseNewlines(a), "\n", CollapseNewlines(b));
  }

  /** A text is all whitespace exactly when it has no non-whitespace character. */
  lemma {:induction false} AllSpaceWithout(s: string)
    ensures AllSpace(s) <==> WithoutSpaces(s) == []
  {
    if s != [] {
      AllSpaceWithout(s[1..]);
      assert s == [s[0]] + s[1..];
      if AllSpace(s[1..]) && IsSpace(s[0]) {
        AllSpaceAppend([s[0]], s[1..]);
      }
    }
  }

  /** Collapsing line feeds leaves a text all whitespace exactly when it was. */
  lemma AllSpaceKept(s: string)
    ensures AllSpace(CollapseNewlines(s)) <==> AllSpace(s)
  {
    AllSpaceWithout(s);
    AllSpaceWithout(CollapseNewlines(s));
  }

  /** A slice of a text without repeated line feeds has none either. */
  lemma NoRepeatedNewlineSlice(s: string, a: nat, b: nat)
    requires a <= b <= |s| && NoRepeatedNewline(s)
    ensures NoRepeatedNewline(s[a..b])
  {
    forall i | 0 <= i < b - a - 1 ensures !(s[a..b][i] == '\n' && s[a..b][i + 1] == '\n') {
      assert s[a..b][i] == s[a + i] && s[a..b][i + 1] == s[a + i + 1];
    }
  }

  /** No two whitespace characters are adjacent. */
  predicate NoAdjacentSpaces(s: string) {
    forall i :: 0 <= i < |s| - 1 ==> !(IsSpace(s[i]) && IsSpace(s[i + 1]))
  }

  /** `s` with all its whitespace removed. */
  function WithoutSpaces(s: string): string {
    if s == [] then [] else (if IsSpace(s[0]) then [] else [s[0]]) + WithoutSpaces(s[1..])
  }

  lemma {:induction false} WithoutSpacesOfSpaces(s: string)
    requires AllSpace(s)
    ensures WithoutSpaces(s) == []
  {
    if s != [] {
      WithoutSpacesOfSpaces(s[1..]);
    }
  }

  lemma {:induction false} WithoutSpacesAppend(a: string, b: string)
    ensures WithoutSpaces(a + b) == WithoutSpaces(a) + WithoutSpaces(b)
  {
    if a == [] {
      assert a + b == b;
    } else {
      assert (a + b)[0] == a[0] && (a + b)[1..] == a[1..] + b;
      WithoutSpacesAppend(a[1..], b);
    }
  }

  /** Trimming removes whitespace only. */
  lemma TrimKeepsNonSpaces(s: string)
    ensures WithoutSpaces(Trim(s)) == WithoutSpaces(s)
  {
    TrimSlice(s);
    var a, r := TrimOffset(s), Trim(s);
    var front, back := s[..a], s[a + |r|..];
    assert s == front + r + back;
    assert AllSpace(front) && AllSpace(back);
    WithoutSpacesAppend(front + r, back);
    WithoutSpacesAppend(front, r);
    WithoutSpacesOfSpaces(front);
    WithoutSpacesOfSpaces(back);
  }

  /** The length of the run of whitespace at the front of `s`. */
  function SpaceRun(s: string): (n: nat)
    ensures n <= |s|
    ensures AllSpace(s[..n])
    ensures n < |s| ==> !IsSpace(s[n])
  {
    if s != [] && IsSpace(s[0]) then
      var n := SpaceRun(s[1..]);
      assert s[..n + 1] == [s[0]] + s[1..][..n];
      n + 1
    else 0
  }

  /** `s.replace(/\s{2,}/g, " ")`: every run of two or more whitespace characters becomes
      one space; a lone whitespace character stays. Afterwards no two whitespace characters
      are adjacent, and the non-whitespace characters are those of `s`, in order. */
  function CollapseSpaces(s: string): (r: string)
    ensures r != [] <==> s != []
    ensures r != [] ==> (IsSpace(r[0]) <==> IsSpace(s[0]))
    ensures NoAdjacentSpaces(r)
    ensures WithoutSpaces(r) == WithoutSpaces(s)
    decreases |s|
  {
    if s == [] then []
    else
      var n := SpaceRun(s);
      if n >= 2 then
        var rest := CollapseSpaces(s[n..]);
        var r := [' '] + rest;
        assert r[1..] == rest;
        assert s == s[..n] + s[n..];
        WithoutSpacesAppend(s[..n], s[n..]);
        WithoutSpacesOfSpaces(s[..n]);
        r
      else
        var rest := CollapseSpaces(s[1..]);
        var r := [s[0]] + rest;
        assert r[1..] == rest;
        r
  }

  /** The length of the whitespace run at the front of `a + w + b`, for a whitespace run `w`
      followed by anything but whitespace, is the length of `w`. */
  lemma {:induction false} SpaceRunPrefix(w: string, b: string)
    requires AllSpace(w)
    requires b == [] || !IsSpace(b[0])
    ensures SpaceRun(w + b) == |w|
    decreases |w|
  {
    if w == [] {
      assert w + b == b;
    } else {
      assert (w + b)[0] == w[0] && (w + b)[1..] == w[1..] + b;
      SpaceRunPrefix(w[1..], b);
    }
  }

  /** A text that ends in anything but whitespace is collapsed on its own: what follows it is
      collapsed separately. */
  lemma {:induction false} CollapseSpacesAppend(a: string, b: string)
    requires a == [] || !IsSpace(a[|a| - 1])
    ensures CollapseSpaces(a + b) == CollapseSpaces(a) + CollapseSpaces(b)
    decreases |a|
  {
    if a != [] {
      var s := a + b;
      var n := SpaceRun(a);
      SpaceRunOfPrefix(a, b);
      assert s[n..] == a[n..] + b;
      if n >= 2 {
        CollapseSpacesAppend(a[n..], b);
        assert CollapseSpaces(s) == [' '] + CollapseSpaces(a[n..] + b);
        assert CollapseSpaces(a) == [' '] + CollapseSpaces(a[n..]);
        AppendAssoc([' '], CollapseSpaces(a[n..]), CollapseSpaces(b));
      } else {
        assert s[0] == a[0] && s[1..] == a[1..] + b;
        CollapseSpacesAppend(a[1..], b);
        assert CollapseSpaces(s) == [a[0]] + CollapseSpaces(a[1..] + b);
        assert CollapseSpaces(a) == [a[0]] + CollapseSpaces(a[1..]);
        AppendAssoc([a[0]], CollapseSpaces(a[1..]), CollapseSpaces(b));
      }
    } else {
      assert a + b == b;
    }
  }

  lemma {:induction false} SpaceRunOfPrefix(a: string, b: string)
    requires a != [] && !IsSpace(a[|a| - 1])
    ensures SpaceRun(a + b) == SpaceRun(a) < |a|
    decreases |a|
  {
    var s := a + b;
    assert s[0] == a[0];
    if IsSpace(a[0]) {
      assert s[1..] == a[1..] + b;
      SpaceRunOfPrefix(a[1..], b);
    }
  }

  /** A maximal whitespace run becomes one space when it has two or more characters and stays
      as it is when it has one; the text on either side of it is collapsed on its own. */
  lemma CollapseSpacesRun(a: string, w: string, b: string)
    requires a == [] || !IsSpace(a[|a| - 1])
    requires w != [] && AllSpace(w)
    requires b == [] || !IsSpace(b[0])
    ensures CollapseSpaces(a + w + b) == CollapseSpaces(a) + (if |w| >= 2 then " " else w) + CollapseSpaces(b)
  {
    AppendAssoc(a, w, b);
    CollapseSpacesAppend(a, w + b);
    SpaceRunCollapse(w, b);
    AppendAssoc(CollapseSpaces(a), if |w| >= 2 then " " else w, CollapseSpaces(b));
  }

  lemma SpaceRunCollapse(w: string, b: string)
    requires w != [] && AllSpace(w)
    requires b == [] || !IsSpace(b[0])
    ensures CollapseSpaces(w + b) == (if |w| >= 2 then " " else w) + CollapseSpaces(b)
  {
    SpaceRunPrefix(w, b);
    var s := w + b;
    assert s[|w|..] == b;
    if |w| < 2 {
      assert s[1..] == b && [s[0]] == w;
    }
  }

  /** A text without adjacent whitespace is left as it is; in particular collapsing twice is
      collapsing once. */
  lemma {:induction false} CollapseSpacesFixed(s: string)
    requires NoAdjacentSpaces(s)
    ensures CollapseSpaces(s) == s
    decreases |s|
  {
    if s != [] {
      var t := s[1..];
      assert NoAdjacentSpaces(t) by {
        forall i | 0 <= i < |t| - 1 ensures !(IsSpace(t[i]) && IsSpace(t[i + 1])) {
          assert t[i] == s[i + 1] && t[i + 1] == s[i + 2];
        }
      }
      if |s| >= 2 {
        assert !(IsSpace(s[0]) && IsSpace(s[1]));
      }
      CollapseSpacesFixed(t);
      assert s == [s[0]] + t;
    }
  }

  lemma CollapseSpacesIdempotent(s: string)
    ensures CollapseSpaces(CollapseSpaces(s)) == CollapseSpaces(s)
  {
    CollapseSpacesFixed(CollapseSpaces(s));
  }

  /** The length of the run of non-whitespace characters at the front of `s`. */
  function WordLen(s: string): (n: nat)
    ensures n <= |s|
    ensures forall i :: 0 <= i < n ==> !IsSpace(s[i])
    ensures n < |s| ==> IsSpace(s[n])
  {
    if s != [] && !IsSpace(s[0]) then 1 + WordLen(s[1..]) else 0
  }

  /** The words of `s`: its maximal runs of non-whitespace characters, in order. */
  function Words(s: string): (ws: seq<string>)
    ensures forall k :: 0 <= k < |ws| ==> ws[k] != [] && forall i :: 0 <= i < |ws[k]| ==> !IsSpace(ws[k][i])
    decreases |s|
  {
    if s == [] then []
    else if IsSpace(s[0]) then Words(s[1..])
    else
      var n := WordLen(s);
      assert n >= 1;
      [s[..n]] + Words(s[n..])
  }

  /** A non-whitespace character before `y` starts a word of its own when `y` starts with
      whitespace, and joins `y`'s first word otherwise. */
  lemma WordsConsWord(c: char, y: string)
    requires !IsSpace(c)
    ensures y != [] && !IsSpace(y[0]) ==> Words(y) != [] && Words([c] + y) == [[c] + Words(y)[0]] + Words(y)[1..]
    ensures y == [] || IsSpace(y[0]) ==> Words([c] + y) == [[c]] + Words(y)
  {
    var s := [c] + y;
    assert s[1..] == y;
    var m := WordLen(y);
    assert WordLen(s) == 1 + m;
    assert s[..1 + m] == [c] + y[..m];
    assert s[1 + m..] == y[m..];
  }

  /** Collapsing whitespace keeps the words. */
  lemma {:induction false} CollapseSpacesWords(s: string)
    ensures Words(CollapseSpaces(s)) == Words(s)
    decreases |s|
  {
    if s != [] {
      var n := SpaceRun(s);
      if n >= 2 {
        CollapseSpacesWords(s[n..]);
        assert CollapseSpaces(s) == [' '] + CollapseSpaces(s[n..]);
        assert Words([' '] + CollapseSpaces(s[n..])) == Words(CollapseSpaces(s[n..])) by {
          WordsSkipSpaces([' '], CollapseSpaces(s[n..]));
        }
        assert s == s[..n] + s[n..];
        WordsSkipSpaces(s[..n], s[n..]);
      } else if IsSpace(s[0]) {
        CollapseSpacesWords(s[1..]);
        assert CollapseSpaces(s) == [s[0]] + CollapseSpaces(s[1..]);
        assert s == [s[0]] + s[1..];
        WordsSkipSpaces([s[0]], CollapseSpaces(s[1..]));
        WordsSkipSpaces([s[0]], s[1..]);
      } else {
        var t := s[1..];
        CollapseSpacesWords(t);
        assert s == [s[0]] + t;
        assert CollapseSpaces(s) == [s[0]] + CollapseSpaces(t);
        WordsConsCollapsed(s[0], t);
      }
    }
  }

  lemma WordsConsCollapsed(c: char, t: string)
    requires !IsSpace(c) && Words(CollapseSpaces(t)) == Words(t)
    ensures Words([c] + CollapseSpaces(t)) == Words([c] + t)
  {
    WordsConsWord(c, t);
    WordsConsWord(c, CollapseSpaces(t));
  }

  /** Whitespace in front of `t` adds no word. */
  lemma {:induction false} WordsSkipSpaces(w: string, t: string)
    requires AllSpace(w)
    ensures Words(w + t) == Words(t)
    decreases |w|
  {
    if w != [] {
      assert (w + t)[0] == w[0] && (w + t)[1..] == w[1..] + t;
      WordsSkipSpaces(w[1..], t);
    } else {
      assert w + t == t;
    }
  }

  lemma {:induction false} WordLenAppend(a: string, b: string)
    requires WordLen(a) < |a| || b == [] || IsSpace(b[0])
    ensures WordLen(a + b) == WordLen(a)
    decreases |a|
  {
    if a == [] {
      assert a + b == b;
    } else {
      assert (a + b)[0] == a[0];
      if !IsSpace(a[0]) {
        assert (a + b)[1..] == a[1..] + b;
        WordLenAppend(a[1..], b);
      }
    }
  }

  /** Two texts that meet at whitespace (or where one is empty) have the words of the first,
      then those of the second. */
  lemma {:induction false} WordsAppend(a: string, b: string)
    requires a == [] || b == [] || IsSpace(a[|a| - 1]) || IsSpace(b[0])
    ensures Words(a + b) == Words(a) + Words(b)
    decreases |a|
  {
    var s := a + b;
    if a == [] {
      assert s == b;
    } else if IsSpace(a[0]) {
      assert s[0] == a[0] && s[1..] == a[1..] + b;
      WordsAppend(a[1..], b);
    } else {
      var m := WordLen(a);
      WordLenAppend(a, b);
      assert s[0] == a[0];
      assert s[..m] == a[..m];
      assert s[m..] == a[m..] + b;
      WordsAppend(a[m..], b);
      assert Words(s) == [a[..m]] + (Words(a[m..]) + Words(b));
      AppendAssoc([a[..m]], Words(a[m..]), Words(b));
    }
  }

  /** Trailing whitespace adds no word. */
  lemma WordsDropSpaces(x: string, w: string)
    requires AllSpace(w)
    ensures Words(x + w) == Words(x)
  {
    if w != [] {
      WordsAppend(x, w);
      WordsSkipSpaces(w, []);
      assert w + [] == w;
    } else {
      assert x + w == x;
    }
  }

  /** Trimming keeps the words. */
  lemma TrimWords(s: string)
    ensures Words(Trim(s)) == Words(s)
  {
    TrimSlice(s);
    var a, r := TrimOffset(s), Trim(s);
    var front, back := s[..a], s[a + |r|..];
    assert s == front + r + back;
    AppendAssoc(front, r, back);
    assert AllSpace(front) && AllSpace(back);
    WordsSkipSpaces(front, r + back);
    WordsDropSpaces(r, back);
  }

  /** The words of each of `ps`, one list after another. */
  function ParagraphWords(ps: seq<string>): seq<string> {
    if ps == [] then [] else Words(ps[0]) + ParagraphWords(ps[1..])
  }

  /** Joining by a whitespace separator keeps every part's words apart. */
  lemma {:induction false} WordsOfJoin(ps: seq<string>, sep: string)
    requires sep != [] && AllSpace(sep)
    ensures Words(Join(ps, sep)) == ParagraphWords(ps)
  {
    if |ps| == 1 {
      assert ps[1..] == [];
    } else if |ps| >= 2 {
      var j := Join(ps[1..], sep);
      WordsOfJoin(ps[1..], sep);
      assert ps[0] + sep + j == ps[0] + (sep + j);
      WordsAppend(ps[0], sep + j);
      WordsSkipSpaces(sep, j);
    }
  }

  /** `ps.join(sep)`. */
  function Join(ps: seq<string>, sep: string): string {
    if ps == [] then ""
    else if |ps| == 1 then ps[0]
    else ps[0] + sep + Join(ps[1..], sep)
  }

  /** `s.endsWith(suffix)`. */
  predicate EndsWith(s: string, suffix: string) {
    |suffix| <= |s| && s[|s| - |suffix|..] == suffix
  }

  /** `pat` occurs in `s` starting at position `k`. */
  predicate OccursAt(s: string, pat: string, k: int) {
    0 <= k && k + |pat| <= |s| && s[k..k + |pat|] == pat
  }

  function IndexFrom(s: string, pat: string, k: nat): (r: int)
    requires k <= |s| + 1
    ensures r == -1 || (k <= r && OccursAt(s, pat, r))
    ensures forall j :: k <= j < (if r == -1 then |s| + 1 else r) ==> !OccursAt(s, pat, j)
    decreases |s| + 1 - k
  {
    if k + |pat| > |s| then -1
    else if s[k..k + |pat|] == pat then k
    else IndexFrom(s, pat, k + 1)
  }

  /** `s.indexOf(pat)`: the first position where `pat` occurs, or -1 when it occurs nowhere. */
  function IndexOf(s: string, pat: string): (r: int)
    ensures r == -1 || OccursAt(s, pat, r)
    ensures forall j :: 0 <= j < (if r == -1 then |s| + 1 else r) ==> !OccursAt(s, pat, j)
  {
    IndexFrom(s, pat, 0)
  }

  /** `s.split("\n")`: the lines of `s`, without their line feeds. */
  function Lines(s: string): (r: seq<string>)
    ensures |r| >= 1
    decreases |s|
  {
    if '\n' !in s then [s]
    else
      var k := FirstIndex(s, '\n');
      [s[..k]] + Lines(s[k + 1..])
  }

  /** A line without a line feed, then a line feed, starts the lines of what follows. */
  lemma LinesCons(a: string, b: string)
    requires '\n' !in a
    ensures Lines(a + "\n" + b) == [a] + Lines(b)
  {
    var s := a + "\n" + b;
    assert s[..|a|] == a && s[|a|] == '\n';
    FirstIndexUnique(s, '\n', |a|);
    assert s[|a| + 1..] == b;
  }
}
