/** Facts about sequences that several stages of the pipeline share. */
module Seqs {

  function Min(a: int, b: int): int {
    if a <= b then a else b
  }

  lemma AppendAssoc<T>(a: seq<T>, b: seq<T>, c: seq<T>)
    ensures (a + b) + c == a + (b + c)
  {
  }

  /** No element occurs twice. */
  predicate NoDup<T(==)>(s: seq<T>) {
    forall i, j :: 0 <= i < j < |s| ==> s[i] != s[j]
  }

  /** The position of the first occurrence of `x` in `s`. */
  function FirstIndex<T(==)>(s: seq<T>, x: T): (k: nat)
    requires x in s
    ensures k < |s| && s[k] == x && x !in s[..k]
  {
    if s[0] == x then 0
    else
      var k := FirstIndex(s[1..], x);
      assert s[..k + 1] == [s[0]] + s[1..][..k];
      k + 1
  }

  /** A position holding `x` with no `x` before it is the first occurrence. */
  lemma FirstIndexUnique<T>(s: seq<T>, x: T, k: nat)
    requires k < |s| && s[k] == x && x !in s[..k]
    ensures FirstIndex(s, x) == k
  {
    var f := FirstIndex(s, x);
  }

  /** Appending elements does not move the first occurrence of an element already present. */
  lemma FirstIndexAppend<T>(s: seq<T>, t: seq<T>, x: T)
    requires x in s
    ensures x in s + t && FirstIndex(s + t, x) == FirstIndex(s, x)
  {
    var k := FirstIndex(s, x);
    assert (s + t)[..k] == s[..k];
    FirstIndexUnique(s + t, x, k);
  }

  /** The elements of `s` in the order in which they first occur, each once: what
      `Array.from(new Set(s))` yields, since a JavaScript Set iterates in insertion order. */
  function Distinct<T(==)>(s: seq<T>): (r: seq<T>)
    ensures NoDup(r)
    ensures forall i :: 0 <= i < |r| ==> r[i] in s
    ensures forall i :: 0 <= i < |s| ==> s[i] in r
    ensures |r| <= |s|
  {
    if s == [] then []
    else
      var p := Distinct(s[..|s| - 1]);
      var last := s[|s| - 1];
      assert s == s[..|s| - 1] + [last];
      if last in p then p else p + [last]
  }

  /** Distinct keeps the elements in the order of their first occurrences in `s`. */
  lemma {:induction false} DistinctKeepsFirstOccurrenceOrder<T>(s: seq<T>)
    ensures forall i, j :: 0 <= i < j < |Distinct(s)| ==>
      FirstIndex(s, Distinct(s)[i]) < FirstIndex(s, Distinct(s)[j])
  {
    if s != [] {
      var n := |s|;
      var init, last := s[..n - 1], s[n - 1];
      assert s == init + [last];
      DistinctKeepsFirstOccurrenceOrder(init);
      var p := Distinct(init);
      forall x | x in init ensures FirstIndex(s, x) == FirstIndex(init, x) {
        FirstIndexAppend(init, [last], x);
      }
      if last !in p {
        assert last !in init;
        FirstIndexUnique(s, last, n - 1);
        forall i | 0 <= i < |p| ensures FirstIndex(s, p[i]) < n - 1 {
          assert p[i] in init;
        }
      }
    }
  }

  /** `s.slice(0, n)`: the first `n` elements of `s`, or all of them when there are fewer. */
  function Take<T(==)>(s: seq<T>, n: nat): (r: seq<T>)
    ensures |r| == Min(n, |s|)
    ensures forall i :: 0 <= i < |r| ==> r[i] == s[i]
    ensures NoDup(s) ==> NoDup(r)
  {
    s[..Min(n, |s|)]
  }

  /** The concatenation of a sequence of sequences. */
  function Flatten<T>(ss: seq<seq<T>>): seq<T> {
    if ss == [] then [] else ss[0] + Flatten(ss[1..])
  }

  lemma {:induction false} FlattenAppend<T>(a: seq<seq<T>>, b: seq<seq<T>>)
    ensures Flatten(a + b) == Flatten(a) + Flatten(b)
  {
    if a == [] {
      assert a + b == b;
    } else {
      assert (a + b)[0] == a[0] && (a + b)[1..] == a[1..] + b;
      FlattenAppend(a[1..], b);
      calc {
        Flatten(a + b);
        a[0] + Flatten(a[1..] + b);
        a[0] + (Flatten(a[1..]) + Flatten(b));
        (a[0] + Flatten(a[1..])) + Flatten(b);
      }
    }
  }

  lemma MulStep(k: nat, b: nat)
    ensures (k + 1) * b == k * b + b
  {
  }

  /** The consecutive slices `s.slice(i, i + b)` for `i = 0, b, 2b, ...` below `|s|`:
      how a loop with `i += b` cuts `s` into batches. */
  function Batches<T>(s: seq<T>, b: nat): (r: seq<seq<T>>)
    requires b >= 1
    ensures forall k :: 0 <= k < |r| ==> 0 < |r[k]| <= b
    ensures forall k :: 0 <= k < |r| - 1 ==> |r[k]| == b
    ensures Flatten(r) == s
    decreases |s|
  {
    if s == [] then []
    else if |s| <= b then
      [s]
    else
      var rest := Batches(s[b..], b);
      assert s[..b] + s[b..] == s;
      [s[..b]] + rest
  }

  /** There are ceil(|s| / b) batches: the fewest slices of `b` that hold `s`. */
  lemma {:induction false} BatchesCount<T>(s: seq<T>, b: nat)
    requires b >= 1
    ensures var n := |Batches(s, b)|;
      (n == 0 || (n - 1) * b < |s|) && |s| <= n * b
    decreases |s|
  {
    if |s| > b {
      BatchesCount(s[b..], b);
      MulStep(|Batches(s[b..], b)|, b);
    }
  }

  /** The batch starting at a multiple of `b` is the slice there, and the rest follows it. */
  lemma BatchesUnfold<T>(s: seq<T>, b: nat)
    requires b >= 1 && s != []
    ensures Batches(s, b) == [s[..Min(b, |s|)]] + Batches(s[Min(b, |s|)..], b)
  {
  }

  /** The batches of `s` from a multiple-of-`b` position `i` on: the batch at `i`, then those
      after it. */
  lemma BatchesFrom<T>(s: seq<T>, b: nat, i: nat)
    requires b >= 1 && i < |s|
    ensures Batches(s[i..], b) ==
      [s[i..Min(i + b, |s|)]] + (if i + b >= |s| then [] else Batches(s[i + b..], b))
  {
    BatchesUnfold(s[i..], b);
    var m := Min(b, |s| - i);
    assert s[i..Min(i + b, |s|)] == s[i..][..m];
    if i + b < |s| {
      assert s[i..][m..] == s[i + b..];
    } else {
      assert s[i..][m..] == [];
    }
  }
}
