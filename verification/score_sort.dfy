/** Python's `sorted(xs, key=score, reverse=True)` on a totally ordered score: a
    stable sort into descending score order. Scores are compared only, never
    computed with. */
module ScoreSort {
  import opened Seqs

  /** Scores never increase along `s`. */
  predicate Descending<T>(s: seq<T>, score: T -> real) {
    forall i, j :: 0 <= i < j < |s| ==> score(s[j]) <= score(s[i])
  }

  /** Inserts `x` after every element that scores strictly higher, so before the
      elements that score the same: an element inserted later keeps its place ahead
      of its equals. */
  function InsertDesc<T>(x: T, s: seq<T>, score: T -> real): (r: seq<T>)
    ensures multiset(r) == multiset(s) + multiset{x}
    ensures |r| == |s| + 1
  {
    if |s| == 0 then [x]
    else if score(x) < score(s[0]) then
      assert s == [s[0]] + s[1..];
      [s[0]] + InsertDesc(x, s[1..], score)
    else [x] + s
  }

  /** The stable descending sort. */
  function SortDesc<T>(xs: seq<T>, score: T -> real): (r: seq<T>)
    ensures multiset(r) == multiset(xs)
    ensures |r| == |xs|
  {
    if |xs| == 0 then []
    else
      assert xs == [xs[0]] + xs[1..];
      InsertDesc(xs[0], SortDesc(xs[1..], score), score)
  }

  lemma {:induction false} InsertDescSorted<T>(x: T, s: seq<T>, score: T -> real)
    requires Descending(s, score)
    ensures Descending(InsertDesc(x, s, score), score)
  {
    if |s| > 0 && score(x) < score(s[0]) {
      var rest := InsertDesc(x, s[1..], score);
      InsertDescSorted(x, s[1..], score);
      assert multiset(rest) == multiset(s[1..]) + multiset{x};
      forall j | 0 <= j < |rest|
        ensures score(rest[j]) <= score(s[0])
      {
        assert rest[j] in multiset(rest);
        if rest[j] != x {
          assert rest[j] in multiset(s[1..]);
          var k :| 0 <= k < |s[1..]| && s[1..][k] == rest[j];
          assert s[k + 1] == rest[j];
        }
      }
    }
  }

  /** The output is in descending score order. */
  lemma {:induction false} SortDescSorted<T>(xs: seq<T>, score: T -> real)
    ensures Descending(SortDesc(xs, score), score)
  {
    if |xs| > 0 {
      SortDescSorted(xs[1..], score);
      InsertDescSorted(xs[0], SortDesc(xs[1..], score), score);
    }
  }

  /** The elements scoring `k`, in order. */
  function WithScore<T(!new)>(s: seq<T>, score: T -> real, k: real): seq<T> {
    Filter((y: T) => score(y) == k, s)
  }

  lemma WithScoreCons<T(!new)>(y: T, s: seq<T>, score: T -> real, k: real)
    ensures WithScore([y] + s, score, k) == (if score(y) == k then [y] else []) + WithScore(s, score, k)
  {
    assert ([y] + s)[1..] == s;
  }

  lemma {:induction false} InsertDescWithScore<T(!new)>(x: T, s: seq<T>, score: T -> real, k: real)
    ensures WithScore(InsertDesc(x, s, score), score, k) ==
            (if score(x) == k then [x] else []) + WithScore(s, score, k)
  {
    if |s| > 0 && score(x) < score(s[0]) {
      var rest := InsertDesc(x, s[1..], score);
      InsertDescWithScore(x, s[1..], score, k);
      assert InsertDesc(x, s, score) == [s[0]] + rest;
      WithScoreCons(s[0], rest, score, k);
      assert s == [s[0]] + s[1..];
      WithScoreCons(s[0], s[1..], score, k);
      var w := WithScore(s[1..], score, k);
      if score(s[0]) == k {
        assert WithScore(rest, score, k) == w;
        assert WithScore(s, score, k) == [s[0]] + w;
      } else if score(x) == k {
        assert WithScore(rest, score, k) == [x] + w;
        assert WithScore(s, score, k) == w;
      } else {
        assert WithScore(rest, score, k) == w;
        assert WithScore(s, score, k) == w;
      }
    } else {
      WithScoreCons(x, s, score, k);
    }
  }

  /** Stability: the elements of any one score come out in their input order. */
  lemma {:induction false} SortDescStable<T(!new)>(xs: seq<T>, score: T -> real, k: real)
    ensures WithScore(SortDesc(xs, score), score, k) == WithScore(xs, score, k)
  {
    if |xs| > 0 {
      SortDescStable(xs[1..], score, k);
      InsertDescWithScore(xs[0], SortDesc(xs[1..], score), score, k);
    }
  }
}
