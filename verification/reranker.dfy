/** The reranker: focused chunks are first removed from the relevant ones; then
    either the language model's chosen denotations filter the chunks, or the chunks
    are sorted by search score and cut to a configured maximum. The exclusion step,
    the model's answer and the maximum are parameters. */
module Reranker {
  import opened Seqs
  import opened ScoreSort
  import opened ChunkUtil

  function Score(c: ChunkInfo): real {
    c.searchScore
  }

  /** `get_default_chunks`: focus chunks then related chunks, stably sorted by
      descending score, cut to the first `maxChunks` (a Python slice bound). */
  function DefaultChunks(focus: seq<ChunkInfo>, related: seq<ChunkInfo>, maxChunks: int): (r: seq<ChunkInfo>)
    ensures maxChunks >= 0 ==> |r| == (if maxChunks <= |focus| + |related| then maxChunks else |focus| + |related|)
    ensures maxChunks < 0 ==> |r| == (if |focus| + |related| + maxChunks >= 0 then |focus| + |related| + maxChunks else 0)
    ensures Descending(r, Score)
    ensures multiset(r) <= multiset(focus + related)
    ensures maxChunks >= |focus| + |related| ==> multiset(r) == multiset(focus + related)
  {
    var sorted := SortDesc(focus + related, Score);
    SortDescSorted(focus + related, Score);
    var r := PyTake(sorted, maxChunks);
    assert |sorted| == |focus| + |related|;
    assert r == sorted[..|r|] && |r| == ClampIndex(maxChunks, |sorted|);
    TakeMultiset(sorted, |r|);
    r
  }

  lemma TakeMultiset<T>(s: seq<T>, n: nat)
    requires n <= |s|
    ensures multiset(s[..n]) <= multiset(s)
    ensures n == |s| ==> multiset(s[..n]) == multiset(s)
  {
    assert s == s[..n] + s[n..];
  }

  lemma {:induction false} WithScoreAppend(a: seq<ChunkInfo>, b: seq<ChunkInfo>, k: real)
    ensures WithScore(a + b, Score, k) == WithScore(a, Score, k) + WithScore(b, Score, k)
  {
    if |a| > 0 {
      assert (a + b)[1..] == a[1..] + b;
      assert (a + b)[0] == a[0];
      WithScoreAppend(a[1..], b, k);
    } else {
      assert a + b == b;
    }
  }

  lemma WithScorePrefix(s: seq<ChunkInfo>, n: nat, k: real)
    requires n <= |s|
    ensures var out := WithScore(s[..n], Score, k);
            |out| <= |WithScore(s, Score, k)| && out == WithScore(s, Score, k)[..|out|]
  {
    assert s == s[..n] + s[n..];
    WithScoreAppend(s[..n], s[n..], k);
  }

  /** The default chunks are a prefix of the sorted chunks. */
  lemma DefaultIsPrefix(focus: seq<ChunkInfo>, related: seq<ChunkInfo>, maxChunks: int)
    ensures var sorted := SortDesc(focus + related, Score);
            var r := DefaultChunks(focus, related, maxChunks);
            |r| <= |sorted| && r == sorted[..|r|]
  {
  }

  /** Stability: among chunks of one score the output is a prefix of the focus chunks
      of that score followed by the related chunks of that score, in input order. */
  lemma DefaultChunksStable(focus: seq<ChunkInfo>, related: seq<ChunkInfo>, maxChunks: int, k: real)
    ensures var tied := WithScore(focus, Score, k) + WithScore(related, Score, k);
            var out := WithScore(DefaultChunks(focus, related, maxChunks), Score, k);
            |out| <= |tied| && out == tied[..|out|]
  {
    var sorted := SortDesc(focus + related, Score);
    var r := DefaultChunks(focus, related, maxChunks);
    DefaultIsPrefix(focus, related, maxChunks);
    SortDescStable(focus + related, Score, k);
    WithScoreAppend(focus, related, k);
    WithScorePrefix(sorted, |r|, k);
  }

  /** `rerank`: `exclude` removes the focused chunks from the relevant ones, and
      `denotations` is the language model's answer when reranking with it. */
  function Rerank(relevant: seq<ChunkInfo>, focus: seq<ChunkInfo>, withModel: bool,
                  exclude: (seq<ChunkInfo>, seq<ChunkInfo>) -> seq<ChunkInfo>,
                  denotations: seq<string>, maxChunks: int): (r: seq<ChunkInfo>)
    ensures forall c :: c in r ==> c in exclude(relevant, focus) || c in focus
    ensures withModel ==> forall c :: c in r <==> (c in exclude(relevant, focus) || c in focus) && c.denotation in denotations
    ensures !withModel ==> Descending(r, Score)
  {
    var kept := exclude(relevant, focus);
    if withModel then FilterByDenotation(kept + focus, denotations)
    else
      var r := DefaultChunks(focus, kept, maxChunks);
      assert forall c :: c in r ==> c in multiset(focus + kept);
      r
  }

  /** With the model, the kept relevant chunks come first and the focus chunks after,
      each filtered in its own order. */
  lemma ModelBranchOrder(relevant: seq<ChunkInfo>, focus: seq<ChunkInfo>,
                         exclude: (seq<ChunkInfo>, seq<ChunkInfo>) -> seq<ChunkInfo>,
                         denotations: seq<string>, maxChunks: int)
    ensures Rerank(relevant, focus, true, exclude, denotations, maxChunks) ==
            FilterByDenotation(exclude(relevant, focus), denotations) + FilterByDenotation(focus, denotations)
  {
    FilterByDenotationAppend(exclude(relevant, focus), focus, denotations);
  }

  /** Without the model, the kept relevant chunks are what is ranked against the focus. */
  lemma DefaultBranch(relevant: seq<ChunkInfo>, focus: seq<ChunkInfo>,
                      exclude: (seq<ChunkInfo>, seq<ChunkInfo>) -> seq<ChunkInfo>,
                      denotations: seq<string>, maxChunks: int)
    ensures Rerank(relevant, focus, false, exclude, denotations, maxChunks) ==
            DefaultChunks(focus, exclude(relevant, focus), maxChunks)
  {
  }
}
