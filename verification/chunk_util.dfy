/** The chunk helpers of the utilities module: serialising chunks, taking their
    contents, and keeping the chunks whose denotation is in a list. */
module ChunkUtil {
  import opened Seqs

  /** A code chunk; only the fields the services look at are modelled. */
  datatype ChunkInfo = ChunkInfo(content: string, denotation: string, searchScore: real)

  /** `jsonify_chunks`: one dump per chunk, in order; the dump is a parameter. */
  function JsonifyChunks<J>(chunks: seq<ChunkInfo>, dump: ChunkInfo -> J): (r: seq<J>)
    ensures |r| == |chunks|
    ensures forall i :: 0 <= i < |r| ==> r[i] == dump(chunks[i])
  {
    Map(dump, chunks)
  }

  /** `chunks_content`. */
  function ChunksContent(chunks: seq<ChunkInfo>): (r: seq<string>)
    ensures |r| == |chunks|
    ensures forall i :: 0 <= i < |r| ==> r[i] == chunks[i].content
  {
    Map((c: ChunkInfo) => c.content, chunks)
  }

  /** `filter_chunks_by_denotation`: the chunks whose denotation is listed, in the
      chunks' own order. */
  function FilterByDenotation(chunks: seq<ChunkInfo>, denotations: seq<string>): (r: seq<ChunkInfo>)
    ensures |r| <= |chunks|
    ensures forall c :: c in r <==> c in chunks && c.denotation in denotations
  {
    Filter((c: ChunkInfo) => c.denotation in denotations, chunks)
  }

  /** Only which denotations are listed matters, not their order or repetition. */
  lemma {:induction false} DenotationOrderIrrelevant(chunks: seq<ChunkInfo>, d1: seq<string>, d2: seq<string>)
    requires forall d :: d in d1 <==> d in d2
    ensures FilterByDenotation(chunks, d1) == FilterByDenotation(chunks, d2)
  {
    if |chunks| > 0 {
      DenotationOrderIrrelevant(chunks[1..], d1, d2);
    }
  }

  /** Filtering a concatenation filters each part, keeping the parts in order. */
  lemma FilterByDenotationAppend(a: seq<ChunkInfo>, b: seq<ChunkInfo>, denotations: seq<string>)
    ensures FilterByDenotation(a + b, denotations) == FilterByDenotation(a, denotations) + FilterByDenotation(b, denotations)
  {
    FilterAppend((c: ChunkInfo) => c.denotation in denotations, a, b);
  }

  predicate InOrder(chunks: seq<ChunkInfo>, x: ChunkInfo, y: ChunkInfo) {
    exists a, b :: 0 <= a < b < |chunks| && chunks[a] == x && chunks[b] == y
  }

  lemma InOrderTail(chunks: seq<ChunkInfo>, x: ChunkInfo, y: ChunkInfo)
    requires |chunks| > 0 && InOrder(chunks[1..], x, y)
    ensures InOrder(chunks, x, y)
  {
    var a, b :| 0 <= a < b < |chunks[1..]| && chunks[1..][a] == x && chunks[1..][b] == y;
    assert chunks[a + 1] == x && chunks[b + 1] == y;
  }

  lemma InOrderHead(chunks: seq<ChunkInfo>, y: ChunkInfo)
    requires |chunks| > 0 && y in chunks[1..]
    ensures InOrder(chunks, chunks[0], y)
  {
    var b :| 0 <= b < |chunks[1..]| && chunks[1..][b] == y;
    assert chunks[b + 1] == y;
  }

  lemma FilterByDenotationCons(chunks: seq<ChunkInfo>, denotations: seq<string>)
    requires |chunks| > 0
    ensures var rest := FilterByDenotation(chunks[1..], denotations);
            FilterByDenotation(chunks, denotations) ==
              if chunks[0].denotation in denotations then [chunks[0]] + rest else rest
  {
  }

  /** A chunk kept ahead of another was ahead of it in the input, too. */
  lemma {:induction false} FilterKeepsOrder(chunks: seq<ChunkInfo>, denotations: seq<string>, i: nat, j: nat)
    requires i < j < |FilterByDenotation(chunks, denotations)|
    ensures InOrder(chunks, FilterByDenotation(chunks, denotations)[i], FilterByDenotation(chunks, denotations)[j])
  {
    var r := FilterByDenotation(chunks, denotations);
    var rest := FilterByDenotation(chunks[1..], denotations);
    FilterByDenotationCons(chunks, denotations);
    if chunks[0].denotation in denotations {
      if i == 0 {
        assert r[j] == rest[j - 1];
        InOrderHead(chunks, r[j]);
      } else {
        FilterKeepsOrder(chunks[1..], denotations, i - 1, j - 1);
        InOrderTail(chunks, r[i], r[j]);
      }
    } else {
      FilterKeepsOrder(chunks[1..], denotations, i, j);
      InOrderTail(chunks, r[i], r[j]);
    }
  }
}
