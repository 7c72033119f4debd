/** The keyed aggregation both search services build: a dictionary, in insertion
    order, from a string key to an entry that collects the chunks of every sighting
    of that key and keeps the highest score seen. A sighting without a chunk (a file
    entry) only creates the entry when its key is new. */
module SymbolTable {
  import opened Wrappers
  import opened Seqs
  import opened ScoreSort

  /** One aggregated item: its kind, display value and path (from the first sighting),
      the chunks of all sightings in order, and the best score. */
  datatype SearchEntry<K(!new), C(!new)> = SearchEntry(kind: K, value: string, path: string, chunks: seq<C>, score: real)

  /** One sighting of a key, with the chunk it was seen in (if it carries one) and
      that chunk's score. */
  datatype Sighting<K(!new), C(!new)> =
    Sighting(key: string, kind: K, value: string, path: string, chunk: Option<C>, score: real)

  /** A dictionary in insertion order. */
  type Table<K(!new), C(!new)> = seq<(string, SearchEntry<K, C>)>

  function Max(a: real, b: real): (m: real)
    ensures a <= m && b <= m && (m == a || m == b)
  {
    if a < b then b else a
  }

  /** The position of `key` in the table, or -1. */
  function IndexOf<K(!new), C(!new)>(t: Table<K, C>, key: string): (r: int)
    ensures -1 <= r < |t|
    ensures r >= 0 ==> t[r].0 == key && forall j :: 0 <= j < r ==> t[j].0 != key
    ensures r == -1 ==> forall j :: 0 <= j < |t| ==> t[j].0 != key
  {
    if |t| == 0 then -1
    else if t[0].0 == key then 0
    else
      var r := IndexOf(t[1..], key);
      if r == -1 then -1 else r + 1
  }

  function Lookup<K(!new), C(!new)>(t: Table<K, C>, key: string): (r: Option<SearchEntry<K, C>>)
    ensures r.None? <==> forall j :: 0 <= j < |t| ==> t[j].0 != key
  {
    var i := IndexOf(t, key);
    if i == -1 then None else Some(t[i].1)
  }

  /** The chunks a sighting contributes. */
  function ChunkList<C>(c: Option<C>): (r: seq<C>)
    ensures c.None? ==> r == [] 
    ensures c.Some? ==> r == [c.value]
  {
    if c.None? then [] else [c.value]
  }

  /** One sighting: a new key gets an entry with no chunks and the sighting's score;
      then a sighting with a chunk appends it and raises the score to the maximum,
      while one without leaves an existing entry alone. */
  function Add<K(!new), C(!new)>(t: Table<K, C>, s: Sighting<K, C>): (r: Table<K, C>)
    ensures IndexOf(t, s.key) == -1 ==> |r| == |t| + 1 && r[..|t|] == t
    ensures IndexOf(t, s.key) != -1 ==> |r| == |t|
    ensures forall j :: 0 <= j < |t| ==> r[j].0 == t[j].0
  {
    var i := IndexOf(t, s.key);
    if i == -1 then
      var created := SearchEntry(s.kind, s.value, s.path, [], s.score);
      match s.chunk
      case None => t + [(s.key, created)]
      case Some(c) =>
        t + [(s.key, created.(chunks := created.chunks + [c], score := Max(created.score, s.score)))]
    else
      var e := t[i].1;
      match s.chunk
      case None => t
      case Some(c) => t[i := (s.key, e.(chunks := e.chunks + [c], score := Max(e.score, s.score)))]
  }

  /** The table after the sightings, in order. */
  function AddAll<K(!new), C(!new)>(ss: seq<Sighting<K, C>>): Table<K, C>
  {
    if |ss| == 0 then [] else Add(AddAll(ss[..|ss| - 1]), ss[|ss| - 1])
  }

  /** The highest of a non-empty run of scores. */
  function MaxOf(s: seq<real>): (m: real)
    requires |s| > 0
    ensures forall i :: 0 <= i < |s| ==> s[i] <= m
    ensures exists i :: 0 <= i < |s| && s[i] == m
  {
    if |s| == 1 then s[0]
    else
      var m := Max(MaxOf(s[..|s| - 1]), s[|s| - 1]);
      assert forall i :: 0 <= i < |s| - 1 ==> s[i] == s[..|s| - 1][i];
      m
  }

  /** The sightings of `key`, in order. */
  function SightingsOf<K(!new), C(!new)>(ss: seq<Sighting<K, C>>, key: string): seq<Sighting<K, C>> {
    Filter((s: Sighting<K, C>) => s.key == key, ss)
  }

  /** The chunks the sightings carry, in order. */
  function ChunksOf<K(!new), C(!new)>(ss: seq<Sighting<K, C>>): seq<C> {
    if |ss| == 0 then [] else ChunksOf(ss[..|ss| - 1]) + ChunkList(ss[|ss| - 1].chunk)
  }

  /** The scores of the sightings that carry a chunk, in order. */
  function MergedScores<K(!new), C(!new)>(ss: seq<Sighting<K, C>>): seq<real> {
    if |ss| == 0 then []
    else
      var last := ss[|ss| - 1];
      MergedScores(ss[..|ss| - 1]) + (if last.chunk.Some? then [last.score] else [])
  }

  /** What the table should hold for `key`: nothing if it was never seen, else the
      first sighting's kind, value and path, every chunk its sightings carry, and the
      best of the first sighting's score and the scores of the chunk-carrying ones. */
  function Expected<K(!new), C(!new)>(ss: seq<Sighting<K, C>>, key: string): Option<SearchEntry<K, C>> {
    var seen := SightingsOf(ss, key);
    if |seen| == 0 then None
    else Some(SearchEntry(seen[0].kind, seen[0].value, seen[0].path, ChunksOf(seen),
                    MaxOf([seen[0].score] + MergedScores(seen))))
  }

  /** One sighting changes the entry of its own key only. */
  lemma LookupAdd<K(!new), C(!new)>(t: Table<K, C>, s: Sighting<K, C>, key: string)
    ensures key != s.key ==> Lookup(Add(t, s), key) == Lookup(t, key)
    ensures key == s.key && Lookup(t, key).None? ==>
      Lookup(Add(t, s), key) == Some(SearchEntry(s.kind, s.value, s.path, ChunkList(s.chunk), s.score))
    ensures key == s.key && Lookup(t, key).Some? ==>
      var e := Lookup(t, key).value;
      Lookup(Add(t, s), key) ==
        Some(if s.chunk.None? then e
             else e.(chunks := e.chunks + [s.chunk.value], score := Max(e.score, s.score)))
  {
    var r := Add(t, s);
    var i := IndexOf(t, s.key);
    if i == -1 {
      assert r[|t|].0 == s.key;
      if key != s.key {
        var k := IndexOf(t, key);
        if k == -1 {
          assert forall j :: 0 <= j < |r| ==> r[j].0 != key by {
            assert forall j :: 0 <= j < |t| ==> r[j] == t[j];
          }
        } else {
          assert IndexOf(r, key) == k by {
            assert forall j :: 0 <= j <= k ==> r[j] == t[j];
          }
        }
      } else {
        assert IndexOf(r, key) == |t| by {
          assert forall j :: 0 <= j < |t| ==> r[j] == t[j];
        }
        assert [] + ChunkList(s.chunk) == ChunkList(s.chunk);
        assert r[|t|].1 == SearchEntry(s.kind, s.value, s.path, ChunkList(s.chunk), s.score);
      }
    } else if s.chunk.Some? {
      assert IndexOf(r, s.key) == i by {
        assert forall j :: 0 <= j < |t| ==> r[j].0 == t[j].0;
      }
      if key != s.key {
        var k := IndexOf(t, key);
        assert forall j :: 0 <= j < |t| ==> r[j].0 == t[j].0;
        if k != -1 {
          assert IndexOf(r, key) == k;
          assert r[k] == t[k];
        }
      }
    }
  }

  lemma MaxOfSnoc(s: seq<real>, x: real)
    requires |s| > 0
    ensures MaxOf(s + [x]) == Max(MaxOf(s), x)
  {
    assert (s + [x])[..|s|] == s;
  }

  lemma SightingsOfSnoc<K(!new), C(!new)>(pre: seq<Sighting<K, C>>, s: Sighting<K, C>, key: string)
    ensures s.key == key ==> SightingsOf(pre + [s], key) == SightingsOf(pre, key) + [s]
    ensures s.key != key ==> SightingsOf(pre + [s], key) == SightingsOf(pre, key)
  {
    FilterAppend((x: Sighting<K, C>) => x.key == key, pre, [s]);
    assert SightingsOf(pre, key) + [] == SightingsOf(pre, key);
  }

  /** A later sighting of an already seen key adds its chunk and competes on score. */
  lemma ExpectedSnocSeen<K(!new), C(!new)>(pre: seq<Sighting<K, C>>, s: Sighting<K, C>)
    requires Expected(pre, s.key).Some?
    ensures var e := Expected(pre, s.key).value;
      Expected(pre + [s], s.key) ==
        Some(if s.chunk.None? then e
             else e.(chunks := e.chunks + [s.chunk.value], score := Max(e.score, s.score)))
  {
    var key := s.key;
    var seenPre := SightingsOf(pre, key);
    var seen := SightingsOf(pre + [s], key);
    SightingsOfSnoc(pre, s, key);
    assert seen == seenPre + [s];
    assert seen[..|seen| - 1] == seenPre;
    assert seen[0] == seenPre[0];
    ChunksSnoc(seenPre, s);
    var x := if s.chunk.Some? then Some(s.score) else None;
    assert (if s.chunk.Some? then [s.score] else []) == (if x.Some? then [x.value] else []);
    FirstScoreSnoc(seenPre[0].score, MergedScores(seenPre), x);
    assert [seen[0].score] + MergedScores(seen) ==
      [seenPre[0].score] + MergedScores(seenPre) + (if x.Some? then [x.value] else []);
    var e := Expected(pre, key).value;
    assert e.chunks == ChunksOf(seenPre);
    assert e.score == MaxOf([seenPre[0].score] + MergedScores(seenPre));
    if s.chunk.Some? {
      assert Expected(pre + [s], key).value ==
        e.(chunks := e.chunks + [s.chunk.value], score := Max(e.score, s.score));
    } else {
      assert Expected(pre + [s], key).value == e;
    }
  }

  /** The reference after one more sighting, in the shape of `LookupAdd`. */
  lemma ExpectedSnoc<K(!new), C(!new)>(pre: seq<Sighting<K, C>>, s: Sighting<K, C>, key: string)
    ensures key != s.key ==> Expected(pre + [s], key) == Expected(pre, key)
    ensures key == s.key && Expected(pre, key).None? ==>
      Expected(pre + [s], key) == Some(SearchEntry(s.kind, s.value, s.path, ChunkList(s.chunk), s.score))
    ensures key == s.key && Expected(pre, key).Some? ==>
      var e := Expected(pre, key).value;
      Expected(pre + [s], key) ==
        Some(if s.chunk.None? then e
             else e.(chunks := e.chunks + [s.chunk.value], score := Max(e.score, s.score)))
  {
    SightingsOfSnoc(pre, s, key);
    if s.key == key {
      if Expected(pre, key).Some? {
        ExpectedSnocSeen(pre, s);
      } else {
        SingleSighting(s);
        assert SightingsOf(pre + [s], key) == [s];
      }
    }
  }

  lemma ChunksSnoc<K(!new), C(!new)>(ss: seq<Sighting<K, C>>, s: Sighting<K, C>)
    ensures ChunksOf(ss + [s]) == ChunksOf(ss) + ChunkList(s.chunk)
    ensures MergedScores(ss + [s]) == MergedScores(ss) + (if s.chunk.Some? then [s.score] else [])
  {
    assert (ss + [s])[..|ss|] == ss;
  }

  lemma FirstScoreSnoc(first: real, merged: seq<real>, x: Option<real>)
    ensures MaxOf([first] + merged + (if x.Some? then [x.value] else [])) ==
      (if x.None? then MaxOf([first] + merged) else Max(MaxOf([first] + merged), x.value))
  {
    if x.Some? {
      MaxOfSnoc([first] + merged, x.value);
    } else {
      assert [first] + merged + [] == [first] + merged;
    }
  }

  lemma SingleSighting<K(!new), C(!new)>(s: Sighting<K, C>)
    ensures ChunksOf([s]) == ChunkList(s.chunk)
    ensures MaxOf([s.score] + MergedScores([s])) == s.score
  {
    assert [s][..0] == [];
    if s.chunk.Some? {
      assert [s.score] + MergedScores([s]) == [s.score] + [s.score];
      MaxOfSnoc([s.score], s.score);
    } else {
      assert [s.score] + MergedScores([s]) == [s.score];
    }
  }

  /** The table agrees with the reference for every key. */
  lemma {:induction false} AddAllAgrees<K(!new), C(!new)>(ss: seq<Sighting<K, C>>, key: string)
    ensures Lookup(AddAll(ss), key) == Expected(ss, key)
  {
    if |ss| > 0 {
      var pre, s := ss[..|ss| - 1], ss[|ss| - 1];
      assert ss == pre + [s];
      AddAllAgrees(pre, key);
      LookupAdd(AddAll(pre), s, key);
      ExpectedSnoc(pre, s, key);
    }
  }

  /** Sightings without chunks contribute neither chunks nor scores to merge. */
  lemma {:induction false} NoChunks<K(!new), C(!new)>(ss: seq<Sighting<K, C>>)
    requires forall i :: 0 <= i < |ss| ==> ss[i].chunk.None?
    ensures ChunksOf(ss) == [] && MergedScores(ss) == []
  {
    if |ss| > 0 {
      NoChunks(ss[..|ss| - 1]);
    }
  }

  /** The merged scores are exactly the scores of the chunk-carrying sightings. */
  lemma {:induction false} MergedScoresMembers<K(!new), C(!new)>(ss: seq<Sighting<K, C>>)
    ensures forall x :: x in MergedScores(ss) ==> exists s :: s in ss && s.chunk.Some? && s.score == x
    ensures forall s :: s in ss && s.chunk.Some? ==> s.score in MergedScores(ss)
  {
    if |ss| > 0 {
      var pre, last := ss[..|ss| - 1], ss[|ss| - 1];
      MergedScoresMembers(pre);
      assert ss == pre + [last];
      assert forall s :: s in pre ==> s in ss;
    }
  }

  /** When every sighting of `key` carries a chunk, the entry's score is the best of
      their scores. */
  lemma ExpectedScoreIsBest<K(!new), C(!new)>(ss: seq<Sighting<K, C>>, key: string)
    requires Expected(ss, key).Some?
    requires forall s :: s in ss && s.key == key ==> s.chunk.Some?
    ensures var e := Expected(ss, key).value;
            (forall s :: s in ss && s.key == key ==> s.score <= e.score) &&
            (exists s :: s in ss && s.key == key && s.score == e.score)
  {
    var seen := SightingsOf(ss, key);
    var all := [seen[0].score] + MergedScores(seen);
    var e := Expected(ss, key).value;
    MergedScoresMembers(seen);
    assert seen[0] in seen;
    forall s | s in ss && s.key == key
      ensures s.score <= e.score
    {
      assert s in seen;
      assert s.score in MergedScores(seen);
      assert s.score in all;
    }
    var k :| 0 <= k < |all| && all[k] == e.score;
    if k > 0 {
      assert all[k] in MergedScores(seen);
    }
  }

  /** No key occurs twice in the table. */
  lemma {:induction false} AddAllUnique<K(!new), C(!new)>(ss: seq<Sighting<K, C>>)
    ensures forall i, j :: 0 <= i < j < |AddAll(ss)| ==> AddAll(ss)[i].0 != AddAll(ss)[j].0
  {
    if |ss| > 0 {
      var pre, s := ss[..|ss| - 1], ss[|ss| - 1];
      AddAllUnique(pre);
    }
  }

  /** When every sighting is of one kind, so is every entry. */
  lemma {:induction false} AddAllKinds<K(!new), C(!new)>(ss: seq<Sighting<K, C>>, kind: K)
    requires forall i :: 0 <= i < |ss| ==> ss[i].kind == kind
    ensures forall j :: 0 <= j < |AddAll(ss)| ==> AddAll(ss)[j].1.kind == kind
  {
    if |ss| > 0 {
      var pre := ss[..|ss| - 1];
      AddAllKinds(pre, kind);
    }
  }

  /** The entries, in insertion order. */
  function Values<K(!new), C(!new)>(t: Table<K, C>): (r: seq<SearchEntry<K, C>>)
    ensures |r| == |t| && forall i :: 0 <= i < |t| ==> r[i] == t[i].1
  {
    Map((p: (string, SearchEntry<K, C>)) => p.1, t)
  }

  function EntryScore<K(!new), C(!new)>(e: SearchEntry<K, C>): real { e.score }

  /** `sorted(table.values(), key=score, reverse=True)`. */
  function Ranked<K(!new), C(!new)>(t: Table<K, C>): (r: seq<SearchEntry<K, C>>)
    ensures multiset(r) == multiset(Values(t))
    ensures Descending(r, EntryScore)
  {
    SortDescSorted(Values(t), EntryScore);
    SortDesc(Values(t), EntryScore)
  }
}
