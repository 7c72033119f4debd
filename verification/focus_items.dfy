/** The focus-item search: vector-store chunks folded into one item per class,
    function or file (or only the requested kind), ranked by score; directory
    searches go to the directory walk instead. */
module FocusItems {
  import opened Wrappers
  import opened Seqs
  import opened ScoreSort
  import opened SymbolTable
  import opened DirSearch
  import opened Autocomplete

  /** The kinds a focus search may ask for. */
  datatype KeywordType = Function | Class | File | Directory

  function KeywordTypeValue(t: KeywordType): string {
    match t
    case Function => "function"
    case Class => "class"
    case File => "file"
    case Directory => "directory"
  }

  /** A focus item: its kind, display value, path, the chunks behind it (none for a
      directory) and its score. */
  datatype FocusItem = FocusItem(kind: KeywordType, value: string, path: string,
                                 chunks: Option<seq<Chunk>>, score: real)

  /** The kinds one chunk is folded in under: the requested one, or classes,
      functions and the file, in that order, when none was requested. */
  function TypesToConsider(searchType: Option<KeywordType>): (r: seq<KeywordType>)
    ensures searchType.None? ==> r == [Class, Function, File]
    ensures searchType.Some? ==> r == [searchType.value]
  {
    if searchType.None? then [Class, Function, File] else [searchType.value]
  }

  /** The values a chunk yields under a kind: its classes, its functions, or else
      the basename of its file. */
  function PropertyValues(c: Chunk, t: KeywordType): (r: seq<string>)
    ensures t == Class ==> r == c.classes
    ensures t == Function ==> r == c.functions
    ensures t != Class && t != Function ==> r == [Basename(c.filePath)]
  {
    if t == Class then c.classes
    else if t == Function then c.functions
    else [Basename(c.filePath)]
  }

  function ItemKey(t: KeywordType, value: string, path: string): string {
    KeywordTypeValue(t) + "_" + value + "_" + path
  }

  /** The sightings of one chunk under one kind: each value seen once with the chunk
      and the chunk's score. */
  function KindSightings(c: Chunk, t: KeywordType): (r: seq<Sighting<KeywordType, Chunk>>)
    ensures |r| == |PropertyValues(c, t)|
    ensures forall i :: 0 <= i < |r| ==>
      var v := PropertyValues(c, t)[i];
      r[i] == Sighting(ItemKey(t, v, c.filePath), t, v, c.filePath, Some(c), ChunkScore(c))
  {
    Map((v: string) => Sighting(ItemKey(t, v, c.filePath), t, v, c.filePath, Some(c), ChunkScore(c)),
        PropertyValues(c, t))
  }

  /** `add_chunk_file_to_focus_item_map` for one chunk. */
  function ChunkSightings(c: Chunk, searchType: Option<KeywordType>): seq<Sighting<KeywordType, Chunk>> {
    Flatten(Map((t: KeywordType) => KindSightings(c, t), TypesToConsider(searchType)))
  }

  function Sightings(raw: seq<Chunk>, searchType: Option<KeywordType>): seq<Sighting<KeywordType, Chunk>> {
    Flatten(Map((c: Chunk) => ChunkSightings(c, searchType), raw))
  }

  function ToItem(e: SearchEntry<KeywordType, Chunk>): (r: FocusItem)
    ensures r.score == e.score && r.kind == e.kind && r.chunks == Some(e.chunks)
  {
    FocusItem(e.kind, e.value, e.path, Some(e.chunks), e.score)
  }

  function ItemScore(i: FocusItem): real { i.score }

  /** The folded map's items, in insertion order. */
  function MapItems(raw: seq<Chunk>, searchType: Option<KeywordType>): seq<FocusItem> {
    Map(ToItem, Values(AddAll(Sightings(raw, searchType))))
  }

  /** `get_focus_items`: the items of the folded map, highest score first, ties in
      insertion order. */
  function GetFocusItems(raw: seq<Chunk>, searchType: Option<KeywordType>): (r: seq<FocusItem>)
    ensures |r| == |AddAll(Sightings(raw, searchType))|
    ensures Descending(r, ItemScore)
    ensures multiset(r) == multiset(MapItems(raw, searchType))
  {
    SortDescSorted(MapItems(raw, searchType), ItemScore);
    SortDesc(MapItems(raw, searchType), ItemScore)
  }

  /** Items with equal scores keep the order the map received their keys in. */
  lemma GetFocusItemsStable(raw: seq<Chunk>, searchType: Option<KeywordType>, k: real)
    ensures WithScore(GetFocusItems(raw, searchType), ItemScore, k) ==
            WithScore(MapItems(raw, searchType), ItemScore, k)
  {
    SortDescStable(MapItems(raw, searchType), ItemScore, k);
  }

  lemma OneKind(c: Chunk, t: KeywordType)
    ensures ChunkSightings(c, Some(t)) == KindSightings(c, t)
  {
    var g := (k: KeywordType) => KindSightings(c, k);
    assert Map(g, [t]) == [KindSightings(c, t)];
    var one := [KindSightings(c, t)];
    assert one[1..] == [];
    assert Flatten(one) == KindSightings(c, t) + Flatten(one[1..]);
  }

  lemma SightingsCons(raw: seq<Chunk>, searchType: Option<KeywordType>)
    requires |raw| > 0
    ensures Sightings(raw, searchType) == ChunkSightings(raw[0], searchType) + Sightings(raw[1..], searchType)
  {
    var f := (c: Chunk) => ChunkSightings(c, searchType);
    assert Map(f, raw) == [f(raw[0])] + Map(f, raw[1..]);
  }

  /** The sightings of a keyed request are all of the requested kind. */
  lemma {:induction false} SightingsOfKind(raw: seq<Chunk>, t: KeywordType)
    ensures forall i :: 0 <= i < |Sightings(raw, Some(t))| ==> Sightings(raw, Some(t))[i].kind == t
  {
    if |raw| > 0 {
      SightingsOfKind(raw[1..], t);
      SightingsCons(raw, Some(t));
      OneKind(raw[0], t);
      var head, rest := KindSightings(raw[0], t), Sightings(raw[1..], Some(t));
      var all := Sightings(raw, Some(t));
      assert all == head + rest;
      forall i | 0 <= i < |all| ensures all[i].kind == t {
        if i >= |head| {
          assert all[i] == rest[i - |head|];
        }
      }
    }
  }

  /** Asking for one kind returns items of that kind only. */
  lemma RequestedKindOnly(raw: seq<Chunk>, t: KeywordType)
    ensures forall i :: i in GetFocusItems(raw, Some(t)) ==> i.kind == t
  {
    var ss := Sightings(raw, Some(t));
    SightingsOfKind(raw, t);
    AddAllKinds(ss, t);
    var items := MapItems(raw, Some(t));
    forall i | i in GetFocusItems(raw, Some(t)) ensures i.kind == t {
      assert i in multiset(items);
      var j :| 0 <= j < |items| && items[j] == i;
    }
  }

  /** Every sighting carries its chunk. */
  lemma {:induction false} SightingsCarryChunks(raw: seq<Chunk>, searchType: Option<KeywordType>)
    ensures forall s :: s in Sightings(raw, searchType) ==> s.chunk.Some?
  {
    if |raw| > 0 {
      SightingsCarryChunks(raw[1..], searchType);
      SightingsCons(raw, searchType);
      var c := raw[0];
      var ts := TypesToConsider(searchType);
      var g := (k: KeywordType) => KindSightings(c, k);
      forall s | s in ChunkSightings(c, searchType) ensures s.chunk.Some? {
        FlattenMember(Map(g, ts), s);
      }
    }
  }

  lemma {:induction false} FlattenMember<T>(ss: seq<seq<T>>, x: T)
    requires x in Flatten(ss)
    ensures exists k :: 0 <= k < |ss| && x in ss[k]
  {
    if x !in ss[0] {
      FlattenMember(ss[1..], x);
      var k :| 0 <= k < |ss[1..]| && x in ss[1..][k];
      assert x in ss[k + 1];
    }
  }

  /** Each item gathers every chunk that yielded its key, in order, and keeps the best
      of their scores. */
  lemma FocusItemEntry(raw: seq<Chunk>, searchType: Option<KeywordType>, key: string)
    ensures var ss := Sightings(raw, searchType);
            var e := Lookup(AddAll(ss), key);
            e == Expected(ss, key) &&
            (e.Some? ==>
              e.value.chunks == ChunksOf(SightingsOf(ss, key)) &&
              (forall s :: s in ss && s.key == key ==> s.score <= e.value.score) &&
              (exists s :: s in ss && s.key == key && s.score == e.value.score))
  {
    var ss := Sightings(raw, searchType);
    AddAllAgrees(ss, key);
    if Lookup(AddAll(ss), key).Some? {
      SightingsCarryChunks(raw, searchType);
      ExpectedScoreIsBest(ss, key);
    }
  }

  /** A directory hit as a focus item: no chunks and a score of 0.0. */
  function DirItem(d: DirEntry): (r: FocusItem)
    ensures r.kind == Directory && r.chunks.None? && r.score == 0.0
    ensures r.value == d.name && r.path == d.relPath
  {
    FocusItem(Directory, d.name, d.relPath, None, 0.0)
  }

  /** `search_directories` of the focus service: the shared directory search, as items. */
  function SearchDirectoryItems(keyword: string, walk: Result<seq<DirEntry>>): (r: seq<FocusItem>)
    ensures |r| == |SearchDirectories(keyword, walk)| && |r| <= MaxMatches
    ensures forall i :: 0 <= i < |r| ==> r[i] == DirItem(SearchDirectories(keyword, walk)[i])
  {
    if walk.Err? then []
    else
      SearchDirectoriesSpec(keyword, walk.value);
      Map(DirItem, SearchDirectories(keyword, walk))
  }

  /** `get_search_results`: a directory request goes to the directory search; any
      other goes to the store, whose failure leaves the empty result. */
  function GetSearchResults(searchType: Option<KeywordType>, keyword: string,
                            walk: Result<seq<DirEntry>>, search: Result<seq<Chunk>>): (r: seq<FocusItem>)
    ensures searchType == Some(Directory) ==> r == SearchDirectoryItems(keyword, walk)
    ensures searchType != Some(Directory) && search.Err? ==> r == []
    ensures searchType != Some(Directory) && search.Ok? ==> r == GetFocusItems(search.value, searchType)
  {
    if searchType == Some(Directory) then SearchDirectoryItems(keyword, walk)
    else if search.Err? then []
    else GetFocusItems(search.value, searchType)
  }
}
