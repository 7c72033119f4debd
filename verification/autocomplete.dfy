/** The autocomplete search service: vector-store chunks sorted by score, folded
    into one code symbol per class, function or file, ranked by score and turned
    into response dictionaries. The vector store queries and the directory walk are
    inputs; what the service does with their answers is modelled. */
module Autocomplete {
  import opened Wrappers
  import opened Seqs
  import opened Strings
  import opened ScoreSort
  import opened SymbolTable
  import opened Json
  import opened DirSearch

  /** A chunk's line range. */
  datatype ChunkRange = ChunkRange(startLine: int, endLine: int)

  /** One chunk the vector store returns: its file, lines, the classes and functions
      it declares, and its search score when the answer carries one. */
  datatype Chunk = Chunk(
    filePath: string,
    startLine: int,
    endLine: int,
    classes: seq<string>,
    functions: seq<string>,
    score: Option<real>)

  /** A code symbol in the response: its type, display value, path, chunk ranges and
      score. */
  type CodeSymbol = SearchEntry<string, ChunkRange>

  /** The keyword types a search may ask for. */
  const ValidTypes: set<string> := {"file", "class", "function", "directory"}

  /** The chunk properties a symbol search reads. */
  datatype Property = FilePath | Classes | Functions

  function PropertyName(p: Property): string {
    match p
    case FilePath => "file_path"
    case Classes => "classes"
    case Functions => "functions"
  }

  /** The score a chunk sorts and aggregates by: a missing score counts as 0.0. */
  function ChunkScore(c: Chunk): (r: real)
    ensures c.score.None? ==> r == 0.0
    ensures c.score.Some? ==> r == c.score.value
  {
    c.score.GetOr(0.0)
  }

  /** `sort_chunks`: the chunks by score, highest first, ties in their given order. */
  function SortChunks(chunks: seq<Chunk>): (r: seq<Chunk>)
    ensures multiset(r) == multiset(chunks)
    ensures Descending(r, ChunkScore)
  {
    SortDescSorted(chunks, ChunkScore);
    SortDesc(chunks, ChunkScore)
  }

  /** Chunks with equal scores keep their relative order. */
  lemma SortChunksStable(chunks: seq<Chunk>, k: real)
    ensures WithScore(SortChunks(chunks), ChunkScore, k) == WithScore(chunks, ChunkScore, k)
  {
    SortDescStable(chunks, ChunkScore, k);
  }

  function Basename(path: string): (r: string)
    ensures '/' !in r
    ensures '/' !in path ==> r == path
  {
    LastSegment(path, '/')
  }

  function RangeOf(c: Chunk): ChunkRange {
    ChunkRange(c.startLine, c.endLine)
  }

  /** The key of a symbol of some type declared in some file. */
  function SymbolKey(symbolType: string, name: string, path: string): string {
    symbolType + "_" + name + "_" + path
  }

  /** The sightings `add_symbols_to_map` makes for one chunk: each named symbol is
      seen once, with the chunk's range and score. */
  function SymbolSightings(symbolType: string, names: seq<string>, c: Chunk): (r: seq<Sighting<string, ChunkRange>>)
    ensures |r| == |names|
    ensures forall i :: 0 <= i < |r| ==>
      r[i] == Sighting(SymbolKey(symbolType, names[i], c.filePath), symbolType, names[i], c.filePath,
                       Some(RangeOf(c)), ChunkScore(c))
  {
    Map((n: string) => Sighting(SymbolKey(symbolType, n, c.filePath), symbolType, n, c.filePath,
                                Some(RangeOf(c)), ChunkScore(c)), names)
  }

  /** A file entry under `key`: the basename, no chunks, the chunk's score, made only
      when the key is new. */
  function FileSighting(key: string, symbolType: string, c: Chunk): Sighting<string, ChunkRange> {
    Sighting(key, symbolType, Basename(c.filePath), c.filePath, None, ChunkScore(c))
  }

  function Symbols(c: Chunk, p: Property): seq<string> {
    match p
    case FilePath => []
    case Classes => c.classes
    case Functions => c.functions
  }

  /** The sightings `format_results` makes: one file entry keyed by path per chunk for
      the path property, else the chunk's symbols of that property. */
  function FormatSightings(chunks: seq<Chunk>, p: Property, symbolType: string): (r: seq<Sighting<string, ChunkRange>>)
    ensures p == FilePath ==> |r| == |chunks|
    ensures p == FilePath ==> forall i :: 0 <= i < |r| ==> r[i] == FileSighting(chunks[i].filePath, symbolType, chunks[i])
  {
    if p == FilePath then Map((c: Chunk) => FileSighting(c.filePath, symbolType, c), chunks)
    else Flatten(Map((c: Chunk) => SymbolSightings(symbolType, Symbols(c, p), c), chunks))
  }

  /** The code symbols `format_results` builds, highest score first. */
  function FormatSymbols(chunks: seq<Chunk>, p: Property, symbolType: string): (r: seq<CodeSymbol>)
    ensures multiset(r) == multiset(Values(AddAll(FormatSightings(chunks, p, symbolType))))
    ensures Descending(r, EntryScore)
  {
    Ranked(AddAll(FormatSightings(chunks, p, symbolType)))
  }

  /** With the path property, a path's entry exists exactly when some chunk lies in
      that file, and it holds the basename, no chunks and the score of the file's
      first chunk. */
  lemma FormatFileEntry(chunks: seq<Chunk>, symbolType: string, path: string)
    ensures var mine := Filter((c: Chunk) => c.filePath == path, chunks);
            Lookup(AddAll(FormatSightings(chunks, FilePath, symbolType)), path) ==
              if |mine| == 0 then None
              else Some(SearchEntry(symbolType, Basename(path), path, [], ChunkScore(mine[0])))
  {
    var ss := FormatSightings(chunks, FilePath, symbolType);
    AddAllAgrees(ss, path);
    FileSightingsOf(chunks, symbolType, path);
    var seen := SightingsOf(ss, path);
    NoChunks(seen);
    var mine := Filter((c: Chunk) => c.filePath == path, chunks);
    if |mine| > 0 {
      assert mine[0] in mine;
      assert seen[0] == FileSighting(path, symbolType, mine[0]);
      assert [seen[0].score] + MergedScores(seen) == [ChunkScore(mine[0])];
    }
  }

  /** The sightings of a path, in the path-property case, are that file's chunks. */
  lemma {:induction false} FileSightingsOf(chunks: seq<Chunk>, symbolType: string, path: string)
    ensures var mine := Filter((c: Chunk) => c.filePath == path, chunks);
            SightingsOf(FormatSightings(chunks, FilePath, symbolType), path) ==
              Map((c: Chunk) => FileSighting(c.filePath, symbolType, c), mine)
  {
    if |chunks| > 0 {
      FileSightingsOf(chunks[1..], symbolType, path);
      var ss := FormatSightings(chunks, FilePath, symbolType);
      assert ss == [FileSighting(chunks[0].filePath, symbolType, chunks[0])] + FormatSightings(chunks[1..], FilePath, symbolType);
    }
  }

  /** In a descending sequence, the first element that satisfies `p` scores at least
      as high as every other one that does. */
  lemma FirstMatchIsBest<T(!new)>(p: T -> bool, s: seq<T>, score: T -> real)
    requires Descending(s, score) && |Filter(p, s)| > 0
    ensures forall x :: x in s && p(x) ==> score(x) <= score(Filter(p, s)[0])
  {
    FilterHead(p, s);
    var i :| 0 <= i < |s| && Filter(p, s)[0] == s[i] && p(s[i]) &&
             forall j :: 0 <= j < i ==> !p(s[j]);
    forall x | x in s && p(x)
      ensures score(x) <= score(s[i])
    {
      var j :| 0 <= j < |s| && s[j] == x;
      assert j >= i;
    }
  }

  /** Fed sorted chunks, the score a file entry keeps is the best of its file's
      chunk scores. */
  lemma FormatFileScoreIsBest(raw: seq<Chunk>, symbolType: string, path: string)
    ensures var chunks := SortChunks(raw);
            var e := Lookup(AddAll(FormatSightings(chunks, FilePath, symbolType)), path);
            e.Some? ==> forall c :: c in raw && c.filePath == path ==> ChunkScore(c) <= e.value.score
  {
    var chunks := SortChunks(raw);
    FormatFileEntry(chunks, symbolType, path);
    var p := (c: Chunk) => c.filePath == path;
    if |Filter(p, chunks)| > 0 {
      FirstMatchIsBest(p, chunks, ChunkScore);
      forall c | c in raw
        ensures c in chunks
      {
        assert c in multiset(raw);
      }
    }
  }

  /** With a symbol property, every sighting of a key carries a chunk, so the entry's
      score is the best score among the chunks that named the symbol. */
  lemma FormatSymbolScoreIsBest(chunks: seq<Chunk>, p: Property, symbolType: string, key: string)
    requires p != FilePath
    ensures var ss := FormatSightings(chunks, p, symbolType);
            var e := Lookup(AddAll(ss), key);
            e.Some? ==>
              (forall s :: s in ss && s.key == key ==> s.score <= e.value.score) &&
              (exists s :: s in ss && s.key == key && s.score == e.value.score)
  {
    var ss := FormatSightings(chunks, p, symbolType);
    AddAllAgrees(ss, key);
    if Lookup(AddAll(ss), key).Some? {
      SymbolSightingsCarryChunks(chunks, p, symbolType);
      ExpectedScoreIsBest(ss, key);
    }
  }

  lemma {:induction false} SymbolSightingsCarryChunks(chunks: seq<Chunk>, p: Property, symbolType: string)
    requires p != FilePath
    ensures forall s :: s in FormatSightings(chunks, p, symbolType) ==> s.chunk.Some?
  {
    if |chunks| > 0 {
      SymbolSightingsCarryChunks(chunks[1..], p, symbolType);
      var f := (c: Chunk) => SymbolSightings(symbolType, Symbols(c, p), c);
      assert Map(f, chunks) == [f(chunks[0])] + Map(f, chunks[1..]);
    }
  }

  /** The key is not injective: a symbol whose name ends in "_" plus a path prefix
      shares its key with another symbol in another file, and the two are merged. */
  lemma KeyCollision()
    ensures SymbolKey("class", "a", "b_c.py") == SymbolKey("class", "a_b", "c.py")
  {
  }

  /** The sightings `get_autocomplete_keyword_chunks` makes for one chunk: its
      classes, its functions, then its file under "file_" and the path. */
  function ChunkSightings(c: Chunk): seq<Sighting<string, ChunkRange>> {
    SymbolSightings("class", c.classes, c) + SymbolSightings("function", c.functions, c)
      + [FileSighting("file_" + c.filePath, "file", c)]
  }

  function KeywordSightings(chunks: seq<Chunk>): seq<Sighting<string, ChunkRange>> {
    Flatten(Map(ChunkSightings, chunks))
  }

  /** No class or function key is ever a file key, so the set of files seen so far
      and the presence of a file key in the map are the same test. */
  lemma FileKeysApart(symbolType: string, name: string, path: string, file: string)
    requires symbolType == "class" || symbolType == "function"
    ensures SymbolKey(symbolType, name, path) != "file_" + file
  {
    var k := SymbolKey(symbolType, name, path);
    if symbolType == "class" {
      assert k[0] == 'c';
    } else {
      assert k[1] == 'u';
    }
  }

  /** A chunk's class or function sightings hold no file key. */
  lemma SymbolSightingsNoFile(symbolType: string, names: seq<string>, c: Chunk, path: string)
    requires symbolType == "class" || symbolType == "function"
    ensures SightingsOf(SymbolSightings(symbolType, names, c), "file_" + path) == []
  {
    var a := SymbolSightings(symbolType, names, c);
    forall s | s in a ensures s.key != "file_" + path {
      var i :| 0 <= i < |a| && a[i] == s;
      FileKeysApart(symbolType, names[i], c.filePath, path);
    }
    NothingKept((s: Sighting<string, ChunkRange>) => s.key == "file_" + path, a);
  }

  lemma ChunkSightingsOfFile(c: Chunk, path: string)
    ensures SightingsOf(ChunkSightings(c), "file_" + path) ==
            (if c.filePath == path then [FileSighting("file_" + c.filePath, "file", c)] else [])
  {
    var p := (s: Sighting<string, ChunkRange>) => s.key == "file_" + path;
    var a, b := SymbolSightings("class", c.classes, c), SymbolSightings("function", c.functions, c);
    var f := [FileSighting("file_" + c.filePath, "file", c)];
    FilterAppend(p, a + b, f);
    FilterAppend(p, a, b);
    SymbolSightingsNoFile("class", c.classes, c, path);
    SymbolSightingsNoFile("function", c.functions, c, path);
    if c.filePath != path {
      assert ("file_" + c.filePath)[5..] == c.filePath;
      assert ("file_" + path)[5..] == path;
    }
  }

  lemma NothingKept<T(!new)>(p: T -> bool, s: seq<T>)
    requires forall x :: x in s ==> !p(x)
    ensures Filter(p, s) == []
  {
  }

  lemma {:induction false} KeywordFileSightings(chunks: seq<Chunk>, path: string)
    ensures SightingsOf(KeywordSightings(chunks), "file_" + path) ==
            Map((c: Chunk) => FileSighting("file_" + c.filePath, "file", c),
                Filter((c: Chunk) => c.filePath == path, chunks))
  {
    if |chunks| > 0 {
      KeywordFileSightings(chunks[1..], path);
      var m := Map(ChunkSightings, chunks);
      assert m == [ChunkSightings(chunks[0])] + Map(ChunkSightings, chunks[1..]);
      assert KeywordSightings(chunks) == ChunkSightings(chunks[0]) + KeywordSightings(chunks[1..]);
      FilterAppend((s: Sighting<string, ChunkRange>) => s.key == "file_" + path,
                   ChunkSightings(chunks[0]), KeywordSightings(chunks[1..]));
      ChunkSightingsOfFile(chunks[0], path);
    }
  }

  /** In the keyword search, a file's entry exists exactly when one of its chunks was
      returned, and holds the basename, no chunks and the score of its first chunk. */
  lemma KeywordFileEntry(chunks: seq<Chunk>, path: string)
    ensures var mine := Filter((c: Chunk) => c.filePath == path, chunks);
            Lookup(AddAll(KeywordSightings(chunks)), "file_" + path) ==
              if |mine| == 0 then None
              else Some(SearchEntry("file", Basename(path), path, [], ChunkScore(mine[0])))
  {
    var ss := KeywordSightings(chunks);
    AddAllAgrees(ss, "file_" + path);
    KeywordFileSightings(chunks, path);
    var seen := SightingsOf(ss, "file_" + path);
    NoChunks(seen);
    var mine := Filter((c: Chunk) => c.filePath == path, chunks);
    if |mine| > 0 {
      assert mine[0] in mine;
      assert seen[0] == FileSighting("file_" + path, "file", mine[0]);
      assert [seen[0].score] + MergedScores(seen) == [ChunkScore(mine[0])];
    }
  }

  /** One chunk range as a response dictionary. */
  function RangeJson(r: ChunkRange): Json {
    JObject(map["start_line" := JInt(r.startLine), "end_line" := JInt(r.endLine)])
  }

  function RangeFromJson(j: Json): Option<ChunkRange> {
    if j.JObject? && "start_line" in j.fields && "end_line" in j.fields
       && j.fields["start_line"].JInt? && j.fields["end_line"].JInt?
    then Some(ChunkRange(j.fields["start_line"].i, j.fields["end_line"].i))
    else None
  }

  function RangesFromJson(js: seq<Json>): (r: Option<seq<ChunkRange>>)
    ensures r.Some? ==> |r.value| == |js|
  {
    if |js| == 0 then Some([])
    else
      match RangeFromJson(js[0])
      case None => None
      case Some(c) =>
        match RangesFromJson(js[1..])
        case None => None
        case Some(rest) => Some([c] + rest)
  }

  /** `CodeSymbol.to_dict`: exactly the type, value, path and chunk ranges; the score
      is not part of it. */
  function ToDict(e: CodeSymbol): (r: map<string, Json>)
    ensures r.Keys == {"type", "value", "path", "chunks"}
    ensures r["chunks"].JList? && |r["chunks"].items| == |e.chunks|
  {
    map["type" := JStr(e.kind), "value" := JStr(e.value), "path" := JStr(e.path),
        "chunks" := JList(Map(RangeJson, e.chunks))]
  }

  /** Reads a symbol back from its dictionary, given the score it left out. */
  function FromDict(m: map<string, Json>, score: real): Option<CodeSymbol> {
    if "type" in m && "value" in m && "path" in m && "chunks" in m
       && m["type"].JStr? && m["value"].JStr? && m["path"].JStr? && m["chunks"].JList?
    then
      match RangesFromJson(m["chunks"].items)
      case None => None
      case Some(cs) => Some(SearchEntry(m["type"].s, m["value"].s, m["path"].s, cs, score))
    else None
  }

  lemma {:induction false} RangesRoundTrip(cs: seq<ChunkRange>)
    ensures RangesFromJson(Map(RangeJson, cs)) == Some(cs)
  {
    if |cs| > 0 {
      RangesRoundTrip(cs[1..]);
      var js := Map(RangeJson, cs);
      assert js[1..] == Map(RangeJson, cs[1..]);
      assert js[0] == RangeJson(cs[0]);
      assert RangeFromJson(js[0]) == Some(cs[0]);
      assert cs == [cs[0]] + cs[1..];
    }
  }

  /** The dictionary holds everything but the score: reading it back with the score
      gives the symbol, and two symbols that differ only in score give one dictionary. */
  lemma ToDictRoundTrip(e: CodeSymbol, score: real)
    ensures FromDict(ToDict(e), e.score) == Some(e)
    ensures ToDict(e.(score := score)) == ToDict(e)
  {
    RangesRoundTrip(e.chunks);
  }

  /** `get_autocomplete_keyword_chunks`: the chunks sorted, folded into symbols and file
      entries, ranked by score and serialised. */
  function KeywordSymbols(raw: seq<Chunk>): (r: seq<CodeSymbol>)
    ensures multiset(r) == multiset(Values(AddAll(KeywordSightings(SortChunks(raw)))))
    ensures Descending(r, EntryScore)
  {
    Ranked(AddAll(KeywordSightings(SortChunks(raw))))
  }

  function KeywordChunks(raw: seq<Chunk>): (r: Json)
    ensures r.JObject? && r.fields.Keys == {"response"}
    ensures r.fields["response"] == JList(Map((e: CodeSymbol) => JObject(ToDict(e)), KeywordSymbols(raw)))
  {
    JObject(map["response" := JList(Map((e: CodeSymbol) => JObject(ToDict(e)), KeywordSymbols(raw)))])
  }

  /** `TYPE_CONFIG`: the property to read and the result type of each symbol search. */
  function Config(searchType: string): (r: Option<(Property, string)>)
    ensures r.Some? <==> searchType in {"file", "class", "function"}
    ensures r.Some? ==> r.value.1 == searchType
  {
    if searchType == "file" then Some((FilePath, "file"))
    else if searchType == "class" then Some((Classes, "class"))
    else if searchType == "function" then Some((Functions, "function"))
    else None
  }

  /** `search_by_type`: the chunks sorted and formatted by the type's configuration;
      a type without one gives no results. */
  function SearchByType(searchType: string, raw: seq<Chunk>): (r: seq<Json>)
    ensures Config(searchType).None? ==> r == []
    ensures Config(searchType).Some? ==> var (p, t) := Config(searchType).value;
            r == Map((e: CodeSymbol) => JObject(ToDict(e)), FormatSymbols(SortChunks(raw), p, t))
  {
    match Config(searchType)
    case None => []
    case Some((p, t)) => Map((e: CodeSymbol) => JObject(ToDict(e)), FormatSymbols(SortChunks(raw), p, t))
  }

  function DirJson(d: DirEntry): Json {
    JObject(map["type" := JStr("directory"), "value" := JStr(d.name), "path" := JStr(d.relPath)])
  }

  /** `get_autocomplete_keyword_type_chunks`: an unknown type answers an empty
      response; "directory" answers the directory search; any other type the symbol
      search over the chunks the store returned. */
  function KeywordTypeChunks(searchType: string, keyword: string, raw: seq<Chunk>,
                             walk: Result<seq<DirEntry>>): (r: Json)
    ensures r.JObject? && r.fields.Keys == {"response"} && r.fields["response"].JList?
    ensures searchType !in ValidTypes ==> r.fields["response"].items == []
    ensures searchType == "directory" ==>
      r.fields["response"].items == Map(DirJson, SearchDirectories(keyword, walk))
    ensures searchType in ValidTypes && searchType != "directory" ==>
      r.fields["response"].items == SearchByType(searchType, raw)
  {
    var items :=
      if searchType !in ValidTypes then []
      else if searchType == "directory" then Map(DirJson, SearchDirectories(keyword, walk))
      else SearchByType(searchType, raw);
    JObject(map["response" := JList(items)])
  }

  /** Every valid type but "directory" has a configuration, so the symbol search's
      empty fallback is never reached from the service. */
  lemma ValidTypesConfigured(searchType: string)
    requires searchType in ValidTypes && searchType != "directory"
    ensures Config(searchType).Some?
  {
  }
}
