/** hash-binary.js: one SHA-256 over the whole tree. Every popped directory feeds its relative
    path; every regular file not caught by the AppleDouble test feeds its relative path and then
    its bytes. Any exception turns the result into "". SHA-256 and the UTF-8 encoding of the
    path strings are parameters. */
module HashBinary {
  import opened Wrappers
  import opened Seqs
  import opened Strings
  import opened FsTree
  import opened Walk
  import opened Hex
  import opened Ordering

  /** One `hash.update` call: a path string, or a file buffer. */
  datatype Update = Text(s: string) | Bytes(b: seq<Byte>)

  /** What one popped entry feeds to the hash; `None` when `readFileSync` throws. */
  function Contribution(e: Event): Option<seq<Update>> {
    match e
    case DirVisit(p) => Some([Text(RelPath(p))])
    case FileVisit(p, content) =>
      if AppleDouble(RelPath(p)) then Some([])
      else if content.None? then None
      else Some([Text(RelPath(p)), Bytes(content.value)])
  }

  function Feed(es: seq<Event>): Option<seq<Update>> {
    if |es| == 0 then Some([]) else Cat(Contribution(es[0]), Feed(es[1..]))
  }

  /** Every `hash.update` of `recursivelyHashPath`, in order, or `None` if it throws. */
  function UpdateStream(root: Node): Option<seq<Update>> {
    match Events([], root)
    case None => None
    case Some(es) => Feed(es)
  }

  /** The bytes the hash absorbs: strings as `utf8` encodes them, buffers as they are. */
  function Encode(us: seq<Update>, utf8: string -> seq<Byte>): seq<Byte> {
    if |us| == 0 then []
    else
      (match us[0] case Text(s) => utf8(s) case Bytes(b) => b) + Encode(us[1..], utf8)
  }

  /** `getChecksumForBinaryFile`: the hex SHA-256 of the stream, or "" when the walk throws. */
  function Checksum(root: Node, sha: seq<Byte> -> seq<Byte>, utf8: string -> seq<Byte>): string {
    match UpdateStream(root)
    case None => ""
    case Some(us) => BytesHex(sha(Encode(us, utf8)))
  }

  lemma FeedAppend(a: seq<Event>, b: seq<Event>)
    ensures Feed(a + b) == Cat(Feed(a), Feed(b))
  {
    if |a| == 0 {
      assert a + b == b;
      CatUnit(Feed(b));
    } else {
      assert (a + b)[1..] == a[1..] + b;
      FeedAppend(a[1..], b);
      CatAssoc(Contribution(a[0]), Feed(a[1..]), Feed(b));
    }
  }

  lemma FeedCons(e: Event, rest: seq<Event>)
    ensures Feed([e] + rest) == Cat(Contribution(e), Feed(rest))
  {
    assert ([e] + rest)[1..] == rest;
  }

  lemma FeedSingle(e: Event)
    ensures Feed([e]) == Contribution(e)
  {
    FeedCons(e, []);
    assert [e] + [] == [e];
    CatUnit(Contribution(e));
  }

  /** The body of the `while` loop of `recursivelyHashPath`, applied to the popped entries in turn. */
  method RecursivelyHashPath(root: Node) returns (r: Option<seq<Update>>)
    ensures r == UpdateStream(root)
  {
    var events := Traverse(root);
    if events.None? {
      return None;
    }
    var es := events.value;
    var acc: seq<Update> := [];
    var i := 0;
    assert es[0..] == es;
    CatUnit(Feed(es));
    while i < |es|
      invariant 0 <= i <= |es|
      invariant Feed(es) == Cat(Some(acc), Feed(es[i..]))
    {
      assert es[i..][1..] == es[i + 1..];
      var c := Contribution(es[i]);
      CatAssoc(Some(acc), c, Feed(es[i + 1..]));
      if c.None? {
        return None;
      }
      acc := acc + c.value;
      i := i + 1;
    }
    assert es[i..] == [];
    CatUnit(Some(acc));
    return Some(acc);
  }

  /** `getChecksumForBinaryFile`. */
  method GetChecksumForBinaryFile(root: Node, sha: seq<Byte> -> seq<Byte>, utf8: string -> seq<Byte>)
    returns (digest: string)
    ensures UpdateStream(root).None? ==> digest == ""
    ensures UpdateStream(root).Some? ==> digest == BytesHex(sha(Encode(UpdateStream(root).value, utf8)))
  {
    var stream := RecursivelyHashPath(root);
    if stream.None? {
      return "";
    }
    digest := BytesHex(sha(Encode(stream.value, utf8)));
  }

  // ---------------------------------------------------------------------------------------
  // Properties.

  /** A file the walk would hash but cannot read. */
  predicate UnreadableKept(e: Event) {
    e.FileVisit? && e.content.None? && !AppleDouble(RelPath(e.path))
  }

  lemma {:induction false} FeedFailIff(es: seq<Event>)
    ensures Feed(es).None? <==> exists i :: 0 <= i < |es| && UnreadableKept(es[i])
  {
    if |es| > 0 {
      FeedFailIff(es[1..]);
      if exists i :: 1 <= i < |es| && UnreadableKept(es[i]) {
        var i :| 1 <= i < |es| && UnreadableKept(es[i]);
        assert es[1..][i - 1] == es[i];
      }
      if exists i :: 0 <= i < |es[1..]| && UnreadableKept(es[1..][i]) {
        var i :| 0 <= i < |es[1..]| && UnreadableKept(es[1..][i]);
        assert es[i + 1] == es[1..][i];
      }
    }
  }

  /** The checksum is "" exactly when a `stat`/`readdir` throws or a file that is not skipped
      cannot be read; otherwise it is 64 lowercase hex digits. */
  lemma ChecksumEmptyIff(root: Node, sha: seq<Byte> -> seq<Byte>, utf8: string -> seq<Byte>)
    requires forall bs :: |sha(bs)| == 32
    ensures Checksum(root, sha, utf8) == "" <==>
            Broken(root) || (Events([], root).Some? && exists i :: 0 <= i < |Events([], root).value|
                                                          && UnreadableKept(Events([], root).value[i]))
    ensures Checksum(root, sha, utf8) != "" ==> |Checksum(root, sha, utf8)| == 64 && IsLowerHex(Checksum(root, sha, utf8))
  {
    EventsFailIff([], root);
    if Events([], root).Some? {
      FeedFailIff(Events([], root).value);
    }
  }

  /** Entries the AppleDouble test drops. */
  predicate Skipped(e: Event) {
    e.FileVisit? && AppleDouble(RelPath(e.path))
  }

  predicate Kept(e: Event) {
    !Skipped(e)
  }

  /** Skipped files contribute nothing, not even a read error. */
  lemma {:induction false} FeedIgnoresSkipped(es: seq<Event>)
    ensures Feed(es) == Feed(Filter(Kept, es))
  {
    if |es| > 0 {
      FeedIgnoresSkipped(es[1..]);
      if Kept(es[0]) {
        assert Filter(Kept, es)[1..] == Filter(Kept, es[1..]);
      } else {
        CatUnit(Feed(es[1..]));
      }
    }
  }

  /** A directory's own path is the first thing it feeds, before anything below it. */
  lemma DirFedFirst(cs: seq<Entry>)
    requires UpdateStream(Dir(cs)).Some?
    ensures |UpdateStream(Dir(cs)).value| > 0 && UpdateStream(Dir(cs)).value[0] == Text("")
  {
    EventsShape([], Dir(cs));
    var es := Events([], Dir(cs)).value;
    assert es == [es[0]] + es[1..];
    FeedAppend([es[0]], es[1..]);
    assert Feed([es[0]]) == Cat(Contribution(es[0]), Some([]));
    CatUnit(Contribution(es[0]));
  }

  /** Each kept, readable file feeds its path immediately followed by its whole contents. */
  lemma {:induction false} FileFedPathThenBytes(es: seq<Event>, i: int)
    requires 0 <= i < |es| && Feed(es).Some?
    requires es[i].FileVisit? && es[i].content.Some? && !AppleDouble(RelPath(es[i].path))
    ensures exists j :: 0 <= j && j + 1 < |Feed(es).value|
                        && Feed(es).value[j] == Text(RelPath(es[i].path))
                        && Feed(es).value[j + 1] == Bytes(es[i].content.value)
  {
    assert es == es[..i] + ([es[i]] + es[i + 1..]);
    FeedAppend(es[..i], [es[i]] + es[i + 1..]);
    FeedAppend([es[i]], es[i + 1..]);
    assert Feed([es[i]]) == Cat(Contribution(es[i]), Some([]));
    CatUnit(Contribution(es[i]));
    var pre := Feed(es[..i]).value;
    var us := Feed(es).value;
    assert us == pre + ([Text(RelPath(es[i].path)), Bytes(es[i].content.value)] + Feed(es[i + 1..]).value);
    assert us[|pre|] == Text(RelPath(es[i].path));
    assert us[|pre| + 1] == Bytes(es[i].content.value);
  }

  /** Listing order does not matter: only names, contents and shape do. */
  lemma ChecksumOrderInvariant(a: Node, b: Node, sha: seq<Byte> -> seq<Byte>, utf8: string -> seq<Byte>)
    requires WellFormed(a) && WellFormed(b) && Canon(a) == Canon(b)
    ensures UpdateStream(a) == UpdateStream(b)
    ensures Checksum(a, sha, utf8) == Checksum(b, sha, utf8)
  {
    EventsOrderInvariant([], a, b);
  }

  /** A file given as the root hashes as its empty relative path followed by its bytes. */
  lemma SingleFileStream(b: seq<Byte>)
    ensures UpdateStream(File(b)) == Some([Text(""), Bytes(b)])
  {
    NoSlashNoAppleDouble("");
    assert RelPath([]) == "";
    FeedSingle(FileVisit([], Some(b)));
  }

  /** Something that is neither a file nor a directory is not descended and feeds nothing. */
  lemma OtherFeedsNothing(name: string)
    ensures UpdateStream(Dir([Entry(name, Other)])) == Some([Text("")])
  {
    SingleChildEvents([], Entry(name, Other));
    assert [] + [name] == [name];
    CatUnit(Some([DirVisit([])]));
    assert Events([], Dir([Entry(name, Other)])) == Some([DirVisit([])]);
    assert RelPath([]) == "";
    FeedSingle(DirVisit([]));
  }

  /** The stream of a root directory holding one readable file that is not skipped. */
  lemma OneFileStream(name: string, b: seq<Byte>)
    requires '/' !in name
    ensures UpdateStream(Dir([Entry(name, File(b))])) == Some([Text(""), Text(name), Bytes(b)])
  {
    SingleChildEvents([], Entry(name, File(b)));
    assert RelPath([name]) == name;
    NoSlashNoAppleDouble(name);
    var es := [DirVisit([]), FileVisit([name], Some(b))];
    assert [] + [name] == [name];
    assert [DirVisit([])] + [FileVisit([name], Some(b))] == es;
    assert Events([], Dir([Entry(name, File(b))])) == Some(es);
    assert RelPath([]) == "";
    FeedSingle(FileVisit([name], Some(b)));
    FeedCons(DirVisit([]), [FileVisit([name], Some(b))]);
    assert Contribution(DirVisit([])) == Some([Text("")]);
    assert Contribution(FileVisit([name], Some(b))) == Some([Text(name), Bytes(b)]);
    assert [Text("")] + [Text(name), Bytes(b)] == [Text(""), Text(name), Bytes(b)];
  }

  /** A top-level `._x` has no "/" before it, so it is hashed like any other file. */
  lemma TopLevelAppleDoubleHashed(b: seq<Byte>)
    ensures UpdateStream(Dir([Entry("._x", File(b))])) == Some([Text(""), Text("._x"), Bytes(b)])
  {
    OneFileStream("._x", b);
  }

  /** Unlike hash-binary-v2.js there is no `.pyc` rule here. */
  lemma PycHashed(b: seq<Byte>)
    ensures UpdateStream(Dir([Entry("m.pyc", File(b))])) == Some([Text(""), Text("m.pyc"), Bytes(b)])
  {
    OneFileStream("m.pyc", b);
  }

  /** `dir/a.txt` with contents "hi" next to `dir/._cache`: the stream is "", "dir",
      "dir/a.txt", then the bytes of "hi"; the AppleDouble file feeds nothing. */
  lemma ScenarioStream(hi: seq<Byte>, junk: seq<Byte>)
    ensures UpdateStream(ScenarioTree(hi, junk)) == Some([Text(""), Text("dir"), Text("dir/a.txt"), Bytes(hi)])
  {
    ScenarioEvents(hi, junk);
    ScenarioRelPaths();
    var e0, e1, e2, e3 := DirVisit([]), DirVisit(["dir"]), FileVisit(["dir", "._cache"], Some(junk)),
                          FileVisit(["dir", "a.txt"], Some(hi));
    FeedSingle(e3);
    FeedCons(e2, [e3]);
    assert [e2] + [e3] == [e2, e3];
    FeedCons(e1, [e2, e3]);
    assert [e1] + [e2, e3] == [e1, e2, e3];
    FeedCons(e0, [e1, e2, e3]);
    assert [e0] + [e1, e2, e3] == [e0, e1, e2, e3];
    CatUnit(Contribution(e3));
    assert Contribution(e2) == Some([]);
    assert Feed([e2, e3]) == Some([Text("dir/a.txt"), Bytes(hi)]);
    assert Feed([e1, e2, e3]) == Some([Text("dir")] + [Text("dir/a.txt"), Bytes(hi)]);
    assert [Text("")] + ([Text("dir")] + [Text("dir/a.txt"), Bytes(hi)])
        == [Text(""), Text("dir"), Text("dir/a.txt"), Bytes(hi)];
  }
}
