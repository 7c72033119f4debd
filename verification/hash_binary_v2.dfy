/** hash-binary-v2.js: a manifest from each file's root-relative path to the CRC-32 of its
    bytes, written as 8 lowercase hex digits. Directories produce no entry, AppleDouble and
    `.pyc` files are left out, and any exception yields the empty manifest. CRC-32 is a
    parameter returning the signed 32-bit integer the `crc-32` package returns. */
module HashBinaryV2 {
  import opened Wrappers
  import opened Strings
  import opened FsTree
  import opened Walk
  import opened Hex

  const TwoTo32: nat := 0x1_0000_0000

  /** A JavaScript number holding a signed 32-bit integer, as `CRC32.buf` returns. */
  type Int32 = x: int | -0x8000_0000 <= x < 0x8000_0000

  /** `signed >>> 0`: the same 32 bits read as an unsigned integer. */
  function Unsigned(x: Int32): (u: nat)
    ensures u < TwoTo32
    ensures (u - x) % TwoTo32 == 0
  {
    if x < 0 then x + TwoTo32 else x
  }

  /** `unsigned.toString(16).padStart(8, "0")`. */
  function Hex8(x: Int32): string {
    PadStart(ToRadix16(Unsigned(x)), 8, '0')
  }

  lemma Pow16Eight()
    ensures Pow16(8) == TwoTo32
  {
    assert Pow16(1) == 16;
    assert Pow16(2) == 256;
    assert Pow16(4) == 65536 by {
      assert Pow16(3) == 4096;
    }
    assert Pow16(6) == 0x100_0000 by {
      assert Pow16(5) == 0x10_0000;
    }
    assert Pow16(7) == 0x1000_0000;
  }

  /** The rendering is exactly 8 lowercase hex digits that read back as the unsigned value. */
  lemma Hex8Format(x: Int32)
    ensures |Hex8(x)| == 8 && IsLowerHex(Hex8(x))
    ensures FromHex(Hex8(x)) == Unsigned(x)
  {
    var u := Unsigned(x);
    var h := ToRadix16(u);
    Pow16Eight();
    ToRadix16Length(u, 8);
    ToRadix16Value(u);
    FromHexLeadingZeros(8 - |h|, h);
    assert Hex8(x) == Repeat('0', 8 - |h|) + h;
  }

  /** Different checksums never share a rendering. */
  lemma Hex8Injective(x: Int32, y: Int32)
    requires Hex8(x) == Hex8(y)
    ensures x == y
  {
    Hex8Format(x);
    Hex8Format(y);
  }

  /** A negative checksum is rendered through its unsigned reading: -1 becomes "ffffffff". */
  lemma Hex8MinusOne()
    ensures Hex8(-1) == "ffffffff"
  {
    assert Unsigned(-1) == 0xffff_ffff;
    assert DigitChar(15) == 'f';
    assert ToRadix16(0xf) == "f";
    assert ToRadix16(0xff) == "ff";
    assert ToRadix16(0xfff) == "fff";
    assert ToRadix16(0xffff) == "ffff";
    assert ToRadix16(0xf_ffff) == "fffff";
    assert ToRadix16(0xff_ffff) == "ffffff";
    assert ToRadix16(0xfff_ffff) == "fffffff";
    assert ToRadix16(0xffff_ffff) == "ffffffff";
  }

  /** A small checksum is padded on the left with zeros. */
  lemma Hex8Padded()
    ensures Hex8(0) == "00000000" && Hex8(0xab) == "000000ab"
  {
    assert ToRadix16(0) == "0";
    assert DigitChar(10) == 'a' && DigitChar(11) == 'b';
    assert ToRadix16(0xa) == "a";
    assert ToRadix16(0xab) == "ab";
    assert Repeat('0', 6) == "000000";
    assert Repeat('0', 7) == "0000000";
  }

  /** The two `continue` tests applied to a file's relative path. */
  predicate Excluded(rel: string) {
    AppleDouble(rel) || EndsWith(rel, ".pyc")
  }

  /** The assignment `fileHashes[relPath] = hex` one popped entry performs, if any;
      `None` when `readFileSync` throws. */
  function Assignment(e: Event, crc: seq<Byte> -> Int32): Option<seq<(string, string)>> {
    match e
    case DirVisit(_) => Some([])
    case FileVisit(p, content) =>
      if Excluded(RelPath(p)) then Some([])
      else if content.None? then None
      else Some([(RelPath(p), Hex8(crc(content.value)))])
  }

  function Assignments(es: seq<Event>, crc: seq<Byte> -> Int32): Option<seq<(string, string)>> {
    if |es| == 0 then Some([]) else Cat(Assignment(es[0], crc), Assignments(es[1..], crc))
  }

  /** The one key a plain object literal does not store: assigning to it runs the setter
      inherited from `Object.prototype`, which ignores a string value. */
  const ProtoKey := "__proto__"

  /** Performs the assignments in order on `{}`: a later one for the same key overwrites,
      and one to `__proto__` leaves the object as it was. */
  function Apply(m: map<string, string>, kvs: seq<(string, string)>): map<string, string>
    decreases |kvs|
  {
    if |kvs| == 0 then m
    else if kvs[0].0 == ProtoKey then Apply(m, kvs[1..])
    else Apply(m[kvs[0].0 := kvs[0].1], kvs[1..])
  }

  /** `getChecksumsForBinaryPath`: the manifest, or `{}` when the walk throws. */
  function Manifest(root: Node, crc: seq<Byte> -> Int32): map<string, string> {
    match Events([], root)
    case None => map[]
    case Some(es) =>
      match Assignments(es, crc)
      case None => map[]
      case Some(kvs) => Apply(map[], kvs)
  }

  lemma {:induction false} AssignmentsAppend(a: seq<Event>, b: seq<Event>, crc: seq<Byte> -> Int32)
    ensures Assignments(a + b, crc) == Cat(Assignments(a, crc), Assignments(b, crc))
  {
    if |a| == 0 {
      assert a + b == b;
      CatUnit(Assignments(b, crc));
    } else {
      assert (a + b)[0] == a[0];
      assert (a + b)[1..] == a[1..] + b;
      AssignmentsAppend(a[1..], b, crc);
      CatAssoc(Assignment(a[0], crc), Assignments(a[1..], crc), Assignments(b, crc));
    }
  }

  lemma ApplyAppend(m: map<string, string>, a: seq<(string, string)>, b: seq<(string, string)>)
    ensures Apply(m, a + b) == Apply(Apply(m, a), b)
    decreases |a|
  {
    if |a| == 0 {
      assert a + b == b;
    } else {
      assert (a + b)[1..] == a[1..] + b;
      if a[0].0 == ProtoKey {
        ApplyAppend(m, a[1..], b);
      } else {
        ApplyAppend(m[a[0].0 := a[0].1], a[1..], b);
      }
    }
  }

  /** The loop of `recursivelyHashPath`, building `fileHashes`; `None` when it throws. */
  method RecursivelyHashPath(root: Node, crc: seq<Byte> -> Int32) returns (r: Option<map<string, string>>)
    ensures r.None? <==> Events([], root).None? || Assignments(Events([], root).value, crc).None?
    ensures r.Some? ==> r.value == Manifest(root, crc)
  {
    var events := Traverse(root);
    if events.None? {
      return None;
    }
    var es := events.value;
    var done: seq<(string, string)> := [];
    var fileHashes: map<string, string> := map[];
    var i := 0;
    assert es[0..] == es;
    CatUnit(Assignments(es, crc));
    while i < |es|
      invariant 0 <= i <= |es|
      invariant Assignments(es, crc) == Cat(Some(done), Assignments(es[i..], crc))
      invariant fileHashes == Apply(map[], done)
    {
      assert es[i..][1..] == es[i + 1..];
      var a := Assignment(es[i], crc);
      CatAssoc(Some(done), a, Assignments(es[i + 1..], crc));
      if a.None? {
        return None;
      }
      ApplyAppend(map[], done, a.value);
      if |a.value| == 1 && a.value[0].0 != ProtoKey {
        assert Apply(fileHashes, a.value) == fileHashes[a.value[0].0 := a.value[0].1];
        fileHashes := fileHashes[a.value[0].0 := a.value[0].1];
      } else if |a.value| == 1 {
        assert Apply(fileHashes, a.value) == fileHashes;
      }
      done := done + a.value;
      i := i + 1;
    }
    assert es[i..] == [];
    CatUnit(Some(done));
    return Some(fileHashes);
  }

  /** `getChecksumsForBinaryPath`. */
  method GetChecksumsForBinaryPath(root: Node, crc: seq<Byte> -> Int32) returns (manifest: map<string, string>)
    ensures Broken(root) ==> manifest == map[]
    ensures manifest == Manifest(root, crc)
  {
    EventsFailIff([], root);
    var r := RecursivelyHashPath(root, crc);
    if r.None? {
      return map[];
    }
    return r.value;
  }

  // ---------------------------------------------------------------------------------------
  // Properties.

  lemma {:induction false} ApplyKeys(m: map<string, string>, kvs: seq<(string, string)>, k: string)
    ensures k in Apply(m, kvs) <==> k in m || (k != ProtoKey && exists i :: 0 <= i < |kvs| && kvs[i].0 == k)
    decreases |kvs|
  {
    if |kvs| > 0 {
      if kvs[0].0 == ProtoKey {
        ApplyKeys(m, kvs[1..], k);
      } else {
        ApplyKeys(m[kvs[0].0 := kvs[0].1], kvs[1..], k);
      }
      if exists i :: 1 <= i < |kvs| && kvs[i].0 == k {
        var i :| 1 <= i < |kvs| && kvs[i].0 == k;
        assert kvs[1..][i - 1] == kvs[i];
      }
    }
  }

  /** With distinct keys, each assignment survives to the end. */
  lemma {:induction false} ApplyValue(m: map<string, string>, kvs: seq<(string, string)>, i: int)
    requires 0 <= i < |kvs| && kvs[i].0 != ProtoKey
    requires forall a, b :: 0 <= a < b < |kvs| ==> kvs[a].0 != kvs[b].0
    ensures kvs[i].0 in Apply(m, kvs) && Apply(m, kvs)[kvs[i].0] == kvs[i].1
    decreases |kvs|
  {
    if i == 0 {
      ApplyUntouched(m[kvs[0].0 := kvs[0].1], kvs[1..], kvs[0].0);
    } else if kvs[0].0 == ProtoKey {
      ApplyValue(m, kvs[1..], i - 1);
    } else {
      ApplyValue(m[kvs[0].0 := kvs[0].1], kvs[1..], i - 1);
    }
  }

  lemma {:induction false} ApplyUntouched(m: map<string, string>, kvs: seq<(string, string)>, k: string)
    requires k in m
    requires forall i :: 0 <= i < |kvs| ==> kvs[i].0 != k
    ensures k in Apply(m, kvs) && Apply(m, kvs)[k] == m[k]
    decreases |kvs|
  {
    if |kvs| > 0 && kvs[0].0 == ProtoKey {
      ApplyUntouched(m, kvs[1..], k);
    } else if |kvs| > 0 {
      ApplyUntouched(m[kvs[0].0 := kvs[0].1], kvs[1..], k);
    }
  }

  /** The assignments are exactly the kept files, in walk order. */
  /** Some assignment of `kvs` is to the key `k`. */
  predicate KeyIn(kvs: seq<(string, string)>, k: string) {
    exists j :: 0 <= j < |kvs| && kvs[j].0 == k
  }

  /** Some visit of `es` is of a kept file whose relative path is `k`. */
  predicate KeptFileIn(es: seq<Event>, k: string) {
    exists i :: 0 <= i < |es| && es[i].FileVisit? && RelPath(es[i].path) == k && !Excluded(k)
  }

  lemma KeyInAppend(a: seq<(string, string)>, b: seq<(string, string)>, k: string)
    ensures KeyIn(a + b, k) <==> KeyIn(a, k) || KeyIn(b, k)
  {
    if KeyIn(b, k) {
      var j :| 0 <= j < |b| && b[j].0 == k;
      assert (a + b)[|a| + j] == b[j];
    }
    if KeyIn(a, k) {
      var j :| 0 <= j < |a| && a[j].0 == k;
      assert (a + b)[j] == a[j];
    }
    if KeyIn(a + b, k) {
      var j :| 0 <= j < |a + b| && (a + b)[j].0 == k;
      if j >= |a| {
        assert b[j - |a|] == (a + b)[j];
      }
    }
  }

  lemma KeptFileInCons(es: seq<Event>, k: string)
    requires |es| > 0
    ensures KeptFileIn(es, k) <==>
              (es[0].FileVisit? && RelPath(es[0].path) == k && !Excluded(k)) || KeptFileIn(es[1..], k)
  {
    if KeptFileIn(es[1..], k) {
      var i :| 0 <= i < |es[1..]| && es[1..][i].FileVisit? && RelPath(es[1..][i].path) == k && !Excluded(k);
      assert es[i + 1] == es[1..][i];
    }
    if KeptFileIn(es, k) {
      var i :| 0 <= i < |es| && es[i].FileVisit? && RelPath(es[i].path) == k && !Excluded(k);
      if i > 0 {
        assert es[1..][i - 1] == es[i];
      }
    }
  }

  lemma AssignmentKey(e: Event, crc: seq<Byte> -> Int32, k: string)
    requires Assignment(e, crc).Some?
    ensures KeyIn(Assignment(e, crc).value, k) <==> (e.FileVisit? && RelPath(e.path) == k && !Excluded(k))
  {
    if e.FileVisit? && RelPath(e.path) == k && !Excluded(k) {
      assert Assignment(e, crc).value[0].0 == k;
    }
  }

  lemma {:induction false} AssignmentsKeys(es: seq<Event>, crc: seq<Byte> -> Int32, k: string)
    requires Assignments(es, crc).Some?
    ensures (exists j :: 0 <= j < |Assignments(es, crc).value| && Assignments(es, crc).value[j].0 == k)
            <==> exists i :: 0 <= i < |es| && es[i].FileVisit? && RelPath(es[i].path) == k && !Excluded(k)
  {
    if |es| > 0 {
      AssignmentsKeys(es[1..], crc, k);
      var head := Assignment(es[0], crc).value;
      var tail := Assignments(es[1..], crc).value;
      assert Assignments(es, crc).value == head + tail;
      KeyInAppend(head, tail, k);
      AssignmentKey(es[0], crc, k);
      KeptFileInCons(es, k);
      assert KeyIn(Assignments(es, crc).value, k) <==> KeptFileIn(es, k);
    }
  }


  /** When the walk succeeds, the manifest's keys are exactly the relative paths of the regular
      files that are neither AppleDouble nor `.pyc`, except `__proto__`. */
  lemma ManifestKeys(root: Node, crc: seq<Byte> -> Int32, k: string)
    requires Events([], root).Some? && Assignments(Events([], root).value, crc).Some?
    ensures k in Manifest(root, crc) <==>
            k != ProtoKey
            && exists i :: 0 <= i < |Events([], root).value| && Events([], root).value[i].FileVisit?
                             && RelPath(Events([], root).value[i].path) == k && !Excluded(k)
  {
    var es := Events([], root).value;
    ApplyKeys(map[], Assignments(es, crc).value, k);
    AssignmentsKeys(es, crc, k);
  }

  /** Entries produced by distinct paths have distinct keys. */
  lemma {:induction false} AssignmentsFromDistinctPaths(es: seq<Event>, crc: seq<Byte> -> Int32)
    requires Assignments(es, crc).Some?
    requires DistinctPaths(es) && forall i :: 0 <= i < |es| ==> ValidPath(es[i].path)
    ensures var kvs := Assignments(es, crc).value;
            forall a, b :: 0 <= a < b < |kvs| ==> kvs[a].0 != kvs[b].0
  {
    if |es| > 0 {
      AssignmentsFromDistinctPaths(es[1..], crc);
      var kvs := Assignments(es, crc).value;
      var head := Assignment(es[0], crc).value;
      var tail := Assignments(es[1..], crc).value;
      assert kvs == head + tail;
      forall a, b | 0 <= a < b < |kvs|
        ensures kvs[a].0 != kvs[b].0
      {
        if a < |head| {
          assert a == 0 && kvs[a].0 == RelPath(es[0].path);
          assert kvs[b] == tail[b - |head|];
          AssignmentsKeys(es[1..], crc, kvs[b].0);
          var i :| 0 <= i < |es[1..]| && es[1..][i].FileVisit? && RelPath(es[1..][i].path) == kvs[b].0;
          assert es[1..][i] == es[i + 1];
          if kvs[a].0 == kvs[b].0 {
            RelPathInjective(es[0].path, es[i + 1].path);
          }
        } else {
          assert kvs[a] == tail[a - |head|] && kvs[b] == tail[b - |head|];
        }
      }
    }
  }

  /** In a well-formed tree every kept, readable file's entry holds the hex of its CRC-32. */
  lemma ManifestValue(root: Node, crc: seq<Byte> -> Int32, i: int)
    requires WellFormed(root)
    requires Events([], root).Some? && Assignments(Events([], root).value, crc).Some?
    requires 0 <= i < |Events([], root).value|
    requires Events([], root).value[i].FileVisit? && !Excluded(RelPath(Events([], root).value[i].path))
    requires RelPath(Events([], root).value[i].path) != ProtoKey
    ensures Events([], root).value[i].content.Some?
    ensures RelPath(Events([], root).value[i].path) in Manifest(root, crc)
    ensures Manifest(root, crc)[RelPath(Events([], root).value[i].path)]
            == Hex8(crc(Events([], root).value[i].content.value))
  {
    var es := Events([], root).value;
    EventsDistinct([], root);
    EventsValidPaths([], root);
    AssignmentsFromDistinctPaths(es, crc);
    AssignmentAt(es, crc, i);
    var kvs := Assignments(es, crc).value;
    var j :| 0 <= j < |kvs| && kvs[j] == (RelPath(es[i].path), Hex8(crc(es[i].content.value)));
    ApplyValue(map[], kvs, j);
  }

  /** A kept file's assignment appears among the assignments, and it was readable. */
  lemma {:induction false} AssignmentAt(es: seq<Event>, crc: seq<Byte> -> Int32, i: int)
    requires Assignments(es, crc).Some?
    requires 0 <= i < |es| && es[i].FileVisit? && !Excluded(RelPath(es[i].path))
    ensures es[i].content.Some?
    ensures exists j :: 0 <= j < |Assignments(es, crc).value|
                        && Assignments(es, crc).value[j] == (RelPath(es[i].path), Hex8(crc(es[i].content.value)))
  {
    var kvs := Assignments(es, crc).value;
    var head := Assignment(es[0], crc).value;
    var tail := Assignments(es[1..], crc).value;
    assert kvs == head + tail;
    if i == 0 {
      assert kvs[0] == (RelPath(es[0].path), Hex8(crc(es[0].content.value)));
    } else {
      assert es[1..][i - 1] == es[i];
      AssignmentAt(es[1..], crc, i - 1);
      var j :| 0 <= j < |tail| && tail[j] == (RelPath(es[i].path), Hex8(crc(es[i].content.value)));
      assert kvs[|head| + j] == tail[j];
    }
  }

  /** Directories never get an entry: no kept file shares a directory's path. */
  lemma DirectoriesHaveNoEntry(root: Node, crc: seq<Byte> -> Int32, i: int)
    requires WellFormed(root)
    requires Events([], root).Some? && Assignments(Events([], root).value, crc).Some?
    requires 0 <= i < |Events([], root).value| && Events([], root).value[i].DirVisit?
    ensures RelPath(Events([], root).value[i].path) !in Manifest(root, crc)
  {
    var es := Events([], root).value;
    var k := RelPath(es[i].path);
    EventsDistinct([], root);
    EventsValidPaths([], root);
    ManifestKeys(root, crc, k);
    if k in Manifest(root, crc) {
      var j :| 0 <= j < |es| && es[j].FileVisit? && RelPath(es[j].path) == k && !Excluded(k);
      assert i != j;
      RelPathInjective(es[i].path, es[j].path);
      assert false;
    }
  }

  /** An unreadable kept file anywhere discards everything. */
  lemma {:induction false} AssignmentsFail(es: seq<Event>, crc: seq<Byte> -> Int32, i: int)
    requires 0 <= i < |es| && es[i].FileVisit? && es[i].content.None? && !Excluded(RelPath(es[i].path))
    ensures Assignments(es, crc).None?
  {
    if i > 0 {
      assert es[1..][i - 1] == es[i];
      AssignmentsFail(es[1..], crc, i - 1);
    }
  }

  /** Any exception during the walk yields the empty manifest. */
  lemma ManifestEmptyOnError(root: Node, crc: seq<Byte> -> Int32)
    ensures Broken(root) ==> Manifest(root, crc) == map[]
    ensures forall i :: Events([], root).Some? && 0 <= i < |Events([], root).value|
                        && Events([], root).value[i].FileVisit? && Events([], root).value[i].content.None?
                        && !Excluded(RelPath(Events([], root).value[i].path))
                        ==> Manifest(root, crc) == map[]
  {
    EventsFailIff([], root);
    forall i | Events([], root).Some? && 0 <= i < |Events([], root).value|
               && Events([], root).value[i].FileVisit? && Events([], root).value[i].content.None?
               && !Excluded(RelPath(Events([], root).value[i].path))
      ensures Manifest(root, crc) == map[]
    {
      AssignmentsFail(Events([], root).value, crc, i);
    }
  }

  /** Listing order does not matter. */
  lemma ManifestOrderInvariant(a: Node, b: Node, crc: seq<Byte> -> Int32)
    requires WellFormed(a) && WellFormed(b) && Canon(a) == Canon(b)
    ensures Manifest(a, crc) == Manifest(b, crc)
  {
    EventsOrderInvariant([], a, b);
  }

  lemma AssignmentsSingle(e: Event, crc: seq<Byte> -> Int32)
    ensures Assignments([e], crc) == Assignment(e, crc)
  {
    assert [e][1..] == [];
    CatUnit(Assignment(e, crc));
  }

  lemma AssignmentsCons(e: Event, rest: seq<Event>, crc: seq<Byte> -> Int32)
    ensures Assignments([e] + rest, crc) == Cat(Assignment(e, crc), Assignments(rest, crc))
  {
    assert ([e] + rest)[1..] == rest;
  }

  /** A file given as the root gets the single key "", whatever its own name: the filters only
      ever see the empty relative path. */
  lemma SingleFileManifest(b: seq<Byte>, crc: seq<Byte> -> Int32)
    ensures Manifest(File(b), crc) == map["" := Hex8(crc(b))]
  {
    assert RelPath([]) == "";
    NoSlashNoAppleDouble("");
    assert !EndsWith("", ".pyc");
    AssignmentsSingle(FileVisit([], Some(b)), crc);
    assert Apply(map[], [("", Hex8(crc(b)))]) == Apply(map["" := Hex8(crc(b))], []);
  }

  /** Below the root, a `.pyc` file is left out. */
  lemma PycExcluded(b: seq<Byte>, crc: seq<Byte> -> Int32)
    ensures Manifest(Dir([Entry("m.pyc", File(b))]), crc) == map[]
  {
    SingleChildEvents([], Entry("m.pyc", File(b)));
    assert [] + ["m.pyc"] == ["m.pyc"];
    var es := [DirVisit([]), FileVisit(["m.pyc"], Some(b))];
    assert [DirVisit([])] + [FileVisit(["m.pyc"], Some(b))] == es;
    assert RelPath(["m.pyc"]) == "m.pyc";
    assert EndsWith("m.pyc", ".pyc");
    AssignmentsSingle(es[1], crc);
    AssignmentsCons(es[0], [es[1]], crc);
    var none: Option<seq<(string, string)>> := Some([]);
    CatUnit(none);
  }

  /** A top-level file named `__proto__` is read and hashed, yet the manifest stays `{}`. */
  lemma ProtoFileDropped(b: seq<Byte>, crc: seq<Byte> -> Int32)
    ensures Manifest(Dir([Entry(ProtoKey, File(b))]), crc) == map[]
  {
    SingleChildEvents([], Entry(ProtoKey, File(b)));
    assert [] + [ProtoKey] == [ProtoKey];
    var es := [DirVisit([]), FileVisit([ProtoKey], Some(b))];
    assert [DirVisit([])] + [FileVisit([ProtoKey], Some(b))] == es;
    assert RelPath([ProtoKey]) == ProtoKey;
    NoSlashNoAppleDouble(ProtoKey);
    assert !EndsWith(ProtoKey, ".pyc");
    AssignmentsSingle(es[1], crc);
    AssignmentsCons(es[0], [es[1]], crc);
    CatUnit(Assignments([es[1]], crc));
    assert Apply(map[], [(ProtoKey, Hex8(crc(b)))]) == Apply(map[], []);
  }

  /** `dir/a.txt` next to `dir/._cache`: exactly one entry, for `dir/a.txt`. */
  lemma ScenarioManifest(hi: seq<Byte>, junk: seq<Byte>, crc: seq<Byte> -> Int32)
    ensures Manifest(ScenarioTree(hi, junk), crc) == map["dir/a.txt" := Hex8(crc(hi))]
  {
    ScenarioEvents(hi, junk);
    ScenarioRelPaths();
    assert !EndsWith("dir/a.txt", ".pyc") by {
      assert "dir/a.txt"[6] == 't';
    }
    var e0, e1, e2, e3 := DirVisit([]), DirVisit(["dir"]), FileVisit(["dir", "._cache"], Some(junk)),
                          FileVisit(["dir", "a.txt"], Some(hi));
    var kv := ("dir/a.txt", Hex8(crc(hi)));
    assert Assignment(e3, crc) == Some([kv]);
    AssignmentsOfFour(e0, e1, e2, e3, crc);
    assert Apply(map[], [kv]) == Apply(map[kv.0 := kv.1], []);
  }

  /** Three visits that assign nothing, then one that does. */
  lemma AssignmentsOfFour(e0: Event, e1: Event, e2: Event, e3: Event, crc: seq<Byte> -> Int32)
    requires Assignment(e0, crc) == Some([]) && Assignment(e1, crc) == Some([])
    requires Assignment(e2, crc) == Some([]) && Assignment(e3, crc).Some?
    ensures Assignments([e0, e1, e2, e3], crc) == Assignment(e3, crc)
  {
    AssignmentsSingle(e3, crc);
    AssignmentsCons(e2, [e3], crc);
    assert [e2] + [e3] == [e2, e3];
    AssignmentsCons(e1, [e2, e3], crc);
    assert [e1] + [e2, e3] == [e1, e2, e3];
    AssignmentsCons(e0, [e1, e2, e3], crc);
    assert [e0] + [e1, e2, e3] == [e0, e1, e2, e3];
    assert [] + Assignment(e3, crc).value == Assignment(e3, crc).value;
  }

}
