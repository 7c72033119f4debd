/** The review's ignore list: shell-style patterns matched against a whole path,
    where `*` matches any run of characters, '/' included. */
module FileIgnore {
  import opened Strings

  // ---------------------------------------------------------------- fnmatch

  /** `fnmatch.fnmatch(s, pattern)` on POSIX for patterns built from `*`, `?` and
      literal characters: the whole of `s` must match. */
  function FnMatch(pattern: string, s: string): bool
    decreases |pattern| + |s|
  {
    if |pattern| == 0 then |s| == 0
    else if pattern[0] == '*' then FnMatch(pattern[1..], s) || (|s| > 0 && FnMatch(pattern, s[1..]))
    else |s| > 0 && (pattern[0] == '?' || pattern[0] == s[0]) && FnMatch(pattern[1..], s[1..])
  }

  predicate NoWildcard(lit: string) {
    '*' !in lit && '?' !in lit
  }

  /** A literal head must be matched character for character. */
  lemma {:induction false} FnMatchLiteralHead(lit: string, rest: string, s: string)
    requires NoWildcard(lit)
    ensures FnMatch(lit + rest, s) <==> StartsWith(s, lit) && FnMatch(rest, s[|lit|..])
    decreases |lit|
  {
    if |lit| > 0 {
      var p := lit + rest;
      assert p[0] == lit[0] && p[1..] == lit[1..] + rest;
      if |s| > 0 {
        FnMatchLiteralHead(lit[1..], rest, s[1..]);
        assert StartsWith(s, lit) <==> s[0] == lit[0] && StartsWith(s[1..], lit[1..]);
        if |lit| <= |s| {
          assert s[1..][|lit| - 1..] == s[|lit|..];
        }
      }
    } else {
      assert lit + rest == rest;
    }
  }

  /** A lone `*` matches everything. */
  lemma {:induction false} FnMatchStar(s: string)
    ensures FnMatch("*", s)
    decreases |s|
  {
    assert "*"[1..] == "";
    if |s| > 0 {
      FnMatchStar(s[1..]);
    }
  }

  lemma {:induction false} EndsWithCons(s: string, lit: string)
    ensures EndsWith(s, lit) <==> s == lit || (|s| > 0 && EndsWith(s[1..], lit))
  {
    if |s| > 0 && |lit| <= |s| - 1 {
      assert s[1..][|s| - 1 - |lit|..] == s[|s| - |lit|..];
    }
  }

  lemma {:induction false} ContainsCons(s: string, lit: string)
    ensures Contains(s, lit) <==> OccursAt(s, lit, 0) || (|s| > 0 && Contains(s[1..], lit))
  {
    if |s| > 0 {
      if Contains(s, lit) && !OccursAt(s, lit, 0) {
        var i :| 0 <= i <= |s| && OccursAt(s, lit, i);
        assert s[1..][i - 1..i - 1 + |lit|] == s[i..i + |lit|];
        assert OccursAt(s[1..], lit, i - 1);
      }
      if Contains(s[1..], lit) {
        var i :| 0 <= i <= |s[1..]| && OccursAt(s[1..], lit, i);
        assert s[1..][i..i + |lit|] == s[i + 1..i + 1 + |lit|];
        assert OccursAt(s, lit, i + 1);
      }
    } else {
      if Contains(s, lit) {
        var i :| 0 <= i <= |s| && OccursAt(s, lit, i);
        assert i == 0;
      }
    }
  }

  /** `*lit` matches exactly the strings ending in `lit`. */
  lemma {:induction false} FnMatchSuffix(lit: string, s: string)
    requires NoWildcard(lit)
    ensures FnMatch("*" + lit, s) <==> EndsWith(s, lit)
    decreases |s|
  {
    var p := "*" + lit;
    assert p[0] == '*' && p[1..] == lit;
    FnMatchLiteralHead(lit, "", s);
    assert lit + "" == lit;
    EndsWithCons(s, lit);
    if |s| > 0 {
      FnMatchSuffix(lit, s[1..]);
    }
  }

  /** `lit*` matches exactly the strings starting with `lit`. */
  lemma FnMatchPrefix(lit: string, s: string)
    requires NoWildcard(lit)
    ensures FnMatch(lit + "*", s) <==> StartsWith(s, lit)
  {
    FnMatchLiteralHead(lit, "*", s);
    if |lit| <= |s| {
      FnMatchStar(s[|lit|..]);
    }
  }

  /** `*lit*` matches exactly the strings containing `lit`. */
  lemma {:induction false} FnMatchInfix(lit: string, s: string)
    requires NoWildcard(lit)
    ensures FnMatch("*" + lit + "*", s) <==> Contains(s, lit)
    decreases |s|
  {
    var p := "*" + lit + "*";
    assert p[0] == '*' && p[1..] == lit + "*";
    FnMatchPrefix(lit, s);
    ContainsCons(s, lit);
    if |s| > 0 {
      FnMatchInfix(lit, s[1..]);
    }
  }

  /** A pattern without wildcards matches only the identical string. */
  lemma FnMatchExact(lit: string, s: string)
    requires NoWildcard(lit)
    ensures FnMatch(lit, s) <==> s == lit
  {
    FnMatchLiteralHead(lit, "", s);
    assert lit + "" == lit;
  }

  /** A pattern that starts with a literal character only matches strings starting with it. */
  lemma HeadRefutes(p: string, s: string)
    requires |p| > 0 && p[0] != '*' && p[0] != '?'
    requires |s| == 0 || s[0] != p[0]
    ensures !FnMatch(p, s)
  {
  }

  /** A pattern that ends with a literal character only matches strings ending with it. */
  lemma {:induction false} TailRefutes(p: string, s: string)
    requires |p| > 0 && p[|p| - 1] != '*' && p[|p| - 1] != '?'
    requires |s| == 0 || s[|s| - 1] != p[|p| - 1]
    ensures !FnMatch(p, s)
    decreases |p| + |s|
  {
    if |p| > 1 && |s| > 0 {
      assert p[1..][|p[1..]| - 1] == p[|p| - 1];
      assert |s| > 1 ==> s[1..][|s| - 2] == s[|s| - 1];
      TailRefutes(p[1..], s[1..]);
      if p[0] == '*' {
        TailRefutes(p[1..], s);
        TailRefutes(p, s[1..]);
      }
    } else if |p| > 1 && p[0] == '*' {
      TailRefutes(p[1..], s);
    }
  }

  /** Every literal character of a pattern occurs in any string it matches. */
  lemma {:induction false} CharRefutes(p: string, s: string, c: char)
    requires c in p && c != '*' && c != '?' && c !in s
    ensures !FnMatch(p, s)
    decreases |p| + |s|
  {
    if |p| > 0 && |s| > 0 {
      if p[0] == '*' {
        assert c in p[1..];
        CharRefutes(p[1..], s, c);
        assert c !in s[1..];
        CharRefutes(p, s[1..], c);
      } else if p[0] != c {
        assert c in p[1..] && c !in s[1..];
        CharRefutes(p[1..], s[1..], c);
      }
    } else if |p| > 0 && p[0] == '*' {
      assert c in p[1..];
      CharRefutes(p[1..], s, c);
    }
  }

  // ---------------------------------------------------------------- the list

  // Python, the first line of the group.
  const PythonCachePatterns: seq<string> := [
    "__pycache__/*", "*.pyc", "*.pyo", "*.egg-info/*", "*.eggs/*", ".coverage", ".coverage.*"]

  // Python, the second line. A comma is missing after "poetry.lock", so Python's implicit
  // concatenation of adjacent literals fuses it with the first pattern of the next
  // group, and the list holds "poetry.locknode_modules/*" in place of two patterns.
  const PythonEnvPatterns: seq<string> := [
    ".pytest_cache/*", ".mypy_cache/*", ".env", ".venv/*", ".env.*", "uv.lock",
    "poetry.locknode_modules/*"]

  const PythonPatterns: seq<string> := PythonCachePatterns + PythonEnvPatterns

  // JavaScript / TypeScript, after the fused pattern.
  const WebPatterns: seq<string> := [
    "dist/*", "build/*", "*.log", "*.min.js", "*.js.map", "yarn.lock", "package-lock.json"]

  const JvmPatterns: seq<string> := [
    "target/*", "build/*", "*.class", "*.jar", "*.war", "*.ear", "*.iml", ".idea/*", ".gradle/*", "out/*"]

  const GoPatterns: seq<string> := ["vendor/*", "bin/*", "*.test", "*.exe", "*.mod", "*.sum"]

  const NativePatterns: seq<string> := [
    "*.o", "*.obj", "*.so", "*.dll", "*.exe", "*.out", "build/*", "cmake-build-*/*", "Makefile"]

  const RustPatterns: seq<string> := ["target/*", "Cargo.lock", "*.rlib"]

  const RubyPatterns: seq<string> := ["*.gem", ".bundle/*", "vendor/bundle/*", "log/*", "tmp/*"]

  const PhpPatterns: seq<string> := ["vendor/*", "composer.lock", "*.log"]

  const ApplePatterns: seq<string> := [
    "*.xcworkspace", "*.xcodeproj/*", "Pods/*", "DerivedData/*", "*.pbxproj", "build/*"]

  const AndroidPatterns: seq<string> := ["*.apk", "*.dex", "*.iml", "build/*", ".gradle/*", ".idea/*"]

  const DotNetPatterns: seq<string> := [
    "bin/*", "obj/*", "*.dll", "*.pdb", "*.exe", "*.user", "*.suo", ".vs/*"]

  const InfraPatterns: seq<string> := ["docker-compose.override.yml", "*.lock", "*.tfstate*", "*.log"]

  const DataPatterns: seq<string> := [
    "*.csv", "*.parquet", "*.db", "*.sqlite", "*.h5", "*.zip", "*.tar.gz", "*.pdf",
    "*.png", "*.jpg", "*.jpeg", "*.mp4", "*.gif", "*.svg", "*.webp",
    "*.ico", "*.woff", "*.woff2", "*.ttf", "*.eot"]

  /** Everything after the Python group, in list order. */
  const OtherPatterns: seq<string> :=
    WebPatterns + JvmPatterns + GoPatterns + NativePatterns + RustPatterns + RubyPatterns
    + PhpPatterns + ApplePatterns + AndroidPatterns + DotNetPatterns + InfraPatterns + DataPatterns

  /** The ignore list as written: 101 patterns. */
  const IgnoredPatterns: seq<string> := PythonPatterns + OtherPatterns

  /** `file_path.replace("\\", "/")`. */
  function Normalize(path: string): (r: string)
    ensures |r| == |path| && '\\' !in r
  {
    ReplaceChar(path, '\\', '/')
  }

  /** Some pattern of the list matches the whole of `s`; the loop stops at the first. */
  function AnyMatch(patterns: seq<string>, s: string): (r: bool)
    ensures r <==> exists i :: 0 <= i < |patterns| && FnMatch(patterns[i], s)
  {
    if |patterns| == 0 then false
    else
      assert forall i :: 1 <= i < |patterns| ==> patterns[i] == patterns[1..][i - 1];
      FnMatch(patterns[0], s) || AnyMatch(patterns[1..], s)
  }

  lemma AnyMatchAppend(a: seq<string>, b: seq<string>, s: string)
    ensures AnyMatch(a + b, s) <==> AnyMatch(a, s) || AnyMatch(b, s)
  {
    if AnyMatch(a + b, s) {
      var i :| 0 <= i < |a + b| && FnMatch((a + b)[i], s);
      if i >= |a| {
        assert FnMatch(b[i - |a|], s);
      }
    }
    if AnyMatch(b, s) {
      var i :| 0 <= i < |b| && FnMatch(b[i], s);
      assert (a + b)[|a| + i] == b[i];
    }
    if AnyMatch(a, s) {
      var i :| 0 <= i < |a| && FnMatch(a[i], s);
      assert (a + b)[i] == a[i];
    }
  }

  /** Whether review skips a file, for a given pattern list. */
  function ShouldIgnoreWith(patterns: seq<string>, filePath: string): bool {
    AnyMatch(patterns, Normalize(filePath))
  }

  function ShouldIgnoreFile(filePath: string): bool {
    ShouldIgnoreWith(IgnoredPatterns, filePath)
  }

  /** "*.pyc" matches any path to a ".pyc" file. */
  lemma PycMatches(dir: string, name: string)
    ensures FnMatch("*" + ".pyc", Normalize(dir + "/" + name + ".pyc"))
  {
    var t := dir + "/" + name + ".pyc";
    var s := Normalize(t);
    assert forall i :: |t| - 4 <= i < |t| ==> s[i] == t[i];
    assert s[|s| - 4..] == ".pyc";
    FnMatchSuffix(".pyc", s);
  }

  lemma AnyMatchAt(patterns: seq<string>, i: nat, s: string)
    requires i < |patterns| && FnMatch(patterns[i], s)
    ensures AnyMatch(patterns, s)
  {
  }

  /** A suffix pattern matches at any depth, since `*` also matches '/'. */
  lemma SuffixAtAnyDepth(dir: string, name: string)
    ensures ShouldIgnoreFile(dir + "/" + name + ".pyc")
  {
    PycMatches(dir, name);
    assert IgnoredPatterns[1] == PythonCachePatterns[1] == "*" + ".pyc";
    AnyMatchAt(IgnoredPatterns, 1, Normalize(dir + "/" + name + ".pyc"));
  }

  /** A directory pattern only matches at the root, and an exact name only the whole path. */
  lemma RootOnlyPatterns()
    ensures !FnMatch("dist/*", "src/dist/a.js")
    ensures FnMatch("dist/*", "dist/a.js")
    ensures !FnMatch("Makefile", "sub/Makefile")
  {
    FnMatchPrefix("dist/", "dist/a.js");
    assert "dist/" + "*" == "dist/*";
    HeadRefutes("dist/*", "src/dist/a.js");
    HeadRefutes("Makefile", "sub/Makefile");
  }

  /** A path under node_modules that no pattern refutes by its first or last character. */
  const NodeModulesReadme: string := "node_modules/react/README"

  predicate EndsRefute(p: string, s: string) {
    |p| > 0 && |s| > 0
    && ((p[0] != '*' && p[0] != '?' && s[0] != p[0])
        || (p[|p| - 1] != '*' && p[|p| - 1] != '?' && s[|s| - 1] != p[|p| - 1]))
  }

  lemma ReadmeLetters(s: string)
    requires s == NodeModulesReadme
    ensures forall i :: 0 <= i < |s| ==> s[i] != 'g' && s[i] != 'p' && s[i] != 'f' && s[i] != '\\'
  {
  }

  /** Normalising leaves a path without backslashes alone. */
  lemma NormalizeIdentity(s: string)
    requires '\\' !in s
    ensures Normalize(s) == s
  {
  }

  /** A group none of whose patterns can match `s`. */
  lemma NoMatchInGroup(ps: seq<string>, s: string, chars: map<nat, char>)
    requires forall i :: 0 <= i < |ps| ==> i in chars || EndsRefute(ps[i], s)
    requires forall i :: i in chars ==> i < |ps| && chars[i] in ps[i] && chars[i] != '*'
                                        && chars[i] != '?' && chars[i] !in s
    ensures !AnyMatch(ps, s)
  {
    forall i | 0 <= i < |ps|
      ensures !FnMatch(ps[i], s)
    {
      var p := ps[i];
      if i in chars {
        CharRefutes(p, s, chars[i]);
      } else {
        if p[0] != '*' && p[0] != '?' && s[0] != p[0] {
          HeadRefutes(p, s);
        } else {
          TailRefutes(p, s);
        }
      }
    }
  }

  lemma PythonCacheNoMatch(s: string)
    requires s == NodeModulesReadme
    ensures !AnyMatch(PythonCachePatterns, s)
  {
    ReadmeLetters(s);
    NoMatchInGroup(PythonCachePatterns, s, map[3 := 'g', 4 := 'g']);
  }

  lemma PythonEnvNoMatch(s: string)
    requires s == NodeModulesReadme
    ensures !AnyMatch(PythonEnvPatterns, s)
  {
    NoMatchInGroup(PythonEnvPatterns, s, map[]);
  }

  lemma PythonNoMatch(s: string)
    requires s == NodeModulesReadme
    ensures !AnyMatch(PythonPatterns, s)
  {
    PythonCacheNoMatch(s);
    PythonEnvNoMatch(s);
    AnyMatchAppend(PythonCachePatterns, PythonEnvPatterns, s);
  }

  lemma WebNoMatch(s: string)
    requires s == NodeModulesReadme
    ensures !AnyMatch(WebPatterns, s)
  {
    NoMatchInGroup(WebPatterns, s, map[]);
  }

  lemma JvmNoMatch(s: string)
    requires s == NodeModulesReadme
    ensures !AnyMatch(JvmPatterns, s)
  {
    NoMatchInGroup(JvmPatterns, s, map[]);
  }

  lemma GoNoMatch(s: string)
    requires s == NodeModulesReadme
    ensures !AnyMatch(GoPatterns, s)
  {
    NoMatchInGroup(GoPatterns, s, map[]);
  }

  lemma NativeNoMatch(s: string)
    requires s == NodeModulesReadme
    ensures !AnyMatch(NativePatterns, s)
  {
    NoMatchInGroup(NativePatterns, s, map[]);
  }

  lemma RustNoMatch(s: string)
    requires s == NodeModulesReadme
    ensures !AnyMatch(RustPatterns, s)
  {
    NoMatchInGroup(RustPatterns, s, map[]);
  }

  lemma RubyNoMatch(s: string)
    requires s == NodeModulesReadme
    ensures !AnyMatch(RubyPatterns, s)
  {
    NoMatchInGroup(RubyPatterns, s, map[]);
  }

  lemma PhpNoMatch(s: string)
    requires s == NodeModulesReadme
    ensures !AnyMatch(PhpPatterns, s)
  {
    NoMatchInGroup(PhpPatterns, s, map[]);
  }

  lemma AppleNoMatch(s: string)
    requires s == NodeModulesReadme
    ensures !AnyMatch(ApplePatterns, s)
  {
    ReadmeLetters(s);
    NoMatchInGroup(ApplePatterns, s, map[1 := 'p']);
  }

  lemma AndroidNoMatch(s: string)
    requires s == NodeModulesReadme
    ensures !AnyMatch(AndroidPatterns, s)
  {
    NoMatchInGroup(AndroidPatterns, s, map[]);
  }

  lemma DotNetNoMatch(s: string)
    requires s == NodeModulesReadme
    ensures !AnyMatch(DotNetPatterns, s)
  {
    NoMatchInGroup(DotNetPatterns, s, map[]);
  }

  lemma InfraNoMatch(s: string)
    requires s == NodeModulesReadme
    ensures !AnyMatch(InfraPatterns, s)
  {
    ReadmeLetters(s);
    NoMatchInGroup(InfraPatterns, s, map[2 := 'f']);
  }

  lemma DataNoMatch(s: string)
    requires s == NodeModulesReadme
    ensures !AnyMatch(DataPatterns, s)
  {
    NoMatchInGroup(DataPatterns, s, map[]);
  }

  lemma OtherNoMatch(s: string)
    requires s == NodeModulesReadme
    ensures !AnyMatch(OtherPatterns, s)
  {
    WebNoMatch(s);
    JvmNoMatch(s);
    GoNoMatch(s);
    NativeNoMatch(s);
    RustNoMatch(s);
    RubyNoMatch(s);
    PhpNoMatch(s);
    AppleNoMatch(s);
    AndroidNoMatch(s);
    DotNetNoMatch(s);
    InfraNoMatch(s);
    DataNoMatch(s);
    AnyMatchAppend(WebPatterns, JvmPatterns, s);
    AnyMatchAppend(WebPatterns + JvmPatterns, GoPatterns, s);
    AnyMatchAppend(WebPatterns + JvmPatterns + GoPatterns, NativePatterns, s);
    AnyMatchAppend(WebPatterns + JvmPatterns + GoPatterns + NativePatterns, RustPatterns, s);
    AnyMatchAppend(WebPatterns + JvmPatterns + GoPatterns + NativePatterns + RustPatterns, RubyPatterns, s);
    AnyMatchAppend(WebPatterns + JvmPatterns + GoPatterns + NativePatterns + RustPatterns + RubyPatterns, PhpPatterns, s);
    AnyMatchAppend(WebPatterns + JvmPatterns + GoPatterns + NativePatterns + RustPatterns + RubyPatterns + PhpPatterns, ApplePatterns, s);
    AnyMatchAppend(WebPatterns + JvmPatterns + GoPatterns + NativePatterns + RustPatterns + RubyPatterns + PhpPatterns + ApplePatterns, AndroidPatterns, s);
    AnyMatchAppend(WebPatterns + JvmPatterns + GoPatterns + NativePatterns + RustPatterns + RubyPatterns + PhpPatterns + ApplePatterns + AndroidPatterns, DotNetPatterns, s);
    AnyMatchAppend(WebPatterns + JvmPatterns + GoPatterns + NativePatterns + RustPatterns + RubyPatterns + PhpPatterns + ApplePatterns + AndroidPatterns + DotNetPatterns, InfraPatterns, s);
    AnyMatchAppend(WebPatterns + JvmPatterns + GoPatterns + NativePatterns + RustPatterns + RubyPatterns + PhpPatterns + ApplePatterns + AndroidPatterns + DotNetPatterns + InfraPatterns, DataPatterns, s);
  }

  /** As written, nothing under node_modules is guaranteed to be skipped: this file is not. */
  lemma NodeModulesNotIgnored()
    ensures !ShouldIgnoreFile(NodeModulesReadme)
  {
    var s := NodeModulesReadme;
    ReadmeLetters(s);
    NormalizeIdentity(s);
    PythonNoMatch(s);
    OtherNoMatch(s);
    AnyMatchAppend(PythonPatterns, OtherPatterns, s);
  }

  /** The list with the missing comma put back, as its layout intends. */
  const IntendedPatterns: seq<string> :=
    PythonPatterns[..13] + ["poetry.lock", "node_modules/*"] + OtherPatterns

  lemma IntendedMatchesNodeModules(name: string)
    ensures ShouldIgnoreWith(IntendedPatterns, "node_modules/" + name)
  {
    var t := "node_modules/" + name;
    var s := Normalize(t);
    assert forall i :: 0 <= i < 13 ==> s[i] == t[i];
    assert s[..13] == "node_modules/";
    FnMatchPrefix("node_modules/", s);
    assert IntendedPatterns[14] == "node_modules/" + "*";
    AnyMatchAt(IntendedPatterns, 14, s);
  }

  /** Splitting the fused entry at index 13 shifts the later entries by one. */
  lemma SplitShifts(p: seq<string>, o: seq<string>, x: string, y: string, i: nat)
    requires |p| == 14 && i < |p| + |o| && i != 13
    ensures i < 13 ==> (p[..13] + [x, y] + o)[i] == (p + o)[i]
    ensures i > 13 ==> (p[..13] + [x, y] + o)[i + 1] == (p + o)[i]
  {
  }

  lemma IntendedKeepsOthers(path: string)
    requires ShouldIgnoreFile(path) && !FnMatch("poetry.locknode_modules/*", Normalize(path))
    ensures ShouldIgnoreWith(IntendedPatterns, path)
  {
    var n := Normalize(path);
    var i :| 0 <= i < |IgnoredPatterns| && FnMatch(IgnoredPatterns[i], n);
    assert |PythonPatterns| == 14 && PythonPatterns[13] == "poetry.locknode_modules/*";
    assert i != 13;
    SplitShifts(PythonPatterns, OtherPatterns, "poetry.lock", "node_modules/*", i);
    if i < 13 {
      AnyMatchAt(IntendedPatterns, i, n);
    } else {
      AnyMatchAt(IntendedPatterns, i + 1, n);
    }
  }

  /** With the comma restored, everything under node_modules is skipped, and every path
      the written list skips is still skipped unless only the fused pattern caught it. */
  lemma IntendedIgnoresNodeModules(name: string, path: string)
    ensures ShouldIgnoreWith(IntendedPatterns, "node_modules/" + name)
    ensures ShouldIgnoreFile(path) && !FnMatch("poetry.locknode_modules/*", Normalize(path))
            ==> ShouldIgnoreWith(IntendedPatterns, path)
  {
    IntendedMatchesNodeModules(name);
    if ShouldIgnoreFile(path) && !FnMatch("poetry.locknode_modules/*", Normalize(path)) {
      IntendedKeepsOthers(path);
    }
  }
}
