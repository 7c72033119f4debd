/** Parsing of `grep -rnC 5` / `git grep -nC 5` output into search results.
    The output is a sequence of lines; a line that strips to "--" separates two chunks.
    In a chunk the match line reads `path:N:text` and a context line `path-N-text`. */
module GrepSearch {
  import opened Wrappers
  import opened Seqs
  import opened Strings

  datatype GrepResult = GrepResult(
    filePath: string,
    startLine: nat,
    endLine: nat,
    matchLine: nat,
    content: string)

  /** `grep` keeps the first hundred results over all search terms. */
  const MaxResults: nat := 100

  predicate IsDelimiter(line: string) {
    Strip(line) == "--"
  }

  predicate AllDigits(ds: string) {
    forall i :: 0 <= i < |ds| ==> IsDigit(ds[i])
  }

  // ---------------------------------------------------------------------------
  // Chunking

  /** The chunking loop with `cur` as the chunk under construction: a line satisfying
      `delim` closes `cur` (even an empty one), and a non-empty chunk left at the end is
      flushed. */
  function ChunksFrom(delim: string -> bool, lines: seq<string>, cur: seq<string>): seq<seq<string>>
    decreases |lines|
  {
    if |lines| == 0 then (if |cur| > 0 then [cur] else [])
    else if delim(lines[0]) then [cur] + ChunksFrom(delim, lines[1..], [])
    else ChunksFrom(delim, lines[1..], cur + [lines[0]])
  }

  function Chunks(lines: seq<string>): seq<seq<string>> {
    ChunksFrom(IsDelimiter, lines, [])
  }

  predicate NotDelimiter(line: string) {
    !IsDelimiter(line)
  }

  predicate Free(delim: string -> bool, chunk: seq<string>) {
    forall i :: 0 <= i < |chunk| ==> !delim(chunk[i])
  }

  predicate DelimiterFree(chunk: seq<string>) {
    Free(IsDelimiter, chunk)
  }

  lemma {:induction false} ChunksFromPartition(delim: string -> bool, keep: string -> bool, lines: seq<string>, cur: seq<string>)
    requires forall x :: keep(x) == !delim(x)
    requires Free(delim, cur)
    ensures Flatten(ChunksFrom(delim, lines, cur)) == cur + Filter(keep, lines)
    ensures forall c :: c in ChunksFrom(delim, lines, cur) ==> Free(delim, c)
    decreases |lines|
  {
    if |lines| == 0 {
      if |cur| > 0 {
        assert Flatten([cur]) == cur + Flatten([cur][1..]);
        assert [cur][1..] == [];
      }
    } else if delim(lines[0]) {
      ChunksFromPartition(delim, keep, lines[1..], []);
      var rest := ChunksFrom(delim, lines[1..], []);
      assert ([cur] + rest)[1..] == rest;
      assert Flatten([cur] + rest) == cur + Flatten(rest);
    } else {
      ChunksFromPartition(delim, keep, lines[1..], cur + [lines[0]]);
    }
  }

  /** Delimiters belong to no chunk; every other line belongs to exactly one, in order. */
  lemma ChunksPartition(lines: seq<string>)
    ensures Flatten(Chunks(lines)) == Filter(NotDelimiter, lines)
    ensures forall c :: c in Chunks(lines) ==> DelimiterFree(c)
  {
    ChunksFromPartition(IsDelimiter, NotDelimiter, lines, []);
  }

  /** Writes chunks back out with "--" between consecutive ones. */
  function Separate(cs: seq<seq<string>>): seq<string> {
    if |cs| == 0 then []
    else if |cs| == 1 then cs[0]
    else cs[0] + ["--"] + Separate(cs[1..])
  }

  lemma {:induction false} ChunksFromFree(delim: string -> bool, c: seq<string>, rest: seq<string>, cur: seq<string>)
    requires Free(delim, c)
    ensures ChunksFrom(delim, c + rest, cur) == ChunksFrom(delim, rest, cur + c)
    decreases |c|
  {
    if |c| == 0 {
      assert c + rest == rest;
      assert cur + c == cur;
    } else {
      assert (c + rest)[0] == c[0];
      assert (c + rest)[1..] == c[1..] + rest;
      ChunksFromFree(delim, c[1..], rest, cur + [c[0]]);
      assert cur + [c[0]] + c[1..] == cur + c;
    }
  }

  lemma {:induction false} ChunksFromSeparate(delim: string -> bool, cs: seq<seq<string>>)
    requires delim("--")
    requires forall i :: 0 <= i < |cs| ==> |cs[i]| > 0 && Free(delim, cs[i])
    ensures ChunksFrom(delim, Separate(cs), []) == cs
  {
    if |cs| == 1 {
      ChunksFromFree(delim, cs[0], [], []);
      assert cs[0] + [] == cs[0] && [] + cs[0] == cs[0];
    } else if |cs| > 1 {
      var tail := Separate(cs[1..]);
      ChunksFromFree(delim, cs[0], ["--"] + tail, []);
      assert cs[0] + ["--"] + tail == cs[0] + (["--"] + tail);
      assert (["--"] + tail)[1..] == tail;
      assert [] + cs[0] == cs[0];
      ChunksFromSeparate(delim, cs[1..]);
    }
  }

  lemma DashesDelimit()
    ensures IsDelimiter("--")
  {
    StripUnpadded("--");
  }

  /** Chunking inverts `Separate` for non-empty, delimiter-free chunks. */
  lemma ChunksSeparate(cs: seq<seq<string>>)
    requires forall i :: 0 <= i < |cs| ==> |cs[i]| > 0 && DelimiterFree(cs[i])
    ensures Chunks(Separate(cs)) == cs
  {
    DashesDelimit();
    ChunksFromSeparate(IsDelimiter, cs);
  }

  // ---------------------------------------------------------------------------
  // The match line: `^(.*?):(\d+):(.*)$`

  /** `s[i]` is the first ':' of a `:<digits>:` group. */
  predicate ColonGroupAt(s: string, i: int) {
    0 <= i < |s| && s[i] == ':' &&
    var n := DigitRun(s[i + 1..]);
    n >= 1 && i + 1 + n < |s| && s[i + 1 + n] == ':'
  }

  function FirstColonGroupFrom(s: string, k: nat): (r: Option<nat>)
    ensures r.Some? ==> k <= r.value && ColonGroupAt(s, r.value)
                        && forall j :: k <= j < r.value ==> !ColonGroupAt(s, j)
    ensures r.None? ==> forall j :: k <= j < |s| ==> !ColonGroupAt(s, j)
    decreases |s| - k
  {
    if k >= |s| then None
    else if ColonGroupAt(s, k) then Some(k)
    else FirstColonGroupFrom(s, k + 1)
  }

  /** The three groups of the match-line pattern. */
  datatype MatchLine = MatchLine(prefix: string, digits: string, text: string)

  /** `^(.*?):(\d+):(.*)$`: the three groups, when the line matches. */
  function ParseMatchLine(s: string): (r: Option<MatchLine>)
    ensures r.Some? ==>
              && |r.value.digits| >= 1 && AllDigits(r.value.digits)
              && s == r.value.prefix + ":" + r.value.digits + ":" + r.value.text
  {
    match FirstColonGroupFrom(s, 0)
    case None => None
    case Some(i) =>
      var n := DigitRun(s[i + 1..]);
      var prefix, digits, text := s[..i], s[i + 1..i + 1 + n], s[i + 2 + n..];
      assert AllDigits(digits) by {
        assert forall k :: 0 <= k < n ==> digits[k] == s[i + 1..][k];
      }
      assert s[..i + 1] == prefix + ":";
      assert s[..i + 1 + n] == prefix + ":" + digits;
      assert s[..i + 2 + n] == prefix + ":" + digits + ":";
      assert s == s[..i + 2 + n] + text;
      Some(MatchLine(prefix, digits, text))
  }

  /** The lazy `(.*?)` takes the shortest prefix after which `:<digits>:` follows;
      `\d+` then takes the whole digit run, since a digit is never ':'. */
  lemma ParseMatchLineGroups(s: string)
    ensures ParseMatchLine(s).None? ==> forall j :: 0 <= j < |s| ==> !ColonGroupAt(s, j)
    ensures ParseMatchLine(s).Some? ==>
              var m := ParseMatchLine(s).value;
              && ColonGroupAt(s, |m.prefix|)
              && (forall j :: 0 <= j < |m.prefix| ==> !ColonGroupAt(s, j))
  {
    match FirstColonGroupFrom(s, 0)
    case None =>
    case Some(i) =>
      assert |ParseMatchLine(s).value.prefix| == i;
  }

  /** Reading a line written as `path:N:text` gives back its three parts when the path
      has no ':' of its own. */
  lemma ColonGroupOfLine(path: string, ds: string, text: string)
    requires |ds| >= 1 && AllDigits(ds)
    ensures ColonGroupAt(path + [':'] + ds + [':'] + text, |path|)
    ensures DigitRun((path + [':'] + ds + [':'] + text)[|path| + 1..]) == |ds|
  {
    var s := path + [':'] + ds + [':'] + text;
    var i := |path|;
    assert s[i + 1..] == ds + [':'] + text;
    DigitRunPrefix(ds, ':', text);
    assert s[i + 1 + |ds|] == ':';
  }

  lemma NoEarlierColonGroup(path: string, ds: string, text: string)
    requires ':' !in path
    ensures forall j :: 0 <= j < |path| ==> !ColonGroupAt(path + [':'] + ds + [':'] + text, j)
  {
    var s := path + [':'] + ds + [':'] + text;
    forall j | 0 <= j < |path|
      ensures s[j] != ':'
    {
      assert s[j] == path[j];
    }
  }

  lemma MatchLineRoundTrip(path: string, ds: string, text: string)
    requires ':' !in path && |ds| >= 1 && AllDigits(ds)
    ensures ParseMatchLine(path + [':'] + ds + [':'] + text) == Some(MatchLine(path, ds, text))
  {
    var s := path + [':'] + ds + [':'] + text;
    var i := |path|;
    ColonGroupOfLine(path, ds, text);
    NoEarlierColonGroup(path, ds, text);
    var first := FirstColonGroupFrom(s, 0);
    assert first == Some(i);
    assert s[..i] == path;
    assert s[i + 1..i + 1 + |ds|] == ds;
    assert s[i + 2 + |ds|..] == text;
  }

  lemma NoColonNoMatch(s: string)
    requires ':' !in s
    ensures ParseMatchLine(s).None?
  {
    assert forall j :: 0 <= j < |s| ==> !ColonGroupAt(s, j);
  }

  /** A digit run ended by a non-digit is read whole. */
  lemma DigitRunPrefix(ds: string, c: char, rest: string)
    requires AllDigits(ds) && !IsDigit(c)
    ensures DigitRun(ds + [c] + rest) == |ds|
    decreases |ds|
  {
    if |ds| > 0 {
      assert (ds + [c] + rest)[1..] == ds[1..] + [c] + rest;
      DigitRunPrefix(ds[1..], c, rest);
    } else {
      assert (ds + [c] + rest)[0] == c;
    }
  }

  // ---------------------------------------------------------------------------
  // Context lines: `^{re.escape(path)}[-:](\d+)[-:]?(.*)$`

  predicate IsSeparator(c: char) {
    c == '-' || c == ':'
  }

  /** Length of the `path[-:]N` head of `line`, or 0 when the pattern does not match. */
  function ContextHead(line: string, path: string): (n: nat)
    ensures n <= |line|
    ensures n > 0 ==> StartsWith(line, path) && n > |path| + 1 && IsSeparator(line[|path|])
                      && AllDigits(line[|path| + 1..n]) && (n == |line| || !IsDigit(line[n]))
  {
    if StartsWith(line, path) && |line| > |path| && IsSeparator(line[|path|])
       && DigitRun(line[|path| + 1..]) >= 1
    then
      var n := |path| + 1 + DigitRun(line[|path| + 1..]);
      assert forall i :: |path| + 1 <= i < n ==> line[i] == line[|path| + 1..][i - |path| - 1];
      n
    else 0
  }

  /** The line number of a chunk line, when it has the form `path[-:]N...`. */
  function ContextNumber(line: string, path: string): (r: Option<nat>)
    ensures r.Some? <==> ContextHead(line, path) > 0
  {
    var n := ContextHead(line, path);
    if n > 0 then Some(DigitsValue(line[|path| + 1..n])) else None
  }

  /** `re.sub` of the anchored head, one optional separator after it, then `strip()`. */
  function CleanLine(line: string, path: string): (r: string)
    ensures ContextHead(line, path) == 0 ==> r == Strip(line)
  {
    var n := ContextHead(line, path);
    if n == 0 then Strip(line)
    else if n < |line| && IsSeparator(line[n]) then Strip(line[n + 1..])
    else Strip(line[n..])
  }

  lemma ContextHeadOfLine(path: string, sep1: char, ds: string, sep2: char, text: string)
    requires IsSeparator(sep1) && IsSeparator(sep2) && |ds| >= 1 && AllDigits(ds)
    ensures var line := path + [sep1] + ds + [sep2] + text;
            var n := |path| + 1 + |ds|;
            && ContextHead(line, path) == n
            && line[|path| + 1..n] == ds && line[n] == sep2 && line[n + 1..] == text
  {
    var line := path + [sep1] + ds + [sep2] + text;
    assert line[..|path|] == path;
    assert line[|path|] == sep1;
    assert line[|path| + 1..] == ds + [sep2] + text;
    DigitRunPrefix(ds, sep2, text);
    var n := |path| + 1 + |ds|;
    assert line[|path| + 1..n] == ds;
    assert line[n + 1..] == text;
  }

  /** A line written as `path<sep>N<sep>text` is numbered N and cleans to the stripped text. */
  lemma ContextLineRoundTrip(path: string, sep1: char, ds: string, sep2: char, text: string)
    requires IsSeparator(sep1) && IsSeparator(sep2) && |ds| >= 1 && AllDigits(ds)
    ensures ContextNumber(path + [sep1] + ds + [sep2] + text, path) == Some(DigitsValue(ds))
    ensures CleanLine(path + [sep1] + ds + [sep2] + text, path) == Strip(text)
  {
    ContextLineNumber(path, sep1, ds, sep2, text);
    ContextLineClean(path, sep1, ds, sep2, text);
  }

  lemma ContextLineNumber(path: string, sep1: char, ds: string, sep2: char, text: string)
    requires IsSeparator(sep1) && IsSeparator(sep2) && |ds| >= 1 && AllDigits(ds)
    ensures ContextNumber(path + [sep1] + ds + [sep2] + text, path) == Some(DigitsValue(ds))
  {
    ContextHeadOfLine(path, sep1, ds, sep2, text);
    ContextNumberOfHead(path + [sep1] + ds + [sep2] + text, path, ds);
  }

  lemma ContextNumberOfHead(line: string, path: string, ds: string)
    requires |ds| >= 1 && AllDigits(ds)
    requires ContextHead(line, path) == |path| + 1 + |ds| && line[|path| + 1..|path| + 1 + |ds|] == ds
    ensures ContextNumber(line, path) == Some(DigitsValue(ds))
  {
  }

  lemma ContextLineClean(path: string, sep1: char, ds: string, sep2: char, text: string)
    requires IsSeparator(sep1) && IsSeparator(sep2) && |ds| >= 1 && AllDigits(ds)
    ensures CleanLine(path + [sep1] + ds + [sep2] + text, path) == Strip(text)
  {
    ContextHeadOfLine(path, sep1, ds, sep2, text);
    CleanLineOfHead(path + [sep1] + ds + [sep2] + text, path, |path| + 1 + |ds|, text);
  }

  lemma CleanLineOfHead(line: string, path: string, n: nat, text: string)
    requires 0 < n < |line| && ContextHead(line, path) == n && IsSeparator(line[n]) && line[n + 1..] == text
    ensures CleanLine(line, path) == Strip(text)
  {
  }

  /** Some line of the chunk has the context form with number `v`. */
  predicate NumberedIn(chunk: seq<string>, path: string, v: nat) {
    exists i :: 0 <= i < |chunk| && ContextNumber(chunk[i], path) == Some(v)
  }

  /** The line numbers of the chunk's lines that have the context form, in order. */
  function ContextNumbers(chunk: seq<string>, path: string): (r: seq<nat>)
    ensures forall i :: 0 <= i < |chunk| && ContextNumber(chunk[i], path).Some? ==>
              ContextNumber(chunk[i], path).value in r
    ensures forall v :: v in r ==> NumberedIn(chunk, path, v)
  {
    if |chunk| == 0 then []
    else
      var rest := ContextNumbers(chunk[1..], path);
      assert forall i :: 1 <= i < |chunk| ==> chunk[i] == chunk[1..][i - 1];
      match ContextNumber(chunk[0], path)
      case Some(v) => [v] + rest
      case None => rest
  }

  function SeqMin(s: seq<nat>): (m: nat)
    requires |s| > 0
    ensures m in s && forall v :: v in s ==> m <= v
  {
    if |s| == 1 then s[0]
    else
      var m := SeqMin(s[1..]);
      assert forall v :: v in s ==> v == s[0] || v in s[1..];
      if s[0] <= m then s[0] else m
  }

  function SeqMax(s: seq<nat>): (m: nat)
    requires |s| > 0
    ensures m in s && forall v :: v in s ==> v <= m
  {
    if |s| == 1 then s[0]
    else
      var m := SeqMax(s[1..]);
      assert forall v :: v in s ==> v == s[0] || v in s[1..];
      if s[0] >= m then s[0] else m
  }

  // ---------------------------------------------------------------------------
  // One chunk

  /** The index of the first chunk line that has the match-line form. */
  function FirstMatchIndex(chunk: seq<string>, k: nat): (r: Option<nat>)
    ensures r.Some? ==> k <= r.value < |chunk| && ParseMatchLine(chunk[r.value]).Some?
                        && forall j :: k <= j < r.value ==> ParseMatchLine(chunk[j]).None?
    ensures r.None? ==> forall j :: k <= j < |chunk| ==> ParseMatchLine(chunk[j]).None?
    decreases |chunk| - k
  {
    if k >= |chunk| then None
    else if ParseMatchLine(chunk[k]).Some? then Some(k)
    else FirstMatchIndex(chunk, k + 1)
  }

  /** Every chunk line with its `path[-:]N[-:]` head removed and stripped. */
  function CleanLines(chunk: seq<string>, path: string): (r: seq<string>)
    ensures |r| == |chunk|
    ensures forall i :: 0 <= i < |chunk| ==> r[i] == CleanLine(chunk[i], path)
  {
    if |chunk| == 0 then [] else [CleanLine(chunk[0], path)] + CleanLines(chunk[1..], path)
  }

  /** The text lines of a result: the match line's text, then every chunk line cleaned. */
  function ContentLines(text: string, chunk: seq<string>, path: string): (r: seq<string>)
    ensures |r| == |chunk| + 1 && r[0] == Strip(text) && r[1..] == CleanLines(chunk, path)
  {
    [Strip(text)] + CleanLines(chunk, path)
  }

  /** `process_chunk`. `repoPath` is removed from the path outside a git repository. */
  function ProcessChunk(chunk: seq<string>, isGitRepo: bool, repoPath: string): (r: Option<GrepResult>)
    ensures |chunk| == 0 ==> r.None?
    ensures r.Some? ==> r.value.startLine <= r.value.endLine
  {
    match FirstMatchIndex(chunk, 0)
    case None => None
    case Some(k) =>
      var m := ParseMatchLine(chunk[k]).value;
      var path := Strip(m.prefix);
      if path == "" then None
      else
        var nums := ContextNumbers(chunk, path);
        if |nums| == 0 then None
        else
          Some(GrepResult(
            if isGitRepo then path else RemoveAll(path, repoPath),
            SeqMin(nums),
            SeqMax(nums),
            DigitsValue(m.digits),
            Join(ContentLines(m.text, chunk, path), "\n")))
  }

  /** A chunk yields nothing exactly when no line has the match form, the match line's
      path strips to nothing, or no line carries that path's `path[-:]N` head. */
  lemma ProcessChunkNone(chunk: seq<string>, isGitRepo: bool, repoPath: string)
    ensures ProcessChunk(chunk, isGitRepo, repoPath).None? <==>
              || FirstMatchIndex(chunk, 0).None?
              || var m := ParseMatchLine(chunk[FirstMatchIndex(chunk, 0).value]).value;
                 Strip(m.prefix) == "" || forall i :: 0 <= i < |chunk| ==> ContextNumber(chunk[i], Strip(m.prefix)).None?
  {
    if FirstMatchIndex(chunk, 0).Some? {
      var m := ParseMatchLine(chunk[FirstMatchIndex(chunk, 0).value]).value;
      var nums := ContextNumbers(chunk, Strip(m.prefix));
      if |nums| > 0 {
        assert nums[0] in nums;
      }
    }
  }

  /** The fields of a result: the number of the first match line, the path before its
      `:N:` group (stripped), the least and greatest number over the chunk's numbered lines,
      and the match text followed by every cleaned chunk line. */
  lemma ProcessChunkFields(chunk: seq<string>, isGitRepo: bool, repoPath: string)
    requires ProcessChunk(chunk, isGitRepo, repoPath).Some?
    ensures var r := ProcessChunk(chunk, isGitRepo, repoPath).value;
            var k := FirstMatchIndex(chunk, 0).value;
            var m := ParseMatchLine(chunk[k]).value;
            var path := Strip(m.prefix);
            var nums := ContextNumbers(chunk, path);
            && (forall j :: 0 <= j < k ==> ParseMatchLine(chunk[j]).None?)
            && r.matchLine == DigitsValue(m.digits)
            && r.filePath == (if isGitRepo then path else RemoveAll(path, repoPath))
            && r.startLine in nums && r.endLine in nums
            && (forall v :: v in nums ==> r.startLine <= v <= r.endLine)
            && r.content == Join(ContentLines(m.text, chunk, path), "\n")
  {
    var k := FirstMatchIndex(chunk, 0).value;
    var m := ParseMatchLine(chunk[k]).value;
    var path := Strip(m.prefix);
    var nums := ContextNumbers(chunk, path);
    assert ProcessChunk(chunk, isGitRepo, repoPath) == Some(GrepResult(
      if isGitRepo then path else RemoveAll(path, repoPath),
      SeqMin(nums), SeqMax(nums), DigitsValue(m.digits),
      Join(ContentLines(m.text, chunk, path), "\n")));
  }

  /** The match line, read back as a numbered line of its own path. */
  lemma MatchLineNumbered(chunk: seq<string>, k: nat)
    requires k < |chunk| && ParseMatchLine(chunk[k]).Some?
    ensures var m := ParseMatchLine(chunk[k]).value;
            ContextNumber(chunk[k], m.prefix) == Some(DigitsValue(m.digits)) &&
            CleanLine(chunk[k], m.prefix) == Strip(m.text)
  {
    var m := ParseMatchLine(chunk[k]).value;
    assert chunk[k] == m.prefix + [':'] + m.digits + [':'] + m.text;
    ContextLineRoundTrip(m.prefix, ':', m.digits, ':', m.text);
  }

  /** The numbers of a chunk include every numbered line's, so they have a least and a
      greatest. */
  lemma NumberedInRange(chunk: seq<string>, path: string, k: nat, v: nat)
    requires k < |chunk| && ContextNumber(chunk[k], path) == Some(v)
    ensures var nums := ContextNumbers(chunk, path);
            |nums| > 0 && SeqMin(nums) <= v <= SeqMax(nums)
  {
    var nums := ContextNumbers(chunk, path);
    assert v in nums;
  }

  /** When the match line's path carries no surrounding whitespace, the match line is one
      of the numbered lines, so it lies inside the reported range, and its text is listed
      twice: first on its own and then again as its cleaned chunk line. */
  lemma MatchInsideRange(chunk: seq<string>, isGitRepo: bool, repoPath: string)
    requires FirstMatchIndex(chunk, 0).Some?
    requires var k := FirstMatchIndex(chunk, 0).value;
             var m := ParseMatchLine(chunk[k]).value;
             m.prefix != "" && Unpadded(m.prefix)
    ensures var r := ProcessChunk(chunk, isGitRepo, repoPath);
            var k := FirstMatchIndex(chunk, 0).value;
            var m := ParseMatchLine(chunk[k]).value;
            && r.Some?
            && r.value.startLine <= r.value.matchLine <= r.value.endLine
            && var lines := ContentLines(m.text, chunk, m.prefix);
               lines[0] == lines[k + 1] == Strip(m.text)
  {
    var k := FirstMatchIndex(chunk, 0).value;
    var m := ParseMatchLine(chunk[k]).value;
    StripUnpadded(m.prefix);
    MatchLineNumbered(chunk, k);
    NumberedInRange(chunk, m.prefix, k, DigitsValue(m.digits));
    var lines := ContentLines(m.text, chunk, m.prefix);
    assert lines[k + 1] == CleanLines(chunk, m.prefix)[k];
  }

  /** A chunk of the shape grep writes: a context line, the match line, another context line. */
  function ThreeLineChunk(path: string, ds1: string, t1: string, ds2: string, t2: string,
                          ds3: string, t3: string): seq<string> {
    [path + ['-'] + ds1 + ['-'] + t1, path + [':'] + ds2 + [':'] + t2, path + ['-'] + ds3 + ['-'] + t3]
  }

  predicate ThreeLineShape(path: string, ds1: string, t1: string, ds2: string, ds3: string) {
    && path != "" && Unpadded(path) && ':' !in path && ':' !in t1
    && |ds1| >= 1 && AllDigits(ds1) && |ds2| >= 1 && AllDigits(ds2) && |ds3| >= 1 && AllDigits(ds3)
  }

  lemma ThreeLineMatch(path: string, ds1: string, t1: string, ds2: string, t2: string, ds3: string, t3: string)
    requires ThreeLineShape(path, ds1, t1, ds2, ds3)
    ensures var chunk := ThreeLineChunk(path, ds1, t1, ds2, t2, ds3, t3);
            FirstMatchIndex(chunk, 0) == Some(1) && ParseMatchLine(chunk[1]) == Some(MatchLine(path, ds2, t2))
  {
    var chunk := ThreeLineChunk(path, ds1, t1, ds2, t2, ds3, t3);
    var c0 := chunk[0];
    assert ':' !in c0 by {
      assert c0 == path + (['-'] + ds1 + ['-']) + t1;
      assert ':' !in ['-'] + ds1 + ['-'];
    }
    NoColonNoMatch(c0);
    MatchLineRoundTrip(path, ds2, t2);
    assert FirstMatchIndex(chunk, 1) == Some(1);
  }

  lemma ThreeLineNumbers(path: string, ds1: string, t1: string, ds2: string, t2: string, ds3: string, t3: string)
    requires ThreeLineShape(path, ds1, t1, ds2, ds3)
    ensures ContextNumbers(ThreeLineChunk(path, ds1, t1, ds2, t2, ds3, t3), path)
            == [DigitsValue(ds1), DigitsValue(ds2), DigitsValue(ds3)]
  {
    var chunk := ThreeLineChunk(path, ds1, t1, ds2, t2, ds3, t3);
    ContextLineNumber(path, '-', ds1, '-', t1);
    ContextLineNumber(path, ':', ds2, ':', t2);
    ContextLineNumber(path, '-', ds3, '-', t3);
    NumbersOfThree(chunk, path, DigitsValue(ds1), DigitsValue(ds2), DigitsValue(ds3));
  }

  lemma NumbersOfThree(chunk: seq<string>, path: string, a: nat, b: nat, c: nat)
    requires |chunk| == 3
    requires ContextNumber(chunk[0], path) == Some(a) && ContextNumber(chunk[1], path) == Some(b)
    requires ContextNumber(chunk[2], path) == Some(c)
    ensures ContextNumbers(chunk, path) == [a, b, c]
  {
    var c1 := chunk[1..];
    var c2 := c1[1..];
    assert c1[0] == chunk[1] && c2[0] == chunk[2] && |c2[1..]| == 0;
    NumbersCons(c2, path, c);
    NumbersCons(c1, path, b);
    NumbersCons(chunk, path, a);
  }

  lemma NumbersCons(chunk: seq<string>, path: string, v: nat)
    requires |chunk| > 0 && ContextNumber(chunk[0], path) == Some(v)
    ensures ContextNumbers(chunk, path) == [v] + ContextNumbers(chunk[1..], path)
  {
  }

  lemma ThreeLineContent(path: string, ds1: string, t1: string, ds2: string, t2: string, ds3: string, t3: string)
    requires ThreeLineShape(path, ds1, t1, ds2, ds3)
    ensures ContentLines(t2, ThreeLineChunk(path, ds1, t1, ds2, t2, ds3, t3), path)
            == [Strip(t2), Strip(t1), Strip(t2), Strip(t3)]
  {
    var chunk := ThreeLineChunk(path, ds1, t1, ds2, t2, ds3, t3);
    ContextLineClean(path, '-', ds1, '-', t1);
    ContextLineClean(path, ':', ds2, ':', t2);
    ContextLineClean(path, '-', ds3, '-', t3);
    ContentLinesOfThree(t2, chunk, path, Strip(t1), Strip(t2), Strip(t3));
  }

  lemma ContentLinesOfThree(text: string, chunk: seq<string>, path: string, a: string, b: string, c: string)
    requires |chunk| == 3
    requires CleanLine(chunk[0], path) == a && CleanLine(chunk[1], path) == b && CleanLine(chunk[2], path) == c
    ensures ContentLines(text, chunk, path) == [Strip(text), a, b, c]
  {
    var cleaned := CleanLines(chunk, path);
    assert cleaned == [a, b, c] by {
      ThreeOf(cleaned);
    }
    ConsThree(Strip(text), a, b, c);
  }

  lemma ConsThree<T>(x: T, a: T, b: T, c: T)
    ensures [x] + [a, b, c] == [x, a, b, c]
  {
  }

  lemma ThreeOf<T>(s: seq<T>)
    requires |s| == 3
    ensures s == [s[0], s[1], s[2]]
  {
  }

  /** The three-line chunk yields the match line's number, the least and greatest of the
      three numbers, and the match text followed by all three texts. */
  lemma ProcessThreeLineChunk(path: string, ds1: string, t1: string, ds2: string, t2: string,
                              ds3: string, t3: string, isGitRepo: bool, repoPath: string)
    requires ThreeLineShape(path, ds1, t1, ds2, ds3)
    ensures var r := ProcessChunk(ThreeLineChunk(path, ds1, t1, ds2, t2, ds3, t3), isGitRepo, repoPath);
            var nums := [DigitsValue(ds1), DigitsValue(ds2), DigitsValue(ds3)];
            var lines := [Strip(t2), Strip(t1), Strip(t2), Strip(t3)];
            var fp := if isGitRepo then path else RemoveAll(path, repoPath);
            r == Some(GrepResult(fp, SeqMin(nums), SeqMax(nums), DigitsValue(ds2), Join(lines, "\n")))
  {
    ThreeLineMatch(path, ds1, t1, ds2, t2, ds3, t3);
    ThreeLineNumbers(path, ds1, t1, ds2, t2, ds3, t3);
    ThreeLineContent(path, ds1, t1, ds2, t2, ds3, t3);
    StripUnpadded(path);
  }

  // ---------------------------------------------------------------------------
  // Whole output

  function OptionSeq<T>(o: Option<T>): seq<T> {
    if o.Some? then [o.value] else []
  }

  /** The results of the chunks that yield one, in order. */
  function Collect<R>(process: seq<string> -> Option<R>, chunks: seq<seq<string>>): (r: seq<R>)
    ensures |r| <= |chunks|
  {
    if |chunks| == 0 then []
    else OptionSeq(process(chunks[0])) + Collect(process, chunks[1..])
  }

  lemma CollectCons<R>(process: seq<string> -> Option<R>, c: seq<string>, rest: seq<seq<string>>)
    ensures Collect(process, [c] + rest) == OptionSeq(process(c)) + Collect(process, rest)
  {
    assert ([c] + rest)[1..] == rest;
  }

  function Processor(isGitRepo: bool, repoPath: string): seq<string> -> Option<GrepResult> {
    c => ProcessChunk(c, isGitRepo, repoPath)
  }

  /** `parse_lines`: one result per chunk that yields one, in output order. */
  function ParseLines(lines: seq<string>, isGitRepo: bool, repoPath: string): (r: seq<GrepResult>)
    ensures |r| <= |Chunks(lines)|
  {
    Collect(Processor(isGitRepo, repoPath), Chunks(lines))
  }

  /** One step of the chunking loop: a delimiter closes the chunk under construction,
      any other line joins it. */
  lemma ScanStep<R>(delim: string -> bool, process: seq<string> -> Option<R>, lines: seq<string>, i: nat, chunk: seq<string>)
    requires i < |lines|
    ensures delim(lines[i]) ==>
              Collect(process, ChunksFrom(delim, lines[i..], chunk))
              == OptionSeq(process(chunk)) + Collect(process, ChunksFrom(delim, lines[i + 1..], []))
    ensures !delim(lines[i]) ==>
              ChunksFrom(delim, lines[i..], chunk) == ChunksFrom(delim, lines[i + 1..], chunk + [lines[i]])
  {
    assert lines[i..][0] == lines[i];
    assert lines[i..][1..] == lines[i + 1..];
    if delim(lines[i]) {
      CollectCons(process, chunk, ChunksFrom(delim, lines[i + 1..], []));
    }
  }

  lemma AppendAssoc<T>(a: seq<T>, b: seq<T>, c: seq<T>)
    ensures (a + b) + c == a + (b + c)
  {
  }

  /** The loop of `parse_lines`: scan the lines, close the chunk at each delimiter and
      process it, then flush the last chunk when it is non-empty. */
  method ScanChunks<R>(delim: string -> bool, process: seq<string> -> Option<R>, lines: seq<string>)
    returns (results: seq<R>)
    ensures results == Collect(process, ChunksFrom(delim, lines, []))
  {
    results := [];
    var chunk: seq<string> := [];
    var i := 0;
    while i < |lines|
      invariant 0 <= i <= |lines|
      invariant results + Collect(process, ChunksFrom(delim, lines[i..], chunk))
                == Collect(process, ChunksFrom(delim, lines, []))
    {
      ScanStep(delim, process, lines, i, chunk);
      if delim(lines[i]) {
        var out := OptionSeq(process(chunk));
        AppendAssoc(results, out, Collect(process, ChunksFrom(delim, lines[i + 1..], [])));
        results := results + out;
        chunk := [];
      } else {
        chunk := chunk + [lines[i]];
      }
      i := i + 1;
    }
    assert lines[i..] == [];
    if |chunk| > 0 {
      CollectCons(process, chunk, []);
      var out := OptionSeq(process(chunk));
      assert Collect(process, ChunksFrom(delim, lines[i..], chunk)) == out + [];
      AppendAssoc(results, out, []);
      results := results + out;
    }
  }

  /** Each term's results, concatenated in term order. */
  function AllResults<R>(terms: seq<string>, parse: string -> seq<R>): seq<R> {
    if |terms| == 0 then [] else parse(terms[0]) + AllResults(terms[1..], parse)
  }

  /** The results of one more term come after those of the earlier terms. */
  lemma {:induction false} AllResultsSnoc<R>(terms: seq<string>, t: string, parse: string -> seq<R>)
    ensures AllResults(terms + [t], parse) == AllResults(terms, parse) + parse(t)
  {
    if |terms| == 0 {
      assert AllResults([t], parse) == parse(t) + AllResults([], parse);
    } else {
      assert (terms + [t])[1..] == terms[1..] + [t];
      AllResultsSnoc(terms[1..], t, parse);
    }
  }

  /** The loop over the search terms, concatenating each term's results. */
  method GrepAll<R>(terms: seq<string>, parse: string -> seq<R>) returns (results: seq<R>)
    ensures results == AllResults(terms, parse)
  {
    results := [];
    var i := 0;
    while i < |terms|
      invariant 0 <= i <= |terms|
      invariant results == AllResults(terms[..i], parse)
    {
      AllResultsSnoc(terms[..i], terms[i], parse);
      assert terms[..i + 1] == terms[..i] + [terms[i]];
      results := results + parse(terms[i]);
      i := i + 1;
    }
    assert terms[..i] == terms;
  }

  /** `parse_lines` over the output of the search for one term. */
  function TermResults(output: string -> seq<string>, isGitRepo: bool, repoPath: string): string -> seq<GrepResult> {
    t => ParseLines(output(t), isGitRepo, repoPath)
  }

  /** `grep`: the results of all terms concatenated, cut to the first hundred. */
  method Grep(terms: seq<string>, output: string -> seq<string>, isGitRepo: bool, repoPath: string)
    returns (r: seq<GrepResult>)
    ensures |r| <= MaxResults
    ensures var all := AllResults(terms, TermResults(output, isGitRepo, repoPath));
            |all| <= MaxResults ==> r == all
    ensures var all := AllResults(terms, TermResults(output, isGitRepo, repoPath));
            |all| > MaxResults ==> r == all[..MaxResults]
  {
    var results := GrepAll(terms, TermResults(output, isGitRepo, repoPath));
    r := PyTake(results, MaxResults);
  }
}
