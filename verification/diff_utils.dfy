/** Diff helpers of the review service: the +/- line counter, the per-file change
    record, the choice of git diff command per status, and the rule that merges
    committed, staged, unstaged and untracked changes into one status per path. */
module DiffUtils {
  import opened Wrappers
  import opened Seqs
  import opened Strings
  import opened Lines
  import opened ReviewTypes

  // ---------------------------------------------------------------- line counter

  /** File headers and hunk headers, which the counter skips. */
  predicate IsHeader(line: string) {
    StartsWith(line, "+++") || StartsWith(line, "---") || StartsWith(line, "@@")
  }

  predicate IsAddition(line: string) {
    !IsHeader(line) && StartsWith(line, "+")
  }

  predicate IsRemoval(line: string) {
    !IsHeader(line) && !StartsWith(line, "+") && StartsWith(line, "-")
  }

  /** A line counts as added iff it starts with "+" but not "+++", and as removed
      iff it starts with "-" but not "---"; no line counts as both. */
  lemma LineKinds(line: string)
    ensures IsAddition(line) <==> StartsWith(line, "+") && !StartsWith(line, "+++")
    ensures IsRemoval(line) <==> StartsWith(line, "-") && !StartsWith(line, "---")
    ensures !(IsAddition(line) && IsRemoval(line))
  {
    if |line| > 0 {
      assert StartsWith(line, "+") ==> line[0] == '+';
      assert StartsWith(line, "-") ==> line[0] == '-';
      assert StartsWith(line, "---") ==> line[0] == '-';
      assert StartsWith(line, "+++") ==> line[0] == '+';
      assert StartsWith(line, "@@") ==> line[0] == '@';
    }
  }

  /** The (added, removed) pair the counter promises for a diff text. */
  function Counts(diffText: string): (nat, nat) {
    var lines := SplitLines(diffText);
    (|Filter(IsAddition, lines)|, |Filter(IsRemoval, lines)|)
  }

  /** The counter's loop over the lines of the diff. */
  method CountAddedRemovedLines(diffText: string) returns (added: nat, removed: nat)
    ensures (added, removed) == Counts(diffText)
  {
    var lines := SplitLines(diffText);
    added, removed := 0, 0;
    var i := 0;
    while i < |lines|
      invariant 0 <= i <= |lines|
      invariant added == |Filter(IsAddition, lines[..i])|
      invariant removed == |Filter(IsRemoval, lines[..i])|
    {
      var line := lines[i];
      FilterAppend(IsAddition, lines[..i], [line]);
      FilterAppend(IsRemoval, lines[..i], [line]);
      assert lines[..i + 1] == lines[..i] + [line];
      if StartsWith(line, "+++") || StartsWith(line, "---") || StartsWith(line, "@@") {
      } else if StartsWith(line, "+") {
        added := added + 1;
      } else if StartsWith(line, "-") {
        removed := removed + 1;
      }
      i := i + 1;
    }
    assert lines[..|lines|] == lines;
  }

  lemma {:induction false} DisjointFilters(p: string -> bool, q: string -> bool, s: seq<string>)
    requires forall x :: !(p(x) && q(x))
    ensures |Filter(p, s)| + |Filter(q, s)| <= |s|
  {
    if |s| > 0 {
      DisjointFilters(p, q, s[1..]);
    }
  }

  /** Counting is additive over the lines, and no line is counted twice. */
  lemma CountsOfLines(lines: seq<string>, more: seq<string>)
    requires forall k :: 0 <= k < |lines| ==> NoBreak(lines[k])
    requires forall k :: 0 <= k < |more| ==> NoBreak(more[k])
    ensures Counts(Terminated(lines)).0 == |Filter(IsAddition, lines)|
    ensures Counts(Terminated(lines)).1 == |Filter(IsRemoval, lines)|
    ensures Counts(Terminated(lines)).0 + Counts(Terminated(lines)).1 <= |lines|
    ensures Counts(Terminated(lines + more)).0
            == Counts(Terminated(lines)).0 + Counts(Terminated(more)).0
  {
    SplitTerminated(lines);
    SplitTerminated(more);
    SplitTerminated(lines + more);
    FilterAppend(IsAddition, lines, more);
    forall x: string ensures !(IsAddition(x) && IsRemoval(x)) {
      LineKinds(x);
    }
    DisjointFilters(IsAddition, IsRemoval, lines);
  }

  // ---------------------------------------------------------------- file names

  /** The last segment that is neither empty nor ".", or "" when there is none. */
  function LastName(segments: seq<string>): (r: string)
    ensures r == "" || r in segments
    ensures r != "."
  {
    if |segments| == 0 then ""
    else
      var last := segments[|segments| - 1];
      if last != "" && last != "." then last else LastName(segments[..|segments| - 1])
  }

  /** `Path(p).name` for a POSIX path: empty and "." segments are dropped, and the
      name is the final remaining segment, or "" for a path with none. */
  function Basename(p: string): (r: string)
    ensures '/' !in r && r != "."
  {
    LastName(Split(p, '/'))
  }

  lemma {:induction false} SplitAppend(a: string, c: char, b: string)
    ensures Split(a + [c] + b, c) == Split(a, c) + Split(b, c)
    decreases |a|
  {
    var s := a + [c] + b;
    if |a| == 0 {
      assert s == [c] + b;
      assert s[1..] == b;
    } else {
      assert s[0] == a[0];
      assert s[1..] == a[1..] + [c] + b;
      SplitAppend(a[1..], c, b);
    }
  }

  /** The name of `dir/name` is `name` whenever `name` is a proper file name. */
  lemma BasenameOfChild(dir: string, name: string)
    requires name != "" && name != "." && '/' !in name
    ensures Basename(dir + "/" + name) == name
  {
    SplitAppend(dir, '/', name);
    assert dir + "/" + name == dir + ['/'] + name;
    assert Split(name, '/') == [name];
  }

  /** The per-file change record: the diff kept verbatim, the final path component
      as file name, and the line counts of the counter. */
  function FormatDiffResponse(filePath: string, diff: string, changeType: Status): (r: FileChanges)
    ensures r.filePath == filePath && r.diff == diff && r.status == changeType
    ensures r.fileName == Basename(filePath)
    ensures r.lineChanges.Some?
    ensures r.lineChanges.value.added == Some(Counts(diff).0)
    ensures r.lineChanges.value.removed == Some(Counts(diff).1)
  {
    var (added, removed) := Counts(diff);
    FileChanges(filePath, Basename(filePath), changeType,
                Some(NewLineChange(Given(Some(added)), Given(Some(removed)))), diff)
  }

  /** Leaves the diff output as it is; its header lines are not dropped. */
  function CleanDiff(diffOutput: string): (r: string)
    ensures r == diffOutput
  {
    diffOutput
  }

  // ---------------------------------------------------------------- per-file diff

  /** The arms of the per-file diff, in the order the status tests are made. */
  datatype DiffBranch = UntrackedBranch | RemovedBranch | ModifiedBranch
                      | AddedBranch | RenamedBranch | FallbackBranch

  /** The status tests in order: UNTRACKED first, so ADDED (the same member) never
      reaches its own arm. */
  function SelectBranch(s: Status): (b: DiffBranch)
    ensures b != AddedBranch
    ensures b == UntrackedBranch <==> s == Added
    ensures b == FallbackBranch <==> s.Copied? || s.Unmerged?
  {
    if s == Untracked then UntrackedBranch
    else if s == Removed then RemovedBranch
    else if s == Modified then ModifiedBranch
    else if s == Added then AddedBranch
    else if s == Renamed then RenamedBranch
    else FallbackBranch
  }

  /** The workspace facts and git calls one per-file diff may use.
      `git` runs `git diff` with the given arguments and may fail; `gitLenient`
      is the call made with failures on a non-zero exit turned off. */
  datatype Workspace = Workspace(
    isFile: string -> bool,
    git: seq<string> -> Result<string>,
    gitLenient: seq<string> -> string)

  /** Runs a failing git call as the surrounding handler does: any failure gives "". */
  function Run(r: Result<string>): string {
    if r.Ok? then r.value else ""
  }

  function NoIndexArgs(filePath: string): seq<string> {
    ["--no-index", "/dev/null", filePath]
  }

  /** The diff text of one file; `commitId` "" stands for no commit id. */
  function GetFileDiff(ws: Workspace, filePath: string, changeType: Status, commitId: string): (r: string)
    ensures changeType == Added && !ws.isFile(filePath) ==> r == ""
    ensures changeType == Added && ws.isFile(filePath) ==> r == ws.gitLenient(NoIndexArgs(filePath))
  {
    var commitRef := if commitId != "" then commitId else "HEAD";
    match SelectBranch(changeType)
    case UntrackedBranch =>
      if ws.isFile(filePath) then ws.gitLenient(NoIndexArgs(filePath)) else ""
    case RemovedBranch => Run(ws.git([commitRef, "--", filePath]))
    case ModifiedBranch =>
      if commitId != "" then Run(ws.git([commitRef, filePath]))
      else if ws.isFile(filePath) then
        match ws.git([filePath])
        case Err(_) => ""
        case Ok(unstaged) =>
          if unstaged != "" then unstaged else Run(ws.git(["--cached", filePath]))
      else Run(ws.git(["HEAD", "--", filePath]))
    case AddedBranch =>
      if commitId != "" then ws.gitLenient(NoIndexArgs(filePath))
      else if ws.isFile(filePath) then
        match ws.git(["--cached", filePath])
        case Err(_) => ""
        case Ok(cached) => if cached != "" then cached else ws.gitLenient(NoIndexArgs(filePath))
      else Run(ws.git(["HEAD", "--", filePath]))
    case RenamedBranch => Run(ws.git([commitRef, "--", filePath]))
    case FallbackBranch => Run(ws.git([commitRef, filePath]))
  }

  /** A modified file without a commit id shows its unstaged diff when there is one
      and its staged diff otherwise; with a commit id, the diff from that commit. */
  lemma ModifiedDiff(ws: Workspace, filePath: string, commitId: string)
    ensures commitId != "" ==> GetFileDiff(ws, filePath, Modified, commitId) == Run(ws.git([commitId, filePath]))
    ensures commitId == "" && ws.isFile(filePath) && ws.git([filePath]).Ok? ==>
      GetFileDiff(ws, filePath, Modified, commitId)
        == if ws.git([filePath]).value != "" then ws.git([filePath]).value
           else Run(ws.git(["--cached", filePath]))
    ensures commitId == "" && !ws.isFile(filePath) ==>
      GetFileDiff(ws, filePath, Modified, commitId) == Run(ws.git(["HEAD", "--", filePath]))
  {
  }

  /** A staged new file never gets its staged ("--cached") diff: it takes the untracked
      arm, whatever the commit id, and differs from the arm written for it. */
  lemma AddedIgnoresStagedDiff(ws: Workspace, filePath: string, commitId: string)
    requires commitId == "" && ws.isFile(filePath)
    requires ws.git(["--cached", filePath]) == Ok("+x")
    requires ws.gitLenient(NoIndexArgs(filePath)) == ""
    ensures GetFileDiff(ws, filePath, Added, commitId) == ""
  {
  }

  /** Removed and renamed files are diffed against the commit (HEAD without one), and
      a failing git call yields "" in every arm but the lenient one. */
  lemma RemovedRenamedDiff(ws: Workspace, filePath: string, commitId: string, s: Status)
    requires s == Removed || s == Renamed
    ensures GetFileDiff(ws, filePath, s, commitId)
            == Run(ws.git([if commitId != "" then commitId else "HEAD", "--", filePath]))
  {
  }

  // ---------------------------------------------------------------- merging changes

  /** One entry of a git diff listing; an empty `bPath` stands for a missing one. */
  datatype DiffEntry = DiffEntry(aPath: string, bPath: string, changeType: string)

  function EntryPath(e: DiffEntry): string {
    if e.bPath != "" then e.bPath else e.aPath
  }

  predicate Known(e: DiffEntry) {
    StatusMap(e.changeType).Some?
  }

  /** Entry `i` exists, has a known code and concerns path `p`. */
  predicate KnownAt(entries: seq<DiffEntry>, i: int, p: string) {
    0 <= i < |entries| && Known(entries[i]) && EntryPath(entries[i]) == p
  }

  function Code(e: DiffEntry): Status
    requires Known(e)
  {
    StatusMap(e.changeType).value
  }

  /** The index of the first known entry for `p`. */
  function FirstKnownIndex(entries: seq<DiffEntry>, p: string): (r: Option<nat>)
    ensures r.Some? ==> KnownAt(entries, r.value, p)
                        && forall j :: 0 <= j < r.value ==> !KnownAt(entries, j, p)
    ensures r.None? ==> forall j :: 0 <= j < |entries| ==> !KnownAt(entries, j, p)
  {
    if |entries| == 0 then None
    else if KnownAt(entries, 0, p) then Some(0)
    else
      var rest := FirstKnownIndex(entries[1..], p);
      assert forall j :: 1 <= j < |entries| ==> KnownAt(entries, j, p) == KnownAt(entries[1..], j - 1, p);
      if rest.None? then None else Some(rest.value + 1)
  }

  /** The index of the last known entry for `p`. */
  function LastKnownIndex(entries: seq<DiffEntry>, p: string): (r: Option<nat>)
    ensures r.Some? ==> KnownAt(entries, r.value, p)
                        && forall j :: r.value < j < |entries| ==> !KnownAt(entries, j, p)
    ensures r.None? ==> forall j :: 0 <= j < |entries| ==> !KnownAt(entries, j, p)
  {
    if |entries| == 0 then None
    else
      var rest := LastKnownIndex(entries[1..], p);
      assert forall j :: 1 <= j < |entries| ==> KnownAt(entries, j, p) == KnownAt(entries[1..], j - 1, p);
      if rest.Some? then Some(rest.value + 1)
      else if KnownAt(entries, 0, p) then Some(0)
      else None
  }

  /** Changes since a commit: entries with a known code are added unless their path
      is already present, so the first one wins. */
  function AddFirstWins(entries: seq<DiffEntry>, m: map<string, Status>): map<string, Status> {
    if |entries| == 0 then m
    else
      var e := entries[0];
      var p := EntryPath(e);
      AddFirstWins(entries[1..], if Known(e) && p !in m then m[p := Code(e)] else m)
  }

  /** Staged changes: every entry with a known code overwrites, so the last one wins. */
  function AddLastWins(entries: seq<DiffEntry>, m: map<string, Status>): map<string, Status> {
    if |entries| == 0 then m
    else
      var e := entries[0];
      AddLastWins(entries[1..], if Known(e) then m[EntryPath(e) := Code(e)] else m)
  }

  /** Unstaged changes: a known entry for a path already present makes it MODIFIED,
      otherwise its own status is recorded. */
  function AddUnstaged(entries: seq<DiffEntry>, m: map<string, Status>): map<string, Status> {
    if |entries| == 0 then m
    else
      var e := entries[0];
      var p := EntryPath(e);
      AddUnstaged(entries[1..],
        if !Known(e) then m else if p in m then m[p := Modified] else m[p := Code(e)])
  }

  /** Untracked files are recorded as UNTRACKED over whatever was there. */
  function AddUntracked(files: seq<string>, m: map<string, Status>): map<string, Status> {
    if |files| == 0 then m else AddUntracked(files[1..], m[files[0] := Untracked])
  }

  /** The merged status of every changed path. With a commit id ("" for none) only the
      commit's entries are read; without one, the staged and then the unstaged ones.
      `commitEntries` holds what the commit listing produced before any failure. */
  function CurrentChanges(commitId: string, commitEntries: seq<DiffEntry>, staged: seq<DiffEntry>,
                          unstaged: seq<DiffEntry>, untracked: seq<string>): map<string, Status> {
    var m := if commitId != "" then AddFirstWins(commitEntries, map[])
             else AddUnstaged(unstaged, AddLastWins(staged, map[]));
    AddUntracked(untracked, m)
  }

  lemma {:induction false} FirstWinsAt(entries: seq<DiffEntry>, m: map<string, Status>, p: string)
    ensures p in AddFirstWins(entries, m) <==> p in m || FirstKnownIndex(entries, p).Some?
    ensures p in m ==> AddFirstWins(entries, m)[p] == m[p]
    ensures p !in m && FirstKnownIndex(entries, p).Some? ==>
      AddFirstWins(entries, m)[p] == Code(entries[FirstKnownIndex(entries, p).value])
  {
    if |entries| > 0 {
      var e := entries[0];
      var m1 := if Known(e) && EntryPath(e) !in m then m[EntryPath(e) := Code(e)] else m;
      FirstWinsAt(entries[1..], m1, p);
    }
  }

  lemma {:induction false} LastWinsAt(entries: seq<DiffEntry>, m: map<string, Status>, p: string)
    ensures p in AddLastWins(entries, m) <==> p in m || LastKnownIndex(entries, p).Some?
    ensures LastKnownIndex(entries, p).None? && p in m ==> AddLastWins(entries, m)[p] == m[p]
    ensures LastKnownIndex(entries, p).Some? ==>
      AddLastWins(entries, m)[p] == Code(entries[LastKnownIndex(entries, p).value])
  {
    if |entries| > 0 {
      var e := entries[0];
      var m1 := if Known(e) then m[EntryPath(e) := Code(e)] else m;
      LastWinsAt(entries[1..], m1, p);
    }
  }

  lemma {:induction false} UnstagedAt(entries: seq<DiffEntry>, m: map<string, Status>, p: string)
    ensures p in AddUnstaged(entries, m) <==> p in m || FirstKnownIndex(entries, p).Some?
    ensures FirstKnownIndex(entries, p).None? && p in m ==> AddUnstaged(entries, m)[p] == m[p]
    ensures FirstKnownIndex(entries, p).Some? && p in m ==> AddUnstaged(entries, m)[p] == Modified
    ensures FirstKnownIndex(entries, p).Some? && p !in m ==>
      AddUnstaged(entries, m)[p]
        == if FirstKnownIndex(entries, p) == LastKnownIndex(entries, p)
           then Code(entries[FirstKnownIndex(entries, p).value]) else Modified
  {
    if |entries| > 0 {
      var e := entries[0];
      var q := EntryPath(e);
      var m1 := if !Known(e) then m else if q in m then m[q := Modified] else m[q := Code(e)];
      UnstagedAt(entries[1..], m1, p);
    }
  }

  lemma {:induction false} UntrackedAt(files: seq<string>, m: map<string, Status>, p: string)
    ensures p in AddUntracked(files, m) <==> p in m || p in files
    ensures p in files ==> AddUntracked(files, m)[p] == Untracked
    ensures p !in files && p in m ==> AddUntracked(files, m)[p] == m[p]
  {
    if |files| > 0 {
      UntrackedAt(files[1..], m[files[0] := Untracked], p);
    }
  }

  /** The status the merge rule promises for path `p`, stated per listing:
      untracked wins; with a commit id the first known commit entry decides; without
      one an unstaged entry turns a staged path, or a path listed twice, into MODIFIED,
      and otherwise the last staged or the only unstaged entry decides. */
  function ExpectedStatus(commitId: string, commitEntries: seq<DiffEntry>, staged: seq<DiffEntry>,
                          unstaged: seq<DiffEntry>, untracked: seq<string>, p: string): Option<Status> {
    if p in untracked then Some(Untracked)
    else if commitId != "" then
      var i := FirstKnownIndex(commitEntries, p);
      if i.None? then None else Some(Code(commitEntries[i.value]))
    else
      var s := LastKnownIndex(staged, p);
      var u := FirstKnownIndex(unstaged, p);
      if u.None? then (if s.None? then None else Some(Code(staged[s.value])))
      else if s.Some? || u != LastKnownIndex(unstaged, p) then Some(Modified)
      else Some(Code(unstaged[u.value]))
  }

  /** The merge yields exactly the promised status for every path, and nothing for
      paths no listing mentions with a known code. */
  lemma CurrentChangesAgree(commitId: string, commitEntries: seq<DiffEntry>, staged: seq<DiffEntry>,
                            unstaged: seq<DiffEntry>, untracked: seq<string>, p: string)
    ensures var r := CurrentChanges(commitId, commitEntries, staged, unstaged, untracked);
            var x := ExpectedStatus(commitId, commitEntries, staged, unstaged, untracked, p);
            (p in r <==> x.Some?) && (p in r ==> r[p] == x.value)
  {
    var m := if commitId != "" then AddFirstWins(commitEntries, map[])
             else AddUnstaged(unstaged, AddLastWins(staged, map[]));
    UntrackedAt(untracked, m, p);
    if commitId != "" {
      FirstWinsAt(commitEntries, map[], p);
    } else {
      var st := AddLastWins(staged, map[]);
      LastWinsAt(staged, map[], p);
      UnstagedAt(unstaged, st, p);
    }
  }
}
