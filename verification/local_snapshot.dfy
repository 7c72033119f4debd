/** The on-disk review snapshot of a branch: the status file listing the changed
    files, the copies of those files, the last reviewed commit id, and the
    memoised location of the snapshot directory. */
module LocalSnapshot {
  import opened Wrappers
  import opened Strings
  import opened ReviewTypes

  /** `a / b` on paths: an absolute `b` replaces `a`. */
  function JoinPath(a: string, b: string): (r: string)
    ensures StartsWith(b, "/") ==> r == b
    ensures !StartsWith(b, "/") ==> r == a + "/" + b
  {
    if |b| > 0 && b[0] == '/' then b else a + "/" + b
  }

  /** The snapshot locator: the resolved repository path, the source branch and the
      cached snapshot path, which starts out unset. */
  datatype Locator = Locator(repoPath: string, sourceBranch: string, cached: Option<string>)

  /** The `snapshot_path` property: the path under `snapshotsDir` for the branch,
      computed on first use and returned from the cache afterwards. */
  function SnapshotPath(loc: Locator, snapshotsDir: string): (r: (string, Locator))
    ensures loc.cached.Some? ==> r == (loc.cached.value, loc)
    ensures loc.cached.None? ==>
      r.0 == JoinPath(JoinPath(loc.repoPath, snapshotsDir), loc.sourceBranch)
    ensures r.1 == loc.(cached := Some(r.0))
  {
    match loc.cached
    case Some(p) => (p, loc)
    case None =>
      var p := JoinPath(JoinPath(loc.repoPath, snapshotsDir), loc.sourceBranch);
      (p, loc.(cached := Some(p)))
  }

  /** Once computed, the path is reused: a later call, even one given another
      snapshots directory, returns the same path and leaves the locator alone. */
  lemma SnapshotPathMemoised(loc: Locator, dir1: string, dir2: string)
    ensures var (p, loc1) := SnapshotPath(loc, dir1);
            SnapshotPath(loc1, dir2) == (p, loc1)
  {
  }

  /** One line of the status file, without its newline: the status value, a space,
      the path. */
  function StatusText(path: string, status: Status): (t: string)
    ensures |t| == |path| + 2 && t[0] == Value(status)[0] && t[1] == ' ' && t[2..] == path
  {
    Value(status) + " " + path
  }

  /** The status lines of the (path, status) entries, in map order. */
  function StatusLines(entries: seq<(string, Status)>): (r: seq<string>)
    ensures |r| == |entries|
    ensures forall i :: 0 <= i < |r| ==> r[i] == StatusText(entries[i].0, entries[i].1)
  {
    if |entries| == 0 then []
    else [StatusText(entries[0].0, entries[0].1)] + StatusLines(entries[1..])
  }

  /** The status file's text: every status line followed by a newline. */
  function WriteStatusFile(entries: seq<(string, Status)>): (text: string)
    ensures text == "" <==> |entries| == 0
  {
    if |entries| == 0 then ""
    else StatusText(entries[0].0, entries[0].1) + "\n" + WriteStatusFile(entries[1..])
  }

  /** The status file is its lines joined by newlines with a final newline. */
  lemma {:induction false} WrittenAsJoin(entries: seq<(string, Status)>)
    ensures WriteStatusFile(entries) == Join(StatusLines(entries) + [""], "\n")
  {
    if |entries| > 0 {
      WrittenAsJoin(entries[1..]);
      var ls := StatusLines(entries) + [""];
      assert ls[1..] == StatusLines(entries[1..]) + [""];
    }
  }

  /** Iterating over a text file: the lines up to each newline, the newline itself
      dropped (every line is stripped before use), and no line after a final newline. */
  function FileLines(text: string): (r: seq<string>)
    ensures forall i :: 0 <= i < |r| ==> '\n' !in r[i]
    ensures text == "" ==> r == []
  {
    var parts := Split(text, '\n');
    if parts[|parts| - 1] == "" then parts[..|parts| - 1] else parts
  }

  /** No status value is or holds a space or a newline. */
  lemma ValueIsLetter(status: Status)
    ensures |Value(status)| == 1 && !IsSpace(Value(status)[0])
  {
    match status {
      case Added =>
      case Removed =>
      case Modified =>
      case Renamed =>
      case Copied =>
      case Unmerged =>
    }
  }

  lemma StatusTextNoNewline(path: string, status: Status)
    requires '\n' !in path
    ensures '\n' !in StatusText(path, status)
  {
    ValueIsLetter(status);
    var t := StatusText(path, status);
    forall k | 0 <= k < |t|
      ensures t[k] != '\n'
    {
      if k >= 2 {
        assert t[k] == t[2..][k - 2];
      }
    }
  }

  lemma StatusLinesNoNewline(entries: seq<(string, Status)>)
    requires forall i :: 0 <= i < |entries| ==> '\n' !in entries[i].0
    ensures forall i :: 0 <= i < |entries| + 1 ==> '\n' !in (StatusLines(entries) + [""])[i]
  {
    var ls := StatusLines(entries) + [""];
    forall i | 0 <= i < |ls|
      ensures '\n' !in ls[i]
    {
      if i < |entries| {
        StatusTextNoNewline(entries[i].0, entries[i].1);
      }
    }
  }

  /** Dropping the empty piece after the final newline leaves the lines. */
  lemma FileLinesOfJoin(lines: seq<string>)
    requires forall i :: 0 <= i < |lines| + 1 ==> '\n' !in (lines + [""])[i]
    ensures FileLines(Join(lines + [""], "\n")) == lines
  {
    var ls := lines + [""];
    SplitJoin(ls, '\n');
    assert ls[..|ls| - 1] == lines;
  }

  /** Reading the status file back yields exactly the written lines, provided no
      path holds a newline. */
  lemma FileLinesWritten(entries: seq<(string, Status)>)
    requires forall i :: 0 <= i < |entries| ==> '\n' !in entries[i].0
    ensures FileLines(WriteStatusFile(entries)) == StatusLines(entries)
  {
    WrittenAsJoin(entries);
    StatusLinesNoNewline(entries);
    FileLinesOfJoin(StatusLines(entries));
  }

  /** The path recorded on one status line: the second space-separated field of the
      stripped line, or the IndexError raised when there is none. */
  function SnapshotEntry(line: string): (r: Result<string>)
    ensures r.Ok? <==> ' ' in Strip(line)
    ensures r.Ok? ==> ' ' !in r.value
  {
    var fields := Split(Strip(line), ' ');
    if |fields| < 2 then Err("list index out of range") else Ok(fields[1])
  }

  /** A path that is a single word is read back exactly. */
  lemma StatusEntryRoundTrip(path: string, status: Status)
    requires IsWord(path)
    ensures SnapshotEntry(StatusText(path, status)) == Ok(path)
  {
    var v := Value(status);
    var t := StatusText(path, status);
    ValueIsLetter(status);
    assert t[|t| - 1] == path[|path| - 1];
    StripUnpadded(t);
    assert ' ' !in v by {
      assert t[0] == v[0] && |v| == 1;
    }
    assert ' ' !in path by {
      assert forall i :: 0 <= i < |path| ==> path[i] != ' ';
    }
    assert Join([v, path], [' ']) == t;
    SplitJoin([v, path], ' ');
  }

  /** A path made of two words separated by a space is read back as its first word. */
  lemma SpacedPathFirstWord(first: string, second: string, status: Status)
    requires IsWord(first) && IsWord(second)
    ensures SnapshotEntry(StatusText(first + " " + second, status)) == Ok(first)
  {
    var v := Value(status);
    var t := StatusText(first + " " + second, status);
    ValueIsLetter(status);
    assert t[|t| - 1] == second[|second| - 1];
    StripUnpadded(t);
    assert ' ' !in v by {
      assert t[0] == v[0] && |v| == 1;
    }
    assert ' ' !in first by {
      assert forall i :: 0 <= i < |first| ==> first[i] != ' ';
    }
    assert ' ' !in second by {
      assert forall i :: 0 <= i < |second| ==> second[i] != ' ';
    }
    assert Join([first, second], [' ']) == first + " " + second;
    assert Join([v, first, second], [' ']) == v + " " + Join([first, second], [' ']);
    assert t == v + " " + (first + " " + second);
    SplitJoin([v, first, second], ' ');
  }

  /** The set of recorded paths; the first line without a second field raises. */
  function ParseLines(lines: seq<string>): (r: Result<set<string>>)
    ensures |lines| == 0 ==> r == Ok({})
  {
    if |lines| == 0 then Ok({})
    else
      match SnapshotEntry(lines[0])
      case Err(e) => Err(e)
      case Ok(p) =>
        match ParseLines(lines[1..])
        case Err(e) => Err(e)
        case Ok(ps) => Ok({p} + ps)
  }

  /** Some line has no second field. */
  predicate AnyUnparsable(lines: seq<string>) {
    exists i :: 0 <= i < |lines| && SnapshotEntry(lines[i]).Err?
  }

  lemma UnparsableCons(lines: seq<string>)
    requires |lines| > 0
    ensures AnyUnparsable(lines) <==> SnapshotEntry(lines[0]).Err? || AnyUnparsable(lines[1..])
  {
    var tail := lines[1..];
    if AnyUnparsable(tail) {
      var i :| 0 <= i < |tail| && SnapshotEntry(tail[i]).Err?;
      assert lines[i + 1] == tail[i];
    }
    if AnyUnparsable(lines) && SnapshotEntry(lines[0]).Ok? {
      var i :| 0 <= i < |lines| && SnapshotEntry(lines[i]).Err?;
      assert tail[i - 1] == lines[i];
    }
  }

  /** Parsing fails exactly when some line has no second field. */
  lemma {:induction false} ParseLinesFails(lines: seq<string>)
    ensures ParseLines(lines).Err? <==> AnyUnparsable(lines)
  {
    if |lines| > 0 {
      ParseLinesFails(lines[1..]);
      UnparsableCons(lines);
    }
  }

  /** Some line records the path `p`. */
  predicate Recorded(lines: seq<string>, p: string) {
    exists i :: 0 <= i < |lines| && SnapshotEntry(lines[i]) == Ok(p)
  }

  lemma RecordedTail(lines: seq<string>, p: string)
    requires |lines| > 0 && Recorded(lines[1..], p)
    ensures Recorded(lines, p)
  {
    var tail := lines[1..];
    var i :| 0 <= i < |tail| && SnapshotEntry(tail[i]) == Ok(p);
    assert lines[i + 1] == tail[i];
  }

  lemma RecordedNotHead(lines: seq<string>, p: string)
    requires |lines| > 0 && Recorded(lines, p) && SnapshotEntry(lines[0]) != Ok(p)
    ensures Recorded(lines[1..], p)
  {
    var tail := lines[1..];
    var i :| 0 <= i < |lines| && SnapshotEntry(lines[i]) == Ok(p);
    assert tail[i - 1] == lines[i];
  }

  lemma RecordedCons(lines: seq<string>, p: string)
    requires |lines| > 0
    ensures Recorded(lines, p) <==> SnapshotEntry(lines[0]) == Ok(p) || Recorded(lines[1..], p)
  {
    if Recorded(lines[1..], p) {
      RecordedTail(lines, p);
    }
    if Recorded(lines, p) && SnapshotEntry(lines[0]) != Ok(p) {
      RecordedNotHead(lines, p);
    }
  }

  /** On success, the set holds exactly the second fields of the lines. */
  lemma {:induction false} ParseLinesMembers(lines: seq<string>, p: string)
    requires ParseLines(lines).Ok?
    ensures p in ParseLines(lines).value <==> Recorded(lines, p)
  {
    if |lines| > 0 {
      ParseLinesMembers(lines[1..], p);
      RecordedCons(lines, p);
    }
  }

  /** The snapshot directory's contents: the status file, the commit file and the
      copies of the changed files by path. */
  datatype Snapshot = Snapshot(statusFile: Option<string>, commitFile: Option<string>,
                               copies: map<string, string>)

  /** The directory exists with nothing in it. */
  const EmptySnapshot := Snapshot(None, None, map[])

  /** `take_diff_snapshot`: the previous snapshot directory is removed as a whole,
      the status file is written, and every listed path that is a regular file in the
      workspace is copied. A filesystem error `failure` is re-raised, wrapped. */
  function TakeDiffSnapshot(previous: Option<Snapshot>, entries: seq<(string, Status)>,
                            workspace: map<string, string>, failure: Option<string>)
    : (r: Result<Snapshot>)
    ensures failure.Some? <==> r.Err?
    ensures failure.Some? ==> r.msg == "Diff snapshot failed with error " + failure.value
    ensures r.Ok? ==> r.value.statusFile == Some(WriteStatusFile(entries))
    ensures r.Ok? ==> r.value.commitFile.None?
    ensures r.Ok? ==> forall p :: p in r.value.copies <==>
      p in workspace && exists i :: 0 <= i < |entries| && entries[i].0 == p
    ensures r.Ok? ==> forall p :: p in r.value.copies ==> r.value.copies[p] == workspace[p]
  {
    if failure.Some? then Err("Diff snapshot failed with error " + failure.value)
    else
      var copies := map p | p in workspace && (exists i :: 0 <= i < |entries| && entries[i].0 == p)
                      :: workspace[p];
      Ok(Snapshot(Some(WriteStatusFile(entries)), None, copies))
  }

  /** `get_previous_snapshot`: the recorded paths, or the empty set when there is no
      status file. */
  function PreviousSnapshot(dir: Option<Snapshot>): (r: Result<set<string>>)
    ensures dir.None? || dir.value.statusFile.None? ==> r == Ok({})
    ensures dir.Some? && dir.value.statusFile.Some? ==>
      r == ParseLines(FileLines(dir.value.statusFile.value))
  {
    if dir.None? || dir.value.statusFile.None? then Ok({})
    else ParseLines(FileLines(dir.value.statusFile.value))
  }

  /** Lines whose entries are known parse to the set of those entries. */
  lemma ParseKnownEntries(lines: seq<string>, paths: seq<string>, p: string)
    requires |lines| == |paths|
    requires forall i :: 0 <= i < |lines| ==> SnapshotEntry(lines[i]) == Ok(paths[i])
    ensures ParseLines(lines).Ok? && (p in ParseLines(lines).value <==> p in paths)
  {
    ParseLinesFails(lines);
    ParseLinesMembers(lines, p);
    if p in paths {
      var i :| 0 <= i < |paths| && paths[i] == p;
      assert SnapshotEntry(lines[i]) == Ok(p);
    }
  }

  function Paths(entries: seq<(string, Status)>): (r: seq<string>)
    ensures |r| == |entries| && forall i :: 0 <= i < |r| ==> r[i] == entries[i].0
  {
    if |entries| == 0 then [] else [entries[0].0] + Paths(entries[1..])
  }

  lemma WordLine(entries: seq<(string, Status)>, i: nat)
    requires i < |entries| && IsWord(entries[i].0)
    ensures '\n' !in entries[i].0
    ensures SnapshotEntry(StatusLines(entries)[i]) == Ok(Paths(entries)[i])
  {
    var w := entries[i].0;
    assert forall k :: 0 <= k < |w| ==> w[k] != '\n';
    StatusEntryRoundTrip(w, entries[i].1);
    assert StatusLines(entries)[i] == StatusText(w, entries[i].1);
    assert Paths(entries)[i] == w;
  }

  lemma WordLines(entries: seq<(string, Status)>)
    requires forall i :: 0 <= i < |entries| ==> IsWord(entries[i].0)
    ensures forall i :: 0 <= i < |entries| ==> '\n' !in entries[i].0
    ensures forall i :: 0 <= i < |entries| ==>
      SnapshotEntry(StatusLines(entries)[i]) == Ok(Paths(entries)[i])
  {
    forall i | 0 <= i < |entries|
      ensures '\n' !in entries[i].0
      ensures SnapshotEntry(StatusLines(entries)[i]) == Ok(Paths(entries)[i])
    {
      WordLine(entries, i);
    }
  }

  /** The status file written for single-word paths parses back to those paths. */
  lemma ParseWritten(entries: seq<(string, Status)>, p: string)
    requires forall i :: 0 <= i < |entries| ==> IsWord(entries[i].0)
    ensures var r := ParseLines(FileLines(WriteStatusFile(entries)));
            r.Ok? && (p in r.value <==> exists i :: 0 <= i < |entries| && entries[i].0 == p)
  {
    var r := ParseLines(FileLines(WriteStatusFile(entries)));
    assert r.Ok? && (p in r.value <==> p in Paths(entries)) by {
      WordLines(entries);
      FileLinesWritten(entries);
      ParseKnownEntries(StatusLines(entries), Paths(entries), p);
    }
    PathsMember(entries, p);
  }

  lemma PathsMember(entries: seq<(string, Status)>, p: string)
    ensures p in Paths(entries) <==> exists i :: 0 <= i < |entries| && entries[i].0 == p
  {
    var paths := Paths(entries);
    if p in paths {
      var i :| 0 <= i < |paths| && paths[i] == p;
      assert entries[i].0 == p;
    }
  }

  /** The paths of a snapshot taken from single-word paths are read back exactly,
      whatever the earlier snapshot held. */
  lemma PreviousSnapshotRoundTrip(previous: Option<Snapshot>,
      entries: seq<(string, Status)>, workspace: map<string, string>, p: string)
    requires forall i :: 0 <= i < |entries| ==> IsWord(entries[i].0)
    ensures var r := PreviousSnapshot(Some(TakeDiffSnapshot(previous, entries, workspace, None).value));
            r.Ok? && (p in r.value <==> exists i :: 0 <= i < |entries| && entries[i].0 == p)
  {
    var snap := TakeDiffSnapshot(previous, entries, workspace, None).value;
    assert snap.statusFile == Some(WriteStatusFile(entries));
    ParseWritten(entries, p);
  }

  /** `clean`: the snapshot directory is gone, whether or not it existed. */
  function Clean(dir: Option<Snapshot>): (r: Option<Snapshot>)
    ensures r.None?
  {
    None
  }

  /** `take_commit_snapshot`: creates the directory if needed and writes the commit
      id as it is; nothing else in the directory changes. */
  function TakeCommitSnapshot(dir: Option<Snapshot>, commitId: string): (r: Snapshot)
    ensures r.commitFile == Some(commitId)
    ensures dir.Some? ==> r.statusFile == dir.value.statusFile && r.copies == dir.value.copies
    ensures dir.None? ==> r.statusFile.None? && r.copies == map[]
  {
    dir.GetOr(EmptySnapshot).(commitFile := Some(commitId))
  }

  /** `get_last_reviewed_commit_id`: creates the directory if needed, then reads the
      commit id stripped, or `None` when no commit file exists. */
  function LastReviewedCommitId(dir: Option<Snapshot>): (r: (Option<string>, Snapshot))
    ensures dir.None? ==> r == (None, EmptySnapshot)
    ensures dir.Some? ==> r.1 == dir.value
    ensures dir.Some? && dir.value.commitFile.Some? ==> r.0 == Some(Strip(dir.value.commitFile.value))
    ensures dir.Some? && dir.value.commitFile.None? ==> r.0.None?
  {
    var d := dir.GetOr(EmptySnapshot);
    match d.commitFile
    case None => (None, d)
    case Some(text) => (Some(Strip(text)), d)
  }

  /** A written commit id reads back stripped; one without surrounding whitespace
      reads back unchanged. */
  lemma CommitIdRoundTrip(dir: Option<Snapshot>, commitId: string)
    ensures LastReviewedCommitId(Some(TakeCommitSnapshot(dir, commitId))).0 == Some(Strip(commitId))
    ensures Unpadded(commitId) ==>
      LastReviewedCommitId(Some(TakeCommitSnapshot(dir, commitId))).0 == Some(commitId)
  {
    if Unpadded(commitId) {
      StripUnpadded(commitId);
    }
  }

  /** A new diff snapshot, which replaces the whole directory, forgets the last
      reviewed commit; after cleaning, neither paths nor a commit remain. */
  lemma SnapshotForgetsCommit(previous: Option<Snapshot>, entries: seq<(string, Status)>,
                              workspace: map<string, string>)
    ensures LastReviewedCommitId(Some(TakeDiffSnapshot(previous, entries, workspace, None).value)).0.None?
    ensures LastReviewedCommitId(Clean(previous)).0.None?
    ensures PreviousSnapshot(Clean(previous)) == Ok({})
  {
  }
}
