/** The committed-only review strategy: the file changes between the target and the
    source commit, read from `git diff --name-status`, and the strategy's snapshot
    bookkeeping. */
module CommittedOnly {
  import opened Wrappers
  import opened Seqs
  import opened Strings
  import opened ReviewTypes
  import opened DiffUtils
  import opened LocalSnapshot

  /** One output line: `Some((code, path))` from its first two tab-separated fields,
      or `None` for an empty line or one with fewer than two fields. */
  function NameStatusEntry(line: string): (r: Option<(string, string)>)
    ensures r.Some? <==> '\t' in line
    ensures r.Some? ==> '\t' !in r.value.0 && '\t' !in r.value.1
  {
    if line == "" then None
    else
      var fields := Split(line, '\t');
      if |fields| < 2 then None else Some((fields[0], fields[1]))
  }

  /** The status given to a change code: its table entry, or ADDED for a code the
      table lacks. The strategy passes the value "A" there, which the `FileChanges`
      model validates into the ADDED member. */
  function ChangeStatus(code: string): (s: Status)
    ensures code in StatusCodes ==> s == StatusMap(code).value
    ensures code !in StatusCodes ==> s == Added
  {
    StatusMap(code).GetOr(Added)
  }

  /** The (code, path) entries of the accepted lines, in output order. */
  function AcceptedEntries(lines: seq<string>): (r: seq<(string, string)>)
    ensures |r| <= |lines|
    ensures (forall i :: 0 <= i < |lines| ==> NameStatusEntry(lines[i]).Some?) ==> |r| == |lines|
  {
    if |lines| == 0 then []
    else
      var rest := AcceptedEntries(lines[1..]);
      match NameStatusEntry(lines[0])
      case None => rest
      case Some(e) => [e] + rest
  }

  /** The change record of one accepted entry, its diff supplied by `diffOf`. */
  function EntryChange(e: (string, string), diffOf: string -> string): (r: FileChanges)
    ensures r.filePath == e.1 && r.status == ChangeStatus(e.0) && r.diff == diffOf(e.1)
  {
    FormatDiffResponse(e.1, diffOf(e.1), ChangeStatus(e.0))
  }

  /** `get_diff_changes`: the stripped output split into lines, one change record per
      accepted line. `diffOf` is the per-file diff between the two commits. */
  function GetDiffChanges(output: string, diffOf: string -> string): (r: seq<FileChanges>)
    ensures |r| == |AcceptedEntries(Split(Strip(output), '\n'))|
  {
    Map((e: (string, string)) => EntryChange(e, diffOf), AcceptedEntries(Split(Strip(output), '\n')))
  }

  /** A line holding a rename's old and new path gives the old path, and its scored
      code is outside the table. */
  lemma RenameLineKeepsOldPath(oldPath: string, newPath: string)
    requires '\t' !in oldPath && '\t' !in newPath
    ensures NameStatusEntry("R100\t" + oldPath + "\t" + newPath) == Some(("R100", oldPath))
    ensures ChangeStatus("R100") == Added
  {
    var line := "R100\t" + oldPath + "\t" + newPath;
    assert Join([oldPath, newPath], "\t") == oldPath + "\t" + newPath;
    assert Join(["R100", oldPath, newPath], "\t") == "R100" + "\t" + Join([oldPath, newPath], "\t");
    assert line == "R100" + "\t" + (oldPath + "\t" + newPath);
    SplitJoin(["R100", oldPath, newPath], '\t');
  }

  /** The output git prints for the given (code, path) entries. */
  function Render(entries: seq<(string, string)>): (text: string)
    ensures |entries| == 0 <==> text == ""
  {
    if |entries| == 0 then ""
    else entries[0].0 + "\t" + entries[0].1 + "\n" + Render(entries[1..])
  }

  /** An entry git can print on one line: a whitespace-free code and a non-empty
      path without tab or newline that does not end in whitespace. */
  predicate Printable(e: (string, string)) {
    IsWord(e.0) && |e.1| > 0 && '\t' !in e.1 && '\n' !in e.1 && !IsSpace(e.1[|e.1| - 1])
  }

  function EntryLines(entries: seq<(string, string)>): (r: seq<string>)
    ensures |r| == |entries|
    ensures forall i :: 0 <= i < |r| ==> r[i] == entries[i].0 + "\t" + entries[i].1
  {
    if |entries| == 0 then [] else [entries[0].0 + "\t" + entries[0].1] + EntryLines(entries[1..])
  }

  lemma {:induction false} RenderAsJoin(entries: seq<(string, string)>)
    requires |entries| > 0
    ensures Render(entries) == Join(EntryLines(entries), "\n") + "\n"
  {
    if |entries| > 1 {
      RenderAsJoin(entries[1..]);
      assert EntryLines(entries)[1..] == EntryLines(entries[1..]);
    }
  }

  /** Stripping the rendered output drops exactly its final newline. */
  lemma StripRendered(x: string)
    requires |x| > 0 && !IsSpace(x[0]) && !IsSpace(x[|x| - 1])
    ensures Strip(x + "\n") == x
  {
    var t := x + "\n";
    assert TrimLeft(t) == t;
    assert t[..|t| - 1] == x;
    assert TrimRight(x) == x;
  }

  lemma EntryLineFields(e: (string, string))
    requires Printable(e)
    ensures NameStatusEntry(e.0 + "\t" + e.1) == Some(e)
    ensures '\n' !in e.0 + "\t" + e.1
  {
    var w := e.0;
    assert forall k :: 0 <= k < |w| ==> w[k] != '\t' && w[k] != '\n';
    assert Join([e.0, e.1], "\t") == e.0 + "\t" + e.1;
    SplitJoin([e.0, e.1], '\t');
  }

  /** The joined lines of printable entries neither start nor end with whitespace. */
  lemma JoinedLinesEnds(entries: seq<(string, string)>)
    requires |entries| > 0
    requires forall i :: 0 <= i < |entries| ==> Printable(entries[i])
    ensures var x := Join(EntryLines(entries), "\n");
            |x| > 0 && !IsSpace(x[0]) && !IsSpace(x[|x| - 1])
  {
    var lines := EntryLines(entries);
    var last := entries[|entries| - 1];
    assert lines[0][0] == entries[0].0[0];
    assert lines[|lines| - 1][|lines[|lines| - 1]| - 1] == last.1[|last.1| - 1];
    JoinEnds(lines);
  }

  /** Stripping the rendered output leaves its lines joined by newlines. */
  lemma StrippedRender(entries: seq<(string, string)>)
    requires |entries| > 0
    requires forall i :: 0 <= i < |entries| ==> Printable(entries[i])
    ensures Strip(Render(entries)) == Join(EntryLines(entries), "\n")
  {
    RenderAsJoin(entries);
    JoinedLinesEnds(entries);
    StripRendered(Join(EntryLines(entries), "\n"));
  }

  lemma EntryLinesOneLine(entries: seq<(string, string)>)
    requires forall i :: 0 <= i < |entries| ==> Printable(entries[i])
    ensures forall i :: 0 <= i < |entries| ==> '\n' !in EntryLines(entries)[i]
  {
    forall i | 0 <= i < |entries|
      ensures '\n' !in EntryLines(entries)[i]
    {
      EntryLineFields(entries[i]);
    }
  }

  /** The lines of the stripped output are the entries' lines. */
  lemma RenderedLines(entries: seq<(string, string)>)
    requires |entries| > 0
    requires forall i :: 0 <= i < |entries| ==> Printable(entries[i])
    ensures Split(Strip(Render(entries)), '\n') == EntryLines(entries)
  {
    StrippedRender(entries);
    EntryLinesOneLine(entries);
    SplitJoin(EntryLines(entries), '\n');
  }

  /** Where a join of non-empty parts begins and ends. */
  lemma {:induction false} JoinEnds(parts: seq<string>)
    requires |parts| > 0 && forall i :: 0 <= i < |parts| ==> |parts[i]| > 0
    ensures var x := Join(parts, "\n");
            |x| > 0 && x[0] == parts[0][0] && x[|x| - 1] == parts[|parts| - 1][|parts[|parts| - 1]| - 1]
  {
    if |parts| > 1 {
      var rest := parts[1..];
      var y := Join(rest, "\n");
      JoinEnds(rest);
      assert Join(parts, "\n") == parts[0] + ("\n" + y);
      assert rest[|rest| - 1] == parts[|parts| - 1];
    }
  }

  lemma {:induction false} AcceptedEntryLines(entries: seq<(string, string)>)
    requires forall i :: 0 <= i < |entries| ==> Printable(entries[i])
    ensures AcceptedEntries(EntryLines(entries)) == entries
  {
    if |entries| > 0 {
      EntryLineFields(entries[0]);
      assert EntryLines(entries)[1..] == EntryLines(entries[1..]);
      AcceptedEntryLines(entries[1..]);
    }
  }

  /** Parsing what git prints gives one change record per entry, in order, with the
      entry's path, its code's status and the file's diff. */
  lemma GetDiffChangesRoundTrip(entries: seq<(string, string)>, diffOf: string -> string)
    requires forall i :: 0 <= i < |entries| ==> Printable(entries[i])
    ensures var r := GetDiffChanges(Render(entries), diffOf);
            |r| == |entries| &&
            forall i :: 0 <= i < |r| ==> r[i] == EntryChange(entries[i], diffOf)
  {
    if |entries| > 0 {
      RenderedLines(entries);
      AcceptedEntryLines(entries);
    } else {
      assert Split(Strip(""), '\n') == [""];
    }
  }

  /** `reset`: the branch's snapshot is removed. */
  function Reset(dir: Option<Snapshot>): (r: Option<Snapshot>)
    ensures PreviousSnapshot(r) == Ok({}) && LastReviewedCommitId(r).0.None?
  {
    Clean(dir)
  }

  /** `snapshot`: records the target commit as the last reviewed one. */
  function TakeSnapshot(dir: Option<Snapshot>, targetCommit: string): (r: Snapshot)
    ensures Unpadded(targetCommit) ==> LastReviewedCommitId(Some(r)).0 == Some(targetCommit)
    ensures dir.Some? ==> r.statusFile == dir.value.statusFile
  {
    CommitIdRoundTrip(dir, targetCommit);
    TakeCommitSnapshot(dir, targetCommit)
  }
}
