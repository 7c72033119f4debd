/** Cleaning of model-written patches before they are applied: each patch is cut
    from its first "---" to its last code fence and stripped, in map order, and
    applying falls back to an empty map on any failure. */
module DiffApplicator {
  import opened Wrappers
  import opened Seqs
  import opened Strings

  /** One patch: `Some` of the cleaned text, or `None` when it holds no "---",
      which ends the whole cleaning pass. */
  function CleanPatch(patch: string): (r: Option<string>)
    ensures r.None? <==> !Contains(patch, "---")
  {
    var start := Find(patch, "---");
    if start == -1 then None
    else
      var end := RFind(patch, "```");
      var text := if end != -1 then PySlice(patch, start, end) else patch[start..];
      Some(Strip(text))
  }

  predicate DashesAt(s: string, i: int) {
    0 <= i && i + 3 <= |s| && s[i] == '-' && s[i + 1] == '-' && s[i + 2] == '-'
  }

  lemma DashesOccur(s: string, i: int)
    requires OccursAt(s, "---", i)
    ensures DashesAt(s, i)
  {
    assert s[i..i + 3][0] == s[i] && s[i..i + 3][1] == s[i + 1] && s[i..i + 3][2] == s[i + 2];
  }

  lemma StripKeepsDashes(text: string)
    requires DashesAt(text, 0)
    ensures StartsWith(Strip(text), "---")
  {
    assert !IsSpace(text[0]) && !IsSpace(text[1]) && !IsSpace(text[2]);
    assert TrimLeft(text) == text;
    var r := TrimRight(text);
    assert |r| >= 3;
    assert r[0] == text[0] && r[1] == text[1] && r[2] == text[2];
    assert r[..3] == "---";
  }

  /** The text cut from `start` up to `end`, given dashes at `start` and a fence
      character at `end`, is empty or begins with the dashes. */
  lemma CutKeepsDashes(patch: string, start: nat, end: int)
    requires DashesAt(patch, start)
    requires end == -1 || (0 <= end < |patch| && patch[end] == '`')
    ensures var text := if end != -1 then PySlice(patch, start, end) else patch[start..];
            text == [] || DashesAt(text, 0)
  {
    if end != -1 && end > start {
      assert end >= start + 3;
      assert PySlice(patch, start, end) == patch[start..end];
    }
  }

  /** A cleaned patch that is not empty starts at the first "---". */
  lemma CleanPatchStartsWithDashes(patch: string)
    requires CleanPatch(patch).Some? && CleanPatch(patch).value != ""
    ensures StartsWith(CleanPatch(patch).value, "---")
  {
    var start := Find(patch, "---");
    var end := RFind(patch, "```");
    DashesOccur(patch, start);
    if end != -1 {
      assert patch[end..end + 3][0] == patch[end];
    }
    CutKeepsDashes(patch, start, end);
    var text := if end != -1 then PySlice(patch, start, end) else patch[start..];
    if text != [] {
      StripKeepsDashes(text);
    }
  }

  /** A fence before the first "---" empties the patch. */
  lemma FenceBeforeDashes(patch: string)
    requires Contains(patch, "---") && Contains(patch, "```")
    requires RFind(patch, "```") < Find(patch, "---")
    ensures CleanPatch(patch) == Some("")
  {
  }

  /** The index of the first patch that has no "---", or the number of patches. */
  function AbortIndex(entries: seq<(string, string)>): (k: nat)
    ensures k <= |entries|
    ensures forall i :: 0 <= i < k ==> CleanPatch(entries[i].1).Some?
    ensures k < |entries| ==> CleanPatch(entries[k].1).None?
  {
    if |entries| == 0 then 0
    else if CleanPatch(entries[0].1).None? then 0
    else 1 + AbortIndex(entries[1..])
  }

  /** The cleaning pass over the (path, patch) entries in map order. */
  function CleanPatches(entries: seq<(string, string)>): (r: seq<(string, string)>)
    ensures |r| == |entries|
    ensures forall i :: 0 <= i < |r| ==> r[i].0 == entries[i].0
  {
    if |entries| == 0 then []
    else
      match CleanPatch(entries[0].1)
      case None => entries
      case Some(text) => [(entries[0].0, text)] + CleanPatches(entries[1..])
  }

  /** Entries before the first patch without "---" are cleaned. */
  lemma {:induction false} CleanPatchesCleaned(entries: seq<(string, string)>, i: nat)
    requires i < AbortIndex(entries)
    ensures CleanPatches(entries)[i].1 == CleanPatch(entries[i].1).value
  {
    var c := CleanPatch(entries[0].1);
    assert c.Some?;
    assert CleanPatches(entries) == [(entries[0].0, c.value)] + CleanPatches(entries[1..]);
    if i > 0 {
      assert AbortIndex(entries[1..]) == AbortIndex(entries) - 1;
      CleanPatchesCleaned(entries[1..], i - 1);
      assert entries[1..][i - 1] == entries[i];
    }
  }

  /** That patch and all later ones are left exactly as they were. */
  lemma {:induction false} CleanPatchesRest(entries: seq<(string, string)>)
    ensures CleanPatches(entries)[AbortIndex(entries)..] == entries[AbortIndex(entries)..]
  {
    if |entries| > 0 && CleanPatch(entries[0].1).Some? {
      var r, k := CleanPatches(entries), AbortIndex(entries);
      CleanPatchesRest(entries[1..]);
      assert r[k..] == r[1..][k - 1..];
      assert entries[k..] == entries[1..][k - 1..];
    }
  }

  /** Patching a file's content set: the repository's call that applies the
      cleaned patches, which may fail. */
  type Applier = seq<(string, string)> -> Result<map<string, string>>

  /** Applies the cleaned patches; any failure yields the empty map. */
  function ApplyDiff(apply: Applier, entries: seq<(string, string)>): (r: map<string, string>)
    ensures apply(CleanPatches(entries)).Err? ==> r == map[]
    ensures apply(CleanPatches(entries)).Ok? ==> r == apply(CleanPatches(entries)).value
  {
    match apply(CleanPatches(entries))
    case Ok(m) => m
    case Err(_) => map[]
  }
}
