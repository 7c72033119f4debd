/** The repository queries of the review: default and origin branch detection, the
    commit a branch name resolves to, and branch search. The repository is given as
    plain data (heads, refs, remotes) and merge-base times as a partial function. */
module GitUtils {
  import opened Wrappers
  import opened Seqs
  import opened Strings
  import opened Ordering

  /** The key that orders branch names as they are. */
  function Id(s: string): string { s }

  /** `get_default_branch`: the last "/"-separated segment of the ref origin/HEAD
      points at. */
  function DefaultBranch(headTarget: string): string {
    LastSegment(headTarget, '/')
  }

  /** The segment after the last "/" is the default branch, whatever precedes it. */
  lemma DefaultBranchIsLastSegment(prefix: string, name: string)
    requires '/' !in name
    ensures DefaultBranch(prefix + "/" + name) == name
  {
    LastSegmentAfter(prefix, '/', name);
  }

  /** A head other than `branch` that has a merge base with it, at `time(head)`. */
  predicate Eligible(heads: seq<string>, branch: string, time: string -> Option<int>, j: int)
    requires 0 <= j < |heads|
  {
    heads[j] != branch && time(heads[j]).Some?
  }

  /** Head `k` has the latest merge-base time, and it is strictly later than that of
      every eligible head before it. */
  predicate Latest(heads: seq<string>, branch: string, time: string -> Option<int>, k: int)
    requires 0 <= k < |heads|
  {
    Eligible(heads, branch, time, k) &&
    forall j :: 0 <= j < |heads| && Eligible(heads, branch, time, j) ==>
      time(heads[j]).value <= time(heads[k]).value &&
      (j < k ==> time(heads[j]).value < time(heads[k]).value)
  }

  /** At most one head is the latest. */
  lemma LatestUnique(heads: seq<string>, branch: string, time: string -> Option<int>, k1: int, k2: int)
    requires 0 <= k1 < |heads| && 0 <= k2 < |heads|
    requires Latest(heads, branch, time, k1) && Latest(heads, branch, time, k2)
    ensures k1 == k2
  {
    var t1, t2 := time(heads[k1]).value, time(heads[k2]).value;
    assert t2 <= t1 && (k2 < k1 ==> t2 < t1);
    assert t1 <= t2 && (k1 < k2 ==> t1 < t2);
  }

  /** `get_origin_branch`: among the heads other than `branch`, the one whose merge base
      with it was committed last; heads without a merge base (the call raises) are
      skipped, a later head must be strictly later to win, and without any candidate
      the default branch is returned. `time` gives each head's merge-base commit time. */
  method OriginBranch(branch: string, heads: seq<string>, time: string -> Option<int>, default: string)
    returns (r: string)
    ensures (forall j :: 0 <= j < |heads| ==> !Eligible(heads, branch, time, j)) ==> r == default
    ensures forall k :: 0 <= k < |heads| && Latest(heads, branch, time, k) ==>
      r == (if heads[k] != "" then heads[k] else default)
    ensures (exists j :: 0 <= j < |heads| && Eligible(heads, branch, time, j)) ==>
      exists k :: 0 <= k < |heads| && Latest(heads, branch, time, k)
  {
    var best: Option<nat> := None;
    for i := 0 to |heads|
      invariant best.None? ==> forall j :: 0 <= j < i ==> !Eligible(heads, branch, time, j)
      invariant best.Some? ==> best.value < i && Eligible(heads, branch, time, best.value)
      invariant best.Some? ==> forall j :: 0 <= j < i && Eligible(heads, branch, time, j) ==>
        time(heads[j]).value <= time(heads[best.value]).value &&
        (j < best.value ==> time(heads[j]).value < time(heads[best.value]).value)
    {
      if heads[i] != branch {
        match time(heads[i])
        case None =>
        case Some(t) =>
          if best.None? || t > time(heads[best.value]).value {
            best := Some(i);
          }
      }
    }
    if best.Some? {
      assert Latest(heads, branch, time, best.value);
      forall k | 0 <= k < |heads| && Latest(heads, branch, time, k)
        ensures k == best.value
      {
        LatestUnique(heads, branch, time, k, best.value);
      }
    }
    r := if best.Some? && heads[best.value] != "" then heads[best.value] else default;
  }

  /** `commit_hash`: the commit of the local head of that name, else of the ref
      "origin/<name>", else the ValueError. */
  function CommitHash(heads: map<string, string>, refs: map<string, string>, name: string)
    : (r: Result<string>)
    ensures r.Ok? <==> name in heads || "origin/" + name in refs
    ensures name in heads ==> r.value == heads[name]
    ensures name !in heads && "origin/" + name in refs ==> r.value == refs["origin/" + name]
    ensures r.Err? ==> r.msg == "Branch '" + name + "' not found locally or on origin."
  {
    if name in heads then Ok(heads[name])
    else if "origin/" + name in refs then Ok(refs["origin/" + name])
    else Err("Branch '" + name + "' not found locally or on origin.")
  }

  /** The branch name of a remote ref: `None` for the remote's HEAD ref, otherwise the
      text after its first "/" (the whole name when it has none). */
  function RemoteBranchName(ref: string): (r: Option<string>)
    ensures r.None? <==> EndsWith(ref, "/HEAD")
  {
    if EndsWith(ref, "/HEAD") then None
    else if '/' in ref then Some(SplitOnce(ref, '/')[1])
    else Some(ref)
  }

  /** Two cuts of one string at a first separator agree. */
  lemma FirstCutUnique(a: string, b: string, a': string, b': string, c: char)
    requires a + [c] + b == a' + [c] + b' && c !in a && c !in a'
    ensures a == a' && b == b'
  {
    var s := a + [c] + b;
    assert s[|a|] == c && s[|a'|] == c;
    assert forall i :: 0 <= i < |a| ==> s[i] == a[i];
    assert forall i :: 0 <= i < |a'| ==> s[i] == a'[i];
    assert |a| == |a'|;
    assert a == s[..|a|] && a' == s[..|a'|];
    assert b == s[|a| + 1..] && b' == s[|a'| + 1..];
  }

  /** A ref "<remote>/<branch>" names the branch, slashes in it included. */
  lemma RemoteBranchNameAfterRemote(remote: string, branch: string)
    requires '/' !in remote && !EndsWith(remote + "/" + branch, "/HEAD")
    ensures RemoteBranchName(remote + "/" + branch) == Some(branch)
  {
    var ref := remote + "/" + branch;
    assert ref[|remote|] == '/';
    var cut := SplitOnce(ref, '/');
    FirstCutUnique(cut[0], cut[1], remote, branch, '/');
  }

  /** The branch names of all remotes' refs, HEAD refs skipped, in order. */
  function RemoteBranches(remotes: seq<seq<string>>): (r: seq<string>)
    ensures forall b :: b in r <==>
      exists i, j :: 0 <= i < |remotes| && 0 <= j < |remotes[i]| && RemoteBranchName(remotes[i][j]) == Some(b)
  {
    if |remotes| == 0 then []
    else
      var rest := RemoteBranches(remotes[1..]);
      assert forall i, j :: 1 <= i < |remotes| && 0 <= j < |remotes[i]| ==>
        remotes[i][j] == remotes[1..][i - 1][j];
      RefBranches(remotes[0]) + rest
  }

  function RefBranches(refs: seq<string>): (r: seq<string>)
    ensures forall b :: b in r <==> exists j :: 0 <= j < |refs| && RemoteBranchName(refs[j]) == Some(b)
  {
    if |refs| == 0 then []
    else
      var rest := RefBranches(refs[1..]);
      assert forall j :: 1 <= j < |refs| ==> refs[j] == refs[1..][j - 1];
      match RemoteBranchName(refs[0])
      case None => rest
      case Some(b) => [b] + rest
  }

  /** The branch names searched: the local heads, then, when asked, the remotes'. */
  function AllBranches(heads: seq<string>, remotes: seq<seq<string>>, addRemote: bool): seq<string> {
    heads + (if addRemote then RemoteBranches(remotes) else [])
  }

  /** One copy of each element, in order of last occurrence. */
  function Dedup(s: seq<string>): (r: seq<string>)
    ensures forall x :: x in r <==> x in s
    ensures UniqueKeys(r, Id)
  {
    if |s| == 0 then []
    else
      var rest := Dedup(s[1..]);
      if s[0] in s[1..] then rest else [s[0]] + rest
  }

  /** `sorted(set(s))`. */
  function SortedSet(s: seq<string>): (r: seq<string>)
  {
    SortByKey(Dedup(s), CodePoints)
  }

  /** `sorted(set(s))` holds each element of `s` once, in strictly ascending order. */
  lemma SortedSetSpec(s: seq<string>)
    ensures StrictlySortedByKey(SortedSet(s), CodePoints)
    ensures forall x :: x in SortedSet(s) <==> x in s
  {
    var d := Dedup(s);
    var r := SortByKey(d, CodePoints);
    SortByKeySorted(d, CodePoints);
    UniqueKeysPermutation(d, r, Id);
    forall i, j | 0 <= i < j < |r|
      ensures CodePoints(r[i]) != CodePoints(r[j])
    {
      if CodePoints(r[i]) == CodePoints(r[j]) {
        CodePointsInjective(r[i], r[j]);
      }
    }
    SortedUniqueIsStrict(r, CodePoints);
    forall x
      ensures x in r <==> x in s
    {
      assert x in r <==> x in multiset(r);
      assert x in d <==> x in multiset(d);
    }
  }

  /** `search_branches`: the ValueError for an empty keyword; otherwise every searched
      name containing the keyword, once each, in ascending order. */
  function SearchBranches(keyword: string, heads: seq<string>, remotes: seq<seq<string>>,
                          addRemote: bool): (r: Result<seq<string>>)
    ensures r.Err? <==> keyword == ""
    ensures r.Err? ==> r.msg == "Keyword cannot be empty"
    ensures r.Ok? ==> StrictlySortedByKey(r.value, CodePoints)
    ensures r.Ok? ==> forall b :: b in r.value <==>
      b in AllBranches(heads, remotes, addRemote) && Contains(b, keyword)
  {
    if keyword == "" then Err("Keyword cannot be empty")
    else
      var matches := Filter((b: string) => Contains(b, keyword), AllBranches(heads, remotes, addRemote));
      SortedSetSpec(matches);
      Ok(SortedSet(matches))
  }

  /** Without remotes asked for, only local heads are found; with them, a remote
      branch containing the keyword is found as well. */
  lemma SearchBranchesRemote(keyword: string, heads: seq<string>, remotes: seq<seq<string>>,
                             remote: string, branch: string)
    requires keyword != "" && Contains(branch, keyword)
    requires '/' !in remote && !EndsWith(remote + "/" + branch, "/HEAD")
    requires |remotes| > 0 && remote + "/" + branch in remotes[0]
    ensures forall b :: b in SearchBranches(keyword, heads, remotes, false).value ==> b in heads
    ensures branch in SearchBranches(keyword, heads, remotes, true).value
  {
    RemoteBranchNameAfterRemote(remote, branch);
    var j :| 0 <= j < |remotes[0]| && remotes[0][j] == remote + "/" + branch;
    assert RemoteBranchName(remotes[0][j]) == Some(branch);
    assert branch in RemoteBranches(remotes);
  }
}
