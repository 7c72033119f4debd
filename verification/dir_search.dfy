/** The directory search shared by the autocomplete and focus-item services: walk
    the directories under the search root, keep those whose name contains the
    keyword's last path component (ignoring case), once per relative path, and stop
    at seven. The walk itself (its top-down order, its depth cut-off and the choice
    of the search root) is given as the sequence of directories it visits. */
module DirSearch {
  import opened Wrappers
  import opened Seqs
  import opened Strings

  /** A directory the walk visits: its path relative to the repository and its name. */
  datatype DirEntry = DirEntry(relPath: string, name: string)

  /** The most results a directory search returns. */
  const MaxMatches: nat := 7

  /** `os.path.basename(os.path.join(repo, keyword))`: the keyword's text after its
      last "/" (empty for an empty keyword or one ending in "/"). */
  function LastComponent(keyword: string): (r: string)
    ensures '/' !in r
    ensures '/' !in keyword ==> r == keyword
  {
    LastSegment(keyword, '/')
  }

  /** The case-insensitive substring test on the directory's name. */
  predicate Matches(keyword: string, d: DirEntry) {
    Contains(Lower(d.name), Lower(LastComponent(keyword)))
  }

  predicate PathSeen(seen: seq<DirEntry>, relPath: string) {
    exists k :: 0 <= k < |seen| && seen[k].relPath == relPath
  }

  /** Every matching, not yet seen directory of the walk, after `seen`, without a cap. */
  function AllMatches(keyword: string, walk: seq<DirEntry>, seen: seq<DirEntry>): (r: seq<DirEntry>)
    ensures |r| >= |seen| && r[..|seen|] == seen
    decreases |walk|
  {
    if |walk| == 0 then seen
    else
      var d := walk[0];
      if Matches(keyword, d) && !PathSeen(seen, d.relPath) then AllMatches(keyword, walk[1..], seen + [d])
      else AllMatches(keyword, walk[1..], seen)
  }

  /** The search loop: like `AllMatches`, but it returns as soon as it holds seven. */
  function Collect(keyword: string, walk: seq<DirEntry>, seen: seq<DirEntry>): (r: seq<DirEntry>)
    decreases |walk|
  {
    if |walk| == 0 then seen
    else
      var d := walk[0];
      if Matches(keyword, d) && !PathSeen(seen, d.relPath) then
        var acc := seen + [d];
        if |acc| >= MaxMatches then acc else Collect(keyword, walk[1..], acc)
      else Collect(keyword, walk[1..], seen)
  }

  /** The capped loop returns the first seven of the uncapped matches. */
  lemma {:induction false} CollectIsPrefix(keyword: string, walk: seq<DirEntry>, seen: seq<DirEntry>)
    requires |seen| < MaxMatches
    ensures var all := AllMatches(keyword, walk, seen);
            Collect(keyword, walk, seen) == all[..if |all| < MaxMatches then |all| else MaxMatches]
    decreases |walk|
  {
    if |walk| > 0 {
      var d := walk[0];
      if Matches(keyword, d) && !PathSeen(seen, d.relPath) {
        var acc := seen + [d];
        if |acc| < MaxMatches {
          CollectIsPrefix(keyword, walk[1..], acc);
        }
      } else {
        CollectIsPrefix(keyword, walk[1..], seen);
      }
    }
  }

  /** The state after the walk's first directory. */
  function NextSeen(keyword: string, d: DirEntry, seen: seq<DirEntry>): (next: seq<DirEntry>)
    ensures next == seen || (next == seen + [d] && Matches(keyword, d) && !PathSeen(seen, d.relPath))
  {
    if Matches(keyword, d) && !PathSeen(seen, d.relPath) then seen + [d] else seen
  }

  /** Every directory the uncapped search adds matches and comes from the walk. */
  lemma {:induction false} AllMatchesFromWalk(keyword: string, walk: seq<DirEntry>, seen: seq<DirEntry>)
    ensures var r := AllMatches(keyword, walk, seen);
            forall i :: |seen| <= i < |r| ==> Matches(keyword, r[i]) && r[i] in walk
    decreases |walk|
  {
    if |walk| > 0 {
      var d := walk[0];
      var next := NextSeen(keyword, d, seen);
      var r := AllMatches(keyword, walk, seen);
      assert r == AllMatches(keyword, walk[1..], next);
      AllMatchesFromWalk(keyword, walk[1..], next);
      forall i | |seen| <= i < |r|
        ensures Matches(keyword, r[i]) && r[i] in walk
      {
        if i < |next| {
          assert r[..|next|] == next;
          assert r[i] == next[i] == d;
        } else {
          assert r[i] in walk[1..];
        }
      }
    }
  }

  /** The uncapped search never holds a relative path twice. */
  lemma {:induction false} AllMatchesDistinct(keyword: string, walk: seq<DirEntry>, seen: seq<DirEntry>)
    requires forall i, j :: 0 <= i < j < |seen| ==> seen[i].relPath != seen[j].relPath
    ensures var r := AllMatches(keyword, walk, seen);
            forall i, j :: 0 <= i < j < |r| ==> r[i].relPath != r[j].relPath
    decreases |walk|
  {
    if |walk| > 0 {
      var d := walk[0];
      var next := NextSeen(keyword, d, seen);
      assert AllMatches(keyword, walk, seen) == AllMatches(keyword, walk[1..], next);
      forall i, j | 0 <= i < j < |next|
        ensures next[i].relPath != next[j].relPath
      {
        if j == |seen| {
          assert !(seen[i].relPath == d.relPath);
        }
      }
      AllMatchesDistinct(keyword, walk[1..], next);
    }
  }

  /** A path recorded in `seen` stays recorded. */
  lemma SeenKept(keyword: string, walk: seq<DirEntry>, seen: seq<DirEntry>, relPath: string)
    requires PathSeen(seen, relPath)
    ensures PathSeen(AllMatches(keyword, walk, seen), relPath)
  {
    var r := AllMatches(keyword, walk, seen);
    var k :| 0 <= k < |seen| && seen[k].relPath == relPath;
    assert r[k] == seen[k];
  }

  /** Every matching directory of the walk has its path in the uncapped result. */
  lemma {:induction false} AllMatchesComplete(keyword: string, walk: seq<DirEntry>, seen: seq<DirEntry>)
    ensures var r := AllMatches(keyword, walk, seen);
            forall d :: d in walk && Matches(keyword, d) ==> PathSeen(r, d.relPath)
    decreases |walk|
  {
    if |walk| > 0 {
      var d := walk[0];
      var r := AllMatches(keyword, walk, seen);
      var next := if Matches(keyword, d) && !PathSeen(seen, d.relPath) then seen + [d] else seen;
      assert r == AllMatches(keyword, walk[1..], next);
      AllMatchesComplete(keyword, walk[1..], next);
      if Matches(keyword, d) {
        assert PathSeen(next, d.relPath) by {
          if next != seen {
            assert next[|seen|] == d;
          }
        }
        SeenKept(keyword, walk[1..], next, d.relPath);
      }
      forall x | x in walk && Matches(keyword, x)
        ensures PathSeen(r, x.relPath)
      {
        if x != d {
          assert x in walk[1..];
        }
      }
    }
  }

  /** What the uncapped search adds: matching directories of the walk, in walk order,
      each relative path once, and every matching path of the walk is present. */
  lemma AllMatchesSpec(keyword: string, walk: seq<DirEntry>, seen: seq<DirEntry>)
    requires forall i, j :: 0 <= i < j < |seen| ==> seen[i].relPath != seen[j].relPath
    ensures var r := AllMatches(keyword, walk, seen);
            (forall i :: |seen| <= i < |r| ==> Matches(keyword, r[i]) && r[i] in walk) &&
            (forall i, j :: 0 <= i < j < |r| ==> r[i].relPath != r[j].relPath) &&
            (forall d :: d in walk && Matches(keyword, d) ==> PathSeen(r, d.relPath))
  {
    AllMatchesFromWalk(keyword, walk, seen);
    AllMatchesDistinct(keyword, walk, seen);
    AllMatchesComplete(keyword, walk, seen);
  }

  /** `search_directories`: at most seven matching directories, in walk order, one per
      relative path; a walk that fails gives none. */
  function SearchDirectories(keyword: string, walk: Result<seq<DirEntry>>): (r: seq<DirEntry>)
    ensures walk.Err? ==> r == []
    ensures walk.Ok? ==> var all := AllMatches(keyword, walk.value, []);
            r == all[..if |all| < MaxMatches then |all| else MaxMatches]
  {
    if walk.Err? then []
    else
      CollectIsPrefix(keyword, walk.value, []);
      Collect(keyword, walk.value, [])
  }

  /** The result holds at most seven directories, each matching, each from the walk,
      no relative path twice; fewer than seven means every match is there. */
  lemma SearchDirectoriesSpec(keyword: string, walk: seq<DirEntry>)
    ensures var r := SearchDirectories(keyword, Ok(walk));
            |r| <= MaxMatches &&
            (forall i :: 0 <= i < |r| ==> Matches(keyword, r[i]) && r[i] in walk) &&
            (forall i, j :: 0 <= i < j < |r| ==> r[i].relPath != r[j].relPath) &&
            (|r| < MaxMatches ==> forall d :: d in walk && Matches(keyword, d) ==> PathSeen(r, d.relPath))
  {
    AllMatchesSpec(keyword, walk, []);
    var all := AllMatches(keyword, walk, []);
    var r := SearchDirectories(keyword, Ok(walk));
    if |r| < MaxMatches {
      assert r == all;
    }
  }
}
