/** The review data classes: file change statuses, the git status-code table,
    review types and line-change counts. */
module ReviewTypes {
  import opened Wrappers

  /** The distinct members of the file change status enumeration. UNTRACKED declares
      the same value as ADDED, so the enumeration makes it an alias of ADDED rather
      than a member of its own: it has no constructor here. */
  datatype Status = Added | Removed | Modified | Renamed | Copied | Unmerged

  /** The UNTRACKED name: the very same member as ADDED. */
  const Untracked: Status := Added

  function Value(s: Status): (v: string)
    ensures |v| == 1
  {
    match s
    case Added => "A"
    case Removed => "D"
    case Modified => "M"
    case Renamed => "R"
    case Copied => "C"
    case Unmerged => "U"
  }

  /** Lookup of a member by value, the enumeration's call form; `None` where that raises. */
  function FromValue(v: string): (r: Option<Status>)
    ensures r.Some? ==> Value(r.value) == v
    ensures r.None? ==> forall s: Status :: Value(s) != v
  {
    if v == "A" then Some(Added)
    else if v == "D" then Some(Removed)
    else if v == "M" then Some(Modified)
    else if v == "R" then Some(Renamed)
    else if v == "C" then Some(Copied)
    else if v == "U" then Some(Unmerged)
    else None
  }

  /** No two members share a value, and every member is found again by its value. */
  lemma ValueRoundTrip(s: Status, t: Status)
    ensures FromValue(Value(s)) == Some(s)
    ensures Value(s) == Value(t) ==> s == t
  {
  }

  /** The aliasing: UNTRACKED and ADDED are one member with value "A". */
  lemma UntrackedIsAdded()
    ensures Untracked == Added && Value(Untracked) == "A"
    ensures FromValue("A") == Some(Untracked)
  {
  }

  /** The change codes the status table knows. */
  const StatusCodes: set<string> := {"A", "D", "M", "R", "C", "U", "??"}

  /** The table from git change codes to statuses; codes outside it are absent. */
  function StatusMap(code: string): (r: Option<Status>)
    ensures r.Some? <==> code in StatusCodes
    ensures |code| == 1 && r.Some? ==> Value(r.value) == code
    ensures code == "??" ==> r == Some(Untracked)
  {
    if code == "??" then Some(Untracked)
    else if code == "A" then Some(Added)
    else if code == "D" then Some(Removed)
    else if code == "M" then Some(Modified)
    else if code == "R" then Some(Renamed)
    else if code == "C" then Some(Copied)
    else if code == "U" then Some(Unmerged)
    else None
  }

  /** On one-letter codes the table agrees with lookup by value, and any code of
      another length but "??" (a scored rename such as "R100", say) is absent. */
  lemma StatusMapByValue(code: string)
    ensures |code| == 1 ==> StatusMap(code) == FromValue(code)
    ensures |code| != 1 && code != "??" ==> StatusMap(code) == None
  {
  }

  datatype ReviewType = All | UncommittedOnly | CommittedOnly

  function ReviewTypeValue(t: ReviewType): string {
    match t
    case All => "ALL"
    case UncommittedOnly => "UNCOMMITTED_ONLY"
    case CommittedOnly => "COMMITTED_ONLY"
  }

  function ReviewTypeFromValue(v: string): (r: Option<ReviewType>)
    ensures r.Some? ==> ReviewTypeValue(r.value) == v
    ensures r.None? ==> forall t: ReviewType :: ReviewTypeValue(t) != v
  {
    if v == "ALL" then Some(All)
    else if v == "UNCOMMITTED_ONLY" then Some(UncommittedOnly)
    else if v == "COMMITTED_ONLY" then Some(CommittedOnly)
    else None
  }

  lemma ReviewTypeRoundTrip(t: ReviewType)
    ensures ReviewTypeFromValue(ReviewTypeValue(t)) == Some(t)
  {
  }

  /** An optional integer field: `None` is Python's `None`. */
  datatype LineChange = LineChange(added: Option<int>, removed: Option<int>)

  /** A constructor argument that may be left out. */
  datatype Arg<T> = Omitted | Given(arg: T)

  /** `LineChange(...)`: an omitted count defaults to 0, a given one (even `None`) is kept. */
  function NewLineChange(added: Arg<Option<int>>, removed: Arg<Option<int>>): (r: LineChange)
    ensures added.Omitted? ==> r.added == Some(0)
    ensures removed.Omitted? ==> r.removed == Some(0)
    ensures added.Given? ==> r.added == added.arg
    ensures removed.Given? ==> r.removed == removed.arg
  {
    LineChange(if added.Omitted? then Some(0) else added.arg,
               if removed.Omitted? then Some(0) else removed.arg)
  }

  datatype FileChanges = FileChanges(
    filePath: string,
    fileName: string,
    status: Status,
    lineChanges: Option<LineChange>,
    diff: string)
}
