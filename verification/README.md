# deputydev-binary core, modelled in Dafny

The local service behind the DeputyDev IDE extension ships a Python binary together with
two Node scripts that fingerprint it, and it answers the extension's requests about the
user's repository: grep and autocomplete search, focus-item lookup, file reading, reviews
of the working tree, URL reading, MCP server management and error reporting. This
project models the pure core of those pieces and proves what each one promises.

- **Fingerprinting** (`Walk`, `HashBinary`, `HashBinaryV2`, `Hex`). The filesystem is an
  immutable tree. The scripts' stack-based walk is proved equal to a reference pre-order
  visit with children in JavaScript's default sort order, which compares UTF-16 code
  units rather than code points. v1 feeds relative paths and file bytes to one SHA-256.
  v2 builds a manifest from relative path to the 8-digit hex of each file's CRC-32.
  Both skip AppleDouble files below the root, v2 also skips `.pyc`, and both fall back to
  "" or `{}` when anything throws.
- **Search** (`GrepSearch`, `DirSearch`, `SymbolTable`, `Autocomplete`, `FocusItems`). This
  covers splitting grep's output at "--" lines, parsing its `path:N:text` match lines and
  numbered context lines into results, the seven-result directory search, folding of
  symbol sightings into one entry per key with the best score, the keyword autocomplete
  pipeline with its stable score sort, and the focus-item search by kind.
- **Review** (`Lines`, `ReviewTypes`, `DiffUtils`, `FileIgnore`, `DiffApplicator`,
  `LocalSnapshot`, `CommittedOnly`, `GitUtils`). This covers added and removed line
  counts, the per-status choice of diff, the `fnmatch` ignore list, cleaning of
  model-written patches, the snapshot file and its diff against the working tree,
  parsing of `git diff --name-status` output, and the git helpers' path logic.
- **Reading** (`TextFile`, `IterativeFileReader`, `ReadFile`, `CommentValidator`). This
  covers reading a window of lines with its default of 100, reading a number of lines from
  a start line with its end-of-file flag, and the comment validator's path sanitising and
  line-hash comparison.
- **URLs** (`HtmlScrapper`, `PublicUrlManager`). This covers the conditional request
  headers, the freshness rule for stored pages, the fetch-or-reuse decision as written
  (the request goes out with no headers) and as evidently intended, and the batched
  reading of a list of URLs against the stored pages.
- **Errors, MCP and auth** (`HttpErrors`, `RouteErrorHandler`, `ToolHandler`,
  `ErrorHandler`, `McpService`, `AuthTokenService`). This covers the mapping from each
  exception to a response status and body, MCP server-list bookkeeping, and auth-token
  storage and lookup.
- **Reranking** (`ChunkUtil`, `Reranker`, `IdeReview`). This covers the chunk helpers,
  the default and model-based reranking, and the flattening of query multidicts.

Hashes (SHA-256, CRC-32, the content hash), UTF-8 encoding, markdown conversion, the
web client, git, the LLM and the storage managers are function-valued parameters. The
model fixes their roles, not their internals. Floating-point scores are `real`.
Python dictionaries whose insertion order matters are sequences of pairs.

## Model

| member | source | states |
|---|---|---|
| Ordering.Utf16Injective | hash-binary.js:16 | distinct names have distinct UTF-16 encodings, so the default sort never ties two different names |
| Ordering.SurrogatePairSortsLow | hash-binary.js:16 | the default sort compares UTF-16 code units: "\U{1F600}.txt" sorts before "\U{FF21}.txt" although its code point is larger, while the code-point order puts it after |
| Ordering.SortByKeySorted | hash-binary.js:16 | the insertion sort leaves keys in ascending order |
| Ordering.SortByKeyPermutationInvariant | hash-binary.js:16 | with unique keys, any two orderings of the same entries sort to the same sequence |
| FsTree.SortKeysUnique | hash-binary.js:16 | entries with unique names have unique UTF-16 sort keys |
| Walk.SortedChildren | hash-binary.js:16 | the listing `readdirSync` returned, put in ascending UTF-16 code-unit order of the names, holding exactly the same entries |
| Walk.Frames | hash-binary.js:17-18 | one worklist frame per entry, carrying the joined path and the entry's node, in listing order |
| Walk.PushAll | hash-binary.js:17-19 | the `for` loop appends one frame per reversed-listing entry on top of the worklist |
| Walk.PushReversed | hash-binary.js:16-19 | pushing the reversed sorted children makes the children's whole pre-order come out next, in ascending UTF-16 code-unit order of the names, before anything already on the stack |
| Walk.DirStep | hash-binary.js:15-20 | popping a directory accounts for its visit and its children's events, and the worklist's remaining size shrinks |
| Walk.Traverse | hash-binary.js:8-27 | the LIFO worklist loop sees exactly the pre-order traversal with siblings in ascending UTF-16 code-unit order of the tree, or fails when a stat or listing throws |
| Walk.EventsFailIff | hash-binary.js:10-16 | the walk aborts exactly when some stat or listing reachable from the root throws |
| Walk.ChildEventsFailIff | hash-binary.js:15-19 | the children's walk aborts exactly when one child's subtree is broken |
| Walk.EventsShape | hash-binary.js:13-20 | pre-order: a directory's own visit (path relative to the root) comes first and every later event lies strictly below it |
| Walk.ChildEventsShape | hash-binary.js:16-19 | every event of a child walk lies strictly below the parent's path |
| Walk.SortedChildrenWellFormed | hash-binary.js:16 | sorting a well-formed listing keeps names unique and subtrees well-formed |
| Walk.EventsDistinct | hash-binary.js:13-18 | in a well-formed tree no path is visited twice |
| Walk.ChildEventsDistinct | hash-binary.js:16-19 | distinct sibling names give disjoint child walks |
| Walk.CanonListingStrict | hash-binary.js:16 | a sorted canonical listing is strictly ordered by name |
| Walk.SortStrictlySorted | hash-binary.js:16 | sorting an already strictly ordered listing leaves it unchanged |
| Walk.EventsCanon | hash-binary.js:16 | the traversal only depends on the tree with every listing put in name order |
| Walk.ChildEventsCanon | hash-binary.js:16-19 | the children's traversal only depends on their canonical forms |
| Walk.CanonForgetsOrder | hash-binary.js:16 | reordering a directory's raw listing leaves its canonical form unchanged |
| Walk.EventsOrderInvariant | hash-binary.js:16 | two trees that differ only in raw listing order produce identical traversals |
| Walk.AppleDoubleIff | hash-binary.js:22 | the `/\/\._/` test holds exactly when a path component after the first starts with "._" |
| Walk.ContainsAfterSeparator | hash-binary.js:22 | "/._" occurs in `a/b` (with no "/" in `a`) exactly when `b` starts with "._" or contains "/._" |
| Walk.NoSlashNoAppleDouble | hash-binary.js:22 | a relative path without "/" (a top-level entry) is never treated as AppleDouble |
| Walk.SingleChildEvents | hash-binary.js:15-20 | a one-entry directory yields its own visit followed by the entry's traversal |
| Walk.TwoChildEvents | hash-binary.js:16 | the two listing orders of a two-entry directory traverse identically |
| Walk.SurrogateNameFirst | hash-binary.js:16-19 | in a directory listing "\U{FF21}.txt" then "\U{1F600}.txt", the second file is visited first, its leading surrogate 0xD83D being the smaller code unit |
| Walk.ScenarioEvents | hash-binary.js:10-27 | `dir/a.txt` beside `dir/._cache` is visited as root, `dir`, `dir/._cache`, `dir/a.txt` whatever the raw order |
| Walk.ScenarioRelPaths | hash-binary.js:13-22 | relative paths of the scenario: "" for the root, "dir/a.txt" kept, "dir/._cache" AppleDouble |
| Walk.EventsValidPaths | hash-binary.js:13-18 | every reported path is a sequence of valid entry names |
| Walk.RelPathNonEmpty | hash-binary.js:13 | only the root has the empty relative path |
| Walk.RelPathInjective | hash-binary.js:13 | distinct valid paths have distinct relative-path strings |
| HashBinary.FeedAppend | hash-binary.js:10-27 | the update stream of a concatenation of visits is the concatenation of their streams, failing if either fails |
| HashBinary.RecursivelyHashPath | hash-binary.js:6-30 | the loop performs exactly the `hash.update` calls of the reference stream, in order, or throws |
| HashBinary.GetChecksumForBinaryFile | hash-binary.js:32-40 | the hex of the SHA-256 of the encoded stream, or "" when the walk throws |
| HashBinary.FeedFailIff | hash-binary.js:21-25 | the stream fails exactly when a file that is not skipped cannot be read |
| HashBinary.ChecksumEmptyIff | hash-binary.js:32-40 | the checksum is "" exactly when the walk throws; otherwise it is 64 lowercase hex digits |
| HashBinary.FeedIgnoresSkipped | hash-binary.js:22 | skipped AppleDouble files contribute nothing, not even a read failure |
| HashBinary.DirFedFirst | hash-binary.js:13-20 | a root directory's stream starts with its relative path "" |
| HashBinary.FileFedPathThenBytes | hash-binary.js:21-25 | each kept readable file feeds its relative path immediately followed by its full contents |
| HashBinary.ChecksumOrderInvariant | hash-binary.js:13-16 | stream and checksum are invariant under raw listing order |
| HashBinary.SingleFileStream | hash-binary.js:13-25 | a file given as the root feeds "" then its bytes |
| HashBinary.OtherFeedsNothing | hash-binary.js:15-26 | an entry that is neither file nor directory feeds nothing and is not descended |
| HashBinary.OneFileStream | hash-binary.js:15-25 | a directory holding one kept file feeds "", the file's name, then its bytes |
| HashBinary.TopLevelAppleDoubleHashed | hash-binary.js:22 | a top-level `._x` is hashed like any other file |
| HashBinary.PycHashed | hash-binary.js:21-25 | this script has no `.pyc` rule: a `.pyc` file feeds its path and bytes |
| HashBinary.ScenarioStream | hash-binary.js:10-27 | the scenario tree feeds "", "dir", "dir/a.txt" and its bytes, and nothing of `._cache` |
| Hex.ToRadix16Value | hash-binary-v2.js:29 | `toString(16)` reads back as the number it renders |
| Hex.ToRadix16Length | hash-binary-v2.js:29 | a number below 16^k renders in at most k digits |
| Hex.PadStart | hash-binary-v2.js:29 | `padStart` keeps a long string and left-pads a short one to the length, ending with the original |
| Hex.FromHexLeadingZeros | hash-binary-v2.js:29 | padding with zeros does not change the value read back |
| Hex.ByteHex | hash-binary.js:35 | one byte is two lowercase hex digits that read back as the byte |
| Hex.BytesHex | hash-binary.js:35 | `digest('hex')` is two lowercase hex digits per byte |
| Hex.BytesHexRoundTrip | hash-binary.js:35 | the hex digest reads back as the digest bytes |
| HashBinaryV2.Unsigned | hash-binary-v2.js:27-28 | `>>> 0` yields the value below 2^32 congruent to the signed CRC modulo 2^32 |
| HashBinaryV2.Hex8Format | hash-binary-v2.js:27-29 | the rendering is exactly 8 lowercase hex digits reading back as the unsigned CRC |
| HashBinaryV2.Hex8Injective | hash-binary-v2.js:27-29 | different CRCs never share a rendering |
| HashBinaryV2.Hex8MinusOne | hash-binary-v2.js:28-29 | CRC -1 is rendered "ffffffff" |
| HashBinaryV2.Hex8Padded | hash-binary-v2.js:29 | small CRCs are left-padded with zeros to 8 digits |
| HashBinaryV2.AssignmentsAppend | hash-binary-v2.js:10-33 | the assignments of concatenated visits are the concatenation of their assignments |
| HashBinaryV2.ApplyAppend | hash-binary-v2.js:31 | performing two runs of assignments is performing their concatenation |
| HashBinaryV2.RecursivelyHashPath | hash-binary-v2.js:6-36 | the loop builds exactly the reference manifest, or throws exactly when a stat, listing or kept-file read throws |
| HashBinaryV2.GetChecksumsForBinaryPath | hash-binary-v2.js:38-45 | the manifest, and `{}` whenever the walk throws |
| HashBinaryV2.ApplyKeys | hash-binary-v2.js:31 | after the assignments a key is present exactly when it was present or assigned, except that assigning `__proto__` sets the object's prototype and adds no key |
| HashBinaryV2.ApplyValue | hash-binary-v2.js:31 | with distinct keys every assignment survives to the end |
| HashBinaryV2.ApplyUntouched | hash-binary-v2.js:31 | a key no assignment names keeps its value |
| HashBinaryV2.AssignmentsKeys | hash-binary-v2.js:20-32 | a key is assigned exactly when it is the relative path of a visited file that is neither AppleDouble nor `.pyc` |
| HashBinaryV2.ManifestKeys | hash-binary-v2.js:6-36 | the manifest's keys are exactly the relative paths of the kept regular files, other than `__proto__` |
| HashBinaryV2.AssignmentsFromDistinctPaths | hash-binary-v2.js:13-31 | distinct visited paths give distinct manifest keys |
| HashBinaryV2.ManifestValue | hash-binary-v2.js:25-31 | each kept file's entry, other than one keyed `__proto__`, is the 8-digit hex of the CRC-32 of its contents |
| HashBinaryV2.ProtoFileDropped | hash-binary-v2.js:31 | a top-level file named `__proto__` leaves the manifest empty |
| HashBinaryV2.AssignmentAt | hash-binary-v2.js:20-31 | each kept file was read and its assignment is performed |
| HashBinaryV2.DirectoriesHaveNoEntry | hash-binary-v2.js:15-20 | directories never get a manifest entry |
| HashBinaryV2.AssignmentsFail | hash-binary-v2.js:25 | one unreadable kept file anywhere discards everything |
| HashBinaryV2.ManifestEmptyOnError | hash-binary-v2.js:38-45 | any exception during the walk yields the empty manifest |
| HashBinaryV2.ManifestOrderInvariant | hash-binary-v2.js:13-16 | the manifest is invariant under raw listing order |
| HashBinaryV2.SingleFileManifest | hash-binary-v2.js:13-31 | a file given as the root is stored under the key "" |
| HashBinaryV2.PycExcluded | hash-binary-v2.js:23 | a `.pyc` file below the root gets no entry |
| HashBinaryV2.ScenarioManifest | hash-binary-v2.js:6-36 | the scenario tree's manifest has the single key "dir/a.txt" |
| GrepSearch.ChunksFromPartition | app/services/codebase_search/grep_search/grep_search.py:123-137 | with any chunk under construction, the chunking loop puts every non-delimiter line into exactly one chunk, in order, and no chunk holds a delimiter |
| GrepSearch.ChunksPartition | app/services/codebase_search/grep_search/grep_search.py:123-137 | splitting at "--" lines: the chunks concatenate to the input minus the delimiters, and none holds a delimiter |
| GrepSearch.ChunksSeparate | app/services/codebase_search/grep_search/grep_search.py:123-137 | chunking undoes writing non-empty delimiter-free chunks with "--" between them |
| GrepSearch.ChunksFromSeparate | app/services/codebase_search/grep_search/grep_search.py:123-137 | the loop recovers the chunks from their "--"-separated writing |
| GrepSearch.ChunksFromFree | app/services/codebase_search/grep_search/grep_search.py:130-131 | delimiter-free lines are simply appended to the chunk under construction |
| GrepSearch.FirstColonGroupFrom | app/services/codebase_search/grep_search/grep_search.py:82 | the first position of a `:<digits>:` group at or after k, or none |
| GrepSearch.ParseMatchLine | app/services/codebase_search/grep_search/grep_search.py:82 | `^(.*?):(\d+):(.*)$`: a match's three groups rebuild the line around two ':', and the middle one is a non-empty run of digits |
| GrepSearch.ParseMatchLineGroups | app/services/codebase_search/grep_search/grep_search.py:82 | the lazy prefix ends at the first `:<digits>:` group, so the digit group is the whole run; no match exactly when no such group exists |
| GrepSearch.MatchLineRoundTrip | app/services/codebase_search/grep_search/grep_search.py:82-86 | a line written `path:N:text` with no ':' in the path parses back into path, N and text |
| GrepSearch.ColonGroupOfLine | app/services/codebase_search/grep_search/grep_search.py:82 | in `path:N:text` a `:<digits>:` group starts right after the path and its digit run is N |
| GrepSearch.NoEarlierColonGroup | app/services/codebase_search/grep_search/grep_search.py:82 | a path without ':' holds no earlier `:<digits>:` group |
| GrepSearch.NoColonNoMatch | app/services/codebase_search/grep_search/grep_search.py:82-83 | a line without ':' never matches |
| GrepSearch.DigitRunPrefix | app/services/codebase_search/grep_search/grep_search.py:82 | `\d+` takes a digit run whole when a non-digit follows |
| GrepSearch.ContextHead | app/services/codebase_search/grep_search/grep_search.py:95 | the matched `path[-:]N` head starts with the path, is followed by a separator and at least one digit |
| GrepSearch.ContextNumber | app/services/codebase_search/grep_search/grep_search.py:95-98 | a chunk line has a line number exactly when the anchored context pattern matches |
| GrepSearch.CleanLine | app/services/codebase_search/grep_search/grep_search.py:108 | a line without the head is only stripped |
| GrepSearch.ContextLineRoundTrip | app/services/codebase_search/grep_search/grep_search.py:95-108 | a line written `path<sep>N<sep>text` is numbered N and cleans to the stripped text |
| GrepSearch.ContextHeadOfLine | app/services/codebase_search/grep_search/grep_search.py:95 | the head of `path<sep>N<sep>text` spans the path, the separator and N |
| GrepSearch.ContextLineNumber | app/services/codebase_search/grep_search/grep_search.py:95-98 | such a line is numbered N |
| GrepSearch.ContextNumberOfHead | app/services/codebase_search/grep_search/grep_search.py:95-98 | a head ending in the digits N numbers the line N |
| GrepSearch.ContextLineClean | app/services/codebase_search/grep_search/grep_search.py:108 | such a line cleans to its stripped text |
| GrepSearch.CleanLineOfHead | app/services/codebase_search/grep_search/grep_search.py:108 | removing the head and one optional separator leaves the stripped text |
| GrepSearch.ContextNumbers | app/services/codebase_search/grep_search/grep_search.py:93-98 | exactly the numbers of the chunk's context-form lines are collected |
| GrepSearch.SeqMin | app/services/codebase_search/grep_search/grep_search.py:103 | `min` is a member no greater than any other |
| GrepSearch.SeqMax | app/services/codebase_search/grep_search/grep_search.py:104 | `max` is a member no smaller than any other |
| GrepSearch.FirstMatchIndex | app/services/codebase_search/grep_search/grep_search.py:81-87 | the loop stops at the first line that has the match form, and no earlier line has it |
| GrepSearch.CleanLines | app/services/codebase_search/grep_search/grep_search.py:107-109 | every chunk line, cleaned, in order |
| GrepSearch.ContentLines | app/services/codebase_search/grep_search/grep_search.py:86-109 | the stripped match text comes first, then every cleaned chunk line |
| GrepSearch.ProcessChunk | app/services/codebase_search/grep_search/grep_search.py:70-121 | an empty chunk yields nothing, and a result's start line never exceeds its end line |
| GrepSearch.ProcessChunkNone | app/services/codebase_search/grep_search/grep_search.py:89-101 | a chunk yields nothing exactly when no line matches, the match path strips to "", or no line carries that path's numbered head |
| GrepSearch.ProcessChunkFields | app/services/codebase_search/grep_search/grep_search.py:81-121 | the result holds the first match line's number, its stripped path (repo path removed outside git), the least and greatest numbered line and the joined text |
| GrepSearch.MatchInsideRange | app/services/codebase_search/grep_search/grep_search.py:93-109 | for an unpadded path the match line lies inside [start, end] and its text appears twice in the content |
| GrepSearch.ThreeLineMatch | app/services/codebase_search/grep_search/grep_search.py:81-87 | in the context/match/context chunk grep writes, the match line is the middle one |
| GrepSearch.ThreeLineNumbers | app/services/codebase_search/grep_search/grep_search.py:93-98 | the three lines carry their three numbers |
| GrepSearch.ThreeLineContent | app/services/codebase_search/grep_search/grep_search.py:107-112 | the content is the match text followed by the three texts |
| GrepSearch.ProcessThreeLineChunk | app/services/codebase_search/grep_search/grep_search.py:70-121 | the result of a three-line chunk, field by field |
| GrepSearch.Collect | app/services/codebase_search/grep_search/grep_search.py:126-137 | at most one result per chunk |
| GrepSearch.ParseLines | app/services/codebase_search/grep_search/grep_search.py:66-139 | at most one result per chunk of the output |
| GrepSearch.ScanChunks | app/services/codebase_search/grep_search/grep_search.py:123-137 | the loop with its final flush yields the results of exactly the chunks of the reference split, in order |
| GrepSearch.Grep | app/services/codebase_search/grep_search/grep_search.py:43-64 | all terms' results in term order, cut to the first hundred |
| Lines.SplitLines | app/services/review/diff_utils.py:15 | `splitlines()`: no line holds a break, and the text is empty exactly when there are no lines |
| Lines.SplitTerminated | app/services/review/diff_utils.py:15 | splitting the text of break-free lines, each followed by "\n", gives the lines back |
| DiffUtils.LineKinds | app/services/review/diff_utils.py:16-21 | a line counts as added iff it starts with "+" but not "+++", as removed iff it starts with "-" but not "---", never both |
| DiffUtils.CountAddedRemovedLines | app/services/review/diff_utils.py:11-22 | the loop's counts are the numbers of added and removed lines of the text |
| DiffUtils.CountsOfLines | app/services/review/diff_utils.py:11-22 | the counts are the sizes of the added and removed line filters, at most the number of lines, and additive over concatenated texts |
| DiffUtils.LastName | app/services/review/diff_utils.py:29 | the last path segment that is neither empty nor ".", or "" |
| DiffUtils.Basename | app/services/review/diff_utils.py:29 | `Path(p).name` holds no "/" and is never "." |
| DiffUtils.BasenameOfChild | app/services/review/diff_utils.py:29 | the name of `dir/name` is `name` for a proper file name |
| DiffUtils.FormatDiffResponse | app/services/review/diff_utils.py:25-34 | path, diff and status are copied, the name is the path's last component, and the line changes are the added/removed counts of the diff |
| DiffUtils.SelectBranch | app/services/review/diff_utils.py:56-104 | the status tests in order: ADDED (the same member as UNTRACKED) always takes the untracked arm, the ADDED arm is unreachable, and COPIED/UNMERGED fall through to the last arm |
| DiffUtils.GetFileDiff | app/services/review/diff_utils.py:49-108 | an ADDED file is diffed against /dev/null when it exists and gives "" otherwise |
| DiffUtils.ModifiedDiff | app/services/review/diff_utils.py:67-82 | with a commit id the diff from that commit; without one the unstaged diff when non-empty, else the staged one; for a missing file the diff from HEAD |
| DiffUtils.AddedIgnoresStagedDiff | app/services/review/diff_utils.py:56-61 | a staged new file never gets its "--cached" diff |
| DiffUtils.RemovedRenamedDiff | app/services/review/diff_utils.py:63-100 | removed and renamed files are diffed against the commit, or HEAD without one, and a failing call yields "" |
| DiffUtils.FirstKnownIndex | app/services/review/diff_utils.py:118-123 | the first listing entry with a known code for the path |
| DiffUtils.LastKnownIndex | app/services/review/diff_utils.py:129-134 | the last listing entry with a known code for the path |
| DiffUtils.FirstWinsAt | app/services/review/diff_utils.py:118-123 | against a commit the first known entry for a path decides and an existing one is never replaced |
| DiffUtils.LastWinsAt | app/services/review/diff_utils.py:129-134 | among staged entries the last known one for a path wins |
| DiffUtils.UnstagedAt | app/services/review/diff_utils.py:137-146 | an unstaged entry for a path already recorded makes it MODIFIED; otherwise its own code is recorded |
| DiffUtils.UntrackedAt | app/services/review/diff_utils.py:148-149 | untracked files are recorded as UNTRACKED over anything earlier |
| DiffUtils.CurrentChangesAgree | app/services/review/diff_utils.py:111-151 | the merged map holds exactly the paths some listing mentions with a known code, each with the status the per-listing rule promises |
| ReviewTypes.Value | app/services/review/dataclass/main.py:18-25 | every status value is one letter |
| ReviewTypes.FromValue | app/services/review/dataclass/main.py:18-25 | lookup by value finds the member with that value, and fails only for values no member has |
| ReviewTypes.ValueRoundTrip | app/services/review/dataclass/main.py:18-25 | members are found again by their value and no two share one |
| ReviewTypes.UntrackedIsAdded | app/services/review/dataclass/main.py:19-24 | UNTRACKED is an alias of ADDED: the same member, value "A" |
| ReviewTypes.StatusMap | app/services/review/dataclass/main.py:56-64 | the code table is defined exactly on its seven codes, maps each one-letter code to the member with that value and "??" to UNTRACKED |
| ReviewTypes.StatusMapByValue | app/services/review/dataclass/main.py:56-64 | on one-letter codes the table agrees with lookup by value; other codes than "??" are absent |
| ReviewTypes.ReviewTypeFromValue | app/services/review/dataclass/main.py:28-31 | lookup of a review type by value finds exactly the member with that value |
| ReviewTypes.ReviewTypeRoundTrip | app/services/review/dataclass/main.py:28-31 | each review type is found again by its value |
| ReviewTypes.NewLineChange | app/services/review/dataclass/main.py:34-36 | an omitted count defaults to 0 and a given one is kept |
| DiffUtils.CleanDiff | app/services/review/diff_utils.py:37-41 | the diff output is kept as it is: the filter that would drop header lines is disabled |
| FileIgnore.FnMatchLiteralHead | app/services/review/file_ignore_utils.py:53 | `fnmatch` is anchored: a literal head of the pattern must equal the head of the path |
| FileIgnore.FnMatchStar | app/services/review/file_ignore_utils.py:53 | a lone `*` matches every path |
| FileIgnore.FnMatchSuffix | app/services/review/file_ignore_utils.py:53 | `*lit` matches exactly the paths ending in `lit` |
| FileIgnore.FnMatchPrefix | app/services/review/file_ignore_utils.py:53 | `lit*` matches exactly the paths starting with `lit` |
| FileIgnore.FnMatchInfix | app/services/review/file_ignore_utils.py:53 | `*lit*` matches exactly the paths containing `lit` |
| FileIgnore.FnMatchExact | app/services/review/file_ignore_utils.py:53 | a pattern without wildcards matches only the identical path |
| FileIgnore.HeadRefutes | app/services/review/file_ignore_utils.py:53 | a pattern starting with a literal character rejects paths not starting with it |
| FileIgnore.TailRefutes | app/services/review/file_ignore_utils.py:53 | a pattern ending with a literal character rejects paths not ending with it |
| FileIgnore.CharRefutes | app/services/review/file_ignore_utils.py:53 | a literal character of the pattern must occur in every path it matches |
| FileIgnore.Normalize | app/services/review/file_ignore_utils.py:51 | replacing backslashes keeps the length and leaves none |
| FileIgnore.NormalizeIdentity | app/services/review/file_ignore_utils.py:51 | a POSIX path without backslashes is left alone |
| FileIgnore.AnyMatch | app/services/review/file_ignore_utils.py:52-55 | the loop answers True iff some pattern of the list matches the whole path |
| FileIgnore.AnyMatchAppend | app/services/review/file_ignore_utils.py:52-55 | a path matches a concatenated list iff it matches one of the parts |
| FileIgnore.SuffixAtAnyDepth | app/services/review/file_ignore_utils.py:5 | `*.pyc` skips compiled files in any directory, since `*` also matches '/' |
| FileIgnore.RootOnlyPatterns | app/services/review/file_ignore_utils.py:9-18 | directory patterns such as `dist/*` and exact names such as `Makefile` only match at the root |
| FileIgnore.NodeModulesNotIgnored | app/services/review/file_ignore_utils.py:6-9 | as written, the missing comma fuses "poetry.lock" and "node_modules/*", so the path "node_modules/react/README" (the lemma's witness) is reviewed |
| FileIgnore.IntendedIgnoresNodeModules | app/services/review/file_ignore_utils.py:3-45 | with the comma restored every path under node_modules is skipped, and every path the list as written skips, other than by the fused pattern, is still skipped |
| DiffApplicator.CleanPatch | app/services/diff_applicator_service.py:28-38 | a patch is cleaned iff it holds "---"; the missing case stops the pass |
| DiffApplicator.CleanPatchStartsWithDashes | app/services/diff_applicator_service.py:28-38 | a non-empty cleaned patch starts at the first "---", since the cut keeps it and stripping cannot touch it |
| DiffApplicator.FenceBeforeDashes | app/services/diff_applicator_service.py:33-35 | a fence before the first "---" gives an inverted slice, so the patch is emptied |
| DiffApplicator.AbortIndex | app/services/diff_applicator_service.py:26-30 | the position of the first patch without "---": every earlier one has it |
| DiffApplicator.CleanPatches | app/services/diff_applicator_service.py:25-38 | the pass keeps the map's keys and order and only rewrites values |
| DiffApplicator.CleanPatchesCleaned | app/services/diff_applicator_service.py:26-38 | every patch before the first one without "---" is replaced by its cleaned text |
| DiffApplicator.CleanPatchesRest | app/services/diff_applicator_service.py:29-30 | the early `return` leaves that patch and every later one untouched |
| DiffApplicator.ApplyDiff | app/services/diff_applicator_service.py:9-23 | the patcher gets the cleaned map; its result is returned, and any failure gives the empty map |
| LocalSnapshot.JoinPath | app/services/review/snapshot/local_snapshot.py:31 | the `/` operator on paths: an absolute right side replaces the left |
| LocalSnapshot.SnapshotPath | app/services/review/snapshot/local_snapshot.py:27-32 | the path is `repo / FILE_SNAPSHOT_PATH / branch` on first use and is stored |
| LocalSnapshot.SnapshotPathMemoised | app/services/review/snapshot/local_snapshot.py:30-32 | once stored, the path is reused whatever is asked later |
| LocalSnapshot.StatusText | app/services/review/snapshot/local_snapshot.py:55 | a status line is the status letter, a space and the path |
| LocalSnapshot.StatusLines | app/services/review/snapshot/local_snapshot.py:54-55 | one status line per map entry, in map order |
| LocalSnapshot.WriteStatusFile | app/services/review/snapshot/local_snapshot.py:53-55 | the file is empty exactly when the map is |
| LocalSnapshot.WrittenAsJoin | app/services/review/snapshot/local_snapshot.py:53-55 | the file is the status lines joined by newlines with a final newline |
| LocalSnapshot.FileLines | app/services/review/snapshot/local_snapshot.py:81-83 | iterating a file gives newline-free lines (after their newline is stripped) |
| LocalSnapshot.FileLinesWritten | app/services/review/snapshot/local_snapshot.py:53-83 | reading the status file back gives exactly the written lines, for newline-free paths |
| LocalSnapshot.SnapshotEntry | app/services/review/snapshot/local_snapshot.py:83 | `line.strip().split(" ")[1]` exists iff the stripped line holds a space, and holds none itself |
| LocalSnapshot.StatusEntryRoundTrip | app/services/review/snapshot/local_snapshot.py:55-83 | a one-word path is read back exactly from its status line |
| LocalSnapshot.SpacedPathFirstWord | app/services/review/snapshot/local_snapshot.py:55-83 | a path with a space in it is read back as its first word only |
| LocalSnapshot.ParseLines | app/services/review/snapshot/local_snapshot.py:83 | no lines give the empty set |
| LocalSnapshot.ParseLinesFails | app/services/review/snapshot/local_snapshot.py:83 | reading raises exactly when some line has no second field |
| LocalSnapshot.ParseLinesMembers | app/services/review/snapshot/local_snapshot.py:83 | on success the set holds exactly the lines' second fields |
| LocalSnapshot.TakeDiffSnapshot | app/services/review/snapshot/local_snapshot.py:35-67 | the directory is replaced by one holding the status file and a copy of each changed path that is a file; a failure is re-raised with the "Diff snapshot failed with error " prefix |
| LocalSnapshot.PreviousSnapshot | app/services/review/snapshot/local_snapshot.py:70-85 | no status file gives the empty set, otherwise the parsed paths |
| LocalSnapshot.PreviousSnapshotRoundTrip | app/services/review/snapshot/local_snapshot.py:35-85 | the paths of a snapshot of one-word paths are read back exactly |
| LocalSnapshot.Clean | app/services/review/snapshot/local_snapshot.py:95-98 | afterwards the snapshot directory does not exist |
| LocalSnapshot.TakeCommitSnapshot | app/services/review/snapshot/local_snapshot.py:100-108 | the commit file holds the commit id and the rest of the directory is kept |
| LocalSnapshot.LastReviewedCommitId | app/services/review/snapshot/local_snapshot.py:111-124 | the directory is created if missing; no commit file gives None, otherwise its stripped text |
| LocalSnapshot.CommitIdRoundTrip | app/services/review/snapshot/local_snapshot.py:100-124 | a written commit id reads back stripped, and unchanged when it has no surrounding whitespace |
| LocalSnapshot.SnapshotForgetsCommit | app/services/review/snapshot/local_snapshot.py:44-50 | a new diff snapshot, or cleaning, forgets the last reviewed commit |
| CommittedOnly.NameStatusEntry | app/services/review/review_strategy/committed_only.py:39-53 | a line is accepted iff it holds a tab (empty lines included in the refusal), giving its first two tab-separated fields |
| CommittedOnly.ChangeStatus | app/services/review/review_strategy/committed_only.py:56 | a code in the status table gets its status, any other code ADDED |
| CommittedOnly.AcceptedEntries | app/services/review/review_strategy/committed_only.py:37-53 | at most one entry per line, and exactly one when every line is accepted |
| CommittedOnly.EntryChange | app/services/review/review_strategy/committed_only.py:53-56 | the record of an entry carries its path, its code's status and that path's diff |
| CommittedOnly.GetDiffChanges | app/services/review/review_strategy/committed_only.py:22-57 | one change record per accepted line of the stripped output |
| CommittedOnly.RenameLineKeepsOldPath | app/services/review/review_strategy/committed_only.py:53-56 | a rename line "R100" gives its old path, and its scored code falls back to ADDED |
| CommittedOnly.GetDiffChangesRoundTrip | app/services/review/review_strategy/committed_only.py:32-57 | parsing the output git prints for some entries gives one record per entry, in order |
| CommittedOnly.Reset | app/services/review/review_strategy/committed_only.py:9-13 | after a reset no previous paths and no last reviewed commit are recorded |
| CommittedOnly.TakeSnapshot | app/services/review/review_strategy/committed_only.py:15-20 | the target commit becomes the last reviewed one and the status file is kept |
| GitUtils.DefaultBranchIsLastSegment | app/services/review/git_utils.py:22-29 | whatever precedes the last "/", the segment after it is the default branch |
| GitUtils.LatestUnique | app/services/review/git_utils.py:47-49 | the strictly-later rule picks at most one head |
| GitUtils.OriginBranch | app/services/review/git_utils.py:31-57 | the head other than the branch with the latest merge base, the first of equals, wins; heads without a merge base are skipped; no winner, or an empty name, gives the default branch |
| GitUtils.CommitHash | app/services/review/git_utils.py:66-80 | the local head's commit first, then origin's ref, else the ValueError with the branch named |
| GitUtils.RemoteBranchName | app/services/review/git_utils.py:113-116 | HEAD refs are skipped, and only they |
| GitUtils.RemoteBranchNameAfterRemote | app/services/review/git_utils.py:116 | only the remote name before the first "/" is stripped, slashes in the branch are kept |
| GitUtils.RemoteBranches | app/services/review/git_utils.py:110-117 | the names collected are exactly those of the non-HEAD refs of all remotes |
| GitUtils.RefBranches | app/services/review/git_utils.py:111-117 | the names of one remote's refs are exactly the non-HEAD refs' names |
| GitUtils.Dedup | app/services/review/git_utils.py:125 | `set`: the same elements, each once |
| Ordering.CodePointsInjective | app/services/review/git_utils.py:125 | distinct strings have distinct code-point sequences, so `sorted` never ties two different branch names |
| GitUtils.SortedSetSpec | app/services/review/git_utils.py:125 | `sorted(set(s))` holds each element of s once, in strictly ascending code-point order |
| GitUtils.SearchBranches | app/services/review/git_utils.py:94-125 | an empty keyword raises "Keyword cannot be empty"; otherwise exactly the searched names containing the keyword, sorted and unique |
| GitUtils.SearchBranchesRemote | app/services/review/git_utils.py:104-117 | without remotes asked for only local heads are found; with them a remote branch is found by name |
| DirSearch.LastComponent | app/services/autocomplete_search_service.py:265-266 | the keyword's text after its last "/", the keyword itself when it has none |
| DirSearch.AllMatches | app/services/autocomplete_search_service.py:277-302 | the uncapped search only appends to what was already found |
| DirSearch.CollectIsPrefix | app/services/autocomplete_search_service.py:296-297 | stopping at seven results returns the first seven of the uncapped matches |
| DirSearch.AllMatchesSpec | app/services/autocomplete_search_service.py:277-302 | the matches are directories of the walk whose name contains the last component ignoring case, in walk order, one per relative path, and none is missed |
| DirSearch.SearchDirectories | app/services/autocomplete_search_service.py:248-305 | a failing walk gives no results, otherwise the first seven matches |
| DirSearch.SearchDirectoriesSpec | app/services/autocomplete_search_service.py:275-302 | at most seven results, each matching and from the walk, no relative path twice; fewer than seven means every match is there |
| SymbolTable.IndexOf | app/services/autocomplete_search_service.py:235 | the position of the key in the dictionary, or -1 when absent |
| SymbolTable.Lookup | app/services/autocomplete_search_service.py:235 | the entry is absent exactly when no pair has the key |
| SymbolTable.ChunkList | app/services/autocomplete_search_service.py:244 | a sighting contributes its chunk, if it carries one |
| SymbolTable.Add | app/services/autocomplete_search_service.py:233-245 | a new key is appended at the end, an existing one keeps its place, and no key changes |
| SymbolTable.MaxOf | app/services/autocomplete_search_service.py:245 | the maximum is one of the scores and bounds them all |
| SymbolTable.LookupAdd | app/services/autocomplete_search_service.py:235-245 | a sighting only changes its own key's entry: a new one is created with its chunk and score, an existing one gets the chunk appended and the larger score |
| SymbolTable.ExpectedSnoc | app/services/autocomplete_search_service.py:235-245 | the reference definition changes the same way under one more sighting |
| SymbolTable.AddAllAgrees | app/services/autocomplete_search_service.py:233-245 | after any sightings, each key's entry is the reference one: the first sighting's kind, value and path, all chunks in order, the best score |
| SymbolTable.NoChunks | app/services/autocomplete_search_service.py:85-95 | file entries contribute neither chunks nor scores |
| SymbolTable.MergedScoresMembers | app/services/autocomplete_search_service.py:245 | the scores merged into an entry are exactly those of the chunk-carrying sightings |
| SymbolTable.ExpectedScoreIsBest | app/services/autocomplete_search_service.py:245 | when every sighting carries a chunk, the entry's score is the best of their scores and one of them |
| SymbolTable.AddAllUnique | app/services/autocomplete_search_service.py:235 | no key occurs twice in the dictionary |
| SymbolTable.AddAllKinds | app/services/autocomplete_search_service.py:237-238 | sightings of one kind give entries of that kind only |
| SymbolTable.Values | app/services/autocomplete_search_service.py:98 | the entries in insertion order |
| SymbolTable.Ranked | app/services/autocomplete_search_service.py:97-99 | `sorted(values, key=score, reverse=True)` is a permutation of the entries with scores descending |
| Autocomplete.ChunkScore | app/services/autocomplete_search_service.py:61-65 | a chunk without a score counts as 0.0 |
| Autocomplete.SortChunks | app/services/autocomplete_search_service.py:307-311 | a permutation of the chunks with scores descending |
| Autocomplete.SortChunksStable | app/services/autocomplete_search_service.py:307-311 | chunks with equal scores keep their relative order, since `sorted` is stable |
| Autocomplete.Basename | app/services/autocomplete_search_service.py:91 | the text after the last "/", the path itself when it has none |
| Autocomplete.SymbolSightings | app/services/autocomplete_search_service.py:233-245 | one sighting per symbol name, keyed "type_name_path", carrying the chunk's range and score |
| Autocomplete.FormatSightings | app/services/autocomplete_search_service.py:201-215 | with the path property, one file sighting per chunk keyed by its path |
| Autocomplete.FormatSymbols | app/services/autocomplete_search_service.py:197-227 | the folded entries, each exactly once, highest score first |
| Autocomplete.FormatFileEntry | app/services/autocomplete_search_service.py:206-215 | a path's entry exists exactly when some chunk lies in that file, with its basename, no chunks and the score of the file's first chunk |
| Autocomplete.FileSightingsOf | app/services/autocomplete_search_service.py:206-215 | the sightings of a path are that file's chunks, in order |
| Autocomplete.FormatFileScoreIsBest | app/services/autocomplete_search_service.py:186-215 | because the chunks arrive sorted, a file entry's score is the best of its chunks' scores |
| Autocomplete.FormatSymbolScoreIsBest | app/services/autocomplete_search_service.py:216-223 | a symbol entry's score is the best score among the chunks that named it |
| Autocomplete.SymbolSightingsCarryChunks | app/services/autocomplete_search_service.py:216-223 | every symbol sighting carries its chunk |
| Autocomplete.KeyCollision | app/services/autocomplete_search_service.py:234 | the key is not injective: class "a" in "b_c.py" and class "a_b" in "c.py" share one entry |
| Autocomplete.FileKeysApart | app/services/autocomplete_search_service.py:67-95 | no class or function key is a file key, so the set of seen files agrees with the file keys |
| Autocomplete.ChunkSightingsOfFile | app/services/autocomplete_search_service.py:85-95 | a chunk contributes a file sighting only for its own path |
| Autocomplete.KeywordFileSightings | app/services/autocomplete_search_service.py:56-95 | the file sightings of a path in the keyword search are that file's chunks |
| Autocomplete.KeywordFileEntry | app/services/autocomplete_search_service.py:85-95 | a file's entry exists exactly when one of its chunks was returned, with the basename, no chunks and its first chunk's score |
| Autocomplete.RangesFromJson | app/models/dtos/autocomplete_search_response.py:23-26 | reading a list of range dictionaries keeps its length |
| Autocomplete.ToDict | app/models/dtos/autocomplete_search_response.py:18-27 | exactly the keys type, value, path and chunks, one dictionary per chunk range |
| Autocomplete.RangesRoundTrip | app/models/dtos/autocomplete_search_response.py:23-26 | the range dictionaries read back to the ranges |
| Autocomplete.ToDictRoundTrip | app/models/dtos/autocomplete_search_response.py:18-27 | the dictionary holds everything but the score: reading it back with the score restores the symbol, and the score never shows |
| Autocomplete.KeywordSymbols | app/services/autocomplete_search_service.py:51-99 | the symbols folded from the sorted chunks, each once, highest score first |
| Autocomplete.KeywordChunks | app/services/autocomplete_search_service.py:33-101 | the response is the single key "response" holding one dictionary per symbol |
| Autocomplete.Config | app/services/autocomplete_search_service.py:17-30 | exactly "file", "class" and "function" are configured, each with its own result type |
| Autocomplete.SearchByType | app/services/autocomplete_search_service.py:161-194 | a type without configuration gives no results, otherwise the formatted symbols of the sorted chunks |
| Autocomplete.KeywordTypeChunks | app/services/autocomplete_search_service.py:111-158 | an unknown type answers an empty response; "directory" the directory search; any other valid type the symbol search |
| Autocomplete.ValidTypesConfigured | app/services/autocomplete_search_service.py:16-30 | every valid type but "directory" is configured, so the empty fallback of the symbol search is unreachable |
| FocusItems.TypesToConsider | app/services/codebase_search/focus_items_search/focus_items_search_service.py:113-121 | the requested kind only, or classes, functions and the file, in that order |
| FocusItems.PropertyValues | app/services/codebase_search/focus_items_search/focus_items_search_service.py:128-134 | a chunk's classes, its functions, or its file's basename |
| FocusItems.KindSightings | app/services/codebase_search/focus_items_search/focus_items_search_service.py:136-151 | one sighting per value, keyed "kind_value_path", carrying the chunk and its score |
| FocusItems.ToItem | app/services/codebase_search/focus_items_search/focus_items_search_service.py:139-151 | an item carries its entry's kind, score and chunks |
| FocusItems.GetFocusItems | app/services/codebase_search/focus_items_search/focus_items_search_service.py:154-172 | one item per key of the folded map, each once, highest score first |
| FocusItems.GetFocusItemsStable | app/services/codebase_search/focus_items_search/focus_items_search_service.py:169-171 | items with equal scores keep the order their keys were inserted in |
| FocusItems.OneKind | app/services/codebase_search/focus_items_search/focus_items_search_service.py:113-121 | a requested kind folds the chunk under that kind alone |
| FocusItems.SightingsOfKind | app/services/codebase_search/focus_items_search/focus_items_search_service.py:119-145 | the sightings of a keyed request are all of the requested kind |
| FocusItems.RequestedKindOnly | app/services/codebase_search/focus_items_search/focus_items_search_service.py:113-172 | asking for one kind returns items of that kind only |
| FocusItems.SightingsCarryChunks | app/services/codebase_search/focus_items_search/focus_items_search_service.py:148 | every sighting carries its chunk |
| FocusItems.FocusItemEntry | app/services/codebase_search/focus_items_search/focus_items_search_service.py:136-151 | each item gathers every chunk that yielded its key, in order, and keeps the best of their scores |
| FocusItems.DirItem | app/services/codebase_search/focus_items_search/focus_items_search_service.py:84-89 | a directory hit has kind DIRECTORY, no chunks and score 0.0 |
| FocusItems.SearchDirectoryItems | app/services/codebase_search/focus_items_search/focus_items_search_service.py:42-102 | the shared directory search's results, at most seven, as items |
| FocusItems.GetSearchResults | app/services/codebase_search/focus_items_search/focus_items_search_service.py:175-222 | a directory request goes to the directory search; a failing store query gives no items; otherwise the focus items of the chunks |
| IterativeFileReader.MaxLines | app/services/codebase_read/iterative_file_reader/iterative_file_reader.py:21 | `max_lines or 100`: a missing or zero limit means 100, any other is kept |
| IterativeFileReader.Skipped | app/services/codebase_read/iterative_file_reader/iterative_file_reader.py:38-39 | the skip loop consumes `start_line` lines, none for a negative start, and stops at the end of the file |
| IterativeFileReader.ReadCount | app/services/codebase_read/iterative_file_reader/iterative_file_reader.py:46-52 | the read loop reads its bound of lines, or fewer only when the file ends |
| IterativeFileReader.ReadLines | app/services/codebase_read/iterative_file_reader/iterative_file_reader.py:23-65 | a zero bound or an end not past the start raises the ValueError; otherwise the text of the lines after the skipped ones, at most min(max_lines, end - start), with the last line's number or the start as the reported end; an empty loop range leaves the loop index unbound and raises |
| IterativeFileReader.SkipLines | app/services/codebase_read/iterative_file_reader/iterative_file_reader.py:38-39 | the loop stops where `Skipped` says |
| IterativeFileReader.ReadFrom | app/services/codebase_read/iterative_file_reader/iterative_file_reader.py:44-55 | the loop reads the lines in order, their count is the bound or what is left, and the last loop index is the count or the bound less one |
| IterativeFileReader.ReadLinesLoop | app/services/codebase_read/iterative_file_reader/iterative_file_reader.py:33-65 | the two loops give exactly the window `ReadLines` describes |
| IterativeFileReader.WindowsMeet | app/services/codebase_read/iterative_file_reader/iterative_file_reader.py:38-52 | the lines one window reads end where the next window's skip ends |
| IterativeFileReader.WindowContent | app/services/codebase_read/iterative_file_reader/iterative_file_reader.py:46-52 | a window that fits the limit reads exactly the lines between its bounds |
| IterativeFileReader.ConsecutiveWindows | app/services/codebase_read/iterative_file_reader/iterative_file_reader.py:23-65 | reading [a, b) then [b, c) gives the text of reading [a, c) when it fits the limit |
| ReadFile.ReadFileLines | app/utils/read_file.py:5-34 | a missing file raises; running out of lines while skipping gives ("", start, True); otherwise up to `lines_to_read` lines, EOF flagged exactly when fewer were read, and the line reached or the start |
| ReadFile.ReadFileLinesLoop | app/utils/read_file.py:13-31 | the loops, with their early return, give exactly that result |
| ReadFile.ReadOneLine | app/utils/read_file.py:5-31 | with the default of one line, an existing line comes back alone with its own number and no EOF flag |
| ReadFile.ConsecutiveReads | app/utils/read_file.py:19-28 | reading n lines and then m lines right after gives the text of reading n + m lines |
| CommentValidator.SanitizePath | app/services/comment_validator.py:24-27 | the result starts with "/", adding it only when missing |
| CommentValidator.SanitizeIdempotent | app/services/comment_validator.py:24-27 | sanitising twice is sanitising once |
| CommentValidator.IsCommentApplicable | app/services/comment_validator.py:10-22 | applicable exactly when the message is empty; otherwise "line updated" or, for a missing file, "moved or deleted" |
| CommentValidator.ComparedLine | app/services/comment_validator.py:12-19 | the line compared is the (line_number - 1)-th, and the comment applies exactly when its hash matches |
| CommentValidator.PastTheEnd | app/services/comment_validator.py:13-15 | past the end of the file nothing is read and the line counts as updated |
| HtmlScrapper.Header | app/services/url_service/helpers/html_scrapper.py:20 | response headers are looked up regardless of case |
| HtmlScrapper.ConditionalHeaders | app/services/url_service/helpers/html_scrapper.py:62-69 | If-None-Match is sent exactly when a non-empty ETag is stored, If-Modified-Since exactly when a non-empty Last-Modified is, each with its stored value, and nothing else |
| HtmlScrapper.UpdateCacheMetadata | app/services/url_service/helpers/html_scrapper.py:78-91 | the page hash is always replaced; the validators are replaced only for a cacheable response (Cache-Control present, no "no-store") that carries at least one of them |
| HtmlScrapper.FetchHeadersAsWritten | app/services/url_service/helpers/html_scrapper.py:16-21 | `headers.update(...)` returns None, so no headers are sent at all, while the caller's dictionary gains the User-Agent |
| HtmlScrapper.FetchHeaders | app/services/url_service/helpers/html_scrapper.py:16-21 | the headers evidently meant: the User-Agent "Mozilla/5.0" together with every header the caller gave |
| HtmlScrapper.ConditionalHeadersLost | app/services/url_service/helpers/html_scrapper.py:44-47 | as written, a page stored with an ETag is fetched without If-None-Match |
| HtmlScrapper.ConditionalHeadersSent | app/services/url_service/helpers/html_scrapper.py:44-47 | corrected, every conditional header goes out with its stored value |
| HtmlScrapper.SplitFragment | app/services/url_service/helpers/html_scrapper.py:41-43 | the URL without its fragment and the fragment, which together give the URL back |
| HtmlScrapper.ScrapeMarkdown | app/services/url_service/helpers/html_scrapper.py:39-50 | a cached scrape without a stored page fails (the conditional headers are read from None); every other scrape succeeds, and a cached one always leaves a stored page |
| HtmlScrapper.ScrapeMarkdownSpec | app/services/url_service/helpers/html_scrapper.py:39-60 | as written the page is fetched with no headers; the stored copy is reused exactly when the scrape is cached and the cache rule accepts that response (304, or 200 with an unchanged hash), returning the stored content and page untouched; otherwise the markdown of the page or its fragment is returned, and the stored page gets refreshed validators on a cached 200 and stays as it was otherwise |
| HtmlScrapper.ScrapeMarkdownIntended | app/services/url_service/helpers/html_scrapper.py:39-50 | with the headers evidently meant, the same success and failure cases as the scrape as written |
| HtmlScrapper.ScrapeMarkdownIntendedSpec | app/services/url_service/helpers/html_scrapper.py:39-60 | the same reuse, content and stored-page rules, decided on the response to the request that carries the conditional headers and the User-Agent |
| HtmlScrapper.PlainScrape | app/services/url_service/helpers/html_scrapper.py:44-60 | an uncached scrape always succeeds, never reuses the stored copy and leaves the stored page as it was |
| HtmlScrapper.RevalidationLost | app/services/url_service/helpers/html_scrapper.py:19-53 | a server that answers 304 to the conditional request and 200 with a changed page to a bare one makes the intended scrape reuse the stored copy and the scrape as written convert the page again |
| HtmlScrapper.RefreshThenReuse | app/services/url_service/helpers/html_scrapper.py:54-55 | after a cached 200 that is not reused, the stored hash is the new page's, so the same page is reused next time |
| HtmlScrapper.ValidatorsRoundTrip | app/services/url_service/helpers/html_scrapper.py:62-91 | an ETag stored from a cacheable response is sent back as If-None-Match on the next request |
| PublicUrlManager.GatherOne | app/services/url_service/managers/public_url_manager.py:102-110 | a task changes the store only at its own URL, and a stored URL's result page is what the store holds afterwards |
| PublicUrlManager.GatherOneSpec | app/services/url_service/managers/public_url_manager.py:102-110 | the result carries exactly the scrape's content; a stored URL keeps its stored page (with the validators the scrape refreshed, when cached) and a new URL gets a fresh page; the stored page is listed as changed exactly when it exists and the scrape did not reuse it |
| PublicUrlManager.GatherReused | app/services/url_service/managers/public_url_manager.py:102-110 | a reused stored copy comes back as the stored page itself and is not listed as changed |
| PublicUrlManager.GatherOneLocal | app/services/url_service/managers/public_url_manager.py:102-110 | a task reads nothing from the store but its own URL's page |
| PublicUrlManager.Urls | app/services/url_service/managers/public_url_manager.py:66 | the URLs of the pending tasks, in order |
| PublicUrlManager.GatherBatch | app/services/url_service/managers/public_url_manager.py:98-111 | the store's keys are unchanged by a batch |
| PublicUrlManager.GatherBatchSpec | app/services/url_service/managers/public_url_manager.py:98-111 | a batch answers exactly its URLs, touches the store only at them, and lists only stored URLs among them as changed |
| PublicUrlManager.GatherBatchDistinct | app/services/url_service/managers/public_url_manager.py:98-111 | when no URL repeats, every URL of a batch is answered with the page its task gathers against the store the batch started from, that page is written back for stored URLs, and exactly the URLs whose task changed its page are listed |
| PublicUrlManager.Flush | app/services/url_service/managers/public_url_manager.py:67-71 | gathering the pending tasks adds exactly their URLs to the results, keeps the rest, and records one batch |
| PublicUrlManager.ReadUrls | app/services/url_service/managers/public_url_manager.py:22-74 | every URL is answered; without validation a URL with stored content is answered from the store; only stored URLs are listed for update; batches are full except the last; when no URL repeats, each URL's answer is its stored page or the page its own scrape gives against the original store, and exactly the stored URLs whose copy was not reused are listed |
| PublicUrlManager.FetchUrlsContent | app/services/url_service/managers/public_url_manager.py:76-79 | exactly the URLs asked for are answered; without validation a URL with stored content gets the stored content; when no URL repeats, every other URL gets the content its own scrape returned |
| HttpErrors.ErrorBody | app/utils/route_error_handler/route_error_handler.py:27-33 | the error document has exactly the five keys code, type, subtype, message and traceback, with the exception's text and the traceback |
| RouteErrorHandler.HandleFromHandlers | app/utils/route_error_handler/route_error_handler.py:12-20 | None exactly when every handler declines; otherwise the answer of the first handler that answers |
| RouteErrorHandler.FirstHandlerWins | app/utils/route_error_handler/route_error_handler.py:16-19 | a handler that answers after only declining ones decides the response |
| RouteErrorHandler.Fallback | app/utils/route_error_handler/route_error_handler.py:23-55 | BadRequest and ValueError give 400 with the codes "400" and BAD_REQUEST or VALUE_ERROR, everything else 500 SERVER_ERROR; the subtype is null and the message is the exception's text |
| RouteErrorHandler.Handle | app/utils/route_error_handler/route_error_handler.py:58-71 | a response passes through; an exception gets the first special handler's answer, or the fallback's when all decline |
| RouteErrorHandler.NoSpecialHandlers | app/utils/route_error_handler/route_error_handler.py:74-86 | with the default empty handler list every exception is classified by the fallback |
| RouteErrorHandler.FallbackIsError | app/utils/route_error_handler/route_error_handler.py:23-55 | every fallback response has an error status |
| ToolHandler.HandleToolError | app/utils/route_error_handler/error_type_handlers/tool_handler.py:17-44 | answers exactly the tool errors: a handled one with 400, an unhandled one with 500, the document carrying the error's code, type and subtype |
| ToolHandler.ToolRoute | app/utils/route_error_handler/error_type_handlers/tool_handler.py:27-44 | a route with the tool handler answers tool errors with the tool handler's response and every other exception with the fallback's |
| ErrorHandler.Body | app/utils/error_handler.py:14-19 | the older document has no subtype and an integer code |
| ErrorHandler.Handle | app/utils/error_handler.py:8-57 | ServerError is 500; a BadRequest reading "INVALID_PARAMS" gets the fixed message; other BadRequests and ValueErrors are 400 with their own text; anything else is 500 |
| ErrorHandler.AgreesWithFallback | app/utils/error_handler.py:8-57 | both decorators give every exception the same status and, apart from INVALID_PARAMS, the same error type; only the older one writes the code as a number |
| ErrorHandler.ToolErrorsAreServerErrors | app/utils/error_handler.py:47-55 | a handled tool error is 500 under the older decorator, though the tool handler's route answers it with 400 |
| McpService.Details | app/services/mcp_service.py:84-94 | a server without tools lists zero tools; the count is the length of the listed tools and the other fields are copied |
| McpService.CreateServerList | app/services/mcp_service.py:72-95 | an offset past the connection count lists nothing, and no page is longer than the server list |
| McpService.ServerListContents | app/services/mcp_service.py:72-95 | within the connection count, a page holds the servers from the offset on, at most `limit` of them, in the client's order |
| McpService.AllMeansConnections | app/services/mcp_service.py:77-78 | a limit of -1 lists as much as a limit equal to the connection count |
| McpService.PagesTile | app/services/mcp_service.py:80-82 | two consecutive pages list exactly what one page of their combined size lists |
| McpService.GetServers | app/services/mcp_service.py:97-102 | without a client no servers; otherwise the listing |
| McpService.DefaultListing | app/services/mcp_service.py:47-51 | the default listing, as the sync asks for it, is every server up to the connection count |
| McpService.InvokeTool | app/services/mcp_service.py:58-70 | the client's result, or an error result whose one text item is "Error: " followed by the failure's message |
| AuthTokenService.StorageManager | app/services/auth_token_service.py:12-31 | "cli" and "extension" pick their managers; any other type raises the ValueError "Invalid storage manager type" |
| AuthTokenService.Present | app/services/auth_token_service.py:48-53 | a missing header and an empty one are both falsy |
| AuthTokenService.FailedReply | app/services/auth_token_service.py:60-69 | a failure reply is "failed" with the ValueError prefix or the other prefix before the exception's text |
| AuthTokenService.StoreCall | app/services/auth_token_service.py:47-56 | the Type header is checked, then the Authorization header; the token is the second space-separated field, and the manager is picked last |
| AuthTokenService.StoreToken | app/services/auth_token_service.py:33-69 | the reply is "success" alone exactly when every step and the manager's store succeed; a failing step gives its failure reply |
| AuthTokenService.StoredToken | app/services/auth_token_service.py:51-56 | with both headers, a value without a space fails with the IndexError, and otherwise its second space-separated field is stored with the Type's manager or the type error is reported |
| AuthTokenService.AuthorizationCheckedFirst | app/services/auth_token_service.py:49-55 | a missing Authorization header is reported even when the Type names no manager |
| AuthTokenService.LoadToken | app/services/auth_token_service.py:71-104 | "success" with the loaded token exactly when the Type names a manager that loads; every failure has the one load prefix |
| AuthTokenService.StoreThenLoad | app/services/auth_token_service.py:33-104 | storing and loading with the same Type header reach the same manager, so a manager that keeps its token hands it back |
| ChunkUtil.JsonifyChunks | app/utils/util.py:5-6 | one dump per chunk, in order |
| ChunkUtil.ChunksContent | app/utils/util.py:9-10 | the chunks' contents, in order |
| ChunkUtil.FilterByDenotation | app/utils/util.py:13-16 | a chunk is kept exactly when its denotation is listed |
| ChunkUtil.DenotationOrderIrrelevant | app/utils/util.py:13-16 | only which denotations are listed matters, not their order or repetition, so the answer's ranking is not applied |
| ChunkUtil.FilterByDenotationAppend | app/utils/util.py:16 | filtering a concatenation filters each part, keeping the parts in order |
| ChunkUtil.FilterKeepsOrder | app/utils/util.py:16 | a chunk kept ahead of another was ahead of it in the input |
| Reranker.DefaultChunks | app/services/reranker_service.py:44-53 | focus and related chunks sorted by score, highest first, cut to the configured maximum: exactly that many when there are enough, all of them when the maximum is no smaller, and a negative maximum drops that many from the end as a Python slice does |
| Reranker.WithScoreAppend | app/services/reranker_service.py:51 | the chunks of one score in a concatenation are those of each part, in order |
| Reranker.DefaultChunksStable | app/services/reranker_service.py:51-53 | among chunks of one score the output is a prefix of the focus chunks of that score followed by the related ones, in input order |
| Reranker.Rerank | app/services/reranker_service.py:14-42 | only relevant chunks not excluded and focus chunks come out; with the model exactly those the answer names, without it ranked by score |
| Reranker.ModelBranchOrder | app/services/reranker_service.py:35-37 | with the model the kept relevant chunks come first and the focus chunks after, each in its own order |
| IdeReview.FlattenMultidict | app/routes/ide_review.py:11-12 | the same keys, a list's first element in place of the list and other values unchanged; an empty list raises IndexError |
| IdeReview.FlattenSingletons | app/routes/ide_review.py:11-12 | flattening undoes wrapping every value in a one-element list |
| IdeReview.FlattenFlat | app/routes/ide_review.py:11-12 | a map of single values flattens to itself |
| ScoreSort.SortDescSorted | app/services/reranker_service.py:52 | sorting with `reverse=True` leaves scores in non-increasing order |
| ScoreSort.SortDescStable | app/services/reranker_service.py:52 | Python's sort is stable: among items with equal score the input order is kept |

## Left out

- File and network I/O, subprocesses and git are parameters. The filesystem is an immutable tree. `stat` is a Dir/File/Other classification of it, so symlinks are seen through. Git, the web client, the vector store and the storage managers are given as functions or as the lists they would return.
- Hash primitives are parameters: SHA-256, CRC-32, `hash_content`/`string_to_hash` and UTF-8 encoding. Only what is fed to them and the signed-to-unsigned hex step are modelled.
- The root's absolute location never enters the model: paths are root-relative from the start, so invariance under moving the root holds by construction rather than as a lemma.
- The scripts' CLI entry points and the writing of `checksums.json` (JSON text, JavaScript's integer-key ordering) are left out: they are I/O around the walk.
- Windows separators and `os.path.normcase` case folding are left out. Only POSIX paths are modelled, where `relative` uses "/".
- `fnmatch` is modelled for `*`, `?` and literal characters. No pattern in the ignore list uses a `[...]` class.
- Lower-casing (`str.lower`) and the regular expressions' `\d` are modelled for ASCII. Non-ASCII letters and digits are not folded or matched.
- Text mode's translation of "\r\n" when a file is read is left out: files are given as their lines.
- `os.walk` order and its depth pruning in the directory search are a parameter (the walk's list of directories). The model states the matching, deduplication and seven-result cap over any such list.
- BeautifulSoup cleaning, html2text conversion and the lookup of the fragment's element (`extract_fragment`) are parameters. `urlparse` is modelled only as the split at the first "#"; its other normalisation is left out.
- `asyncio.gather` and `create_task` are modelled as running their tasks in task order, with the results paired to the tasks. Scheduling and concurrency are left out.
- Logging, timing and `perf_counter` calls are left out: they do not affect results.
- `PublicUrlManager.save_url` and `_save_url_content` are left out: they only store a fetched page through the repository, and the bulk update and insert calls are repository I/O.
- `SharedChunksManager.initialize_chunks` and `initialise_weaviate_client` are left out. They are vector-store set-up; the chunks they lead to are a parameter.
- `compare_files` and `get_file_diff_between_files` in diff_utils.py are left out: they are a file comparison and a `difflib` call.
- `GitUtils`: `has_conflicts`, `get_default_remote_name`, `is_git_repo` and `get_source_branch` are left out. Each is one repository query passed through.
- `McpService`: `get_default_settings` and `init` are left out (configuration loading and client set-up). So are `list_tools`, `get_eligible_tools`, `restart_server`, `enable_server`, `disable_server` and `approve_tool`, which pass straight through to the MCP client. The `handle_mcp_exceptions` decorator is not part of this model.
- The exception classes are flattened into one datatype of the kinds the handlers tell apart. The traceback text is a parameter.
- Request headers are looked up by exact key in `AuthTokenService`, as a plain dictionary would be. Sanic's case-insensitive header object is not modelled.
- `Reranker.Rerank`: `exclude_focused_chunks` and the LLM call that ranks the denotations are parameters. ChunkInfo carries only the fields the ranking reads: denotation, content and score.
- `LocalSnapshot.SnapshotPathMemoised`: the memoised path is modelled as an optional field of the snapshot state. Object identity is not modelled.
- `IterativeFileReader.ReadLines`: when the read bound is not positive (a negative `max_lines`), the loop never runs and `line_iterator` is unbound, so the source raises UnboundLocalError. The model returns this as an error result carrying that message, not as the specific exception class.
- `CommittedOnly.ChangeStatus`: a code missing from the status table falls back to the string 'A'. The model gives ADDED, because the `status` field of `FileChanges` is typed by the status enum and pydantic turns "A" into ADDED.
- `DiffUtils.CleanDiff` is the identity, as in the code. Its docstring describes dropping the first four lines, but that code is commented out.
- JSON objects (`JObject` in the error responses) are maps, so the order in which the source writes their keys is not modelled; only which keys and values a response has.
- PublicUrlManager.ReadUrls: each URL's answer and the exact update list are stated only when no URL repeats in the request. With repeats, a URL is scraped once per occurrence against the store as the earlier occurrence left it, and the model states only the membership and batch facts.
- PublicUrlManager.FetchUrlsContent: the scraped content of a URL is stated only when no URL repeats, for the same reason.
- The v2 manifest's values are the hex of a CRC-32, as the code computes, although the project's documentation describes them as SHA-256 checksums. The code is modelled.

## Findings

| source | as written | input that shows it | evidently intended | confidence | as-written member | corrected member |
|---|---|---|---|---|---|---|
| app/services/review/file_ignore_utils.py:6-9 | no comma after "poetry.lock", so Python joins it with "node_modules/*" into the single pattern "poetry.locknode_modules/*" | the path "node_modules/react/README" is not ignored | "node_modules/*" is its own pattern, so everything under node_modules is skipped | high, not executed | FileIgnore.NodeModulesNotIgnored | FileIgnore.IntendedIgnoresNodeModules |
| app/services/url_service/helpers/html_scrapper.py:19 | the request is sent with `headers.update(self.headers)`, whose value is None | a stored page with an ETag: If-None-Match is built but never sent, so a server that would answer 304 sends the page again and it is converted again (HtmlScrapper.RevalidationLost) | send the caller's headers merged with the User-Agent | high, not executed | HtmlScrapper.ConditionalHeadersLost | HtmlScrapper.ConditionalHeadersSent |
