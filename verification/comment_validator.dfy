/** The comment validator: whether a review comment still applies, by hashing the
    line it was made on and comparing with the hash stored with the comment. */
module CommentValidator {
  import opened Wrappers
  import opened Strings
  import opened TextFile
  import opened ReadFile

  const LineUpdated: string := "The line has updated, can not apply comment"
  const FileDeletedOrMoved: string := "The file has been moved or deleted."

  /** `sanitize_path`: a leading "/" is added only when missing. */
  function SanitizePath(path: string): (r: string)
    ensures StartsWith(r, "/")
    ensures StartsWith(path, "/") ==> r == path
    ensures !StartsWith(path, "/") ==> r == "/" + path
  {
    if StartsWith(path, "/") then path else "/" + path
  }

  lemma SanitizeIdempotent(path: string)
    ensures SanitizePath(SanitizePath(path)) == SanitizePath(path)
  {
  }

  /** The answer: whether the comment applies, and the message ("" when it does). */
  datatype Verdict = Verdict(isApplicable: bool, message: string)

  /** `is_comment_applicable`: the file is found at the joined sanitised paths (by
      `files`), its line `lineNumber - 1` is read, and the comment applies when that
      line is not empty and hashes (by `hash`) to the stored hash. */
  function IsCommentApplicable(repoPath: string, filePath: string, lineNumber: int, lineHash: string,
                               files: string -> Option<seq<Line>>, hash: string -> string): (r: Verdict)
    ensures r.isApplicable <==> r.message == ""
    ensures !r.isApplicable ==> r.message == LineUpdated || r.message == FileDeletedOrMoved
    ensures files(SanitizePath(repoPath) + SanitizePath(filePath)).None? ==>
              r == Verdict(false, FileDeletedOrMoved)
  {
    var read := ReadFileLines(files(SanitizePath(repoPath) + SanitizePath(filePath)), lineNumber - 1, DefaultLinesToRead);
    match read
    case Err(_) => Verdict(false, FileDeletedOrMoved)
    case Ok(Read(line, _, _)) =>
      if line == "" then Verdict(false, LineUpdated)
      else
        var applicable := hash(line) == lineHash;
        Verdict(applicable, if applicable then "" else LineUpdated)
  }

  /** Within the file, the line compared is the one numbered `lineNumber - 1`
      (1-based), and the comment applies exactly when its hash matches. */
  lemma ComparedLine(repoPath: string, filePath: string, lineNumber: int, lineHash: string,
                     files: string -> Option<seq<Line>>, hash: string -> string)
    requires files(SanitizePath(repoPath) + SanitizePath(filePath)).Some?
    requires var lines := files(SanitizePath(repoPath) + SanitizePath(filePath)).value;
             2 <= lineNumber <= |lines| + 1
    ensures var lines := files(SanitizePath(repoPath) + SanitizePath(filePath)).value;
            var v := IsCommentApplicable(repoPath, filePath, lineNumber, lineHash, files, hash);
            v.isApplicable <==> hash(lines[lineNumber - 2]) == lineHash
  {
    var lines := files(SanitizePath(repoPath) + SanitizePath(filePath)).value;
    ReadOneLine(lines, lineNumber - 1);
  }

  /** Past the end of the file nothing is read, and the comment is reported as
      outdated. */
  lemma PastTheEnd(repoPath: string, filePath: string, lineNumber: int, lineHash: string,
                   files: string -> Option<seq<Line>>, hash: string -> string)
    requires files(SanitizePath(repoPath) + SanitizePath(filePath)).Some?
    requires lineNumber >= |files(SanitizePath(repoPath) + SanitizePath(filePath)).value| + 2
    ensures IsCommentApplicable(repoPath, filePath, lineNumber, lineHash, files, hash) ==
            Verdict(false, LineUpdated)
  {
    var lines := files(SanitizePath(repoPath) + SanitizePath(filePath)).value;
    if lineNumber - 2 == |lines| {
      assert lines[|lines|..|lines|] == [];
    }
  }
}
