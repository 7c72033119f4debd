/** The iterative file reader: a window of at most `max_lines` lines starting at a
    0-based line, with the line number of the last line read. */
module IterativeFileReader {
  import opened Wrappers
  import opened TextFile

  /** The lines read and where they lie: `startLine` as asked, `endLine` as reached. */
  datatype FileChunk = FileChunk(content: string, filePath: string, startLine: int, endLine: int)

  const DefaultMaxLines: int := 100

  /** `max_lines or 100`: a missing or zero limit means 100. */
  function MaxLines(maxLines: Option<int>): (r: int)
    ensures maxLines.None? || maxLines == Some(0) ==> r == DefaultMaxLines
    ensures maxLines.Some? && maxLines.value != 0 ==> r == maxLines.value
  {
    if maxLines.None? || maxLines.value == 0 then DefaultMaxLines else maxLines.value
  }

  /** The range check: both bounds must be non-zero and the end past the start. */
  predicate ValidRange(startLine: int, endLine: int) {
    endLine != 0 && startLine != 0 && endLine > startLine
  }

  /** How many lines the skip loop consumes: `startLine` of them, none for a negative
      start, and no more than the file has. */
  function Skipped(file: seq<Line>, startLine: int): (s: nat)
    ensures s <= |file|
    ensures startLine <= 0 ==> s == 0
    ensures 0 <= startLine <= |file| ==> s == startLine
  {
    if startLine <= 0 then 0 else Min(startLine, |file|)
  }

  /** How many lines the read loop reads: its bound, or fewer at the end of the file. */
  function ReadCount(file: seq<Line>, startLine: int, bound: int): (k: nat)
    ensures k <= |file| - Skipped(file, startLine)
    ensures bound > 0 ==> k <= bound
    ensures k < bound ==> k == |file| - Skipped(file, startLine)
  {
    if bound <= 0 then 0 else Min(bound, |file| - Skipped(file, startLine))
  }

  /** `read_lines`: the lines from 0-based index `startLine` on, at most
      min(max_lines, endLine - startLine) of them. The reported end is the number of
      the last line read; with no line read it is the loop index where the end of the
      file showed, which is `startLine`. A reported end of 0 counts as missing and is
      replaced the same way. A negative limit runs no iteration and leaves the loop
      index unbound. */
  function ReadLines(file: seq<Line>, filePath: string, startLine: int, endLine: int,
                     maxLines: Option<int>): (r: Result<FileChunk>)
    ensures r.Err? <==> !ValidRange(startLine, endLine) || MaxLines(maxLines) < 0
    ensures r.Ok? ==>
      var s, k := Skipped(file, startLine), ReadCount(file, startLine, Min(MaxLines(maxLines), endLine - startLine));
      r.value.content == Concat(file[s..s + k]) &&
      r.value.startLine == startLine && r.value.filePath == filePath &&
      (k > 0 && startLine + k - 1 != 0 ==> r.value.endLine == startLine + k - 1) &&
      (k == 0 ==> r.value.endLine == startLine)
  {
    if !ValidRange(startLine, endLine) then Err("Invalid start_line or end_line")
    else
      var bound := Min(MaxLines(maxLines), endLine - startLine);
      if bound <= 0 then Err("cannot access local variable 'line_iterator'")
      else
        var s := Skipped(file, startLine);
        var k := ReadCount(file, startLine, bound);
        var lastIndex := if k < bound then k else bound - 1;
        var endLine := if k > 0 && startLine + k - 1 != 0 then startLine + k - 1 else startLine + lastIndex;
        Ok(FileChunk(Concat(file[s..s + k]), filePath, startLine, endLine))
  }

  /** The skip loop: `startLine` calls to `readline`, each past a line until the end. */
  method SkipLines(file: seq<Line>, startLine: int) returns (pos: nat)
    ensures pos == Skipped(file, startLine)
  {
    pos := 0;
    var i := 0;
    while i < startLine
      invariant startLine > 0 ==> 0 <= i <= startLine
      invariant startLine <= 0 ==> i == 0
      invariant pos == (if i <= 0 then 0 else Min(i, |file|))
    {
      if pos < |file| {
        pos := pos + 1;
      }
      i := i + 1;
    }
  }

  /** The read loop from line `s`: up to `bound` lines, stopping at the end of the
      file; `lastIndex` is the loop index last entered, if any. */
  method ReadFrom(file: seq<Line>, s: nat, bound: int) returns (content: string, count: nat, lastIndex: Option<int>)
    requires s <= |file|
    ensures count == (if bound <= 0 then 0 else Min(bound, |file| - s))
    ensures content == Concat(file[s..s + count])
    ensures bound <= 0 ==> lastIndex.None?
    ensures bound > 0 ==> lastIndex == Some(if count < bound then count else bound - 1)
  {
    content := "";
    count := 0;
    lastIndex := None;
    while count < bound && s + count <= |file|
      invariant s + count <= |file| && (bound > 0 ==> count <= bound) && (bound <= 0 ==> count == 0)
      invariant content == Concat(file[s..s + count])
      invariant lastIndex == (if count > 0 then Some(count - 1) else None)
    {
      lastIndex := Some(count);
      if s + count == |file| {
        break;
      }
      ConcatAppend(file[s..s + count], [file[s + count]]);
      assert file[s..s + count + 1] == file[s..s + count] + [file[s + count]];
      content := content + file[s + count];
      count := count + 1;
    }
  }

  /** The reader's loops over the file: skip `startLine` lines, then read until the
      bound or the end of the file. */
  method ReadLinesLoop(file: seq<Line>, filePath: string, startLine: int, endLine: int,
                       maxLines: Option<int>) returns (r: Result<FileChunk>)
    ensures r == ReadLines(file, filePath, startLine, endLine, maxLines)
  {
    if !ValidRange(startLine, endLine) {
      return Err("Invalid start_line or end_line");
    }
    var bound := Min(MaxLines(maxLines), endLine - startLine);
    var s := SkipLines(file, startLine);
    var content, count, lastIndex := ReadFrom(file, s, bound);
    var actual: Option<int> := if count > 0 then Some(startLine + count - 1) else None;
    if actual.None? || actual.value == 0 {
      if lastIndex.None? {
        return Err("cannot access local variable 'line_iterator'");
      }
      actual := Some(startLine + lastIndex.value);
    }
    return Ok(FileChunk(content, filePath, startLine, actual.value));
  }

  /** A window ends where the next one starts. */
  lemma WindowsMeet(file: seq<Line>, a: int, b: int)
    requires 0 < a < b
    ensures Skipped(file, a) + ReadCount(file, a, b - a) == Skipped(file, b)
  {
  }

  lemma WindowContent(file: seq<Line>, path: string, a: int, b: int, maxLines: Option<int>)
    requires 0 < a < b && b - a <= MaxLines(maxLines)
    ensures Skipped(file, a) <= Skipped(file, b)
    ensures var r := ReadLines(file, path, a, b, maxLines);
            r.Ok? && r.value.content == Concat(file[Skipped(file, a)..Skipped(file, b)])
  {
    assert Min(MaxLines(maxLines), b - a) == b - a;
    WindowsMeet(file, a, b);
  }

  /** Reading a window and then the window right after it gives the text of reading
      both at once, as long as the whole fits under the limit. */
  lemma ConsecutiveWindows(file: seq<Line>, path: string, a: int, b: int, c: int, maxLines: Option<int>)
    requires 0 < a < b < c && c - a <= MaxLines(maxLines)
    ensures ReadLines(file, path, a, b, maxLines).Ok? && ReadLines(file, path, b, c, maxLines).Ok?
    ensures ReadLines(file, path, a, c, maxLines).Ok?
    ensures ReadLines(file, path, a, b, maxLines).value.content + ReadLines(file, path, b, c, maxLines).value.content
            == ReadLines(file, path, a, c, maxLines).value.content
  {
    WindowContent(file, path, a, b, maxLines);
    WindowContent(file, path, b, c, maxLines);
    WindowContent(file, path, a, c, maxLines);
    SlicesMeet(file, Skipped(file, a), Skipped(file, b), Skipped(file, c));
  }
}
