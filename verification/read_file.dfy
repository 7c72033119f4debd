/** `read_file_lines`: the lines from a 1-based line on, with the number of the last
    line read and whether the end of the file came first. */
module ReadFile {
  import opened Wrappers
  import opened TextFile

  /** What the read returns: the text, the line reached and the end-of-file flag. */
  datatype Read = Read(content: string, line: int, eof: bool)

  const DefaultLinesToRead: int := 1

  /** `read_file_lines`: a missing file raises; running out of lines while skipping
      the `startLine - 1` lines before the start gives ("", startLine, true); otherwise
      up to `linesToRead` lines are read. The line reached is the number of the last
      line read, or `startLine` when none was read or that number is 0. */
  function ReadFileLines(file: Option<seq<Line>>, startLine: int, linesToRead: int): (r: Result<Read>)
    ensures file.None? <==> r.Err?
    ensures file.Some? && startLine - 1 > |file.value| ==> r == Ok(Read("", startLine, true))
    ensures file.Some? && startLine - 1 <= |file.value| ==>
      var s := if startLine <= 1 then 0 else startLine - 1;
      var k := if linesToRead <= 0 then 0 else Min(linesToRead, |file.value| - s);
      r.Ok? && r.value.content == Concat(file.value[s..s + k]) &&
      (r.value.eof <==> k < linesToRead) &&
      (k > 0 && startLine + k - 1 != 0 ==> r.value.line == startLine + k - 1) &&
      (k == 0 ==> r.value.line == startLine)
  {
    if file.None? then Err("FileNotFoundError")
    else if startLine - 1 > |file.value| then Ok(Read("", startLine, true))
    else
      var lines := file.value;
      var s := if startLine <= 1 then 0 else startLine - 1;
      var k := if linesToRead <= 0 then 0 else Min(linesToRead, |lines| - s);
      var current := if k > 0 then startLine + k - 1 else 0;
      Ok(Read(Concat(lines[s..s + k]), if current != 0 then current else startLine, k < linesToRead))
  }

  /** The read loop: up to `linesToRead` lines from `pos`, flagging the end of the
      file when it comes first. */
  method ReadFrom(lines: seq<Line>, pos: nat, startLine: int, linesToRead: int)
    returns (content: string, current: int, eof: bool)
    requires pos <= |lines|
    ensures var k := if linesToRead <= 0 then 0 else Min(linesToRead, |lines| - pos);
            content == Concat(lines[pos..pos + k]) &&
            current == (if k > 0 then startLine + k - 1 else 0) &&
            (eof <==> k < linesToRead)
  {
    content := "";
    current := 0;
    eof := false;
    var count := 0;
    while count < linesToRead
      invariant 0 <= count && pos + count <= |lines| && (linesToRead > 0 ==> count <= linesToRead)
      invariant linesToRead <= 0 ==> count == 0
      invariant content == Concat(lines[pos..pos + count])
      invariant current == (if count > 0 then startLine + count - 1 else 0)
      invariant !eof
    {
      if pos + count == |lines| {
        eof := true;
        break;
      }
      ConcatAppend(lines[pos..pos + count], [lines[pos + count]]);
      assert lines[pos..pos + count + 1] == lines[pos..pos + count] + [lines[pos + count]];
      content := content + lines[pos + count];
      current := startLine + count;
      count := count + 1;
    }
  }

  /** The function's loops: the skip loop returns early at the end of the file, and
      the read loop sets the flag when it meets the end. */
  method ReadFileLinesLoop(file: Option<seq<Line>>, startLine: int, linesToRead: int) returns (r: Result<Read>)
    ensures r == ReadFileLines(file, startLine, linesToRead)
  {
    if file.None? {
      return Err("FileNotFoundError");
    }
    var lines := file.value;
    var pos := 0;
    var i := 0;
    while i < startLine - 1
      invariant 0 <= i && (startLine >= 1 ==> i <= startLine - 1) && (startLine < 1 ==> i == 0)
      invariant pos == i && pos <= |lines|
    {
      if pos == |lines| {
        return Ok(Read("", startLine, true));
      }
      pos := pos + 1;
      i := i + 1;
    }
    assert pos == (if startLine <= 1 then 0 else startLine - 1);
    var content, current, eof := ReadFrom(lines, pos, startLine, linesToRead);
    return Ok(Read(content, if current != 0 then current else startLine, eof));
  }

  /** Read with the default of one line, an existing line comes back alone, with its
      own number and no end-of-file flag. */
  lemma ReadOneLine(lines: seq<Line>, startLine: int)
    requires 1 <= startLine <= |lines|
    ensures ReadFileLines(Some(lines), startLine, DefaultLinesToRead) ==
            Ok(Read(lines[startLine - 1], startLine, false))
  {
    var s := startLine - 1;
    assert Min(DefaultLinesToRead, |lines| - s) == 1;
    assert lines[s..s + 1] == [lines[s]];
    var one: seq<Line> := lines[s..s + 1];
    assert one[1..] == [];
    assert Concat(one) == one[0] + Concat(one[1..]);
    assert Concat(one) == lines[s];
    var r := ReadFileLines(Some(lines), startLine, DefaultLinesToRead);
    assert r.value.content == Concat(one);
  }

  /** A read that starts inside the file returns the lines from its start up to `e`. */
  lemma ReadContent(lines: seq<Line>, startLine: int, n: nat, b: nat, e: nat)
    requires 1 <= startLine && b == startLine - 1 <= |lines|
    requires e == b + (if n == 0 then 0 else Min(n, |lines| - b))
    ensures e <= |lines|
    ensures ReadFileLines(Some(lines), startLine, n).Ok?
    ensures ReadFileLines(Some(lines), startLine, n).value.content == Concat(lines[b..e])
  {
  }

  lemma ReadsMeet(lines: seq<Line>, t: int, n: nat, u: int, m: nat, nm: nat, s: nat, j: nat, e: nat)
    requires 1 <= t && s == t - 1 && j == s + n && j <= |lines|
    requires u == t + n && nm == n + m
    requires e == j + (if m == 0 then 0 else Min(m, |lines| - j))
    ensures ReadFileLines(Some(lines), t, n).Ok? && ReadFileLines(Some(lines), u, m).Ok?
    ensures ReadFileLines(Some(lines), t, nm).Ok?
    ensures ReadFileLines(Some(lines), t, n).value.content +
            ReadFileLines(Some(lines), u, m).value.content ==
            ReadFileLines(Some(lines), t, nm).value.content
  {
    ReadContent(lines, t, n, s, j);
    ReadContent(lines, u, m, j, e);
    ReadContent(lines, t, nm, s, e);
    SlicesMeet(lines, s, j, e);
  }

  /** Two reads that follow each other give the text of one read over both. */
  lemma ConsecutiveReads(lines: seq<Line>, startLine: int, n: nat, m: nat)
    requires 1 <= startLine && startLine - 1 + n <= |lines|
    ensures ReadFileLines(Some(lines), startLine, n).Ok? && ReadFileLines(Some(lines), startLine + n, m).Ok?
    ensures ReadFileLines(Some(lines), startLine, n + m).Ok?
    ensures ReadFileLines(Some(lines), startLine, n).value.content +
            ReadFileLines(Some(lines), startLine + n, m).value.content ==
            ReadFileLines(Some(lines), startLine, n + m).value.content
  {
    var s := startLine - 1;
    var j := s + n;
    ReadsMeet(lines, startLine, n, startLine + n, m, n + m, s, j,
              j + (if m == 0 then 0 else Min(m, |lines| - j)));
  }
}
