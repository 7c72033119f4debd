/** Python's `str.splitlines()`: the line boundaries and the list of lines it yields. */
module Lines {
  import opened Seqs

  /** The characters `str.splitlines` breaks at (a "\r\n" pair counts as one break). */
  predicate IsLineBreak(c: char) {
    var n := c as int;
    (10 <= n <= 13) || (28 <= n <= 30) || n == 0x85 || n == 0x2028 || n == 0x2029
  }

  predicate NoBreak(s: string) {
    forall i :: 0 <= i < |s| ==> !IsLineBreak(s[i])
  }

  /** The index of the first line break in `s`, or `|s|` when there is none. */
  function LineEnd(s: string): (i: nat)
    ensures i <= |s|
    ensures NoBreak(s[..i])
    ensures i < |s| ==> IsLineBreak(s[i])
  {
    if |s| == 0 || IsLineBreak(s[0]) then 0
    else
      var k := LineEnd(s[1..]);
      assert s[..1 + k] == [s[0]] + s[1..][..k];
      1 + k
  }

  /** Where the next line starts, given the index `i` of a break: "\r\n" is one break. */
  function NextStart(s: string, i: nat): (j: nat)
    requires i < |s|
    ensures i < j <= |s|
  {
    if s[i] == '\r' && i + 1 < |s| && s[i + 1] == '\n' then i + 2 else i + 1
  }

  /** `s.splitlines()`: no line holds a break, and a final break yields no empty last line. */
  function SplitLines(s: string): (r: seq<string>)
    ensures forall k :: 0 <= k < |r| ==> NoBreak(r[k])
    ensures |s| == 0 <==> |r| == 0
    decreases |s|
  {
    if |s| == 0 then []
    else
      var i := LineEnd(s);
      if i == |s| then [s] else [s[..i]] + SplitLines(s[NextStart(s, i)..])
  }

  /** Every line followed by "\n": the text a file with these lines holds. */
  function Terminated(lines: seq<string>): string {
    if |lines| == 0 then "" else lines[0] + "\n" + Terminated(lines[1..])
  }

  lemma LineEndOf(l: string, rest: string)
    requires NoBreak(l)
    ensures LineEnd(l + "\n" + rest) == |l|
    decreases |l|
  {
    if |l| > 0 {
      assert (l + "\n" + rest)[1..] == l[1..] + "\n" + rest;
      LineEndOf(l[1..], rest);
    }
  }

  /** Splitting the text of break-free lines gives the lines back. */
  lemma {:induction false} SplitTerminated(lines: seq<string>)
    requires forall k :: 0 <= k < |lines| ==> NoBreak(lines[k])
    ensures SplitLines(Terminated(lines)) == lines
  {
    if |lines| > 0 {
      var l, rest := lines[0], Terminated(lines[1..]);
      var s := l + "\n" + rest;
      assert Terminated(lines) == s;
      LineEndOf(l, rest);
      assert s[..|l|] == l;
      assert s[|l|] == '\n';
      assert NextStart(s, |l|) == |l| + 1;
      assert s[|l| + 1..] == rest;
      SplitTerminated(lines[1..]);
    }
  }

  /** A text without breaks is one line (or none, when empty). */
  lemma SplitNoBreak(s: string)
    requires NoBreak(s)
    ensures SplitLines(s) == (if |s| == 0 then [] else [s])
  {
  }
}
