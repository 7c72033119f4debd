/** A text file as `readline` sees it: a sequence of lines, each non-empty (a line
    keeps its end-of-line character, and only the end of the file reads as ""). */
module TextFile {
  /** One line `readline` returns before the end of the file. */
  type Line = s: string | |s| > 0 witness "\n"

  /** The lines joined in order: the text they were read from. */
  function Concat(ls: seq<Line>): (r: string)
    ensures |ls| == 0 <==> r == ""
  {
    if |ls| == 0 then "" else ls[0] + Concat(ls[1..])
  }

  lemma {:induction false} ConcatAppend(a: seq<Line>, b: seq<Line>)
    ensures Concat(a + b) == Concat(a) + Concat(b)
  {
    if |a| > 0 {
      assert (a + b)[1..] == a[1..] + b;
      ConcatAppend(a[1..], b);
    } else {
      assert a + b == b;
    }
  }

  /** Adjacent slices of the lines concatenate to the slice over both. */
  lemma SlicesMeet(lines: seq<Line>, i: nat, j: nat, k: nat)
    requires i <= j <= k <= |lines|
    ensures Concat(lines[i..j]) + Concat(lines[j..k]) == Concat(lines[i..k])
  {
    ConcatAppend(lines[i..j], lines[j..k]);
    assert lines[i..k] == lines[i..j] + lines[j..k];
  }

  function Min(a: int, b: int): (m: int)
    ensures m <= a && m <= b && (m == a || m == b)
  {
    if a < b then a else b
  }
}
