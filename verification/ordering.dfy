/** The two string orders the system sorts by, and a stable insertion sort by a key.
    Python's `sorted` on `str` compares code points; JavaScript's default
    `Array.prototype.sort` compares UTF-16 code units, which puts a character above
    U+FFFF (a surrogate pair starting at 0xD800..0xDBFF) before one in U+E000..U+FFFF.
    Both are the lexicographic order on an integer encoding of the string. */
module Ordering {

  /** Strict lexicographic order on integer sequences. */
  predicate LexLess(a: seq<int>, b: seq<int>) {
    if |a| == 0 then |b| > 0
    else if |b| == 0 then false
    else if a[0] < b[0] then true
    else if a[0] == b[0] then LexLess(a[1..], b[1..])
    else false
  }

  lemma LexLessIrreflexive(a: seq<int>)
    ensures !LexLess(a, a)
  {
  }

  lemma LexLessTransitive(a: seq<int>, b: seq<int>, c: seq<int>)
    requires LexLess(a, b) && LexLess(b, c)
    ensures LexLess(a, c)
  {
    if |a| > 0 && |b| > 0 && |c| > 0 && a[0] == b[0] && b[0] == c[0] {
      LexLessTransitive(a[1..], b[1..], c[1..]);
    }
  }

  lemma LexLessTotal(a: seq<int>, b: seq<int>)
    ensures a == b || LexLess(a, b) || LexLess(b, a)
  {
    if |a| > 0 && |b| > 0 && a[0] == b[0] {
      LexLessTotal(a[1..], b[1..]);
      if a[1..] == b[1..] {
        assert a == [a[0]] + a[1..] && b == [b[0]] + b[1..];
      }
    }
  }

  lemma LexLessFirst(a: seq<int>, b: seq<int>)
    requires |a| > 0 && |b| > 0 && a[0] < b[0]
    ensures LexLess(a, b)
  {
  }

  lemma LexLessAsymmetric(a: seq<int>, b: seq<int>)
    requires LexLess(a, b)
    ensures !LexLess(b, a)
  {
    if LexLess(b, a) {
      LexLessTransitive(a, b, a);
      LexLessIrreflexive(a);
    }
  }

  /** The code points of `s`: the key of Python's string comparison. */
  function CodePoints(s: string): (r: seq<int>)
    ensures |r| == |s|
    ensures forall i :: 0 <= i < |s| ==> r[i] == s[i] as int
  {
    seq(|s|, i requires 0 <= i < |s| => s[i] as int)
  }

  lemma CodePointsInjective(a: string, b: string)
    requires CodePoints(a) == CodePoints(b)
    ensures a == b
  {
    assert |a| == |b|;
    forall i | 0 <= i < |a|
      ensures a[i] == b[i]
    {
      assert CodePoints(a)[i] == CodePoints(b)[i];
    }
  }

  /** The UTF-16 code units of one character: itself below U+10000, a surrogate pair above. */
  function Utf16Char(c: char): (r: seq<int>)
    ensures 1 <= |r| <= 2
    ensures forall i :: 0 <= i < |r| ==> 0 <= r[i] < 0x10000
    ensures |r| == 2 <==> 0xD800 <= r[0] < 0xDC00
  {
    var v := c as int;
    if v < 0x10000 then [v]
    else [0xD800 + (v - 0x10000) / 0x400, 0xDC00 + (v - 0x10000) % 0x400]
  }

  /** The UTF-16 code units of `s`: the key of JavaScript's default string comparison. */
  function Utf16(s: string): (r: seq<int>)
    ensures |r| >= |s|
  {
    if |s| == 0 then [] else Utf16Char(s[0]) + Utf16(s[1..])
  }

  /** The code units of a character determine it. */
  lemma Utf16CharInjective(c: char, d: char)
    requires Utf16Char(c) == Utf16Char(d)
    ensures c == d
  {
    var u := Utf16Char(c);
    if |u| == 2 {
      assert c as int == 0x10000 + (u[0] - 0xD800) * 0x400 + (u[1] - 0xDC00);
      assert d as int == 0x10000 + (u[0] - 0xD800) * 0x400 + (u[1] - 0xDC00);
    }
  }

  /** Distinct strings have distinct UTF-16 encodings (no character's units start another's). */
  lemma {:induction false} Utf16Injective(a: string, b: string)
    requires Utf16(a) == Utf16(b)
    ensures a == b
    decreases |a|
  {
    if |a| > 0 && |b| > 0 {
      var ea, eb := Utf16Char(a[0]), Utf16Char(b[0]);
      assert Utf16(a) == ea + Utf16(a[1..]) && Utf16(b) == eb + Utf16(b[1..]);
      assert ea[0] == Utf16(a)[0] == eb[0];
      assert |ea| == |eb|;
      assert ea == Utf16(a)[..|ea|] == eb;
      Utf16CharInjective(a[0], b[0]);
      assert Utf16(a[1..]) == Utf16(a)[|ea|..] == Utf16(b[1..]);
      Utf16Injective(a[1..], b[1..]);
      assert a == [a[0]] + a[1..] && b == [b[0]] + b[1..];
    }
  }

  /** JavaScript's `a < b` on strings. */
  predicate Utf16Less(a: string, b: string) {
    LexLess(Utf16(a), Utf16(b))
  }

  /** Python's `a < b` on strings. */
  predicate CodePointLess(a: string, b: string) {
    LexLess(CodePoints(a), CodePoints(b))
  }

  /** The two orders disagree: U+1F600 (units 0xD83D 0xDE00) sorts before U+FF21 in
      JavaScript and after it in Python. */
  lemma SurrogatePairSortsLow()
    ensures Utf16Less("\U{1F600}.txt", "\U{FF21}.txt")
    ensures CodePointLess("\U{FF21}.txt", "\U{1F600}.txt")
  {
    var e, f := "\U{1F600}.txt", "\U{FF21}.txt";
    assert Utf16(e)[0] == 0xD83D && Utf16(f)[0] == 0xFF21;
    LexLessFirst(Utf16(e), Utf16(f));
    assert CodePoints(f)[0] == 0xFF21 && CodePoints(e)[0] == 0x1F600;
    LexLessFirst(CodePoints(f), CodePoints(e));
  }

  /** Keys never decrease along `s`. */
  predicate SortedByKey<T>(s: seq<T>, key: T -> seq<int>) {
    forall i, j :: 0 <= i < j < |s| ==> !LexLess(key(s[j]), key(s[i]))
  }

  /** Keys strictly increase along `s`. */
  predicate StrictlySortedByKey<T>(s: seq<T>, key: T -> seq<int>) {
    forall i, j :: 0 <= i < j < |s| ==> LexLess(key(s[i]), key(s[j]))
  }

  /** No two elements of `s` share a key. */
  predicate UniqueKeys<T, K(==)>(s: seq<T>, key: T -> K) {
    forall i, j :: 0 <= i < j < |s| ==> key(s[i]) != key(s[j])
  }

  /** Inserts `x` before the first element whose key is not below `key(x)`. */
  function InsertByKey<T>(x: T, s: seq<T>, key: T -> seq<int>): (r: seq<T>)
    ensures multiset(r) == multiset(s) + multiset{x}
    ensures |r| == |s| + 1
  {
    if |s| == 0 then [x]
    else if LexLess(key(s[0]), key(x)) then
      assert s == [s[0]] + s[1..];
      [s[0]] + InsertByKey(x, s[1..], key)
    else [x] + s
  }

  /** Insertion sort by `key`; elements with equal keys keep their input order. */
  function SortByKey<T>(xs: seq<T>, key: T -> seq<int>): (r: seq<T>)
    ensures multiset(r) == multiset(xs)
    ensures |r| == |xs|
  {
    if |xs| == 0 then []
    else
      assert xs == [xs[0]] + xs[1..];
      InsertByKey(xs[0], SortByKey(xs[1..], key), key)
  }

  lemma {:induction false} InsertByKeySorted<T>(x: T, s: seq<T>, key: T -> seq<int>)
    requires SortedByKey(s, key)
    ensures SortedByKey(InsertByKey(x, s, key), key)
  {
    if |s| > 0 && LexLess(key(s[0]), key(x)) {
      InsertByKeySorted(x, s[1..], key);
      var r := InsertByKey(x, s, key);
      var t := InsertByKey(x, s[1..], key);
      assert r == [s[0]] + t;
      forall j | 0 < j < |r|
        ensures !LexLess(key(r[j]), key(s[0]))
      {
        assert r[j] == t[j - 1];
        assert r[j] in multiset(t);
        if r[j] == x {
          LexLessAsymmetric(key(s[0]), key(x));
        } else {
          assert r[j] in multiset(s[1..]);
          var k :| 0 <= k < |s[1..]| && s[1..][k] == r[j];
          assert s[k + 1] == r[j];
        }
      }
    } else if |s| > 0 {
      var r := [x] + s;
      forall j | 0 < j < |r|
        ensures !LexLess(key(r[j]), key(x))
      {
        assert r[j] == s[j - 1];
        if LexLess(key(s[j - 1]), key(x)) {
          LexLessTotal(key(s[0]), key(x));
          if j - 1 > 0 {
            assert !LexLess(key(s[j - 1]), key(s[0]));
            LexLessTotal(key(s[j - 1]), key(s[0]));
            if key(s[j - 1]) != key(s[0]) {
              LexLessTransitive(key(s[0]), key(s[j - 1]), key(x));
            }
          }
        }
      }
    }
  }

  lemma {:induction false} SortByKeySorted<T>(xs: seq<T>, key: T -> seq<int>)
    ensures SortedByKey(SortByKey(xs, key), key)
  {
    if |xs| > 0 {
      SortByKeySorted(xs[1..], key);
      InsertByKeySorted(xs[0], SortByKey(xs[1..], key), key);
    }
  }

  /** A sorted sequence with unique keys is strictly sorted. */
  lemma SortedUniqueIsStrict<T>(s: seq<T>, key: T -> seq<int>)
    requires SortedByKey(s, key) && UniqueKeys(s, key)
    ensures StrictlySortedByKey(s, key)
  {
    forall i, j | 0 <= i < j < |s|
      ensures LexLess(key(s[i]), key(s[j]))
    {
      LexLessTotal(key(s[i]), key(s[j]));
    }
  }

  /** A value found at two indices is counted at least twice. */
  lemma CountTwice<T>(s: seq<T>, i: int, j: int)
    requires 0 <= i < j < |s| && s[i] == s[j]
    ensures multiset(s)[s[i]] >= 2
  {
    assert s == s[..j] + [s[j]] + s[j + 1..];
    assert s[..j][i] == s[i];
    assert multiset(s[..j])[s[i]] >= 1;
  }

  /** In a sequence with unique keys every element occurs once. */
  lemma {:induction false} CountOnce<T, K>(s: seq<T>, key: T -> K, x: T)
    requires UniqueKeys(s, key) && x in s
    ensures multiset(s)[x] == 1
  {
    assert s == [s[0]] + s[1..];
    assert multiset(s) == multiset{s[0]} + multiset(s[1..]);
    if s[0] == x {
      assert x !in s[1..];
    } else {
      CountOnce(s[1..], key, x);
    }
  }

  /** Unique keys survive any permutation. */
  lemma UniqueKeysPermutation<T, K>(a: seq<T>, b: seq<T>, key: T -> K)
    requires multiset(a) == multiset(b) && UniqueKeys(a, key)
    ensures UniqueKeys(b, key)
  {
    forall i, j | 0 <= i < j < |b|
      ensures key(b[i]) != key(b[j])
    {
      assert b[i] in multiset(a) && b[j] in multiset(a);
      if b[i] == b[j] {
        CountTwice(b, i, j);
        CountOnce(a, key, b[i]);
      } else {
        var i' :| 0 <= i' < |a| && a[i'] == b[i];
        var j' :| 0 <= j' < |a| && a[j'] == b[j];
        assert i' != j';
      }
    }
  }

  lemma StrictlySortedSameHead<T>(a: seq<T>, b: seq<T>, key: T -> seq<int>)
    requires StrictlySortedByKey(a, key) && StrictlySortedByKey(b, key)
    requires multiset(a) == multiset(b) && |a| > 0
    ensures |b| > 0 && a[0] == b[0]
  {
    assert a[0] in multiset(b);
    var j :| 0 <= j < |b| && b[j] == a[0];
    assert b[0] in multiset(a);
    var i :| 0 <= i < |a| && a[i] == b[0];
    if j > 0 && i > 0 {
      assert LexLess(key(b[0]), key(a[0]));
      assert LexLess(key(a[0]), key(b[0]));
      LexLessAsymmetric(key(b[0]), key(a[0]));
    }
  }

  lemma TailMultiset<T>(a: seq<T>)
    requires |a| > 0
    ensures multiset(a[1..]) == multiset(a) - multiset{a[0]}
  {
    assert a == [a[0]] + a[1..];
  }

  /** Two strictly sorted sequences holding the same elements are equal. */
  lemma {:induction false} StrictlySortedUnique<T>(a: seq<T>, b: seq<T>, key: T -> seq<int>)
    requires StrictlySortedByKey(a, key) && StrictlySortedByKey(b, key)
    requires multiset(a) == multiset(b)
    ensures a == b
    decreases |a|
  {
    if |a| == 0 {
      assert |b| == |multiset(b)| == 0;
    } else {
      StrictlySortedSameHead(a, b, key);
      TailMultiset(a);
      TailMultiset(b);
      StrictlySortedUnique(a[1..], b[1..], key);
      assert a == [a[0]] + a[1..] && b == [b[0]] + b[1..];
    }
  }

  /** Sorting with unique keys forgets the input order entirely. */
  lemma SortByKeyPermutationInvariant<T>(a: seq<T>, b: seq<T>, key: T -> seq<int>)
    requires multiset(a) == multiset(b) && UniqueKeys(a, key)
    ensures SortByKey(a, key) == SortByKey(b, key)
  {
    UniqueKeysPermutation(a, b, key);
    SortByKeySorted(a, key);
    SortByKeySorted(b, key);
    UniqueKeysPermutation(a, SortByKey(a, key), key);
    UniqueKeysPermutation(b, SortByKey(b, key), key);
    SortedUniqueIsStrict(SortByKey(a, key), key);
    SortedUniqueIsStrict(SortByKey(b, key), key);
    StrictlySortedUnique(SortByKey(a, key), SortByKey(b, key), key);
  }
}
