/** Lowercase hexadecimal as JavaScript produces it: `Number.prototype.toString(16)`,
    `String.prototype.padStart`, and Node's `digest('hex')`. */
module Hex {
  import opened FsTree

  const Digits: string := "0123456789abcdef"

  predicate IsHexChar(c: char) {
    ('0' <= c <= '9') || ('a' <= c <= 'f')
  }

  predicate IsLowerHex(s: string) {
    forall i :: 0 <= i < |s| ==> IsHexChar(s[i])
  }

  function DigitChar(d: nat): (c: char)
    requires d < 16
    ensures IsHexChar(c)
  {
    Digits[d]
  }

  /** The value of one lowercase hex digit. */
  function DigitValue(c: char): (d: nat)
    requires IsHexChar(c)
    ensures d < 16
  {
    if '0' <= c <= '9' then c as int - '0' as int else c as int - 'a' as int + 10
  }

  lemma DigitRoundTrip(d: nat)
    requires d < 16
    ensures DigitValue(DigitChar(d)) == d
  {
  }

  /** The number a string of hex digits denotes (most significant digit first). */
  function FromHex(s: string): nat
    requires IsLowerHex(s)
  {
    if |s| == 0 then 0
    else
      assert IsHexChar(s[|s| - 1]);
      16 * FromHex(s[..|s| - 1]) + DigitValue(s[|s| - 1])
  }

  function Pow16(k: nat): (r: nat)
    ensures r >= 1
  {
    if k == 0 then 1 else 16 * Pow16(k - 1)
  }

  /** `n.toString(16)`: the shortest lowercase hex rendering of `n` ("0" for zero). */
  function ToRadix16(n: nat): (r: string)
    ensures |r| >= 1 && IsLowerHex(r)
    ensures n > 0 ==> r[0] != '0'
    decreases n
  {
    if n < 16 then [DigitChar(n)] else ToRadix16(n / 16) + [DigitChar(n % 16)]
  }

  lemma {:induction false} ToRadix16Value(n: nat)
    ensures FromHex(ToRadix16(n)) == n
    decreases n
  {
    var r := ToRadix16(n);
    if n < 16 {
      DigitRoundTrip(n);
      assert r[..0] == [];
    } else {
      ToRadix16Value(n / 16);
      assert r[..|r| - 1] == ToRadix16(n / 16);
      DigitRoundTrip(n % 16);
    }
  }

  lemma {:induction false} ToRadix16Length(n: nat, k: nat)
    requires 1 <= k && n < Pow16(k)
    ensures |ToRadix16(n)| <= k
    decreases n
  {
    if n >= 16 {
      ToRadix16Length(n / 16, k - 1);
    }
  }

  function Repeat(c: char, n: nat): (r: string)
    ensures |r| == n && forall i :: 0 <= i < n ==> r[i] == c
  {
    if n == 0 then "" else [c] + Repeat(c, n - 1)
  }

  /** `s.padStart(len, c)` with a one-character pad. */
  function PadStart(s: string, len: nat, c: char): (r: string)
    ensures |s| >= len ==> r == s
    ensures |s| < len ==> |r| == len && r[len - |s|..] == s
                          && forall i :: 0 <= i < len - |s| ==> r[i] == c
  {
    if |s| >= len then s else Repeat(c, len - |s|) + s
  }

  /** Leading zeros do not change the value. */
  lemma {:induction false} FromHexLeadingZeros(z: nat, s: string)
    requires IsLowerHex(s)
    ensures IsLowerHex(Repeat('0', z) + s)
    ensures FromHex(Repeat('0', z) + s) == FromHex(s)
    decreases z, |s|
  {
    var t := Repeat('0', z) + s;
    if |s| > 0 {
      assert t[..|t| - 1] == Repeat('0', z) + s[..|s| - 1];
      assert t[|t| - 1] == s[|s| - 1];
      FromHexLeadingZeros(z, s[..|s| - 1]);
    } else if z > 0 {
      assert t == Repeat('0', z);
      assert t[..|t| - 1] == Repeat('0', z - 1) + s;
      FromHexLeadingZeros(z - 1, s);
    } else {
      assert t == s;
    }
  }

  lemma FromHexTwo(s: string)
    requires |s| == 2 && IsLowerHex(s)
    ensures FromHex(s) == 16 * DigitValue(s[0]) + DigitValue(s[1]) < 256
  {
    var head := s[..1];
    assert head[..0] == [];
    assert head == [s[0]];
    assert IsHexChar(s[0]) && IsHexChar(s[1]);
    assert FromHex(head) == 16 * FromHex(head[..0]) + DigitValue(s[0]);
  }

  /** The two hex digits of one byte, high nibble first. */
  function ByteHex(b: Byte): (r: string)
    ensures |r| == 2 && IsLowerHex(r)
    ensures FromHex(r) == b
  {
    var r := [DigitChar(b / 16), DigitChar(b % 16)];
    FromHexTwo(r);
    DigitRoundTrip(b / 16);
    DigitRoundTrip(b % 16);
    r
  }

  /** `digest('hex')`: every byte as two lowercase hex digits. */
  function BytesHex(bs: seq<Byte>): (r: string)
    ensures |r| == 2 * |bs| && IsLowerHex(r)
  {
    if |bs| == 0 then "" else ByteHex(bs[0]) + BytesHex(bs[1..])
  }

  /** Reads back two hex digits per byte. */
  function ParseBytesHex(s: string): seq<Byte>
    requires IsLowerHex(s) && |s| % 2 == 0
  {
    if |s| == 0 then []
    else
      assert IsLowerHex(s[..2]) && IsLowerHex(s[2..]);
      FromHexTwo(s[..2]);
      var v: Byte := FromHex(s[..2]);
      [v] + ParseBytesHex(s[2..])
  }

  lemma {:induction false} BytesHexRoundTrip(bs: seq<Byte>)
    ensures ParseBytesHex(BytesHex(bs)) == bs
  {
    if |bs| > 0 {
      var s := BytesHex(bs);
      assert s[..2] == ByteHex(bs[0]) && s[2..] == BytesHex(bs[1..]);
      BytesHexRoundTrip(bs[1..]);
    }
  }
}
