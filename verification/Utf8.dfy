// Byte positions in a UTF-8 string.
//
// The model holds a string as its sequence of scalar values; a position in it has a byte offset.
module Utf8 {

  function Width(c: char): (w: nat)
    ensures 1 <= w <= 4
  {
    if c as int < 0x80 then 1 else if c as int < 0x800 then 2 else if c as int < 0x1_0000 then 3 else 4
  }

  /** Where character `i` starts, in bytes. */
  function Offset(s: string, i: nat): nat
    requires i <= |s|
  {
    if i == 0 then 0 else Offset(s, i - 1) + Width(s[i - 1])
  }

  function ByteLength(s: string): nat { Offset(s, |s|) }

  lemma {:induction false} OffsetGrows(s: string, i: nat, j: nat)
    requires i <= j <= |s|
    ensures Offset(s, i) + (j - i) <= Offset(s, j) <= Offset(s, i) + 4 * (j - i)
  {
    if i < j { OffsetGrows(s, i, j - 1); }
  }

  /** The character position of byte `b`, looking from position `i` on. */
  function Seek(s: string, b: nat, i: nat): (r: nat)
    requires i <= |s|
    ensures r <= |s|
    decreases |s| - i
  {
    if i == |s| || Offset(s, i) >= b then i else Seek(s, b, i + 1)
  }

  /** Byte `b` starts a character or ends the string. */
  predicate IsCharBoundary(s: string, b: nat) { Offset(s, Seek(s, b, 0)) == b }

  lemma {:induction false} SeekFinds(s: string, b: nat, i: nat, k: nat)
    requires i <= k <= |s| && b <= Offset(s, k) && (k == i || Offset(s, k - 1) < b)
    ensures Seek(s, b, i) == k
    decreases k - i
  {
    if i < k {
      OffsetGrows(s, i, k - 1);
      SeekFinds(s, b, i + 1, k);
    }
  }

  /** Offsets are boundaries, and seeking one finds its character. */
  lemma SeekOffset(s: string, k: nat)
    requires k <= |s|
    ensures Seek(s, Offset(s, k), 0) == k && IsCharBoundary(s, Offset(s, k))
  {
    if k > 0 { OffsetGrows(s, k - 1, k); }
    SeekFinds(s, Offset(s, k), 0, k);
  }

  /** The first character from byte `b` on. */
  function CharAfter(s: string, b: nat): char
    requires Seek(s, b, 0) < |s|
  {
    s[Seek(s, b, 0)]
  }

  /** The last character before byte `b`. */
  function CharBefore(s: string, b: nat): char
    requires Seek(s, b, 0) > 0
  {
    s[Seek(s, b, 0) - 1]
  }

  /** Unicode White_Space. */
  predicate IsWhitespace(c: char) {
    var n := c as int;
    || 0x09 <= n <= 0x0D || n == 0x20 || n == 0x85 || n == 0xA0 || n == 0x1680
    || 0x2000 <= n <= 0x200A || n == 0x2028 || n == 0x2029 || n == 0x202F || n == 0x205F || n == 0x3000
  }
}
