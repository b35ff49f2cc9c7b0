// Zero-padded identifiers.
//
// Padding is to at least four digits, as the generator formats its numbers; larger numbers keep
// all their digits.
module Numbering {

  function DigitChar(d: nat): char
    requires d < 10
  {
    '0' + d as char
  }

  function Digits(n: nat): string {
    if n < 10 then [DigitChar(n)] else Digits(n / 10) + [DigitChar(n % 10)]
  }

  function Zeros(n: nat): string { if n == 0 then [] else "0" + Zeros(n - 1) }

  /** At least four digits. */
  function Padded(n: nat): string {
    var d := Digits(n);
    if |d| < 4 then Zeros(4 - |d|) + d else d
  }

  /** The number a digit string stands for. */
  function ValueOf(s: string): int {
    if s == [] then 0 else 10 * ValueOf(s[..|s| - 1]) + (s[|s| - 1] as int - '0' as int)
  }

  lemma {:induction false} ValueOfDigits(n: nat)
    ensures ValueOf(Digits(n)) == n
  {
    if n < 10 {
      assert ValueOf([DigitChar(n)][..0]) == 0;
    } else {
      ValueOfDigits(n / 10);
      assert Digits(n)[..|Digits(n)| - 1] == Digits(n / 10);
    }
  }

  lemma {:induction false} LeadingZeros(k: nat, s: string)
    ensures ValueOf(Zeros(k) + s) == ValueOf(s)
    decreases |s|, k
  {
    if s != [] {
      LeadingZeros(k, s[..|s| - 1]);
      assert (Zeros(k) + s)[..|Zeros(k) + s| - 1] == Zeros(k) + s[..|s| - 1];
    } else if k > 0 {
      AllZeros(k);
      assert Zeros(k) + s == Zeros(k);
    }
  }

  lemma {:induction false} AllZeros(k: nat)
    ensures ValueOf(Zeros(k)) == 0 && |Zeros(k)| == k && forall i :: 0 <= i < k ==> Zeros(k)[i] == '0'
  {
    if k > 0 {
      AllZeros(k - 1);
      var z := Zeros(k)[..k - 1];
      assert z == Zeros(k - 1) by {
        forall i | 0 <= i < k - 1 ensures z[i] == Zeros(k - 1)[i] {}
      }
    }
  }

  lemma ValueOfPadded(n: nat)
    ensures ValueOf(Padded(n)) == n
  {
    hide ValueOf, Digits, Zeros;
    ValueOfDigits(n);
    if |Digits(n)| < 4 { LeadingZeros(4 - |Digits(n)|, Digits(n)); }
  }

  /** Padded numbers are different for different numbers. */
  lemma PaddedIsInjective(m: nat, n: nat)
    requires Padded(m) == Padded(n)
    ensures m == n
  {
    hide Padded, ValueOf;
    ValueOfPadded(m);
    ValueOfPadded(n);
  }
}
