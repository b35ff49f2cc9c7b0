// The order of strings used by the source's sorts and ordered sets.
//
// Strings compare by code point, and the shorter of two first if it begins the other.
// An ordered set is listed in that order; its listing is fixed by its members.
// The lemmas are about all strings.
module TextOrder {

  predicate LexLe(a: string, b: string) {
    |a| == 0 || (|b| > 0 && (a[0] < b[0] || (a[0] == b[0] && LexLe(a[1..], b[1..]))))
  }

  /** `a` begins `b`, or has the smaller code point where the two first differ. */
  ghost predicate Precedes(a: string, b: string) {
    exists k: nat :: DiffersAt(a, b, k)
  }

  ghost predicate DiffersAt(a: string, b: string, k: nat) {
    k <= |a| && k <= |b| && a[..k] == b[..k] && (k == |a| || (k < |b| && a[k] < b[k]))
  }

  lemma {:induction false} LexLeIff(a: string, b: string)
    ensures LexLe(a, b) <==> Precedes(a, b)
  {
    if a == [] {
      assert DiffersAt(a, b, 0);
    } else if b != [] {
      LexLeIff(a[1..], b[1..]);
      if a[0] < b[0] {
        assert DiffersAt(a, b, 0);
      } else if LexLe(a, b) {
        var k: nat :| DiffersAt(a[1..], b[1..], k);
        assert a[..k + 1] == [a[0]] + a[1..][..k] && b[..k + 1] == [b[0]] + b[1..][..k];
        assert DiffersAt(a, b, k + 1);
      } else if Precedes(a, b) {
        var k: nat :| DiffersAt(a, b, k);
        assert k > 0 && a[0] == a[..k][0] && b[0] == b[..k][0];
        assert a[1..][..k - 1] == a[..k][1..] && b[1..][..k - 1] == b[..k][1..];
        assert DiffersAt(a[1..], b[1..], k - 1);
      }
    }
  }

  lemma {:induction false} LexReflexive(a: string)
    ensures LexLe(a, a)
  {
    if |a| > 0 { LexReflexive(a[1..]); }
  }

  lemma {:induction false} LexTotal(a: string, b: string)
    ensures LexLe(a, b) || LexLe(b, a)
  {
    if |a| > 0 && |b| > 0 { LexTotal(a[1..], b[1..]); }
  }

  lemma {:induction false} LexTransitive(a: string, b: string, c: string)
    requires LexLe(a, b) && LexLe(b, c)
    ensures LexLe(a, c)
  {
    if |a| > 0 && |b| > 0 && |c| > 0 && a[0] == b[0] && b[0] == c[0] {
      LexTransitive(a[1..], b[1..], c[1..]);
    }
  }

  lemma {:induction false} LexAntisymmetric(a: string, b: string)
    requires LexLe(a, b) && LexLe(b, a)
    ensures a == b
  {
    if |a| > 0 && |b| > 0 {
      LexAntisymmetric(a[1..], b[1..]);
      assert a == [a[0]] + a[1..] && b == [b[0]] + b[1..];
    }
  }

  ghost predicate StrictlyIncreasing(s: seq<string>) {
    forall i, j :: 0 <= i < j < |s| ==> LexLe(s[i], s[j]) && s[i] != s[j]
  }

  function InsertUnique(x: string, s: seq<string>): seq<string> {
    if s == [] then [x]
    else if x == s[0] then s
    else if LexLe(x, s[0]) then [x] + s
    else
      [s[0]] + InsertUnique(x, s[1..])
  }

  /** Collecting into an ordered set and listing it: ascending, without repeats. */
  function SortedUnique(xs: seq<string>): seq<string> {
    if xs == [] then [] else InsertUnique(xs[0], SortedUnique(xs[1..]))
  }

  lemma {:induction false} InsertUniqueMembers(x: string, s: seq<string>)
    ensures forall y :: y in InsertUnique(x, s) <==> y == x || y in s
  {
    if s != [] && x != s[0] && !LexLe(x, s[0]) {
      InsertUniqueMembers(x, s[1..]);
    }
  }

  lemma {:induction false} SortedUniqueMembers(xs: seq<string>)
    ensures forall y :: y in SortedUnique(xs) <==> y in xs
  {
    if xs != [] {
      SortedUniqueMembers(xs[1..]);
      InsertUniqueMembers(xs[0], SortedUnique(xs[1..]));
    }
  }

  lemma {:induction false} InsertUniqueOrdered(x: string, s: seq<string>)
    requires StrictlyIncreasing(s)
    ensures StrictlyIncreasing(InsertUnique(x, s))
  {
    if s != [] && x != s[0] {
      if LexLe(x, s[0]) {
        forall j | 0 <= j < |s| ensures LexLe(x, s[j]) && x != s[j] {
          if j > 0 {
            LexTransitive(x, s[0], s[j]);
            if x == s[j] { LexAntisymmetric(x, s[0]); }
          }
        }
      } else {
        LexTotal(x, s[0]);
        InsertUniqueOrdered(x, s[1..]);
        InsertUniqueMembers(x, s[1..]);
        forall y | y in InsertUnique(x, s[1..]) ensures LexLe(s[0], y) && y != s[0] {}
      }
    }
  }

  lemma {:induction false} SortedUniqueOrdered(xs: seq<string>)
    ensures StrictlyIncreasing(SortedUnique(xs))
  {
    if xs != [] {
      SortedUniqueOrdered(xs[1..]);
      InsertUniqueOrdered(xs[0], SortedUnique(xs[1..]));
    }
  }

  /** An ascending sequence is fixed by its members. */
  lemma {:induction false} AscendingIsUnique(s: seq<string>, t: seq<string>)
    requires StrictlyIncreasing(s) && StrictlyIncreasing(t)
    requires forall x :: x in s <==> x in t
    ensures s == t
  {
    assert s != [] ==> s[0] in s;
    assert t != [] ==> t[0] in t;
    if s != [] && t != [] {
      assert s[0] in t && t[0] in s;
      LexTotal(s[0], t[0]);
      if s[0] != t[0] {
        if LexLe(s[0], t[0]) && LexLe(t[0], s[0]) { LexAntisymmetric(s[0], t[0]); }
      }
      assert forall x :: x in s[1..] <==> x in s && x != s[0];
      assert forall x :: x in t[1..] <==> x in t && x != t[0];
      AscendingIsUnique(s[1..], t[1..]);
    }
  }

  lemma SortedUniqueIsSetOrder(xs: seq<string>, ys: seq<string>)
    requires forall x :: x in xs <==> x in ys
    ensures SortedUnique(xs) == SortedUnique(ys)
  {
    SortedUniqueOrdered(xs);
    SortedUniqueOrdered(ys);
    SortedUniqueMembers(xs);
    SortedUniqueMembers(ys);
    AscendingIsUnique(SortedUnique(xs), SortedUnique(ys));
  }
}
