// Counting the elements of a sequence that satisfy a condition.
//
// The tools count rows in loops and comprehensions; `Count` is what all of them compute.
// A larger bag counts at least as many, which is how counts over differently ordered lists of
// the same rows are compared.
module Counting {

  function Count<T>(s: seq<T>, f: T -> bool): (n: nat)
    ensures n <= |s|
  {
    if s == [] then 0 else Count(s[..|s| - 1], f) + if f(s[|s| - 1]) then 1 else 0
  }

  lemma {:induction false} CountConcat<T>(s: seq<T>, t: seq<T>, f: T -> bool)
    ensures Count(s + t, f) == Count(s, f) + Count(t, f)
  {
    if t == [] {
      assert s + t == s;
    } else {
      assert (s + t)[..|s + t| - 1] == s + t[..|t| - 1];
      CountConcat(s, t[..|t| - 1], f);
    }
  }

  lemma CountAppended<T>(s: seq<T>, x: T, f: T -> bool)
    ensures Count(s + [x], f) == Count(s, f) + if f(x) then 1 else 0
  {
    assert (s + [x])[..|s|] == s;
  }

  lemma CountOne<T>(x: T, f: T -> bool)
    ensures Count([x], f) == if f(x) then 1 else 0
  {
    assert [x][..0] == [];
  }

  lemma SplitAround<T>(t: seq<T>, k: nat)
    requires k < |t|
    ensures t == t[..k] + ([t[k]] + t[k + 1..])
  {}

  lemma CountWithout<T>(t: seq<T>, k: nat, f: T -> bool)
    requires k < |t|
    ensures Count(t, f) == Count(t[..k] + t[k + 1..], f) + if f(t[k]) then 1 else 0
  {
    hide Count;
    var before, after, x := t[..k], t[k + 1..], t[k];
    SplitAround(t, k);
    CountConcat(before, after, f);
    CountConcat(before, [x] + after, f);
    CountConcat([x], after, f);
    CountOne(x, f);
  }

  lemma BagWithout<T>(t: seq<T>, k: nat)
    requires k < |t|
    ensures multiset(t) == multiset(t[..k] + t[k + 1..]) + multiset{t[k]}
  {
    assert t == t[..k] + [t[k]] + t[k + 1..];
  }

  lemma BagCancel<T(!new)>(a: multiset<T>, b: multiset<T>, x: T)
    requires a + multiset{x} <= b + multiset{x}
    ensures a <= b
  {
    forall y ensures a[y] <= b[y] {
      assert (a + multiset{x})[y] <= (b + multiset{x})[y];
    }
  }

  /** A larger bag holds at least as many. */
  lemma {:induction false} CountGrows<T(!new)>(s: seq<T>, t: seq<T>, f: T -> bool)
    requires multiset(s) <= multiset(t)
    ensures Count(s, f) <= Count(t, f)
  {
    if s != [] {
      var n := |s| - 1;
      var init, last := s[..n], s[n];
      assert s == init + [last];
      assert last in multiset(t);
      var k :| 0 <= k < |t| && t[k] == last;
      var rest := t[..k] + t[k + 1..];
      CountWithout(t, k, f);
      BagWithout(t, k);
      assert multiset(s) == multiset(init) + multiset{last};
      BagCancel(multiset(init), multiset(rest), last);
      CountGrows(init, rest, f);
    }
  }

  lemma {:induction false} CountBoth<T>(s: seq<T>, f: T -> bool, g: T -> bool, both: T -> bool)
    requires forall x :: x in s ==> (both(x) <==> f(x) && g(x))
    ensures Count(s, f) + Count(s, g) <= |s| + Count(s, both)
  {
    if s != [] {
      var n := |s| - 1;
      assert s[n] in s;
      CountBoth(s[..n], f, g, both);
    }
  }

  lemma {:induction false} CountSame<T>(s: seq<T>, f: T -> bool, g: T -> bool)
    requires forall x :: x in s ==> (f(x) <==> g(x))
    ensures Count(s, f) == Count(s, g)
  {
    if s != [] {
      var n := |s| - 1;
      assert s[n] in s;
      CountSame(s[..n], f, g);
    }
  }

  predicate AllDifferent<T(==)>(s: seq<T>) { forall i, j :: 0 <= i < j < |s| ==> s[i] != s[j] }

  lemma {:induction false} DistinctBag<T(!new)>(s: seq<T>)
    requires AllDifferent(s)
    ensures forall x :: multiset(s)[x] == if x in s then 1 else 0
  {
    if s != [] {
      var n := |s| - 1;
      assert s == s[..n] + [s[n]];
      DistinctBag(s[..n]);
    }
  }

  function SetOf<T>(s: seq<T>): set<T> { set x | x in s }

  lemma {:induction false} SetOfDistinct<T(!new)>(s: seq<T>)
    ensures |SetOf(s)| <= |s|
    ensures |SetOf(s)| == |s| <==> AllDifferent(s)
  {
    if s != [] {
      var n := |s| - 1;
      var init := SetOf(s[..n]);
      assert s == s[..n] + [s[n]];
      assert SetOf(s) == init + {s[n]};
      SetOfDistinct(s[..n]);
      if s[n] in init {
        var k :| 0 <= k < n && s[..n][k] == s[n];
        assert s[k] == s[n];
      }
    }
  }
}
