// Stable sorting by a total preorder.
//
// The source sorts with the standard library's stable sort.  `SortBy` is one such sort, and
// `StableSortIsUnique` shows that every stable sort returns the same sequence: a sorted sequence is
// fixed by the subsequences of its equally ranked elements.
module Sorting {

  ghost predicate TotalPreorder<T(!new)>(le: (T, T) -> bool) {
    && (forall x :: le(x, x))
    && (forall x, y :: le(x, y) || le(y, x))
    && (forall x, y, z :: le(x, y) && le(y, z) ==> le(x, z))
  }

  ghost predicate SortedBy<T>(le: (T, T) -> bool, s: seq<T>) {
    forall i, j :: 0 <= i < j < |s| ==> le(s[i], s[j])
  }

  /** The elements of `s` that rank equal to `key`, in their order in `s`. */
  function SameRank<T>(le: (T, T) -> bool, key: T, s: seq<T>): seq<T> {
    if s == [] then []
    else (if le(key, s[0]) && le(s[0], key) then [s[0]] else []) + SameRank(le, key, s[1..])
  }

  /** Puts `x` in front of the first element it may precede. */
  function Insert<T>(le: (T, T) -> bool, x: T, s: seq<T>): seq<T> {
    if s == [] then [x]
    else if le(x, s[0]) then [x] + s
    else [s[0]] + Insert(le, x, s[1..])
  }

  function SortBy<T>(le: (T, T) -> bool, s: seq<T>): seq<T> {
    if s == [] then [] else Insert(le, s[0], SortBy(le, s[1..]))
  }

  lemma {:induction false} InsertAdds<T>(le: (T, T) -> bool, x: T, s: seq<T>)
    ensures multiset(Insert(le, x, s)) == multiset(s) + multiset{x}
  {
    if s != [] && !le(x, s[0]) {
      InsertAdds(le, x, s[1..]);
      assert s == [s[0]] + s[1..];
    }
  }

  /** Sorting permutes: nothing is lost, added or repeated. */
  lemma {:induction false} SortByPermutes<T>(le: (T, T) -> bool, s: seq<T>)
    ensures multiset(SortBy(le, s)) == multiset(s)
    ensures |SortBy(le, s)| == |s|
    ensures forall x :: x in SortBy(le, s) <==> x in s
  {
    if s != [] {
      SortByPermutes(le, s[1..]);
      InsertAdds(le, s[0], SortBy(le, s[1..]));
      assert s == [s[0]] + s[1..];
    }
    assert |multiset(SortBy(le, s))| == |SortBy(le, s)| && |multiset(s)| == |s|;
    forall x ensures x in SortBy(le, s) <==> x in s {
      assert x in multiset(s) <==> x in multiset(SortBy(le, s));
    }
  }

  lemma {:induction false} InsertKeepsSorted<T(!new)>(le: (T, T) -> bool, x: T, s: seq<T>)
    requires TotalPreorder(le) && SortedBy(le, s)
    ensures SortedBy(le, Insert(le, x, s))
  {
    if s != [] && !le(x, s[0]) {
      InsertKeepsSorted(le, x, s[1..]);
      InsertAdds(le, x, s[1..]);
      var r := Insert(le, x, s[1..]);
      forall y | y in r ensures le(s[0], y) {
        assert y in multiset(r);
        assert y == x || y in s[1..];
      }
    }
  }

  lemma {:induction false} SortBySorts<T(!new)>(le: (T, T) -> bool, s: seq<T>)
    requires TotalPreorder(le)
    ensures SortedBy(le, SortBy(le, s))
  {
    if s != [] {
      SortBySorts(le, s[1..]);
      InsertKeepsSorted(le, s[0], SortBy(le, s[1..]));
    }
  }

  lemma {:induction false} SameRankSplits<T>(le: (T, T) -> bool, key: T, s: seq<T>)
    requires s != []
    ensures SameRank(le, key, s) == SameRank(le, key, [s[0]]) + SameRank(le, key, s[1..])
  {
    assert SameRank(le, key, [s[0]][1..]) == [];
  }

  lemma {:induction false} InsertIsStable<T(!new)>(le: (T, T) -> bool, x: T, s: seq<T>, key: T)
    requires TotalPreorder(le)
    ensures SameRank(le, key, Insert(le, x, s)) == SameRank(le, key, [x]) + SameRank(le, key, s)
  {
    if s == [] {
    } else if le(x, s[0]) {
      assert ([x] + s)[1..] == s;
    } else {
      var rest := Insert(le, x, s[1..]);
      InsertIsStable(le, x, s[1..], key);
      assert ([s[0]] + rest)[1..] == rest;
      // x and s[0] rank apart, so at most one of them ranks equal to key
    }
  }

  /** `SortBy` keeps equally ranked elements in their input order. */
  lemma {:induction false} SortByIsStable<T(!new)>(le: (T, T) -> bool, s: seq<T>, key: T)
    requires TotalPreorder(le)
    ensures SameRank(le, key, SortBy(le, s)) == SameRank(le, key, s)
  {
    if s != [] {
      SortByIsStable(le, s[1..], key);
      InsertIsStable(le, s[0], SortBy(le, s[1..]), key);
      SameRankSplits(le, key, s);
    }
  }

  lemma {:induction false} SameRankMembers<T>(le: (T, T) -> bool, key: T, s: seq<T>, y: T)
    ensures y in SameRank(le, key, s) <==> y in s && le(key, y) && le(y, key)
  {
    if s != [] {
      SameRankMembers(le, key, s[1..], y);
    }
  }

  /** Two sorted sequences with the same equally ranked subsequences are equal. */
  lemma {:induction false} StableSortIsUnique<T(!new)>(le: (T, T) -> bool, s: seq<T>, t: seq<T>)
    requires TotalPreorder(le) && SortedBy(le, s) && SortedBy(le, t)
    requires forall key :: SameRank(le, key, s) == SameRank(le, key, t)
    ensures s == t
  {
    if s != [] {
      SameRankMembers(le, s[0], s, s[0]);
      SameRankMembers(le, s[0], t, s[0]);
    }
    if t != [] {
      SameRankMembers(le, t[0], t, t[0]);
      SameRankMembers(le, t[0], s, t[0]);
    }
    if s != [] {
      assert s[0] in t && t[0] in s;
      assert le(s[0], t[0]) && le(t[0], s[0]);
      assert SameRank(le, s[0], s)[0] == s[0];
      assert SameRank(le, s[0], t)[0] == t[0];
      assert s[0] == t[0];
      forall key ensures SameRank(le, key, s[1..]) == SameRank(le, key, t[1..]) {
        assert SameRank(le, key, s) == SameRank(le, key, t);
        SameRankSplits(le, key, s);
        SameRankSplits(le, key, t);
        var n := |SameRank(le, key, [s[0]])|;
        assert SameRank(le, key, s[1..]) == SameRank(le, key, s)[n..];
        assert SameRank(le, key, t[1..]) == SameRank(le, key, t)[n..];
      }
      StableSortIsUnique(le, s[1..], t[1..]);
    }
  }

  /** The sort result depends only on the order inside each class of equally ranked elements. */
  lemma {:induction false} SortByConfluent<T(!new)>(le: (T, T) -> bool, xs: seq<T>, ys: seq<T>)
    requires TotalPreorder(le)
    requires forall key :: SameRank(le, key, xs) == SameRank(le, key, ys)
    ensures SortBy(le, xs) == SortBy(le, ys)
  {
    SortBySorts(le, xs);
    SortBySorts(le, ys);
    forall key ensures SameRank(le, key, SortBy(le, xs)) == SameRank(le, key, SortBy(le, ys)) {
      SortByIsStable(le, xs, key);
      SortByIsStable(le, ys, key);
    }
    StableSortIsUnique(le, SortBy(le, xs), SortBy(le, ys));
  }
}
