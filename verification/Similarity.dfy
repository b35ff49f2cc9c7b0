/** Lexical similarity of queries, as an exact fraction (query_similarity.py). */
module Similarity {

  datatype Share = Share(num: nat, den: nat)

  /** The shared part of two token sets; two empty sets are alike. */
  function Jaccard(left: set<string>, right: set<string>): Share {
    if left + right == {} then Share(1, 1) else Share(|left * right|, |left + right|)
  }

  /** The threshold 0.80. */
  predicate Exceeds(s: Share) { 5 * s.num > 4 * s.den }

  lemma JaccardIsShare(left: set<string>, right: set<string>)
    ensures var s := Jaccard(left, right); 0 <= s.num <= s.den && s.den > 0
    ensures Jaccard(left, right).num == Jaccard(left, right).den <==> left == right
  {
    var both, all := left * right, left + right;
    assert all == both + (all - both) && |all| == |both| + |all - both|;
    if |all - both| == 0 && all != {} {
      assert all - both == {};
      forall x ensures x in left <==> x in right {
        assert x in left || x in right ==> x in all && x !in all - both;
      }
      assert left == right;
    }
    if left == right { assert both == all; }
  }

  /** The threshold is passed exactly when more than four fifths of all tokens are shared. */
  lemma ExceedsIff(left: set<string>, right: set<string>)
    ensures Exceeds(Jaccard(left, right)) <==> left + right == {} || |left * right| as real > 0.8 * |left + right| as real
  {
    Fifths(|left * right|, |left + right|);
  }

  lemma Fifths(m: nat, n: nat)
    ensures m as real > 0.8 * n as real <==> 5 * m > 4 * n
  {}

  lemma JaccardIsSymmetric(left: set<string>, right: set<string>)
    ensures Jaccard(left, right) == Jaccard(right, left)
  {
    assert left + right == right + left && left * right == right * left;
  }
}
