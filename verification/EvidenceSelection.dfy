module EvidenceSelection {
  // Keeping the best fragments of a document, in document order (evidence.rs).

  import opened Sorting
  import opened Utf8
  import opened Evidence
  import opened EvidenceCutting

  datatype Candidate = Candidate(range: Range, priority: nat)

  datatype Fragment = Fragment(ordinal: nat, range: Range, text: string)

  /** Higher priority first, then the earlier start. */
  predicate RankOrder(l: Candidate, r: Candidate) {
    l.priority > r.priority || (l.priority == r.priority && l.range.start <= r.range.start)
  }

  predicate StartOrder(l: Candidate, r: Candidate) { l.range.start <= r.range.start }

  function Kept(n: nat): nat { if n <= MAX_FRAGMENTS then n else MAX_FRAGMENTS }

  function Best(candidates: seq<Candidate>): seq<Candidate> {
    SortByPermutes(RankOrder, candidates);
    SortBy(StartOrder, SortBy(RankOrder, candidates)[..Kept(|candidates|)])
  }

  ghost predicate StartsAscend(candidates: seq<Candidate>) {
    forall a, b :: 0 <= a < b < |candidates| ==> candidates[a].range.start < candidates[b].range.start
  }

  /** The text between two byte positions. */
  function Slice(s: string, r: Range): string
    requires Seek(s, r.start, 0) <= Seek(s, r.end, 0)
  {
    s[Seek(s, r.start, 0)..Seek(s, r.end, 0)]
  }

  function Scored(s: string, ranges: seq<Range>, priority: string -> nat): seq<Candidate>
    requires forall r :: r in ranges ==> InText(s, r)
  {
    if ranges == [] then []
    else [Candidate(ByteRange(s, ranges[0]), priority(s[ranges[0].start..ranges[0].end]))] + Scored(s, ranges[1..], priority)
  }

  method ScoreAll(s: string, ranges: seq<Range>, priority: string -> nat, ghost pieces: seq<Range>) returns (candidates: seq<Candidate>)
    requires (forall r :: r in pieces ==> InText(s, r)) && ranges == Bytes(s, pieces)
    ensures candidates == Scored(s, pieces, priority)
    decreases |ranges|
  {
    if ranges == [] { return []; }
    assert InText(s, pieces[0]);
    SeekOffset(s, pieces[0].start);
    SeekOffset(s, pieces[0].end);
    var rest := ScoreAll(s, ranges[1..], priority, pieces[1..]);
    candidates := [Candidate(ranges[0], priority(Slice(s, ranges[0])))] + rest;
  }

  /**
   `kept` is a selection of at most eight of `all` in document order, without repeats, and whatever
   is left out ranks behind everything kept.
   */
  ghost predicate IsBestOf(kept: seq<Candidate>, all: seq<Candidate>) {
    && |kept| <= 8 && (|kept| < 8 ==> |kept| == |all|)
    && (forall a, b :: 0 <= a < b < |kept| ==> kept[a].range.start < kept[b].range.start)
    && (forall c :: c in kept ==> c in all)
    && forall o, c :: o in kept && c in all && c !in kept ==>
      o.priority > c.priority || (o.priority == c.priority && o.range.start < c.range.start)
  }

  /** Sorting, truncating and sorting back keep the best of any candidates that have different starts. */
  method SelectBest(all: seq<Candidate>) returns (candidates: seq<Candidate>)
    ensures candidates == Best(all)
    ensures multiset(candidates) <= multiset(all)
    ensures StartsAscend(all) ==> IsBestOf(candidates, all)
  {
    hide IsBestOf, StartsAscend;
    candidates := SortBy(RankOrder, all);
    SortByPermutes(RankOrder, all);
    candidates := candidates[..Kept(|candidates|)];
    ghost var kept := candidates;
    candidates := SortBy(StartOrder, candidates);
    SortByPermutes(StartOrder, kept);
    PrefixIsPart(SortBy(RankOrder, all), |kept|);
    if StartsAscend(all) { BestAreBest(all); }
  }

  lemma PrefixIsPart(s: seq<Candidate>, n: nat)
    requires n <= |s|
    ensures multiset(s[..n]) <= multiset(s)
  {
    assert s == s[..n] + s[n..];
  }

  method EvidenceFragments(s: string, priority: string -> nat) returns (fragments: seq<Fragment>)
    ensures var best := Best(Scored(s, Fragments(s), priority));
      && |fragments| == |best|
      && forall k :: 0 <= k < |best| ==>
        fragments[k].ordinal == k + 1 && fragments[k].range == best[k].range && Cites(s, fragments[k])
  {
    hide Best, Scored, Fragments;
    var ranges := BoundedContentRanges(s);
    var candidates := ScoreAll(s, ranges, priority, Fragments(s));
    candidates := SelectBest(candidates);
    BestAreScored(s, Fragments(s), priority);
    fragments := [];
    for k := 0 to |candidates|
      invariant |fragments| == k
      invariant forall m :: 0 <= m < k ==>
        fragments[m].ordinal == m + 1 && fragments[m].range == candidates[m].range && Cites(s, fragments[m])
    {
      assert candidates[k] in candidates;
      ghost var p :| p in Fragments(s) && candidates[k].range == ByteRange(s, p);
      SeekOffset(s, p.start);
      SeekOffset(s, p.end);
      var fragment := Fragment(k + 1, candidates[k].range, Slice(s, candidates[k].range));
      assert Cites(s, fragment);
      fragments := fragments + [fragment];
    }
  }

  /** The fragment's text is the text at its byte range, which is one of the document's fragments. */
  ghost predicate Cites(s: string, f: Fragment) {
    exists p :: p in Fragments(s) && f.range == ByteRange(s, p) && f.text == s[p.start..p.end]
  }

  lemma {:induction false} ScoredMembers(s: string, ranges: seq<Range>, priority: string -> nat)
    requires forall r :: r in ranges ==> InText(s, r)
    ensures var c := Scored(s, ranges, priority);
      && |c| == |ranges|
      && forall k :: 0 <= k < |c| ==>
        c[k].range == ByteRange(s, ranges[k]) && c[k].priority == priority(s[ranges[k].start..ranges[k].end])
  {
    if ranges != [] { ScoredMembers(s, ranges[1..], priority); }
  }

  lemma BestAreScored(s: string, ranges: seq<Range>, priority: string -> nat)
    requires forall r :: r in ranges ==> InText(s, r)
    ensures forall c :: c in Best(Scored(s, ranges, priority)) ==> exists p :: p in ranges && c.range == ByteRange(s, p)
  {
    var all := Scored(s, ranges, priority);
    ScoredMembers(s, ranges, priority);
    SortByPermutes(RankOrder, all);
    SortByPermutes(StartOrder, SortBy(RankOrder, all)[..Kept(|all|)]);
    forall c | c in Best(all) ensures exists p :: p in ranges && c.range == ByteRange(s, p) {
      assert c in all;
      var k :| 0 <= k < |all| && all[k] == c;
      assert ranges[k] in ranges;
    }
  }

  lemma OrdersAreTotal()
    ensures TotalPreorder(RankOrder) && TotalPreorder(StartOrder)
  {}

  /** The eight best, in document order: whatever is left out ranks behind everything kept. */
  lemma BestAreBest(candidates: seq<Candidate>)
    requires StartsAscend(candidates)
    ensures IsBestOf(Best(candidates), candidates)
  {
    var ranked := SortBy(RankOrder, candidates);
    SortByPermutes(RankOrder, candidates);
    var kept := ranked[..Kept(|candidates|)];
    var best := Best(candidates);
    SortByPermutes(StartOrder, kept);
    OrdersAreTotal();
    SortBySorts(RankOrder, candidates);
    SortBySorts(StartOrder, kept);
    StartsIdentify(candidates);
    NoRepeats(candidates, ranked, kept, best);
    forall o, c | o in best && c in candidates && c !in best ensures RankOrder(o, c) && !RankOrder(c, o) {
      LeftOutRanksBehind(ranked, |kept|, o, c);
    }
  }

  lemma LeftOutRanksBehind(ranked: seq<Candidate>, n: nat, o: Candidate, c: Candidate)
    requires SortedBy(RankOrder, ranked) && n <= |ranked|
    requires o in ranked[..n] && c in ranked && c !in ranked[..n] && o.range.start != c.range.start
    ensures RankOrder(o, c) && !RankOrder(c, o)
  {
    var i :| 0 <= i < n && ranked[i] == o;
    var j :| 0 <= j < |ranked| && ranked[j] == c;
    assert j >= n || ranked[..n][j] == c;
  }

  lemma StartsIdentify(candidates: seq<Candidate>)
    requires StartsAscend(candidates)
    ensures forall c, d :: c in candidates && d in candidates && c.range.start == d.range.start ==> c == d
    ensures forall c :: multiset(candidates)[c] <= 1
  {
    forall c, d | c in candidates && d in candidates && c.range.start == d.range.start ensures c == d {
      var i :| 0 <= i < |candidates| && candidates[i] == c;
      var j :| 0 <= j < |candidates| && candidates[j] == d;
    }
    forall c ensures multiset(candidates)[c] <= 1 { OnceEach(candidates, c); }
  }

  lemma {:induction false} OnceEach(candidates: seq<Candidate>, c: Candidate)
    requires StartsAscend(candidates)
    ensures multiset(candidates)[c] <= 1
  {
    if candidates != [] {
      OnceEach(candidates[1..], c);
      assert candidates == [candidates[0]] + candidates[1..];
    }
  }

  lemma NoRepeats(candidates: seq<Candidate>, ranked: seq<Candidate>, kept: seq<Candidate>, best: seq<Candidate>)
    requires multiset(ranked) == multiset(candidates) && kept <= ranked && multiset(best) == multiset(kept)
    requires forall c :: multiset(candidates)[c] <= 1
    requires forall c, d :: c in candidates && d in candidates && c.range.start == d.range.start ==> c == d
    requires SortedBy(StartOrder, best)
    ensures StartsAscend(best) && forall c :: c in best ==> c in candidates
  {
    assert ranked == kept + ranked[|kept|..];
    assert multiset(kept) <= multiset(candidates);
    forall c | c in best ensures c in candidates {
      assert c in multiset(best) && c in multiset(candidates);
    }
    forall a, b | 0 <= a < b < |best| ensures best[a].range.start < best[b].range.start {
      assert StartOrder(best[a], best[b]);
      if best[a].range.start == best[b].range.start {
        assert best[a] in best && best[b] in best;
        assert best[a] == best[b];
        TwiceCounts(best, a, b);
      }
    }
  }

  lemma TwiceCounts(s: seq<Candidate>, a: nat, b: nat)
    requires a < b < |s| && s[a] == s[b]
    ensures multiset(s)[s[a]] >= 2
  {
    assert s == s[..b] + s[b..];
    assert s[a] in s[..b] && s[b..][0] == s[a];
    assert s[a] in multiset(s[..b]) && s[a] in multiset(s[b..]);
  }

  /** For every document and every scoring, the fragments kept are the eight best, in document order. */
  lemma EvidenceKeepsBest(s: string, priority: string -> nat)
    ensures var all := Scored(s, Fragments(s), priority);
      |all| == |Fragments(s)| && IsBestOf(Best(all), all)
  {
    var ranges := Fragments(s);
    var all := Scored(s, ranges, priority);
    FragmentsAreGood(s);
    ScoredMembers(s, ranges, priority);
    forall a, b | 0 <= a < b < |all| ensures all[a].range.start < all[b].range.start {
      assert ranges[a] in ranges && ranges[b] in ranges;
      assert Good(s, ranges[a]) && Good(s, ranges[b]);
      OffsetGrows(s, ranges[a].start, ranges[b].start);
    }
    BestAreBest(all);
  }
}
