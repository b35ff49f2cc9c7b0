module DedupeProperties {
  // What `Deduplicate` promises: independence of completion order, and nothing lost or invented.

  import opened Wrappers
  import opened Sorting
  import opened TextOrder
  import opened Dedupe

  // ---- Completion order ----

  /** All rows of one provider, in the order the provider ranked them. */
  datatype Block = Block(provider: string, rows: seq<CanonicalResult>)

  /** The rows in the order in which the providers finished. */
  function Joined(blocks: seq<Block>): seq<CanonicalResult> {
    if blocks == [] then [] else blocks[0].rows + Joined(blocks[1..])
  }

  /** One block per provider, holding rows of that provider only. */
  ghost predicate OneBlockPerProvider(blocks: seq<Block>) {
    && (forall i, j :: 0 <= i < j < |blocks| ==> blocks[i].provider != blocks[j].provider)
    && (forall b, r :: b in blocks && r in b.rows ==> r.provider == b.provider)
  }

  function FromProvider(provider: string, rows: seq<CanonicalResult>): seq<CanonicalResult> {
    if rows == [] then []
    else (if rows[0].provider == provider then [rows[0]] else []) + FromProvider(provider, rows[1..])
  }

  lemma FromProviderStep(provider: string, x: CanonicalResult, rest: seq<CanonicalResult>)
    ensures FromProvider(provider, [x] + rest) == (if x.provider == provider then [x] else []) + FromProvider(provider, rest)
  {
    assert ([x] + rest)[1..] == rest;
  }

  lemma {:induction false} FromProviderJoins(provider: string, xs: seq<CanonicalResult>, ys: seq<CanonicalResult>)
    ensures FromProvider(provider, xs + ys) == FromProvider(provider, xs) + FromProvider(provider, ys)
  {
    if xs == [] {
      assert xs + ys == ys;
    } else {
      FromProviderJoins(provider, xs[1..], ys);
      FromProviderStep(provider, xs[0], xs[1..]);
      FromProviderStep(provider, xs[0], xs[1..] + ys);
      assert [xs[0]] + xs[1..] == xs && [xs[0]] + (xs[1..] + ys) == xs + ys;
    }
  }

  lemma {:induction false} FromProviderUniform(provider: string, rows: seq<CanonicalResult>, all: bool)
    requires forall r :: r in rows ==> (r.provider == provider) == all
    ensures FromProvider(provider, rows) == if all then rows else []
  {
    if rows != [] {
      assert rows[0] in rows && rows == [rows[0]] + rows[1..];
      FromProviderUniform(provider, rows[1..], all);
    }
  }

  /** Reading one provider's rows out of the joined rows gives back exactly its block. */
  lemma {:induction false} BlockOfProvider(provider: string, blocks: seq<Block>)
    requires OneBlockPerProvider(blocks)
    ensures forall b :: b in blocks && b.provider == provider ==> FromProvider(provider, Joined(blocks)) == b.rows
    ensures (forall b :: b in blocks ==> b.provider != provider) ==> FromProvider(provider, Joined(blocks)) == []
  {
    if blocks != [] {
      var head, rest := blocks[0], blocks[1..];
      assert head in blocks;
      assert forall b :: b in blocks <==> b == head || b in rest;
      BlockOfProvider(provider, rest);
      FromProviderJoins(provider, head.rows, Joined(rest));
      FromProviderUniform(provider, head.rows, head.provider == provider);
    }
  }

  lemma {:induction false} RankClassIsOneProvider(rows: seq<CanonicalResult>, key: CanonicalResult)
    ensures SameRank(UrlOrder, key, rows) == SameRank(UrlOrder, key, FromProvider(key.provider, rows))
  {
    if rows != [] {
      RankClassIsOneProvider(rows[1..], key);
      UrlOrderPair(key, rows[0]);
      if rows[0].provider == key.provider {
        var tail := FromProvider(key.provider, rows[1..]);
        var kept := [rows[0]] + tail;
        assert FromProvider(key.provider, rows) == kept && kept[0] == rows[0] && kept[1..] == tail;
        assert SameRank(UrlOrder, key, kept) == SameRank(UrlOrder, key, rows);
      } else {
        assert FromProvider(key.provider, rows) == FromProvider(key.provider, rows[1..]);
        assert SameRank(UrlOrder, key, rows) == SameRank(UrlOrder, key, rows[1..]);
      }
    }
  }

  /** Confluence: the same provider blocks, joined in any order, give the same output. */
  lemma CompletionOrderIsInvisible(text: TextRules, blocks: seq<Block>, reordered: seq<Block>)
    requires OneBlockPerProvider(blocks) && OneBlockPerProvider(reordered)
    requires forall b :: b in blocks <==> b in reordered
    ensures Deduplicated(text, Joined(blocks)) == Deduplicated(text, Joined(reordered))
  {
    var xs, ys := Joined(blocks), Joined(reordered);
    UrlOrderIsTotal();
    forall key ensures SameRank(UrlOrder, key, xs) == SameRank(UrlOrder, key, ys) {
      RankClassIsOneProvider(xs, key);
      RankClassIsOneProvider(ys, key);
      BlockOfProvider(key.provider, blocks);
      BlockOfProvider(key.provider, reordered);
      assert FromProvider(key.provider, xs) == FromProvider(key.provider, ys) by {
        if b :| b in blocks && b.provider == key.provider {
          assert b in reordered;
        }
      }
    }
    SortByConfluent(UrlOrder, xs, ys);
  }

  // ---- Content ----

  lemma {:induction false} AtUrlCounts(url: string, rows: seq<CanonicalResult>, x: CanonicalResult)
    ensures multiset(AtUrl(url, rows))[x] == if x.canonicalUrl == url then multiset(rows)[x] else 0
  {
    if rows != [] {
      AtUrlCounts(url, rows[1..], x);
      assert rows == [rows[0]] + rows[1..];
    }
  }

  /** The rows merged into one entry are those of the input at its URL, each as often as it came. */
  lemma GroupHoldsInputRows(url: string, results: seq<CanonicalResult>)
    ensures var group := AtUrl(url, SortBy(UrlOrder, results));
      && multiset(group) == multiset(AtUrl(url, results))
      && |group| == |AtUrl(url, results)|
  {
    var group := AtUrl(url, SortBy(UrlOrder, results));
    SortByPermutes(UrlOrder, results);
    forall x ensures multiset(group)[x] == multiset(AtUrl(url, results))[x] {
      AtUrlCounts(url, SortBy(UrlOrder, results), x);
      AtUrlCounts(url, results, x);
    }
    assert |multiset(group)| == |group|;
    assert |multiset(AtUrl(url, results))| == |AtUrl(url, results)|;
  }

  lemma {:induction false} GroupAt(rows: seq<CanonicalResult>, urls: seq<string>, i: nat)
    requires i < |urls| && forall u :: u in urls ==> AtUrl(u, rows) != []
    ensures Groups(rows, urls)[i] == MergeGroup(AtUrl(urls[i], rows))
    ensures AtUrl(urls[i], rows) != []
  {
    if i < |urls| - 1 { GroupAt(rows, urls[..|urls| - 1], i); }
  }

  /** Everything one merged entry says about the rows it came from. */
  ghost predicate Describes(d: DeduplicatedResult, rows: seq<CanonicalResult>) {
    && (exists best :: best in rows && IsRepresentative(d, best) && forall r :: r in rows ==> MergeOrder(best, r))
    && StrictlyIncreasing(d.providers) && (forall p :: p in d.providers <==> p in Providers(rows))
    && StrictlyIncreasing(d.originalUrls) && (forall u :: u in d.originalUrls <==> u in OriginalUrls(rows))
    && StrictlyIncreasing(d.alternateSnippets)
    && (forall v :: v in d.alternateSnippets <==> v in Snippets(rows) && d.snippet != Some(v))
    && StrictlyIncreasing(d.observedDates) && (forall v :: v in d.observedDates <==> v in Dates(rows))
    && (forall p :: p in d.ranks <==> p in Providers(rows))
    && (forall p :: p in d.ranks ==> IsBestRank(d.ranks[p], p, rows))
    && (d.mergeReason == if |rows| == 1 then None
        else if forall r :: r in rows ==> r.originalUrl == d.originalUrl then Some(OriginalUrlExact)
        else Some(CanonicalUrlExact))
  }

  ghost predicate IsRepresentative(d: DeduplicatedResult, best: CanonicalResult) {
    && d.canonicalUrl == best.canonicalUrl && d.originalUrl == best.originalUrl
    && d.representativeProvider == best.provider && d.title == best.title && d.snippet == best.snippet
    && d.publishedAt == best.publishedAt && d.detail == best.detail
  }

  ghost predicate IsBestRank(rank: Option<nat>, provider: string, rows: seq<CanonicalResult>) {
    && (rank.Some? ==> exists r :: r in rows && r.provider == provider && r.rank == rank)
    && (forall r :: r in rows && r.provider == provider && r.rank.Some? ==> rank.Some? && rank.value <= r.rank.value)
  }

  lemma {:induction false} PresentMembers(values: seq<Option<string>>)
    ensures forall v :: v in Present(values) <==> Some(v) in values
  {
    if values != [] { PresentMembers(values[1..]); }
  }

  lemma {:induction false} WithoutMembers(value: Option<string>, s: seq<string>)
    ensures forall v :: v in Without(value, s) <==> v in s && value != Some(v)
  {
    if s != [] { WithoutMembers(value, s[1..]); }
  }

  lemma {:induction false} WithoutOrdered(value: Option<string>, s: seq<string>)
    requires StrictlyIncreasing(s)
    ensures StrictlyIncreasing(Without(value, s))
  {
    if s != [] {
      WithoutOrdered(value, s[1..]);
      WithoutMembers(value, s[1..]);
      var rest := Without(value, s[1..]);
      forall j | 0 <= j < |rest| ensures LexLe(s[0], rest[j]) && s[0] != rest[j] {
        assert rest[j] in s[1..];
      }
    }
  }

  lemma {:induction false} BestRankIsBest(provider: string, rows: seq<CanonicalResult>)
    ensures IsBestRank(BestRank(provider, rows), provider, rows)
  {
    if rows != [] {
      var front, last := rows[..|rows| - 1], rows[|rows| - 1];
      BestRankIsBest(provider, front);
      assert rows == front + [last];
    }
  }

  lemma ColumnsFollowMembers(xs: seq<CanonicalResult>, ys: seq<CanonicalResult>)
    requires forall x :: x in xs ==> x in ys
    ensures forall p :: p in Providers(xs) ==> p in Providers(ys)
    ensures forall u :: u in OriginalUrls(xs) ==> u in OriginalUrls(ys)
    ensures forall v :: v in Snippets(xs) ==> v in Snippets(ys)
    ensures forall v :: v in Dates(xs) ==> v in Dates(ys)
    ensures forall u :: u in Urls(xs) ==> u in Urls(ys)
  {
    var sx, sy := seq(|xs|, i requires 0 <= i < |xs| => xs[i].snippet), seq(|ys|, i requires 0 <= i < |ys| => ys[i].snippet);
    var dx, dy := seq(|xs|, i requires 0 <= i < |xs| => xs[i].publishedAt), seq(|ys|, i requires 0 <= i < |ys| => ys[i].publishedAt);
    forall i | 0 <= i < |xs|
      ensures exists j :: 0 <= j < |ys| && ys[j] == xs[i]
      ensures xs[i].provider in Providers(ys) && xs[i].originalUrl in OriginalUrls(ys)
      ensures sx[i] in sy && dx[i] in dy && xs[i].canonicalUrl in Urls(ys)
    {
      assert xs[i] in ys;
      var j :| 0 <= j < |ys| && ys[j] == xs[i];
      assert Providers(ys)[j] == xs[i].provider && OriginalUrls(ys)[j] == xs[i].originalUrl;
      assert sy[j] == sx[i] && dy[j] == dx[i] && Urls(ys)[j] == xs[i].canonicalUrl;
    }
    assert forall v :: v in sx ==> v in sy;
    assert forall v :: v in dx ==> v in dy;
    PresentMembers(sx);
    PresentMembers(sy);
    PresentMembers(dx);
    PresentMembers(dy);
  }

  lemma ListsDescribe(rows: seq<CanonicalResult>, d: DeduplicatedResult)
    requires rows != [] && d == Assemble(rows, RankTable(rows))
    ensures StrictlyIncreasing(d.providers) && (forall p :: p in d.providers <==> p in Providers(rows))
    ensures StrictlyIncreasing(d.originalUrls) && (forall u :: u in d.originalUrls <==> u in OriginalUrls(rows))
    ensures forall v :: v in d.alternateSnippets <==> v in Snippets(rows) && d.snippet != Some(v)
    ensures forall v :: v in d.observedDates <==> v in Dates(rows)
    ensures StrictlyIncreasing(d.alternateSnippets) && StrictlyIncreasing(d.observedDates)
  {
    SortedUniqueOrdered(Snippets(rows));
    SortedUniqueOrdered(Dates(rows));
    WithoutOrdered(d.snippet, SortedUnique(Snippets(rows)));
    SortedUniqueOrdered(Providers(rows));
    SortedUniqueMembers(Providers(rows));
    SortedUniqueOrdered(OriginalUrls(rows));
    SortedUniqueMembers(OriginalUrls(rows));
    SortedUniqueMembers(Snippets(rows));
    WithoutMembers(d.snippet, SortedUnique(Snippets(rows)));
    SortedUniqueMembers(Dates(rows));
  }

  lemma RanksDescribe(rows: seq<CanonicalResult>, d: DeduplicatedResult)
    requires rows != [] && d == Assemble(rows, RankTable(rows))
    ensures forall p :: p in d.ranks <==> p in Providers(rows)
    ensures forall p :: p in d.ranks ==> IsBestRank(d.ranks[p], p, rows)
  {
    forall p | p in d.ranks ensures IsBestRank(d.ranks[p], p, rows) {
      BestRankIsBest(p, rows);
    }
  }

  lemma MergeGroupDescribes(group: seq<CanonicalResult>)
    requires group != []
    ensures Describes(MergeGroup(group), group)
    ensures MergeGroup(group).status == if |group| > 1 then ConfirmedDuplicate else Distinct
    ensures MergeGroup(group).possibleDuplicateWith == []
  {
    var rows := SortBy(MergeOrder, group);
    var d := MergeGroup(group);
    SortByPermutes(MergeOrder, group);
    assert forall r :: r in rows ==> MergeOrder(rows[0], r) by {
      MergeOrderIsTotal();
      SortBySorts(MergeOrder, group);
    }
    ListsDescribe(rows, d);
    RanksDescribe(rows, d);
    MergeReasonOf(rows, rows, d);
    assert IsRepresentative(d, rows[0]) && rows[0] in rows;
    assert Describes(d, rows);
    DescribesSurvivesReordering(d, rows, group);
  }

  lemma MergeReasonOf(rows: seq<CanonicalResult>, group: seq<CanonicalResult>, d: DeduplicatedResult)
    requires rows != [] && |rows| == |group| && (forall x :: x in rows <==> x in group)
    requires d == Assemble(rows, RankTable(rows))
    ensures d.mergeReason == if |group| == 1 then None
      else if forall r :: r in group ==> r.originalUrl == d.originalUrl then Some(OriginalUrlExact)
      else Some(CanonicalUrlExact)
  {
    if forall r :: r in group ==> r.originalUrl == d.originalUrl {
      forall i | 0 <= i < |rows| ensures rows[i].originalUrl == rows[0].originalUrl {
        assert rows[i] in rows;
      }
    }
  }

  lemma DescribesSurvivesReordering(d: DeduplicatedResult, rows: seq<CanonicalResult>, others: seq<CanonicalResult>)
    requires Describes(d, rows) && multiset(rows) == multiset(others) && |rows| == |others|
    ensures Describes(d, others)
  {
    assert forall x :: x in rows <==> x in others by {
      forall x ensures x in rows <==> x in others {
        assert x in multiset(rows) <==> x in multiset(others);
      }
    }
    ColumnsFollowMembers(rows, others);
    ColumnsFollowMembers(others, rows);
    forall p | p in d.ranks ensures IsBestRank(d.ranks[p], p, others) {
      assert IsBestRank(d.ranks[p], p, rows);
    }
  }

  lemma GroupEntryDescribes(results: seq<CanonicalResult>, urls: seq<string>, i: nat)
    requires i < |urls| && forall u :: u in urls ==> AtUrl(u, SortBy(UrlOrder, results)) != []
    ensures var d := Groups(SortBy(UrlOrder, results), urls)[i];
      && d.canonicalUrl == urls[i] && Describes(d, AtUrl(urls[i], results)) && d.possibleDuplicateWith == []
      && d.status == if |AtUrl(urls[i], results)| > 1 then ConfirmedDuplicate else Distinct
  {
    var sorted := SortBy(UrlOrder, results);
    var group := AtUrl(urls[i], sorted);
    GroupAt(sorted, urls, i);
    MergeGroupDescribes(group);
    GroupHoldsInputRows(urls[i], results);
    var d := MergeGroup(group);
    assert d.canonicalUrl == urls[i] by {
      var best :| best in group && IsRepresentative(d, best);
      AtUrlMembers(urls[i], sorted);
    }
    DescribesSurvivesReordering(d, group, AtUrl(urls[i], results));
  }

  /**
   Each entry is described by the input rows at its URL, whatever order they came in; it is a
   confirmed duplicate exactly when there are several, a possible one when only titles resemble.
   */
  lemma EntryDescribesItsRows(text: TextRules, results: seq<CanonicalResult>, i: nat)
    requires i < |Deduplicated(text, results)|
    ensures var d := Deduplicated(text, results)[i];
      && d.canonicalUrl == SortedUnique(Urls(SortBy(UrlOrder, results)))[i]
      && var rows := AtUrl(d.canonicalUrl, results);
      && Describes(d, rows)
      && (d.status == if |rows| > 1 then ConfirmedDuplicate
          else if d.possibleDuplicateWith != [] then PossibleDuplicate else Distinct)
  {
    var sorted := SortBy(UrlOrder, results);
    var urls := SortedUnique(Urls(sorted));
    EveryUrlHasRows(sorted);
    GroupEntryDescribes(results, urls, i);
    var merged := Groups(sorted, urls);
    MarkedEntry(text, merged, i, AtUrl(urls[i], results));
  }

  lemma MarkedEntry(text: TextRules, merged: seq<DeduplicatedResult>, i: nat, rows: seq<CanonicalResult>)
    requires i < |merged| && Describes(merged[i], rows) && merged[i].possibleDuplicateWith == []
    requires merged[i].status == if |rows| > 1 then ConfirmedDuplicate else Distinct
    ensures var d := MarkAll(text, merged)[i];
      && d.canonicalUrl == merged[i].canonicalUrl && Describes(d, rows)
      && (d.status == if |rows| > 1 then ConfirmedDuplicate
          else if d.possibleDuplicateWith != [] then PossibleDuplicate else Distinct)
  {
    MarkKeepsDescription(merged[i], Lookalikes(text, merged, i, |merged|), rows);
  }

  lemma MarkKeepsDescription(d: DeduplicatedResult, urls: seq<string>, rows: seq<CanonicalResult>)
    requires Describes(d, rows)
    ensures Describes(Mark(d, urls), rows)
  {
    var best :| best in rows && IsRepresentative(d, best) && forall r :: r in rows ==> MergeOrder(best, r);
    assert IsRepresentative(Mark(d, urls), best);
  }

  lemma {:induction false} LookalikesAre(text: TextRules, s: seq<DeduplicatedResult>, i: nat, n: nat, u: string)
    requires i < |s| && n <= |s|
    ensures u in Lookalikes(text, s, i, n) <==>
      exists j :: 0 <= j < n && j != i && Similar(text, s[i], s[j]) && s[j].canonicalUrl == u
  {
    if n > 0 { LookalikesAre(text, s, i, n - 1, u); }
  }

  /** Possible-duplicate marks are mutual, and never join an entry to itself. */
  lemma MarksAreMutual(text: TextRules, s: seq<DeduplicatedResult>, i: nat, j: nat)
    requires i < |s| && j < |s|
    requires forall a, b :: 0 <= a < b < |s| ==> s[a].canonicalUrl != s[b].canonicalUrl
    requires forall k :: 0 <= k < |s| ==> s[k].possibleDuplicateWith == []
    ensures s[j].canonicalUrl in MarkAll(text, s)[i].possibleDuplicateWith <==>
            s[i].canonicalUrl in MarkAll(text, s)[j].possibleDuplicateWith
    ensures s[j].canonicalUrl in MarkAll(text, s)[i].possibleDuplicateWith <==> i != j && Similar(text, s[i], s[j])
  {
    LookalikesAre(text, s, i, |s|, s[j].canonicalUrl);
    LookalikesAre(text, s, j, |s|, s[i].canonicalUrl);
    SimilarIsSymmetric(text, s[i], s[j]);
  }

  // ---- Whose fields an entry shows ----

  /** As much is present in `r` as in the entry. */
  predicate AsComplete(d: DeduplicatedResult, r: CanonicalResult) {
    r.title.Some? == d.title.Some? && r.snippet.Some? == d.snippet.Some?
  }

  /**
   The fields shown are those of one of the rows: with a title if any row has one, then with a snippet
   if any such row has one, then the latest date, then the first original URL, then the first provider.
   */
  ghost predicate ShowsBest(d: DeduplicatedResult, rows: seq<CanonicalResult>) {
    && (exists r :: r in rows && IsRepresentative(d, r))
    && (d.title.Some? <==> exists r :: r in rows && r.title.Some?)
    && (d.snippet.Some? <==> exists r :: r in rows && r.title.Some? == d.title.Some? && r.snippet.Some?)
    && (forall r :: r in rows && AsComplete(d, r) && r.publishedAt.Some? ==>
        d.publishedAt.Some? && Precedes(r.publishedAt.value, d.publishedAt.value))
    && (forall r :: r in rows && AsComplete(d, r) && r.publishedAt == d.publishedAt ==>
        && Precedes(d.originalUrl, r.originalUrl)
        && (r.originalUrl == d.originalUrl ==> Precedes(d.representativeProvider, r.provider)))
  }

  lemma LeastShowsBest(d: DeduplicatedResult, rows: seq<CanonicalResult>, best: CanonicalResult)
    requires best in rows && IsRepresentative(d, best) && forall r :: r in rows ==> MergeOrder(best, r)
    requires forall r :: r in rows ==> r.canonicalUrl == d.canonicalUrl
    ensures ShowsBest(d, rows)
  {
    forall r | r in rows && AsComplete(d, r)
      ensures r.publishedAt.Some? ==> d.publishedAt.Some? && Precedes(r.publishedAt.value, d.publishedAt.value)
      ensures r.publishedAt == d.publishedAt ==> Precedes(d.originalUrl, r.originalUrl)
      ensures r.publishedAt == d.publishedAt && r.originalUrl == d.originalUrl ==> Precedes(d.representativeProvider, r.provider)
    {
      assert MergeOrder(best, r);
      if r.publishedAt.Some? && d.publishedAt.Some? {
        LexReflexive(r.publishedAt.value);
        LexLeIff(r.publishedAt.value, d.publishedAt.value);
      }
      LexReflexive(r.originalUrl);
      LexLeIff(d.originalUrl, r.originalUrl);
      LexLeIff(d.representativeProvider, r.provider);
    }
  }

  /** Every entry of the output shows the best of the input rows at its URL. */
  lemma EntryShowsBest(text: TextRules, results: seq<CanonicalResult>, i: nat)
    requires i < |Deduplicated(text, results)|
    ensures var d := Deduplicated(text, results)[i]; ShowsBest(d, AtUrl(d.canonicalUrl, results))
  {
    hide Deduplicated, ShowsBest, MergeOrder, IsRepresentative;
    EntryDescribesItsRows(text, results, i);
    var d := Deduplicated(text, results)[i];
    var rows := AtUrl(d.canonicalUrl, results);
    AtUrlMembers(d.canonicalUrl, results);
    var best :| best in rows && IsRepresentative(d, best) && forall r :: r in rows ==> MergeOrder(best, r);
    LeastShowsBest(d, rows, best);
  }

  /** Two entries resemble each other: different hosts, long enough titles, and nine tenths of the title words shared. */
  lemma SimilarIff(text: TextRules, l: DeduplicatedResult, r: DeduplicatedResult)
    ensures Similar(text, l, r) <==>
      && text.host(l.canonicalUrl) != text.host(r.canonicalUrl)
      && l.title.Some? && r.title.Some? && |l.title.value| > 19 && |r.title.value| > 19
      && var a, b := text.titleTokens(l.title.value), text.titleTokens(r.title.value);
      && |a| > 3 && |b| > 3 && |a * b| as real >= 0.9 * |a + b| as real
  {
    if l.title.Some? && r.title.Some? {
      var a, b := text.titleTokens(l.title.value), text.titleTokens(r.title.value);
      Tenths(|a * b|, |a + b|);
    }
  }

  lemma Tenths(m: nat, n: nat)
    ensures m as real >= 0.9 * n as real <==> 10 * m >= 9 * n
  {}

  /** In the output, two entries mark each other exactly when their titles resemble. */
  lemma OutputMarksAreMutual(text: TextRules, results: seq<CanonicalResult>, i: nat, j: nat)
    requires i < |Deduplicated(text, results)| && j < |Deduplicated(text, results)|
    ensures var out := Deduplicated(text, results);
      && (out[j].canonicalUrl in out[i].possibleDuplicateWith <==> i != j && Similar(text, out[i], out[j]))
      && (out[i].canonicalUrl in out[j].possibleDuplicateWith <==> i != j && Similar(text, out[i], out[j]))
  {
    var sorted := SortBy(UrlOrder, results);
    var urls := SortedUnique(Urls(sorted));
    SortedUniqueOrdered(Urls(sorted));
    EveryUrlHasRows(sorted);
    var merged := Groups(sorted, urls);
    assert MergedEntries(merged, urls) by {
      forall k | 0 <= k < |merged| ensures merged[k].canonicalUrl == urls[k] && merged[k].possibleDuplicateWith == [] {
        GroupEntryDescribes(results, urls, k);
      }
    }
    MarkedEntriesAreMutual(text, merged, urls, i, j);
  }

  ghost predicate MergedEntries(s: seq<DeduplicatedResult>, urls: seq<string>) {
    |s| == |urls| && forall k :: 0 <= k < |s| ==> s[k].canonicalUrl == urls[k] && s[k].possibleDuplicateWith == []
  }

  lemma MarkedEntriesAreMutual(text: TextRules, s: seq<DeduplicatedResult>, urls: seq<string>, i: nat, j: nat)
    requires MergedEntries(s, urls) && StrictlyIncreasing(urls) && i < |s| && j < |s|
    ensures var out := MarkAll(text, s);
      && (out[j].canonicalUrl in out[i].possibleDuplicateWith <==> i != j && Similar(text, out[i], out[j]))
      && (out[i].canonicalUrl in out[j].possibleDuplicateWith <==> i != j && Similar(text, out[i], out[j]))
  {
    forall a, b | 0 <= a < b < |s| ensures s[a].canonicalUrl != s[b].canonicalUrl {
      assert urls[a] != urls[b];
    }
    MarksAreMutual(text, s, i, j);
  }

  /**
   Why one block per provider is needed: two rows that differ only in fields no sort looks at, such
   as the title text, and come from two blocks of one provider, show the order of the blocks.
   */
  lemma SharedProviderShowsCompletionOrder(text: TextRules, x: CanonicalResult, y: CanonicalResult)
    requires SameKey(x, y) && MergeOrder(x, y) && MergeOrder(y, x) && x.title != y.title
    ensures Deduplicated(text, Joined([Block(x.provider, [x]), Block(y.provider, [y])])) !=
            Deduplicated(text, Joined([Block(y.provider, [y]), Block(x.provider, [x])]))
  {
    JoinedPair(x, y);
    JoinedPair(y, x);
    UrlOrderPair(x, y);
    LexReflexive(x.provider);
    PairKeepsFirst(text, x, y);
    PairKeepsFirst(text, y, x);
  }

  lemma JoinedPair(x: CanonicalResult, y: CanonicalResult)
    ensures Joined([Block(x.provider, [x]), Block(y.provider, [y])]) == [x, y]
  {
    var first, second := Block(x.provider, [x]), Block(y.provider, [y]);
    assert [first, second][1..] == [second] && [second][1..] == [];
    assert Joined([second]) == [y];
  }

  lemma SortPair<T>(le: (T, T) -> bool, x: T, y: T)
    requires le(x, y)
    ensures SortBy(le, [x, y]) == [x, y]
  {
    assert [x, y][1..] == [y] && [y][1..] == [];
    assert SortBy(le, [y]) == [y];
  }

  lemma PairKeepsFirst(text: TextRules, x: CanonicalResult, y: CanonicalResult)
    requires x.canonicalUrl == y.canonicalUrl && MergeOrder(x, y) && UrlOrder(x, y)
    ensures |Deduplicated(text, [x, y])| == 1 && Deduplicated(text, [x, y])[0].title == x.title
  {
    var rows, u := [x, y], x.canonicalUrl;
    SortPair(UrlOrder, x, y);
    SortPair(MergeOrder, x, y);
    assert SortedUnique(Urls(rows)) == [u] by {
      assert Urls(rows) == [u, u] && [u, u][1..] == [u] && [u][1..] == [];
      assert SortedUnique([]) == [];
      assert SortedUnique([u]) == InsertUnique(u, []) == [u];
      assert SortedUnique([u, u]) == InsertUnique(u, [u]) == [u];
    }
    assert AtUrl(u, rows) == rows by {
      assert rows[1..] == [y] && [y][1..] == [] && AtUrl(u, []) == [];
      assert AtUrl(u, [y]) == [y];
    }
    EveryUrlHasRows(rows);
    GroupAt(rows, [u], 0);
  }
}
