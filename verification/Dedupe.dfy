module Dedupe {
  // Merging the results of concurrently running providers (dedupe.rs).
  //
  // Tasks finish in any order, so the rows of different providers reach `Deduplicate` in any
  // interleaving of whole provider blocks.  The output must not show that order.

  import opened Wrappers
  import opened Sorting
  import opened TextOrder

  /** The fields that merging copies from the representative without looking at them. */
  datatype Detail = Detail(
    resultType: string, author: Option<string>, language: Option<string>,
    fileType: Option<string>, thumbnail: Option<string>, metadata: map<string, string>)

  datatype CanonicalResult = CanonicalResult(
    canonicalUrl: string, originalUrl: string, provider: string, rank: Option<nat>,
    title: Option<string>, snippet: Option<string>, publishedAt: Option<string>, detail: Detail)

  datatype DuplicateStatus = Distinct | PossibleDuplicate | ConfirmedDuplicate

  datatype MergeReason = OriginalUrlExact | CanonicalUrlExact

  datatype DeduplicatedResult = DeduplicatedResult(
    canonicalUrl: string, originalUrl: string, originalUrls: seq<string>,
    providers: seq<string>, representativeProvider: string, ranks: map<string, Option<nat>>,
    title: Option<string>, snippet: Option<string>, alternateSnippets: seq<string>,
    publishedAt: Option<string>, detail: Detail, observedDates: seq<string>,
    status: DuplicateStatus, mergeReason: Option<MergeReason>, possibleDuplicateWith: seq<string>)

  /** Library text functions: the folded tokens of a title and the host of a URL. */
  datatype TextRules = TextRules(titleTokens: string -> set<string>, host: string -> Option<string>)

  // ---- The two sort orders ----

  predicate UrlOrder(l: CanonicalResult, r: CanonicalResult) {
    if l.canonicalUrl != r.canonicalUrl then LexLe(l.canonicalUrl, r.canonicalUrl)
    else if l.originalUrl != r.originalUrl then LexLe(l.originalUrl, r.originalUrl)
    else LexLe(l.provider, r.provider)
  }

  /** Later dates first; a missing date last. */
  predicate DateOrder(l: Option<string>, r: Option<string>) {
    r.None? || (l.Some? && LexLe(r.value, l.value))
  }

  predicate MergeOrder(l: CanonicalResult, r: CanonicalResult) {
    if l.title.Some? != r.title.Some? then l.title.Some?
    else if l.snippet.Some? != r.snippet.Some? then l.snippet.Some?
    else if l.publishedAt != r.publishedAt then DateOrder(l.publishedAt, r.publishedAt)
    else UrlOrder(l, r)
  }

  lemma UrlOrderIsTotal()
    ensures TotalPreorder(UrlOrder)
    ensures forall x, y :: UrlOrder(x, y) && UrlOrder(y, x) ==> SameKey(x, y)
  {
    forall x: CanonicalResult, y: CanonicalResult
      ensures UrlOrder(x, x) && (UrlOrder(x, y) || UrlOrder(y, x))
      ensures UrlOrder(x, y) && UrlOrder(y, x) ==> SameKey(x, y)
    {
      UrlOrderPair(x, y);
    }
    forall x, y, z | UrlOrder(x, y) && UrlOrder(y, z) ensures UrlOrder(x, z) {
      UrlOrderTransitive(x, y, z);
    }
  }

  predicate SameKey(x: CanonicalResult, y: CanonicalResult) {
    x.canonicalUrl == y.canonicalUrl && x.originalUrl == y.originalUrl && x.provider == y.provider
  }

  lemma UrlOrderPair(x: CanonicalResult, y: CanonicalResult)
    ensures UrlOrder(x, x) && (UrlOrder(x, y) || UrlOrder(y, x))
    ensures UrlOrder(x, y) && UrlOrder(y, x) ==> SameKey(x, y)
  {
    LexReflexive(x.provider);
    LexTotal(x.canonicalUrl, y.canonicalUrl);
    LexTotal(x.originalUrl, y.originalUrl);
    LexTotal(x.provider, y.provider);
    if UrlOrder(x, y) && UrlOrder(y, x) {
      if x.canonicalUrl != y.canonicalUrl { LexAntisymmetric(x.canonicalUrl, y.canonicalUrl); }
      if x.originalUrl != y.originalUrl { LexAntisymmetric(x.originalUrl, y.originalUrl); }
      LexAntisymmetric(x.provider, y.provider);
    }
  }

  lemma UrlOrderTransitive(x: CanonicalResult, y: CanonicalResult, z: CanonicalResult)
    requires UrlOrder(x, y) && UrlOrder(y, z)
    ensures UrlOrder(x, z)
  {
    if x.canonicalUrl != y.canonicalUrl || y.canonicalUrl != z.canonicalUrl {
      if x.canonicalUrl == z.canonicalUrl { LexAntisymmetric(x.canonicalUrl, y.canonicalUrl); }
      else if x.canonicalUrl != y.canonicalUrl && y.canonicalUrl != z.canonicalUrl {
        LexTransitive(x.canonicalUrl, y.canonicalUrl, z.canonicalUrl);
      }
    } else if x.originalUrl != y.originalUrl || y.originalUrl != z.originalUrl {
      if x.originalUrl == z.originalUrl { LexAntisymmetric(x.originalUrl, y.originalUrl); }
      else if x.originalUrl != y.originalUrl && y.originalUrl != z.originalUrl {
        LexTransitive(x.originalUrl, y.originalUrl, z.originalUrl);
      }
    } else {
      LexTransitive(x.provider, y.provider, z.provider);
    }
  }

  lemma DateOrderFacts(x: Option<string>, y: Option<string>, z: Option<string>)
    ensures DateOrder(x, y) || DateOrder(y, x)
    ensures DateOrder(x, y) && DateOrder(y, x) ==> x == y
    ensures DateOrder(x, y) && DateOrder(y, z) ==> DateOrder(x, z)
  {
    if x.Some? && y.Some? {
      LexTotal(x.value, y.value);
      if DateOrder(x, y) && DateOrder(y, x) { LexAntisymmetric(x.value, y.value); }
      if z.Some? && DateOrder(x, y) && DateOrder(y, z) { LexTransitive(z.value, y.value, x.value); }
    }
  }

  lemma MergeOrderIsTotal()
    ensures TotalPreorder(MergeOrder)
  {
    forall x: CanonicalResult, y: CanonicalResult
      ensures MergeOrder(x, x) && (MergeOrder(x, y) || MergeOrder(y, x))
    {
      UrlOrderPair(x, y);
      DateOrderFacts(x.publishedAt, y.publishedAt, x.publishedAt);
    }
    forall x, y, z | MergeOrder(x, y) && MergeOrder(y, z) ensures MergeOrder(x, z) {
      DateOrderFacts(x.publishedAt, y.publishedAt, z.publishedAt);
      if UrlOrder(x, y) && UrlOrder(y, z) { UrlOrderTransitive(x, y, z); }
    }
  }

  // ---- What one run computes ----

  function AtUrl(url: string, rows: seq<CanonicalResult>): seq<CanonicalResult> {
    if rows == [] then [] else (if rows[0].canonicalUrl == url then [rows[0]] else []) + AtUrl(url, rows[1..])
  }

  function Urls(rows: seq<CanonicalResult>): seq<string> {
    seq(|rows|, i requires 0 <= i < |rows| => rows[i].canonicalUrl)
  }

  function Providers(rows: seq<CanonicalResult>): seq<string> {
    seq(|rows|, i requires 0 <= i < |rows| => rows[i].provider)
  }

  function OriginalUrls(rows: seq<CanonicalResult>): seq<string> {
    seq(|rows|, i requires 0 <= i < |rows| => rows[i].originalUrl)
  }

  function Present(values: seq<Option<string>>): seq<string> {
    if values == [] then [] else (if values[0].Some? then [values[0].value] else []) + Present(values[1..])
  }

  function Snippets(rows: seq<CanonicalResult>): seq<string> {
    Present(seq(|rows|, i requires 0 <= i < |rows| => rows[i].snippet))
  }

  function Dates(rows: seq<CanonicalResult>): seq<string> {
    Present(seq(|rows|, i requires 0 <= i < |rows| => rows[i].publishedAt))
  }

  function Without(value: Option<string>, s: seq<string>): seq<string> {
    if s == [] then [] else (if value == Some(s[0]) then [] else [s[0]]) + Without(value, s[1..])
  }

  function MinRank(l: Option<nat>, r: Option<nat>): Option<nat> {
    if l.None? then r else if r.None? then l else if l.value <= r.value then l else r
  }

  /** The best rank a provider reported among `rows`. */
  function BestRank(provider: string, rows: seq<CanonicalResult>): Option<nat> {
    if rows == [] then None
    else
      var front, last := rows[..|rows| - 1], rows[|rows| - 1];
      if last.provider == provider then MinRank(BestRank(provider, front), last.rank)
      else BestRank(provider, front)
  }

  function RankTable(rows: seq<CanonicalResult>): map<string, Option<nat>> {
    map p | p in Providers(rows) :: BestRank(p, rows)
  }

  function Assemble(rows: seq<CanonicalResult>, ranks: map<string, Option<nat>>): DeduplicatedResult
    requires rows != []
  {
    var best := rows[0];
    var confirmed := |rows| > 1;
    DeduplicatedResult(
      best.canonicalUrl, best.originalUrl, SortedUnique(OriginalUrls(rows)),
      SortedUnique(Providers(rows)), best.provider, ranks,
      best.title, best.snippet, Without(best.snippet, SortedUnique(Snippets(rows))),
      best.publishedAt, best.detail, SortedUnique(Dates(rows)),
      if confirmed then ConfirmedDuplicate else Distinct,
      if !confirmed then None
      else if forall i :: 0 <= i < |rows| ==> rows[i].originalUrl == best.originalUrl then Some(OriginalUrlExact)
      else Some(CanonicalUrlExact),
      [])
  }

  function MergeGroup(group: seq<CanonicalResult>): DeduplicatedResult
    requires group != []
  {
    SortByPermutes(MergeOrder, group);
    var rows := SortBy(MergeOrder, group);
    Assemble(rows, RankTable(rows))
  }

  predicate Similar(text: TextRules, l: DeduplicatedResult, r: DeduplicatedResult) {
    && text.host(l.canonicalUrl) != text.host(r.canonicalUrl)
    && l.title.Some? && r.title.Some?
    && |l.title.value| >= 20 && |r.title.value| >= 20
    && var a, b := text.titleTokens(l.title.value), text.titleTokens(r.title.value);
    && |a| >= 4 && |b| >= 4
    && 10 * |a * b| >= 9 * |a + b|  // a Jaccard index of at least 0.9, as an exact fraction
  }

  lemma SimilarIsSymmetric(text: TextRules, l: DeduplicatedResult, r: DeduplicatedResult)
    ensures Similar(text, l, r) == Similar(text, r, l)
  {
    if l.title.Some? && r.title.Some? {
      var a, b := text.titleTokens(l.title.value), text.titleTokens(r.title.value);
      assert a * b == b * a && a + b == b + a;
    }
  }

  /** URLs of the first `n` entries, other than entry `i`, whose titles resemble that of entry `i`. */
  function Lookalikes(text: TextRules, s: seq<DeduplicatedResult>, i: nat, n: nat): seq<string>
    requires i < |s| && n <= |s|
  {
    if n == 0 then []
    else Lookalikes(text, s, i, n - 1) +
         (if n - 1 != i && Similar(text, s[i], s[n - 1]) then [s[n - 1].canonicalUrl] else [])
  }

  function Mark(d: DeduplicatedResult, urls: seq<string>): DeduplicatedResult {
    d.(possibleDuplicateWith := d.possibleDuplicateWith + urls,
       status := if urls != [] && d.status == Distinct then PossibleDuplicate else d.status)
  }

  function MarkAll(text: TextRules, s: seq<DeduplicatedResult>): seq<DeduplicatedResult> {
    seq(|s|, i requires 0 <= i < |s| => Mark(s[i], Lookalikes(text, s, i, |s|)))
  }

  function Groups(rows: seq<CanonicalResult>, urls: seq<string>): (r: seq<DeduplicatedResult>)
    requires forall u :: u in urls ==> AtUrl(u, rows) != []
    ensures |r| == |urls|
  {
    if urls == [] then []
    else
      var last := |urls| - 1;
      Groups(rows, urls[..last]) + [MergeGroup(AtUrl(urls[last], rows))]
  }

  lemma {:induction false} AtUrlMembers(url: string, rows: seq<CanonicalResult>)
    ensures forall x :: x in AtUrl(url, rows) <==> x in rows && x.canonicalUrl == url
  {
    if rows != [] {
      AtUrlMembers(url, rows[1..]);
    }
  }

  lemma EveryUrlHasRows(rows: seq<CanonicalResult>)
    ensures forall u :: u in SortedUnique(Urls(rows)) ==> AtUrl(u, rows) != []
  {
    SortedUniqueMembers(Urls(rows));
    forall u | u in Urls(rows) ensures AtUrl(u, rows) != [] {
      var i :| 0 <= i < |rows| && Urls(rows)[i] == u;
      AtUrlMembers(u, rows);
      assert rows[i] in AtUrl(u, rows);
    }
  }

  /** The result of `Deduplicate`, as a function of its input. */
  function Deduplicated(text: TextRules, results: seq<CanonicalResult>): seq<DeduplicatedResult> {
    var rows := SortBy(UrlOrder, results);
    EveryUrlHasRows(rows);
    MarkAll(text, Groups(rows, SortedUnique(Urls(rows))))
  }

  // ---- The algorithm ----

  lemma RankTableStep(rows: seq<CanonicalResult>, row: CanonicalResult)
    ensures RankTable(rows + [row]) ==
      RankTable(rows)[row.provider :=
        if row.provider in Providers(rows) then MinRank(RankTable(rows)[row.provider], row.rank) else row.rank]
  {
    var all := rows + [row];
    assert all[..|rows|] == rows;
    assert Providers(all) == Providers(rows) + [row.provider];
    if row.provider !in Providers(rows) { AbsentProviderHasNoRank(row.provider, rows); }
    forall p ensures BestRank(p, all) == if p == row.provider then MinRank(BestRank(p, rows), row.rank) else BestRank(p, rows) {}
  }

  method RankProviders(rows: seq<CanonicalResult>) returns (ranks: map<string, Option<nat>>)
    ensures ranks == RankTable(rows)
  {
    ranks := map[];
    for i := 0 to |rows|
      invariant ranks == RankTable(rows[..i])
    {
      var row := rows[i];
      RankTableStep(rows[..i], row);
      assert rows[..i + 1] == rows[..i] + [row];
      if row.provider in ranks {
        ranks := ranks[row.provider := MinRank(ranks[row.provider], row.rank)];
      } else {
        ranks := ranks[row.provider := row.rank];
      }
    }
    assert rows[..|rows|] == rows;
  }

  method MergeConfirmedGroup(group: seq<CanonicalResult>) returns (merged: DeduplicatedResult)
    requires group != []
    ensures merged == MergeGroup(group)
  {
    SortByPermutes(MergeOrder, group);
    var rows := SortBy(MergeOrder, group);
    var ranks := RankProviders(rows);
    merged := Assemble(rows, ranks);
  }

  lemma {:induction false} AbsentProviderHasNoRank(provider: string, rows: seq<CanonicalResult>)
    requires provider !in Providers(rows)
    ensures BestRank(provider, rows).None?
  {
    if rows != [] {
      var n := |rows| - 1;
      assert Providers(rows)[n] == rows[n].provider;
      assert Providers(rows)[..n] == Providers(rows[..n]);
      AbsentProviderHasNoRank(provider, rows[..n]);
    }
  }

  /** Entry `i` after it was compared with the first `n` entries. */
  function Entry(text: TextRules, s: seq<DeduplicatedResult>, i: nat, n: nat): DeduplicatedResult
    requires i < |s| && n <= |s|
  {
    Mark(s[i], Lookalikes(text, s, i, n))
  }

  lemma EntryStep(text: TextRules, s: seq<DeduplicatedResult>, i: nat, n: nat)
    requires i < |s| && n < |s|
    ensures Entry(text, s, i, 0) == s[i]
    ensures Entry(text, s, i, n + 1) ==
      if n != i && Similar(text, s[i], s[n]) then Mark(Entry(text, s, i, n), [s[n].canonicalUrl])
      else Entry(text, s, i, n)
  {
    var d, urls, more := s[i], Lookalikes(text, s, i, n), [s[n].canonicalUrl];
    assert d.possibleDuplicateWith + [] == d.possibleDuplicateWith;
    assert d.possibleDuplicateWith + (urls + more) == d.possibleDuplicateWith + urls + more;
    assert urls + [] == urls;
  }

  /** How many entries the nested loops have compared with entry `i` when they stand at (l, r). */
  function Compared(n: nat, l: nat, r: nat, i: nat): nat
    requires l <= n && r <= n && i < n
  {
    if i < l then n
    else if i == l then r
    else if i < r && l < n then l + 1
    else l
  }

  /** The entries as the nested loops leave them when they stand at (l, r). */
  function MarkedSoFar(text: TextRules, s: seq<DeduplicatedResult>, l: nat, r: nat): (marked: seq<DeduplicatedResult>)
    requires l <= |s| && r <= |s|
    ensures |marked| == |s|
    ensures forall i :: 0 <= i < |s| ==> marked[i] == Entry(text, s, i, Compared(|s|, l, r, i))
  {
    seq(|s|, i requires 0 <= i < |s| => Entry(text, s, i, Compared(|s|, l, r, i)))
  }

  function ComparedPair(text: TextRules, now: seq<DeduplicatedResult>, l: nat, r: nat): seq<DeduplicatedResult>
    requires l < r < |now|
  {
    if Similar(text, now[l], now[r])
    then now[l := Mark(now[l], [now[r].canonicalUrl])][r := Mark(now[r], [now[l].canonicalUrl])]
    else now
  }

  lemma ComparePairAdvances(text: TextRules, s: seq<DeduplicatedResult>, l: nat, r: nat)
    requires l < r < |s|
    ensures ComparedPair(text, MarkedSoFar(text, s, l, r), l, r) == MarkedSoFar(text, s, l, r + 1)
  {
    var now, next := MarkedSoFar(text, s, l, r), MarkedSoFar(text, s, l, r + 1);
    var like := Similar(text, s[l], s[r]);
    assert Similar(text, s[r], s[l]) == like by { SimilarIsSymmetric(text, s[l], s[r]); }
    var L, R := [s[l].canonicalUrl], [s[r].canonicalUrl];
    assert next[l] == if like then Mark(now[l], R) else now[l] by { EntryStep(text, s, l, r); }
    assert next[r] == if like then Mark(now[r], L) else now[r] by { EntryStep(text, s, r, l); }
    forall i | 0 <= i < |s| && i != l && i != r ensures next[i] == now[i] {
      assert Compared(|s|, l, r + 1, i) == Compared(|s|, l, r, i);
    }
  }

  lemma StartRow(text: TextRules, s: seq<DeduplicatedResult>, l: nat)
    requires l < |s|
    ensures MarkedSoFar(text, s, l, l) == MarkedSoFar(text, s, l, l + 1)
    ensures MarkedSoFar(text, s, l, |s|) == MarkedSoFar(text, s, l + 1, l + 1)
  {
    EntryStep(text, s, l, l);
  }

  method ComparePair(text: TextRules, results: array<DeduplicatedResult>, l: nat, r: nat)
    requires l < r < results.Length
    modifies results
    ensures results[..] == ComparedPair(text, old(results[..]), l, r)
  {
    if Similar(text, results[l], results[r]) {
      var leftUrl, rightUrl := results[l].canonicalUrl, results[r].canonicalUrl;
      results[l] := Mark(results[l], [rightUrl]);
      results[r] := Mark(results[r], [leftUrl]);
    }
  }

  method MarkPossibleDuplicates(text: TextRules, results: array<DeduplicatedResult>)
    modifies results
    ensures results[..] == MarkAll(text, old(results[..]))
  {
    ghost var was := results[..];
    var n := results.Length;
    NothingMarkedYet(text, was);
    for l := 0 to n
      invariant results[..] == MarkedSoFar(text, was, l, l)
    {
      StartRow(text, was, l);
      for r := l + 1 to n
        invariant results[..] == MarkedSoFar(text, was, l, r)
      {
        ComparePairAdvances(text, was, l, r);
        ComparePair(text, results, l, r);
      }
    }
    AllMarked(text, was);
  }

  lemma NothingMarkedYet(text: TextRules, s: seq<DeduplicatedResult>)
    ensures MarkedSoFar(text, s, 0, 0) == s
  {
    forall i | 0 <= i < |s| ensures Entry(text, s, i, 0) == s[i] {
      EntryStep(text, s, i, 0);
    }
  }

  lemma AllMarked(text: TextRules, s: seq<DeduplicatedResult>)
    ensures MarkedSoFar(text, s, |s|, |s|) == MarkAll(text, s)
  {
  }

  method GroupByUrl(rows: seq<CanonicalResult>) returns (groups: map<string, seq<CanonicalResult>>)
    ensures forall u :: u in groups <==> u in Urls(rows)
    ensures forall u :: u in groups ==> groups[u] == AtUrl(u, rows)
  {
    groups := map[];
    for i := 0 to |rows|
      invariant forall u :: u in groups <==> u in Urls(rows[..i])
      invariant forall u :: u in groups ==> groups[u] == AtUrl(u, rows[..i])
    {
      var row := rows[i];
      assert rows[..i + 1] == rows[..i] + [row];
      assert Urls(rows[..i + 1]) == Urls(rows[..i]) + [row.canonicalUrl];
      if row.canonicalUrl !in groups { NoRowsAtAbsentUrl(row.canonicalUrl, rows[..i]); }
      forall u ensures AtUrl(u, rows[..i + 1]) == AtUrl(u, rows[..i]) + (if row.canonicalUrl == u then [row] else []) {
        AtUrlAppend(u, rows[..i], row);
      }
      var group := if row.canonicalUrl in groups then groups[row.canonicalUrl] else [];
      groups := groups[row.canonicalUrl := group + [row]];
    }
    assert rows[..|rows|] == rows;
  }

  method MergeGroups(rows: seq<CanonicalResult>) returns (merged: seq<DeduplicatedResult>)
    requires forall u :: u in SortedUnique(Urls(rows)) ==> AtUrl(u, rows) != []
    ensures merged == Groups(rows, SortedUnique(Urls(rows)))
  {
    var groups := GroupByUrl(rows);
    var urls := SortedUnique(Urls(rows));
    SortedUniqueMembers(Urls(rows));
    merged := [];
    for i := 0 to |urls|
      invariant merged == Groups(rows, urls[..i])
    {
      var one := MergeConfirmedGroup(groups[urls[i]]);
      merged := merged + [one];
      assert urls[..i + 1][..i] == urls[..i];
    }
    assert urls[..|urls|] == urls;
  }

  method Deduplicate(text: TextRules, results: seq<CanonicalResult>) returns (output: seq<DeduplicatedResult>)
    ensures output == Deduplicated(text, results)
  {
    var rows := SortBy(UrlOrder, results);
    EveryUrlHasRows(rows);
    var merged := MergeGroups(rows);
    var slots := new DeduplicatedResult[|merged|](i requires 0 <= i < |merged| => merged[i]);
    assert slots[..] == merged;
    MarkPossibleDuplicates(text, slots);
    output := slots[..];
  }

  lemma {:induction false} NoRowsAtAbsentUrl(url: string, rows: seq<CanonicalResult>)
    requires url !in Urls(rows)
    ensures AtUrl(url, rows) == []
  {
    if rows != [] {
      assert Urls(rows)[0] == rows[0].canonicalUrl;
      assert Urls(rows)[1..] == Urls(rows[1..]);
      NoRowsAtAbsentUrl(url, rows[1..]);
    }
  }

  lemma {:induction false} AtUrlAppend(url: string, rows: seq<CanonicalResult>, row: CanonicalResult)
    ensures AtUrl(url, rows + [row]) == AtUrl(url, rows) + (if row.canonicalUrl == url then [row] else [])
  {
    if rows != [] {
      assert (rows + [row])[1..] == rows[1..] + [row];
      AtUrlAppend(url, rows[1..], row);
    }
  }
}
