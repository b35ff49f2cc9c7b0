module CaptureProperties {
  // What every capture run leaves behind (execute_supplemental_v4_capture.py).

  import opened Wrappers
  import opened Counting
  import opened CaptureGate
  import opened CaptureRun

  function Urls(rows: seq<Row>): seq<string> { seq(|rows|, i requires 0 <= i < |rows| => rows[i].url) }

  /** A row the frozen contract allows. */
  predicate Allowed(rules: Rules, r: Row) {
    && r.query.id in rules.queries && rules.queries[r.query.id] == r.query
    && r.rank in r.query.permitted && r.title != "" && r.snippet != ""
    && r.url !in rules.v1 && r.url !in rules.supplemental && r.url !in rules.v3 && r.url !in rules.historical
  }

  /** Accepted addresses are new and pairwise different, and no arm exceeds its quota. */
  ghost predicate Clean(rules: Rules, g: Gate) {
    && AllDifferent(Urls(g.accepted)) && g.current == SetOf(Urls(g.accepted))
    && (forall r :: r in g.accepted ==> Allowed(rules, r))
    && Filled(g, Treatment) <= TARGET_PER_ARM && Filled(g, Control) <= TARGET_PER_ARM
  }

  function WithReason(reason: Reason): Entry -> bool { (e: Entry) => e.reason == reason }

  function Tallied(g: Gate, reason: Reason): nat { if reason in g.rejected then g.rejected[reason] else 0 }

  /** The ledger has one entry per judged result, and the counters agree with it. */
  ghost predicate Accounted(g: Gate) {
    && Count(g.ledger, WithReason(Accepted)) == |g.accepted| && Tallied(g, Accepted) == 0
    && (forall reason :: reason != Accepted ==> Tallied(g, reason) == Count(g.ledger, WithReason(reason)))
  }

  lemma DistinctAppended<T>(s: seq<T>, x: T)
    requires AllDifferent(s) && x !in s
    ensures AllDifferent(s + [x])
  {}

  lemma AdmitKeepsClean(rules: Rules, g: Gate, id: string, attempt: nat, rank: nat, item: Item)
    requires Clean(rules, g) && forall q :: q in rules.queries ==> rules.queries[q].id == q
    ensures Clean(rules, Admit(rules, g, id, attempt, rank, item))
  {
    hide Count;
    if Judge(rules, g, id, rank, item) == Accepted {
      var row := Row(rules.queries[id], rank, item.url.value, item.title, item.snippet);
      CountAppended(g.accepted, row, InArm(Treatment));
      CountAppended(g.accepted, row, InArm(Control));
      assert Urls(g.accepted + [row]) == Urls(g.accepted) + [row.url];
      DistinctAppended(Urls(g.accepted), row.url);
    }
  }

  lemma AdmitKeepsAccounts(rules: Rules, g: Gate, id: string, attempt: nat, rank: nat, item: Item)
    requires Accounted(g)
    ensures Accounted(Admit(rules, g, id, attempt, rank, item))
    ensures |Admit(rules, g, id, attempt, rank, item).ledger| == |g.ledger| + 1
  {
    hide Count, Judge, ShownUrl;
    var reason := Judge(rules, g, id, rank, item);
    var entry := Entry(id, attempt, rank, ShownUrl(rules, id, rank, item), reason);
    forall r ensures Count(g.ledger + [entry], WithReason(r)) == Count(g.ledger, WithReason(r)) + if r == reason then 1 else 0 {
      CountAppended(g.ledger, entry, WithReason(r));
    }
    if reason == Accepted { AcceptedIsPlaced(rules, g, id, rank, item); }
  }

  lemma AcceptedIsPlaced(rules: Rules, g: Gate, id: string, rank: nat, item: Item)
    requires Judge(rules, g, id, rank, item) == Accepted
    ensures id in rules.queries && item.url.Some?
  {}

  lemma {:induction false} ResponseKeeps(rules: Rules, g: Gate, id: string, attempt: nat, items: seq<Item>, n: nat)
    requires n <= |items| && Clean(rules, g) && Accounted(g) && forall q :: q in rules.queries ==> rules.queries[q].id == q
    ensures var h := AdmitFirst(rules, g, id, attempt, items, n);
      Clean(rules, h) && Accounted(h) && |h.ledger| == |g.ledger| + n
  {
    hide Clean, Accounted, Admit;
    if n > 0 {
      ResponseKeeps(rules, g, id, attempt, items, n - 1);
      var h := AdmitFirst(rules, g, id, attempt, items, n - 1);
      AdmitKeepsClean(rules, h, id, attempt, n, items[n - 1]);
      AdmitKeepsAccounts(rules, h, id, attempt, n, items[n - 1]);
    }
  }

  /** Everything the rejection counters hold, reason by reason. */
  function Rejections(g: Gate): nat {
    Tallied(g, OutsideFrozenUniverse) + Tallied(g, OutsideAllowedDepth) + Tallied(g, InvalidResult) +
    Tallied(g, DuplicateCurrent) + Tallied(g, OverlapV1) + Tallied(g, OverlapSupplemental) + Tallied(g, OverlapV3) +
    Tallied(g, HistoricalOverlap) + Tallied(g, TreatmentTargetFilled) + Tallied(g, ControlTargetFilled)
  }

  lemma {:induction false} ReasonsPartition(ledger: seq<Entry>)
    ensures |ledger| == Count(ledger, WithReason(Accepted)) +
      Count(ledger, WithReason(OutsideFrozenUniverse)) + Count(ledger, WithReason(OutsideAllowedDepth)) +
      Count(ledger, WithReason(InvalidResult)) + Count(ledger, WithReason(DuplicateCurrent)) +
      Count(ledger, WithReason(OverlapV1)) + Count(ledger, WithReason(OverlapSupplemental)) +
      Count(ledger, WithReason(OverlapV3)) + Count(ledger, WithReason(HistoricalOverlap)) +
      Count(ledger, WithReason(TreatmentTargetFilled)) + Count(ledger, WithReason(ControlTargetFilled))
  {
    if ledger != [] { ReasonsPartition(ledger[..|ledger| - 1]); }
  }

  /** The ledger is as long as the accepted rows and the rejection counters together. */
  lemma LedgerSplits(g: Gate)
    requires Accounted(g)
    ensures |g.ledger| == |g.accepted| + Rejections(g)
  {
    hide Count;
    ReasonsPartition(g.ledger);
  }

  /** How many results the first `k` queries put before the gate. */
  function Judged(w: World, k: nat): nat {
    if k == 0 then 0
    else
      Judged(w, k - 1) +
      match Fetched(w, k - 1, LastAttempt(w, k - 1))
      case Results(items) => Shown(items)
      case _ => 0
  }

  /**
   After any number of queries, whatever the endpoint answered: accepted addresses are pairwise
   distinct and outside every exclusion set, no quota is exceeded, and every judged result has one
   ledger entry and is either an accepted row or counted under one rejection reason.
   */
  lemma {:induction false} EveryRunIsClean(rules: Rules, queries: seq<Query>, w: World, k: nat)
    requires k <= |queries| && forall q :: q in rules.queries ==> rules.queries[q].id == q
    ensures var g := After(rules, queries, w, k);
      && Clean(rules, g) && Accounted(g)
      && |g.ledger| == Judged(w, k) == |g.accepted| + Rejections(g)
  {
    hide Clean, Accounted, AdmitFirst, Rejections;
    if k == 0 {
      EmptyIsClean(rules);
    } else {
      EveryRunIsClean(rules, queries, w, k - 1);
      var g, index := After(rules, queries, w, k - 1), k - 1;
      match Fetched(w, index, LastAttempt(w, index))
      case Results(items) => ResponseKeeps(rules, g, queries[index].id, LastAttempt(w, index), items, Shown(items));
      case _ =>
    }
    LedgerSplits(After(rules, queries, w, k));
  }

  lemma EmptyIsClean(rules: Rules)
    ensures Clean(rules, EMPTY) && Accounted(EMPTY)
  {}

  /** Both arms are full exactly when each holds its target, and then every accepted row is in one of them. */
  lemma CompleteRunIsExact(rules: Rules, g: Gate)
    requires Clean(rules, g)
    ensures Full(g) <==> Filled(g, Treatment) == Filled(g, Control) == 474
    ensures Full(g) <==> |g.accepted| == 948
  {
    ArmsPartition(g.accepted);
  }

  lemma {:induction false} ArmsPartition(rows: seq<Row>)
    ensures Count(rows, InArm(Treatment)) + Count(rows, InArm(Control)) == |rows|
  {
    if rows != [] { ArmsPartition(rows[..|rows| - 1]); }
  }

  // ---- Which results are accepted ----

  predicate AmongAccepted(g: Gate, url: string) { exists r :: r in g.accepted && r.url == url }

  lemma CurrentIsAccepted(rules: Rules, g: Gate, url: string)
    requires Clean(rules, g)
    ensures url in g.current <==> AmongAccepted(g, url)
  {
    if url in g.current {
      var k :| 0 <= k < |g.accepted| && Urls(g.accepted)[k] == url;
      assert g.accepted[k] in g.accepted;
    }
    if r :| r in g.accepted && r.url == url {
      var k :| 0 <= k < |g.accepted| && g.accepted[k] == r;
      assert Urls(g.accepted)[k] == url;
    }
  }

  /** The tests a result of a known query must pass, in order. */
  ghost predicate Complete(item: Item) { item.url.Some? && item.title != "" && item.snippet != "" }

  ghost predicate New(g: Gate, item: Item) { Complete(item) && !AmongAccepted(g, item.url.value) }

  ghost predicate Unseen(rules: Rules, url: string) {
    url !in rules.v1 && url !in rules.supplemental && url !in rules.v3 && url !in rules.historical
  }

  /** A result is accepted exactly when its query asked for its rank, it is complete and new, and its arm has room. */
  lemma AcceptedIff(rules: Rules, g: Gate, id: string, rank: nat, item: Item)
    requires Clean(rules, g)
    ensures Judge(rules, g, id, rank, item) == Accepted <==>
      && id in rules.queries && rank in rules.queries[id].permitted
      && New(g, item) && Unseen(rules, item.url.value)
      && Count(g.accepted, (r: Row) => r.query.arm == rules.queries[id].arm) < 474
  {
    hide Count, Clean, AmongAccepted;
    if id in rules.queries && item.url.Some? {
      CurrentIsAccepted(rules, g, item.url.value);
      CountSame(g.accepted, InArm(rules.queries[id].arm), (r: Row) => r.query.arm == rules.queries[id].arm);
    }
  }

  /** Why a result is rejected: for each reason, with those that come before it ruled out. */
  lemma RejectedBecause(rules: Rules, g: Gate, id: string, rank: nat, item: Item)
    requires Clean(rules, g)
    ensures var reason := Judge(rules, g, id, rank, item);
      && (reason == OutsideFrozenUniverse <==> id !in rules.queries)
      && (reason == OutsideAllowedDepth <==> id in rules.queries && rank !in rules.queries[id].permitted)
      && (id in rules.queries && rank in rules.queries[id].permitted ==>
          && (reason == InvalidResult <==> !Complete(item))
          && (reason == DuplicateCurrent <==> Complete(item) && !New(g, item))
          && (reason == OverlapV1 <==> New(g, item) && item.url.value in rules.v1)
          && (reason == OverlapSupplemental <==>
              New(g, item) && item.url.value !in rules.v1 && item.url.value in rules.supplemental)
          && (reason == OverlapV3 <==>
              New(g, item) && item.url.value !in rules.v1 + rules.supplemental && item.url.value in rules.v3)
          && (reason == HistoricalOverlap <==>
              New(g, item) && item.url.value !in rules.v1 + rules.supplemental + rules.v3 && item.url.value in rules.historical)
          && (reason == TreatmentTargetFilled || reason == ControlTargetFilled <==>
              New(g, item) && Unseen(rules, item.url.value) && Filled(g, rules.queries[id].arm) >= 474)
          && (reason == TreatmentTargetFilled ==> rules.queries[id].arm == Treatment)
          && (reason == ControlTargetFilled ==> rules.queries[id].arm == Control))
  {
    hide Filled, Clean, AmongAccepted;
    if item.url.Some? { CurrentIsAccepted(rules, g, item.url.value); }
  }

  /** What one result leaves behind. */
  lemma AdmitRecords(rules: Rules, g: Gate, id: string, attempt: nat, rank: nat, item: Item)
    ensures var h := Admit(rules, g, id, attempt, rank, item);
      var reason := Judge(rules, g, id, rank, item);
      && |h.ledger| == |g.ledger| + 1 && h.ledger[..|g.ledger|] == g.ledger
      && var e := h.ledger[|g.ledger|];
      && e.queryId == id && e.attempt == attempt && e.rank == rank && e.reason == reason
      && (e.url.Some? ==> e.url == item.url) && (e.url.None? && item.url.Some? ==> reason in {OutsideFrozenUniverse, OutsideAllowedDepth})
      && (reason in {OutsideFrozenUniverse, OutsideAllowedDepth} ==> e.url.None?)
      && (reason != Accepted ==> h.accepted == g.accepted && h.current == g.current)
      && (reason == Accepted ==>
          && |h.accepted| == |g.accepted| + 1 && h.accepted[..|g.accepted|] == g.accepted
          && var row := h.accepted[|g.accepted|];
          && row.query == rules.queries[id] && row.rank == rank && Some(row.url) == item.url
          && row.title == item.title && row.snippet == item.snippet)
  {
    hide Filled;
  }

  /** The answer that counts for a query: the second one if the first attempt timed out or failed. */
  function Answer(w: World, index: nat): (nat, Fetch) {
    match Fetched(w, index, 1)
    case Timeout => (2, Fetched(w, index, 2))
    case HttpFailure => (2, Fetched(w, index, 2))
    case first => (1, first)
  }

  ghost predicate Entered(before: Gate, after: Gate, id: string, attempt: nat, n: nat) {
    && |after.ledger| == |before.ledger| + n && before.ledger <= after.ledger
    && forall k :: |before.ledger| <= k < |after.ledger| ==>
      var e := after.ledger[k]; e.queryId == id && e.attempt == attempt && e.rank == k - |before.ledger| + 1
  }

  lemma {:induction false} ResponseIsEntered(rules: Rules, g: Gate, id: string, attempt: nat, items: seq<Item>, n: nat)
    requires n <= |items|
    ensures Entered(g, AdmitFirst(rules, g, id, attempt, items, n), id, attempt, n)
  {
    hide Admit, Judge;
    if n > 0 {
      ResponseIsEntered(rules, g, id, attempt, items, n - 1);
      var h := AdmitFirst(rules, g, id, attempt, items, n - 1);
      AdmitRecords(rules, h, id, attempt, n, items[n - 1]);
      var l := Admit(rules, h, id, attempt, n, items[n - 1]).ledger;
      assert forall k :: 0 <= k < |h.ledger| ==> l[k] == l[..|h.ledger|][k] == h.ledger[k];
    }
  }

  /** In every run query `k` adds its first three results to the ledger, ranked from one, if the answer that counts has any. */
  lemma QueryIsEntered(rules: Rules, queries: seq<Query>, w: World, k: nat)
    requires k < |queries|
    ensures var before, after := After(rules, queries, w, k), After(rules, queries, w, k + 1);
      match Answer(w, k)
      case (attempt, Results(items)) =>
        Entered(before, after, queries[k].id, attempt, if |items| <= 3 then |items| else 3)
      case _ => after == before
  {
    hide AdmitFirst, Entered;
    var g := After(rules, queries, w, k);
    match Fetched(w, k, LastAttempt(w, k))
    case Results(items) => ResponseIsEntered(rules, g, queries[k].id, LastAttempt(w, k), items, Shown(items));
    case _ =>
  }

  /** How often queries were sent a second time: once for every first attempt that timed out or failed. */
  lemma {:induction false} RetriesAre(w: World, k: nat)
    ensures Retries(w, k) == |set i | 0 <= i < k && (Fetched(w, i, 1) == Timeout || Fetched(w, i, 1) == HttpFailure)|
  {
    if k > 0 {
      RetriesAre(w, k - 1);
      var before := set i | 0 <= i < k - 1 && (Fetched(w, i, 1) == Timeout || Fetched(w, i, 1) == HttpFailure);
      var now := set i | 0 <= i < k && (Fetched(w, i, 1) == Timeout || Fetched(w, i, 1) == HttpFailure);
      assert now == before + if Retried(w, k - 1) then {k - 1} else {};
    }
  }

  // ---- Stopping early ----

  lemma FullAcceptsNothing(rules: Rules, g: Gate, id: string, attempt: nat, rank: nat, item: Item)
    requires Full(g)
    ensures Admit(rules, g, id, attempt, rank, item).accepted == g.accepted
  {}

  lemma {:induction false} FullResponseAddsNothing(rules: Rules, g: Gate, id: string, attempt: nat, items: seq<Item>, n: nat)
    requires n <= |items| && Full(g)
    ensures AdmitFirst(rules, g, id, attempt, items, n).accepted == g.accepted
  {
    hide Admit;
    if n > 0 {
      FullResponseAddsNothing(rules, g, id, attempt, items, n - 1);
      FullAcceptsNothing(rules, AdmitFirst(rules, g, id, attempt, items, n - 1), id, attempt, n, items[n - 1]);
    }
  }

  /** Stopping when both arms are full loses nothing: the rest of the universe would add no row. */
  lemma {:induction false} StoppingLosesNothing(rules: Rules, queries: seq<Query>, w: World, k: nat, n: nat)
    requires k <= n <= |queries| && Full(After(rules, queries, w, k))
    ensures After(rules, queries, w, n).accepted == After(rules, queries, w, k).accepted
    decreases n
  {
    hide AdmitFirst;
    if k < n {
      StoppingLosesNothing(rules, queries, w, k, n - 1);
      var g, index := After(rules, queries, w, n - 1), n - 1;
      match Fetched(w, index, LastAttempt(w, index))
      case Results(items) =>
        FullResponseAddsNothing(rules, g, queries[index].id, LastAttempt(w, index), items, Shown(items));
      case _ =>
    }
  }

  // ---- Row identity ----

  /** Rows of different queries or ranks; `ids` are the queries seen so far, `last` the highest rank of the current one. */
  ghost predicate Keyed(g: Gate, ids: set<string>, id: string, last: nat) {
    && (forall i, j :: 0 <= i < j < |g.accepted| ==>
        g.accepted[i].query.id != g.accepted[j].query.id || g.accepted[i].rank != g.accepted[j].rank)
    && (forall r :: r in g.accepted ==> r.query.id in ids || (r.query.id == id && 1 <= r.rank <= last))
  }

  lemma AdmitKeepsKeyed(rules: Rules, g: Gate, ids: set<string>, id: string, attempt: nat, rank: nat, item: Item)
    requires rank >= 1 && id !in ids && Keyed(g, ids, id, rank - 1) && forall q :: q in rules.queries ==> rules.queries[q].id == q
    ensures Keyed(Admit(rules, g, id, attempt, rank, item), ids, id, rank)
  {
    hide Judge;
    var h := Admit(rules, g, id, attempt, rank, item);
    forall i, j | 0 <= i < j < |h.accepted|
      ensures h.accepted[i].query.id != h.accepted[j].query.id || h.accepted[i].rank != h.accepted[j].rank
    {
      if j == |g.accepted| { assert g.accepted[i] in g.accepted; }
    }
  }

  lemma {:induction false} ResponseKeepsKeyed(rules: Rules, g: Gate, ids: set<string>, id: string, attempt: nat, items: seq<Item>, n: nat)
    requires n <= |items| && id !in ids && Keyed(g, ids, id, 0) && forall q :: q in rules.queries ==> rules.queries[q].id == q
    ensures Keyed(AdmitFirst(rules, g, id, attempt, items, n), ids, id, n)
  {
    hide Admit, Keyed;
    if n > 0 {
      ResponseKeepsKeyed(rules, g, ids, id, attempt, items, n - 1);
      AdmitKeepsKeyed(rules, AdmitFirst(rules, g, id, attempt, items, n - 1), ids, id, attempt, n, items[n - 1]);
    }
  }

  function QueryIds(queries: seq<Query>): set<string> { set q | q in queries :: q.id }

  /** No query contributes two rows of the same rank, so row identifiers built from them are unique. */
  lemma {:induction false} RowsAreUnique(rules: Rules, queries: seq<Query>, w: World, k: nat)
    requires k <= |queries| && forall q :: q in rules.queries ==> rules.queries[q].id == q
    requires forall i, j :: 0 <= i < j < |queries| ==> queries[i].id != queries[j].id
    ensures Keyed(After(rules, queries, w, k), QueryIds(queries[..k]), "", 0)
  {
    if k > 0 {
      hide AdmitFirst;
      RowsAreUnique(rules, queries, w, k - 1);
      var g, index := After(rules, queries, w, k - 1), k - 1;
      var id := queries[index].id;
      IdsGrow(queries, index);
      assert Keyed(g, QueryIds(queries[..index]), id, 0);
      match Fetched(w, index, LastAttempt(w, index))
      case Results(items) =>
        ResponseKeepsKeyed(rules, g, QueryIds(queries[..index]), id, LastAttempt(w, index), items, Shown(items));
      case _ =>
    }
  }

  lemma IdsGrow(queries: seq<Query>, index: nat)
    requires index < |queries| && forall i, j :: 0 <= i < j < |queries| ==> queries[i].id != queries[j].id
    ensures QueryIds(queries[..index + 1]) == QueryIds(queries[..index]) + {queries[index].id}
    ensures queries[index].id !in QueryIds(queries[..index])
  {
    assert queries[..index + 1] == queries[..index] + [queries[index]];
  }
}
