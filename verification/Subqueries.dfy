module Subqueries {
  // The subqueries a deep run sends back to search (deep.rs): two at most, each paid for in advance.

  import opened Wrappers
  import opened Budgets
  import opened Counting
  import opened Deep
  import opened Numbering

  datatype Expansion = Completed(failed: bool, urls: seq<string>) | Errored | TimedOut

  /** A proposed subquery, whether it parses, and what the deadline and the executor make of it. */
  datatype Proposal = Proposal(estimatedCost: Option<nat>, parses: bool, expired: bool, expansion: Expansion)

  datatype Status = Proposed | Invalid | RejectedBudget | Failed | Executed

  datatype SubQuery = SubQuery(status: Status, estimatedCost: nat, actualGain: nat, results: seq<string>)

  const U32_SIZE := 0x1_0000_0000

  /** The URLs not known before, in order; each is known from then on. */
  function Unknown(urls: seq<string>, known: set<string>): seq<string> {
    if urls == [] then []
    else
      var before := Unknown(urls[..|urls| - 1], known);
      var url := urls[|urls| - 1];
      if url in known || url in before then before else before + [url]
  }

  datatype Progress = Progress(subqueries: seq<SubQuery>, snapshot: Snapshot, known: set<string>, charges: seq<Charge>)

  function CostOf(p: Proposal): nat { if p.estimatedCost.Some? then p.estimatedCost.value else 1 }

  function Add(progress: Progress, q: SubQuery): Progress { progress.(subqueries := progress.subqueries + [q]) }

  function AfterProposal(executor: bool, p: Proposal, progress: Progress): Progress {
    var cost := CostOf(p);
    if !p.parses then Add(progress, SubQuery(Invalid, cost, 0, []))
    else if !executor then Add(progress, SubQuery(Proposed, cost, 0, []))
    else if p.expired then Add(progress, SubQuery(RejectedBudget, cost, 0, []))
    else
      var (reserved, left) := ReserveSubqueryOf(progress.snapshot, cost);
      if reserved.Err? then Add(progress, SubQuery(RejectedBudget, cost, 0, []))
      else
        var paid := progress.(snapshot := left, charges := progress.charges + [SubqueryCall(cost)]);
        if p.expansion.Completed? && !p.expansion.failed then
          var results := Unknown(p.expansion.urls, progress.known);
          Add(paid.(known := paid.known + SetOf(results)), SubQuery(Executed, cost, |results| % U32_SIZE, results))
        else Add(paid, SubQuery(Failed, cost, 0, []))
  }

  function AfterProposals(executor: bool, proposals: seq<Proposal>, progress: Progress): Progress {
    if proposals == [] then progress
    else AfterProposal(executor, proposals[|proposals| - 1], AfterProposals(executor, proposals[..|proposals| - 1], progress))
  }

  method KeepUnknown(urls: seq<string>, known: set<string>) returns (results: seq<string>, known': set<string>)
    ensures results == Unknown(urls, known) && known' == known + SetOf(results)
  {
    results, known' := [], known;
    for i := 0 to |urls|
      invariant results == Unknown(urls[..i], known) && known' == known + SetOf(results)
    {
      assert urls[..i + 1][..i] == urls[..i];
      if urls[i] !in known' {
        known' := known' + {urls[i]};
        results := results + [urls[i]];
      }
    }
    assert urls[..|urls|] == urls;
  }

  method RunSubqueries(budget: DeepBudget, executor: bool, proposals: seq<Proposal>, known: set<string>)
    returns (subqueries: seq<SubQuery>, known': set<string>)
    requires budget.Valid()
    modifies budget`snapshot
    ensures budget.Valid()
    ensures var end := AfterProposals(executor, proposals, Progress([], old(budget.snapshot), known, []));
      end.subqueries == subqueries && end.snapshot == budget.snapshot && end.known == known'
  {
    subqueries, known' := [], known;
    ghost var start := Progress([], budget.snapshot, known, []);
    for i := 0 to |proposals|
      invariant budget.Valid()
      invariant var now := AfterProposals(executor, proposals[..i], start);
        now.subqueries == subqueries && now.snapshot == budget.snapshot && now.known == known'
    {
      assert proposals[..i + 1][..i] == proposals[..i];
      var p := proposals[i];
      var q := SubQuery(Proposed, CostOf(p), 0, []);
      if !p.parses {
        q := q.(status := Invalid);
      } else if executor {
        if p.expired {
          q := q.(status := RejectedBudget);
        } else {
          var reserved := budget.ReserveSubquery(CostOf(p));
          if reserved.Err? {
            q := q.(status := RejectedBudget);
          } else {
            match p.expansion {
              case Completed(failed, urls) =>
                if failed {
                  q := q.(status := Failed);
                } else {
                  var results;
                  results, known' := KeepUnknown(urls, known');
                  q := q.(results := results, actualGain := |results| % U32_SIZE, status := Executed);
                }
              case Errored => q := q.(status := Failed);
              case TimedOut => q := q.(status := Failed);
            }
          }
        }
      }
      subqueries := subqueries + [q];
    }
    assert proposals[..|proposals|] == proposals;
  }

  // ---- Properties ----

  function TotalResults(qs: seq<SubQuery>): nat {
    if qs == [] then 0 else TotalResults(qs[..|qs| - 1]) + |qs[|qs| - 1].results|
  }

  function TotalGain(qs: seq<SubQuery>): nat {
    if qs == [] then 0 else TotalGain(qs[..|qs| - 1]) + qs[|qs| - 1].actualGain
  }

  lemma {:induction false} UnknownCounts(urls: seq<string>, known: set<string>)
    ensures var fresh' := Unknown(urls, known);
      |SetOf(fresh')| == |fresh'| && SetOf(fresh') !! known && SetOf(urls) <= known + SetOf(fresh')
  {
    if urls != [] {
      var front := urls[..|urls| - 1];
      UnknownCounts(front, known);
      var before, url := Unknown(front, known), urls[|urls| - 1];
      assert SetOf(before + [url]) == SetOf(before) + {url};
      assert urls == front + [url];
    }
  }

  /** Progress of a run that started with `known` URLs and `snapshot` left. */
  ghost predicate Kept(start: Progress, now: Progress) {
    && |now.known| == |start.known| + TotalResults(now.subqueries)
    && start.known <= now.known
    && Balanced(start.snapshot, now.snapshot, now.charges)
    && Spent(now.charges).subqueries == Paid(now.subqueries)
    && (forall q :: q in now.subqueries ==> q.actualGain == |q.results| % U32_SIZE)
  }

  /** Subqueries that reached the executor. */
  function Paid(qs: seq<SubQuery>): nat {
    if qs == [] then 0
    else Paid(qs[..|qs| - 1]) + if qs[|qs| - 1].status.Executed? || qs[|qs| - 1].status.Failed? then 1 else 0
  }

  lemma AddCounts(qs: seq<SubQuery>, q: SubQuery)
    ensures TotalResults(qs + [q]) == TotalResults(qs) + |q.results|
    ensures TotalGain(qs + [q]) == TotalGain(qs) + q.actualGain
    ensures Paid(qs + [q]) == Paid(qs) + if q.status.Executed? || q.status.Failed? then 1 else 0
  {
    assert (qs + [q])[..|qs|] == qs;
  }

  lemma UnpaidKeeps(start: Progress, now: Progress, q: SubQuery)
    requires Kept(start, now) && q.results == [] && q.actualGain == 0 && !q.status.Executed? && !q.status.Failed?
    ensures Kept(start, Add(now, q))
  {
    hide Balanced, Spent, Paid, TotalResults;
    AddCounts(now.subqueries, q);
    forall x | x in now.subqueries + [q] ensures x.actualGain == |x.results| % U32_SIZE {
      assert x in now.subqueries || x == q;
    }
  }

  lemma PaidKeeps(start: Progress, now: Progress, cost: nat, q: SubQuery, known: set<string>)
    requires Kept(start, now) && ReserveSubqueryOf(now.snapshot, cost).0.Ok? && (q.status.Executed? || q.status.Failed?)
    requires now.known <= known && |known| == |now.known| + |q.results| && q.actualGain == |q.results| % U32_SIZE
    ensures Kept(start, Progress(now.subqueries + [q], ReserveSubqueryOf(now.snapshot, cost).1, known, now.charges + [SubqueryCall(cost)]))
  {
    hide Balanced, Spent, ReserveSubqueryOf;
    AddCounts(now.subqueries, q);
    SubqueryBalances(now.snapshot, cost);
    BalancesChain(start.snapshot, now.snapshot, ReserveSubqueryOf(now.snapshot, cost).1, now.charges, [SubqueryCall(cost)]);
    SpentJoins(now.charges, [SubqueryCall(cost)]);
    SpentOne(SubqueryCall(cost));
  }

  lemma ProposalKeeps(executor: bool, p: Proposal, start: Progress, now: Progress)
    requires Kept(start, now)
    ensures Kept(start, AfterProposal(executor, p, now))
  {
    hide Kept;
    var cost := CostOf(p);
    var q := AfterProposal(executor, p, now).subqueries[|now.subqueries|];
    if !p.parses || !executor || p.expired || ReserveSubqueryOf(now.snapshot, cost).0.Err? {
      UnpaidKeeps(start, now, q);
    } else if q.status.Executed? {
      UnknownCounts(p.expansion.urls, now.known);
      PaidKeeps(start, now, cost, q, now.known + SetOf(q.results));
    } else {
      PaidKeeps(start, now, cost, q, now.known);
    }
  }

  lemma {:induction false} ProposalsKeep(executor: bool, proposals: seq<Proposal>, start: Progress)
    requires Kept(start, start)
    ensures Kept(start, AfterProposals(executor, proposals, start))
  {
    if proposals != [] {
      var front := proposals[..|proposals| - 1];
      ProposalsKeep(executor, front, start);
      ProposalKeeps(executor, proposals[|proposals| - 1], start, AfterProposals(executor, front, start));
    }
  }

  lemma {:induction false} OneRecordEach(executor: bool, proposals: seq<Proposal>, start: Progress)
    ensures |AfterProposals(executor, proposals, start).subqueries| == |start.subqueries| + |proposals|
  {
    if proposals != [] { OneRecordEach(executor, proposals[..|proposals| - 1], start); }
  }

  /**
   Over every run: one record per proposal, the known URLs grow by exactly the results reported, the
   subqueries that ran fit the reserved number, and what was paid plus what is left is the initial
   budget.
   */
  lemma EveryRun(executor: bool, proposals: seq<Proposal>, snapshot: Snapshot, known: set<string>)
    ensures var end := AfterProposals(executor, proposals, Progress([], snapshot, known, []));
      && |end.subqueries| == |proposals|
      && |end.known| == |known| + TotalResults(end.subqueries)
      && Balanced(snapshot, end.snapshot, end.charges)
      && Paid(end.subqueries) == Spent(end.charges).subqueries <= snapshot.subqueries
  {
    var start := Progress([], snapshot, known, []);
    NothingBalances(snapshot);
    ProposalsKeep(executor, proposals, start);
    OneRecordEach(executor, proposals, start);
  }

  // ---- One record ----

  lemma {:induction false} UnknownAre(urls: seq<string>, known: set<string>)
    ensures forall u :: u in Unknown(urls, known) <==> u in urls && u !in known
    ensures AllDifferent(Unknown(urls, known))
  {
    if urls != [] {
      var n := |urls| - 1;
      UnknownAre(urls[..n], known);
      assert urls == urls[..n] + [urls[n]];
    }
  }

  /** New URLs are reported in the order in which they are listed. */
  lemma {:induction false} UnknownInOrder(urls: seq<string>, known: set<string>, k: nat)
    requires k <= |urls|
    ensures Unknown(urls[..k], known) <= Unknown(urls, known)
  {
    var n := |urls| - 1;
    if k <= n {
      assert urls[..n][..k] == urls[..k];
      UnknownInOrder(urls[..n], known, k);
    } else {
      assert urls[..k] == urls;
    }
  }

  /** A proposal can be paid for out of what is left. */
  predicate Affordable(s: Snapshot, cost: nat) { s.subqueries > 0 && cost <= s.cost }

  /** Record `q` of proposal `p`, made when `before` was the progress. */
  ghost predicate RecordOf(executor: bool, p: Proposal, before: Progress, q: SubQuery) {
    var sent := p.parses && executor && !p.expired && Affordable(before.snapshot, q.estimatedCost);
    && q.estimatedCost == (match p.estimatedCost case Some(cost) => cost case None => 1)
    && (q.status == Invalid <==> !p.parses)
    && (q.status == Proposed <==> p.parses && !executor)
    && (q.status == RejectedBudget <==> p.parses && executor && !sent)
    && (q.status == Executed <==> sent && p.expansion.Completed? && !p.expansion.failed)
    && (q.status != Executed ==> q.results == [])
    && (q.status == Executed ==>
        && AllDifferent(q.results)
        && forall u :: u in q.results <==> u in p.expansion.urls && u !in before.known)
  }

  lemma ProposalIsRecorded(executor: bool, p: Proposal, before: Progress)
    ensures var after := AfterProposal(executor, p, before);
      && |after.subqueries| == |before.subqueries| + 1 && before.subqueries <= after.subqueries
      && var q := after.subqueries[|before.subqueries|];
      && RecordOf(executor, p, before, q)
      && after.known == before.known + SetOf(q.results)
      && after.charges == before.charges + (if q.status in {Executed, Failed} then [SubqueryCall(q.estimatedCost)] else [])
  {
    if p.expansion.Completed? { UnknownAre(p.expansion.urls, before.known); }
  }

  /** Every run records each proposal as it found it, given what the ones before it left and made known. */
  lemma {:induction false} EveryProposalIsRecorded(executor: bool, proposals: seq<Proposal>, start: Progress, i: nat)
    requires start.subqueries == [] && i < |proposals|
    ensures |AfterProposals(executor, proposals, start).subqueries| == |proposals|
    ensures RecordOf(executor, proposals[i], AfterProposals(executor, proposals[..i], start),
                     AfterProposals(executor, proposals, start).subqueries[i])
  {
    hide RecordOf, AfterProposal;
    var n := |proposals| - 1;
    OneRecordEach(executor, proposals, start);
    OneRecordEach(executor, proposals[..n], start);
    ProposalIsRecorded(executor, proposals[n], AfterProposals(executor, proposals[..n], start));
    if i < n {
      EveryProposalIsRecorded(executor, proposals[..n], start, i);
      assert proposals[..n][..i] == proposals[..i];
    }
  }

  // ---- Truncated gains ----

  /** Proposal `i` reaches the executor, which completes it, when the run comes to it. */
  predicate Completes(executor: bool, proposals: seq<Proposal>, start: Progress, i: nat)
    requires i < |proposals|
  {
    var p := proposals[i];
    && p.parses && executor && !p.expired && p.expansion.Completed? && !p.expansion.failed
    && ReserveSubqueryOf(AfterProposals(executor, proposals[..i], start).snapshot, CostOf(p)).0.Ok?
  }

  /** The URLs it then brings that no candidate and no earlier subquery had. */
  function Brought(executor: bool, proposals: seq<Proposal>, start: Progress, i: nat): seq<string>
    requires i < |proposals| && proposals[i].expansion.Completed?
  {
    Unknown(proposals[i].expansion.urls, AfterProposals(executor, proposals[..i], start).known)
  }

  /** No completed proposal brings 2^32 new URLs or more. */
  ghost predicate FitsCounter(executor: bool, proposals: seq<Proposal>, start: Progress) {
    forall i :: 0 <= i < |proposals| && Completes(executor, proposals, start, i) ==>
      |Brought(executor, proposals, start, i)| < U32_SIZE
  }

  lemma {:induction false} FitsIffResultsFit(executor: bool, proposals: seq<Proposal>, start: Progress)
    requires start.subqueries == []
    ensures FitsCounter(executor, proposals, start) <==>
      forall q :: q in AfterProposals(executor, proposals, start).subqueries ==> |q.results| < U32_SIZE
  {
    if proposals != [] {
      var n := |proposals| - 1;
      var front := proposals[..n];
      FitsIffResultsFit(executor, front, start);
      FitsByParts(executor, proposals, start);
      var now, after := AfterProposals(executor, front, start), AfterProposals(executor, proposals, start);
      var q := after.subqueries[|now.subqueries|];
      assert after.subqueries == now.subqueries + [q];
      assert |q.results| < U32_SIZE <==>
        (Completes(executor, proposals, start, n) ==> |Brought(executor, proposals, start, n)| < U32_SIZE);
    }
  }

  lemma FitsByParts(executor: bool, proposals: seq<Proposal>, start: Progress)
    requires proposals != []
    ensures var n := |proposals| - 1;
      var lastFits := Completes(executor, proposals, start, n) ==> |Brought(executor, proposals, start, n)| < U32_SIZE;
      FitsCounter(executor, proposals, start) <==> FitsCounter(executor, proposals[..n], start) && lastFits
  {
    var n := |proposals| - 1;
    var front := proposals[..n];
    forall i | 0 <= i < n
      ensures proposals[..i] == front[..i] && proposals[i] == front[i]
      ensures Completes(executor, proposals, start, i) == Completes(executor, front, start, i)
    {}
  }

  /**
   Reported gains add up to the growth of the known URLs exactly when no proposal that the executor
   completes brings 2^32 new URLs or more.
   */
  lemma GainsAddUpIff(executor: bool, proposals: seq<Proposal>, snapshot: Snapshot, known: set<string>)
    ensures var start := Progress([], snapshot, known, []);
      var end := AfterProposals(executor, proposals, start);
      TotalGain(end.subqueries) == |end.known| - |known| <==> FitsCounter(executor, proposals, start)
  {
    var start := Progress([], snapshot, known, []);
    NothingBalances(snapshot);
    ProposalsKeep(executor, proposals, start);
    TruncationLoses(AfterProposals(executor, proposals, start).subqueries);
    FitsIffResultsFit(executor, proposals, start);
  }

  lemma {:induction false} UnknownIsShorter(urls: seq<string>, known: set<string>)
    ensures |Unknown(urls, known)| <= |urls|
  {
    if urls != [] { UnknownIsShorter(urls[..|urls| - 1], known); }
  }

  /** Fewer than 2^32 URLs from every expansion are enough, whatever was known. */
  lemma ShortExpansionsAddUp(executor: bool, proposals: seq<Proposal>, snapshot: Snapshot, known: set<string>)
    requires forall p :: p in proposals && p.expansion.Completed? ==> |p.expansion.urls| < U32_SIZE
    ensures var end := AfterProposals(executor, proposals, Progress([], snapshot, known, []));
      TotalGain(end.subqueries) == |end.known| - |known|
  {
    var start := Progress([], snapshot, known, []);
    GainsAddUpIff(executor, proposals, snapshot, known);
    forall i | 0 <= i < |proposals| && Completes(executor, proposals, start, i)
      ensures |Brought(executor, proposals, start, i)| < U32_SIZE
    {
      assert proposals[i] in proposals;
      UnknownIsShorter(proposals[i].expansion.urls, AfterProposals(executor, proposals[..i], start).known);
    }
  }

  lemma {:induction false} AllUnknown(urls: seq<string>)
    requires AllDifferent(urls)
    ensures Unknown(urls, {}) == urls
  {
    if urls != [] {
      var n := |urls| - 1;
      AllUnknown(urls[..n]);
      assert urls == urls[..n] + [urls[n]];
    }
  }

  lemma ManyUrls() returns (urls: seq<string>)
    ensures AllDifferent(urls) && |urls| == U32_SIZE
  {
    urls := seq(U32_SIZE, i requires 0 <= i < U32_SIZE => Padded(i));
    forall i, j | 0 <= i < j < |urls| ensures urls[i] != urls[j] {
      if urls[i] == urls[j] { PaddedIsInjective(i, j); }
    }
  }

  /** A subquery that brings 2^32 different URLs makes that many known and reports no gain at all. */
  lemma GainCanVanish(snapshot: Snapshot) returns (p: Proposal)
    requires snapshot.subqueries > 0 && snapshot.cost > 0
    ensures var end := AfterProposals(true, [p], Progress([], snapshot, {}, []));
      |end.known| == U32_SIZE && TotalGain(end.subqueries) == 0
  {
    var urls := ManyUrls();
    p := Proposal(None, true, false, Completed(false, urls));
    var start := Progress([], snapshot, {}, []);
    var none: seq<Proposal> := [];
    assert [p][..0] == none && AfterProposals(true, none, start) == start;
    AllUnknown(urls);
    SetOfDistinct(urls);
    var end := AfterProposals(true, [p], start);
    assert end == AfterProposal(true, p, start);
    assert {} + SetOf(urls) == SetOf(urls);
    assert end.subqueries == [SubQuery(Executed, 1, 0, urls)];
    assert end.subqueries[..0] == [];
  }

  lemma {:induction false} TruncationLoses(qs: seq<SubQuery>)
    requires forall q :: q in qs ==> q.actualGain == |q.results| % U32_SIZE
    ensures TotalGain(qs) <= TotalResults(qs)
    ensures TotalGain(qs) == TotalResults(qs) <==> forall q :: q in qs ==> |q.results| < U32_SIZE
  {
    if qs != [] {
      var front, last := qs[..|qs| - 1], qs[|qs| - 1];
      assert qs == front + [last];
      TruncationLoses(front);
    }
  }
}
