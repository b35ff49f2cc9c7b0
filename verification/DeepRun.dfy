module DeepRun {
  // A whole deep run: the crawl, then the subqueries it proposes, on one budget (deep.rs).

  import opened Budgets
  import opened Counting
  import opened Deep
  import opened DeepProperties
  import opened Subqueries

  /**
   Crawl and subqueries together: what both charged plus what is left is the initial budget, no
   resource is overdrawn, and at most two subqueries are sent.
   */
  lemma WholeRunKeepsBudget(
    cfg: Settings, max: Limits, turns: nat -> Turn, candidates: seq<string>, start: Snapshot,
    executor: bool, proposals: seq<Proposal>)
    requires Within(start, max) && start.subqueries <= MAX_SUBQUERIES
    ensures var crawl := Crawled(cfg, max, turns, Begin(candidates, cfg.topK, start));
      var end := AfterProposals(executor, proposals, Progress([], crawl.snapshot, SetOf(candidates), []));
      var charges := crawl.charges + end.charges;
      && Balanced(start, end.snapshot, charges)
      && Spent(charges).fetches <= start.fetches && Spent(charges).bytes <= start.bytes
      && Spent(charges).redirects <= start.redirects && Spent(charges).browserCalls <= start.browserCalls
      && Spent(charges).crawlUrls <= start.crawlUrls && Spent(charges).cost <= start.cost
      && Paid(end.subqueries) <= start.subqueries <= MAX_SUBQUERIES
      && |end.subqueries| == |proposals|
  {
    hide Crawled, AfterProposals, Spent, Paid, QueueKept;
    var crawl := Crawled(cfg, max, turns, Begin(candidates, cfg.topK, start));
    EveryCrawl(cfg, max, turns, candidates, start);
    EveryRun(executor, proposals, crawl.snapshot, SetOf(candidates));
    var end := AfterProposals(executor, proposals, Progress([], crawl.snapshot, SetOf(candidates), []));
    BalancesChain(start, crawl.snapshot, end.snapshot, crawl.charges, end.charges);
    BalancedIsWithinBudget(start, end.snapshot, crawl.charges + end.charges);
    SpentLeft(start, crawl.snapshot, crawl.charges);
  }

  lemma SpentLeft(before: Snapshot, after: Snapshot, charges: seq<Charge>)
    requires Balanced(before, after, charges)
    ensures after.subqueries <= before.subqueries
  {}

  /**
   The whole of `enrich`: without candidates nothing happens; otherwise the queue is worked off and
   the subqueries proposed for the documents are run on what the crawl left of the budget.
   */
  method Enrich(
    deep: DeepOrchestrator, turns: nat -> Turn, candidates: seq<string>, executor: bool,
    propose: seq<Document> -> seq<Proposal>)
    returns (subqueries: seq<SubQuery>, known: set<string>)
    requires deep.budget.Valid()
    modifies deep, deep.budget`snapshot
    ensures deep.budget.Valid()
    ensures candidates == [] ==> subqueries == [] && deep.budget.snapshot == old(deep.budget.snapshot)
    ensures candidates != [] ==>
      var crawl := Crawled(deep.cfg, deep.budget.max, turns, Begin(candidates, deep.cfg.topK, old(deep.budget.snapshot)));
      var end := AfterProposals(executor, propose(crawl.documents), Progress([], crawl.snapshot, SetOf(candidates), []));
      && deep.documents == crawl.documents && deep.degradations == crawl.degradations
      && deep.budget.snapshot == end.snapshot && subqueries == end.subqueries && known == end.known
      && Balanced(old(deep.budget.snapshot), deep.budget.snapshot, crawl.charges + end.charges)
      && Paid(subqueries) <= MAX_SUBQUERIES
      && |known| == |SetOf(candidates)| + TotalResults(subqueries)
  {
    hide Crawled, AfterProposals, Spent, Paid, Balanced;
    subqueries, known := [], SetOf(candidates);
    if candidates == [] { return; }
    ghost var start := deep.budget.snapshot;
    ghost var crawl := deep.Run(turns, candidates);
    var proposals := propose(deep.documents);
    subqueries, known := RunSubqueries(deep.budget, executor, proposals, known);
    WholeRunKeepsBudget(deep.cfg, deep.budget.max, turns, candidates, start, executor, proposals);
    EveryRun(executor, proposals, crawl.snapshot, SetOf(candidates));
  }
}
