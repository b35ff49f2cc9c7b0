# AMATL: a verified model of the search engine's core and its experiment tools

AMATL searches several providers at once, merges what they return, can crawl and read the pages
behind the results, and answers from them with citations. A set of Python tools runs and analyses
its relevance experiments. This project models the parts of both where the difficulty lies and
proves what they promise, over every input, every run and every interleaving.

`dafny verify dfyconfig.toml` checks everything.

## What is modelled

**Progressive search.** `Planning`, `Budgets`, `Execution`, `SearchLoop`, `ExecutionProperties`,
`RoutingProperties`. Rounds of concurrent provider calls under a call budget. Which call of a round
finishes first is chosen nondeterministically. The round loop is proved to be a run of a step
function; over all runs the accounts balance, every further call is justified, the loop is short,
and completion order steers nothing.

**Merging.** `Sorting`, `TextOrder`, `Dedupe`, `DedupeProperties`. The output does not show the
order in which providers finished, because ties of the two stable sorts lie inside one provider. A
family of inputs shows that this needs one block per provider.

**Deep crawl.** `Fetching`, `Deep`, `DeepProperties`, `VisitProperties`, `FetchOnce`, `Subqueries`,
`DeepRun`. A queue that grows while it is worked off, with refunds, and then subqueries on the same
budget. It ends by (fetches left, queue length); every resource balances over the whole run; the
charge after a fetch never fails because the fetcher was given what was left.

**Text.** `Utf8`, `Evidence*` cut UTF-8 text with byte cursors against a specification on
characters. `Citations` scans and strips bracket markers. `Extract` walks a tree with an explicit
stack. `Canonical*` normalizes web addresses and shows that a second pass finds nothing.

**Diversity and audit.** `Diversity*` are greedy caps with a relevance override. `Audit` is the
admission protocol on two atomic counters as an interleaved step system, including writers that end
without their final decrement.

**Experiment tools.** `Binomials`, `Fisher`, `WilsonScore`; `Counting`, `Agreement`, `Kappa`;
`PlanRunner`, `PlanExecution*`; `Capture*`, `Pilot*`; `Similarity`, `Numbering`, `Generator`,
`NoveltyGate`, `GeneratorMeetsGate`.

Code that changes things step by step is modelled by classes and by methods with loops, each proved
against a function of its inputs or old state; the lemmas are about those functions.

## Assumptions

- The router offers distinct provider names, the first round among them, and an adapter tags its
  rows with its own name (`Routed`, `Tagged`). Ranking is a function of the deduplicated rows.
- Addresses that reach canonicalization are http(s) addresses without credentials, as
  `crates/amatl-core/src/security.rs` demands, in the shape the URL parser produces (`WellFormed`).
- The ranked list given to diversity is non-increasing in score where a lemma says `Ranks`; hosts of
  parsed addresses are not empty (`HostsNamed`).
- Clock, network, provider answers, extractor, renderer, executor and disk are parameters.
- Floating-point numbers are real numbers or exact fractions. In the exact test the tolerance factor
  is the rational 1 + 10^-12.
- Strings are compared by code point, which is the byte order of their UTF-8 form. Web addresses
  are ASCII, so that characters are bytes there.

## What turned out not to hold

- Fetch-once per canonical address is false: links are remembered with their fragment, which is
  dropped before fetching. A page that links to itself with a fragment is fetched and paid for twice
  (`FetchOnce.FragmentTwinIsFetchedTwice`). Exactly when it holds: `FetchOnce.LinksEnqueuedOnceIff`
  for the links of one page, `FetchOnce.VisitedOnceIff` for a run. Distinct candidates and pages whose
  links carry no fragment suffice (`FetchOnce.PlainLinksAreVisitedOnce`).
- The gains of subqueries are truncated to 32 bits. They add up exactly when no completed proposal
  lists 2^32 or more new URLs (`Subqueries.GainsAddUpIff`); `Subqueries.GainCanVanish` is a run that
  fails.
- The audit counter returns to zero only if every writer reaches its final decrement
  (`Audit.AtQuiescence`; `Audit.CounterCanStayUp` is a run that fails), and callers may be refused
  while fewer than 32 writers are active (`Audit.RefusedBelowTheCap`).
- A plan for a selection with a repeated provider can hold more calls than were reserved
  (`Planning.PlanIsPaidForIffDistinct`).
- The confusion matrix matches the labelers' counts only if the reference has no repeated row id,
  which the validation of the packets does not check (`Kappa.MarginalsMatchIff`;
  `Kappa.RepeatedIdIsAdmitted` is an accepted input that fails). The bounds on kappa hold
  regardless.
- The one-byte cursor fallback of the fragment loop is dead code
  (`EvidenceCutting.AppendBoundedRange`), and so is the overall quota of the pilot
  (`Pilot.TotalQuotaIsRedundant`).

## Model

| member | source | states |
|---|---|---|
| DedupeProperties.CompletionOrderIsInvisible | crates/amatl-core/src/dedupe.rs:8-39 | Confluence: for one block of rows per provider, every permutation of the blocks gives the identical output sequence, so the order in which provider tasks finish cannot be seen. |
| DedupeProperties.SharedProviderShowsCompletionOrder | crates/amatl-core/src/dedupe.rs:31-39 | The hypothesis is needed: whenever two rows tie in both sort keys (same provider included) but differ in title, swapping the blocks changes the output. |
| DedupeProperties.EntryDescribesItsRows | crates/amatl-core/src/dedupe.rs:30-116 | Every output entry is about exactly the input rows at its URL: providers, original URLs, alternate snippets and dates are theirs without loss or invention, each provider has its best rank, the representative is least in the merge order, and the status says whether more than one row was merged. |
| DedupeProperties.EntryShowsBest | crates/amatl-core/src/dedupe.rs:30-40 | Whose fields an output entry shows: with a title if any input row at its URL has one, then with a snippet if any such row has one, then the latest date, then the first original URL, then the first provider. |
| DedupeProperties.GroupHoldsInputRows | crates/amatl-core/src/dedupe.rs:15-25 | Grouping conserves rows: the group of a URL holds each input row at that URL as often as it came in, and no other row. |
| DedupeProperties.MarksAreMutual | crates/amatl-core/src/dedupe.rs:118-137 | The nested index loop marks entry i with j's URL exactly when it marks j with i's, exactly when their titles are similar, and never an entry with itself. |
| DedupeProperties.OutputMarksAreMutual | crates/amatl-core/src/dedupe.rs:8-28 | The same for the final output of a whole run, whose URLs are distinct. |
| DedupeProperties.BestRankIsBest | crates/amatl-core/src/dedupe.rs:47-59 | A provider's rank in a merged entry is the smallest any of its rows reports, and missing only when none of them has one. |
| DedupeProperties.BlockOfProvider | crates/amatl-core/src/execution.rs:660-689 | The rows of one provider, read out of the joined rows, are its block in its own order, whatever the completion order. |
| DedupeProperties.RankClassIsOneProvider | crates/amatl-core/src/dedupe.rs:9-14 | Rows that tie in the first sort all belong to one provider, because the provider is compared last. |
| Dedupe.UrlOrderIsTotal | crates/amatl-core/src/dedupe.rs:9-14 | The first sort's comparison is a total preorder whose ties agree on both URLs and the provider. |
| Dedupe.MergeOrderIsTotal | crates/amatl-core/src/dedupe.rs:31-39 | The merge sort's comparison is a total preorder, with the later date first and a missing date last. |
| Dedupe.SimilarIsSymmetric | crates/amatl-core/src/dedupe.rs:139-158 | Title similarity does not depend on which of two entries comes first. |
| DedupeProperties.SimilarIff | crates/amatl-core/src/dedupe.rs:139-158 | Two entries resemble each other exactly when their hosts differ, both titles have at least 20 characters and four words, and nine tenths of all words are shared. |
| Dedupe.RankProviders | crates/amatl-core/src/dedupe.rs:47-59 | The ranking loop produces, for each provider, its best rank over the group. |
| Dedupe.MergeConfirmedGroup | crates/amatl-core/src/dedupe.rs:30-116 | Sorting, collecting and ranking one group yields the specified merge of that group. |
| Dedupe.ComparePair | crates/amatl-core/src/dedupe.rs:118-137 | One inner step updates both entries of the array in place, and no other entry. |
| Dedupe.MarkPossibleDuplicates | crates/amatl-core/src/dedupe.rs:118-137 | The in-place nested loops leave the array as if every entry had been compared with every other. |
| Dedupe.ComparePairAdvances | crates/amatl-core/src/dedupe.rs:118-137 | From the state the loops leave at (l, r), comparing that pair gives the state at (l, r + 1). |
| Dedupe.GroupByUrl | crates/amatl-core/src/dedupe.rs:15-21 | The map built by the loop has a key for each URL of the input and holds exactly that URL's rows in the order given. |
| Dedupe.MergeGroups | crates/amatl-core/src/dedupe.rs:22-25 | The groups are merged in ascending URL order, one entry each. |
| Dedupe.Deduplicate | crates/amatl-core/src/dedupe.rs:8-28 | The whole imperative pass equals the specification function the lemmas above are about. |
| Sorting.SortByPermutes | crates/amatl-core/src/dedupe.rs:9-14 | The stable sort both passes rely on neither loses, adds nor repeats an element. |
| Sorting.SortBySorts | crates/amatl-core/src/dedupe.rs:9-14 | Its result is ordered by the comparison. |
| Sorting.SortByIsStable | crates/amatl-core/src/dedupe.rs:9-14 | Elements that compare equal keep their input order. |
| Sorting.StableSortIsUnique | crates/amatl-core/src/dedupe.rs:9-14 | Order plus stability fix the result: any two sequences with both properties are equal. |
| Sorting.SortByConfluent | crates/amatl-core/src/dedupe.rs:9-14 | The sorted result depends only on the order inside each class of ties. |
| TextOrder.SortedUniqueIsSetOrder | crates/amatl-core/src/dedupe.rs:41-79 | Collecting into an ordered set and listing it depends only on which strings are in it. |
| TextOrder.LexLeIff | crates/amatl-core/src/dedupe.rs:9-14 | One string precedes another exactly when it begins it or has the smaller code point where they first differ. |
| Budgets.Budget.ReserveProvider | crates/amatl-core/src/budget.rs:180-186 | A reservation fails exactly when no call is left, and otherwise takes exactly one. |
| Budgets.RefundUndoesReservation | crates/amatl-core/src/budget.rs:81-139 | Releasing right after a reservation restores the exact snapshot, and a release can never exceed the initial limits. |
| Budgets.ChargeWithinLimitsSucceeds | crates/amatl-core/src/budget.rs:96-110 | A transfer no larger than the limits read off the same snapshot is never refused. |
| Budgets.DeepBudget.ReserveFetch | crates/amatl-core/src/budget.rs:81-94 | State change of a fetch reservation, with the order in which its three limits are checked. |
| Budgets.DeepBudget.ConsumeFetch | crates/amatl-core/src/budget.rs:96-110 | State change of a charge; a refused charge leaves the budget untouched. |
| Budgets.DeepBudget.ReleaseFetch | crates/amatl-core/src/budget.rs:120-131 | State change of a refund, capped by the initial limits. |
| Budgets.DeepBudget.ReserveBrowser | crates/amatl-core/src/budget.rs:112-118 | State change of a browser reservation. |
| Budgets.DeepBudget.ReleaseBrowser | crates/amatl-core/src/budget.rs:133-139 | State change of a browser refund, capped by the initial limit. |
| Budgets.DeepBudget.ReserveSubquery | crates/amatl-core/src/budget.rs:141-151 | State change of a subquery reservation, with call and cost limits. |
| Planning.BuildSearchPlan | crates/amatl-core/src/planning.rs:8-24 | The reservation loop and the filter after it produce the specified plan and take one call from the budget for each success. |
| Planning.PlanIsAffordablePrefix | crates/amatl-core/src/planning.rs:14-24 | For distinct names the plan is the longest prefix of the selection that the remaining calls pay for. |
| Planning.PlanIsPaidForIffDistinct | crates/amatl-core/src/planning.rs:14-24 | A plan has as many providers as calls were reserved, for every budget, if and only if no name is selected twice. |
| ExecutionProperties.ContinuesIff | crates/amatl-core/src/execution.rs:884-963 | The exact condition under which the search goes on, and that the provider it names is a candidate called for one of the three permitted reasons. |
| ExecutionProperties.FallThroughMeansExceptionSpent | crates/amatl-core/src/execution.rs:884-963 | The final fall-through stop means: minimum coverage missing, no promising candidate, no pending filter, and the coverage exception already spent. |
| ExecutionProperties.FirstPromisingFinds | crates/amatl-core/src/execution.rs:941-954 | The scan over the ordered candidates finds a provider whose expected gain reaches the threshold if and only if there is one. |
| RoutingProperties.FirstPromisingIsFirst | crates/amatl-core/src/execution.rs:941-954 | The provider found is the first whose forecast reaches the threshold: no candidate before it does, and one without a forecast counts as zero. |
| RoutingProperties.NextIs | crates/amatl-core/src/execution.rs:930-963 | Whom a continuing search calls and why: the first candidate while filters are pending, else the first promising one, else the first one by the exception, with the reason recorded. |
| RoutingProperties.StopsBecause | crates/amatl-core/src/execution.rs:884-963 | The exact condition of each of the seven stop reasons, in terms of the inputs, with the reasons tested before it ruled out. |
| RoutingProperties.PendingFiltersIff | crates/amatl-core/src/execution.rs:830-864 | A filter is pending if and only if it is required and no result accepted it, an accepted time range standing for both dates. |
| RoutingProperties.NewUrlsCount | crates/amatl-core/src/progressive.rs:255-265 | The observed gain counts the URLs listed now that were not listed before. |
| RoutingProperties.CandidatesAre | crates/amatl-core/src/execution.rs:310-315 | The candidates are the offered providers not yet attempted, in the order of the router. |
| RoutingProperties.FiltersExplainRounds | crates/amatl-core/src/execution.rs:300-344 | Every round of every run that goes on because of filters has a required filter that no result joined so far accepted, and names exactly those; when all are accepted no round goes on for that reason. |
| RoutingProperties.RoundsSee | crates/amatl-core/src/execution.rs:300-333 | Every round of every run is decided on the coverage of what was joined by then, the untried providers in order, the clock, and the calls left, which with those attempted are all there were. |
| RoutingProperties.RoundsMeasureGain | crates/amatl-core/src/execution.rs:308-309 | The gain a round of a run sees is the number of URLs it ranks that the round before did not; the first round sees none. |
| RoutingProperties.JoinedAre | crates/amatl-core/src/execution.rs:660-709 | The results joined in a run are those of the tasks that finished, in any of its rounds, and no others. |
| ExecutionProperties.SettledPartitions | crates/amatl-core/src/execution.rs:660-722 | After a round every selected provider is used or failed and none is both; a provider whose task never answers counts as failed. |
| ExecutionProperties.MergeMembers | crates/amatl-core/src/execution.rs:807-828 | Merging two rounds keeps the used, failed and partial providers of both, and every result as often as it came. |
| ExecutionProperties.ContinuingRoundIsPaidFor | crates/amatl-core/src/execution.rs:334-344 | When the decision was to continue, the next plan reserves exactly the decided provider: it is affordable and was never attempted. |
| ExecutionProperties.StepKeepsAccounts | crates/amatl-core/src/execution.rs:247-401 | One turn of the round loop preserves the run invariant: calls spent plus calls left is the maximum, and used and failed partition the attempted set. |
| ExecutionProperties.RunKeepsAccounts | crates/amatl-core/src/execution.rs:247-401 | That invariant holds after every number of rounds of every run, whatever the outcomes and completion orders. |
| ExecutionProperties.RunsAreShort | crates/amatl-core/src/execution.rs:247-401 | Every run has at most one round more than the providers the first round left over. |
| ExecutionProperties.RunIsJustified | crates/amatl-core/src/execution.rs:334-344 | In every run each round after the first calls the one provider the previous decision chose, for a pending filter, an expected gain at the threshold, or the exception. |
| ExecutionProperties.ExceptionOnce | crates/amatl-core/src/execution.rs:884-963 | Two rounds of one run that both use the coverage exception are the same round. |
| ExecutionProperties.ViewIgnoresOrder | crates/amatl-core/src/execution.rs:756-792 | What ranking, coverage and pending filters are computed from does not depend on the order of the provider results. |
| ExecutionProperties.SchedulingNeverSteersRouting | crates/amatl-core/src/execution.rs:247-401 | Two runs of equal length that differ in the completion order of every round agree on decisions, budget, attempted set and trace: in everything but the order of the raw results. |
| ExecutionProperties.CompleteRunsAgree | crates/amatl-core/src/execution.rs:247-401 | All complete runs of the same search have the same number of rounds and give the same ranked answer, whatever the completion orders. |
| SearchLoop.RunProvider | crates/amatl-core/src/execution.rs:548-645 | Without permits in time the provider is not called and the answer is a timeout; otherwise the loop makes one to maxRetries + 1 attempts, each but the last failed recoverably with time to wait, an attempt without time left is a timeout that calls nobody, and the last answer is returned. |
| SearchLoop.AttemptsAreUnique | crates/amatl-core/src/execution.rs:574-645 | That description determines the number of attempts. |
| SearchLoop.RepeatsIff | crates/amatl-core/src/execution.rs:574-645 | An attempt is repeated if and only if retries are left, it got no time or failed in a way that may pass, and the backoff ends in time. |
| SearchLoop.SearchOrchestrator.ExecuteParallel | crates/amatl-core/src/execution.rs:501-729 | For some completion order of exactly the spawned tasks, the join loop returns the settled output of that order. |
| SearchLoop.SearchOrchestrator.ExecuteRound | crates/amatl-core/src/execution.rs:261-300 | Planning, running and merging one round reserves the calls of its plan and nothing else. |
| SearchLoop.SearchOrchestrator.RunRound | crates/amatl-core/src/execution.rs:247-344 | One turn up to its decision observes what the specification's step observes. |
| SearchLoop.SearchOrchestrator.Search | crates/amatl-core/src/execution.rs:202-401 | The loop ends; its result is the state after a run of the specification, with spent plus remaining calls equal to the maximum, used and failed partitioning the attempted set, and at most one round more than the ordered providers. |
| Fetching.ReadBody | crates/amatl-core/src/fetch.rs:364-377 | The chunk loop returns the whole body, or fails as soon as the next chunk would exceed the limit. |
| Fetching.Fetch | crates/amatl-core/src/fetch.rs:152-208 | The redirect loop ends within the allowed redirects and equals its recursive specification. |
| Fetching.FetchedWithinLimits | crates/amatl-core/src/fetch.rs:152-208 | A delivered body and redirect chain never exceed the request's limits. |
| Fetching.FetchSucceedsIff | crates/amatl-core/src/fetch.rs:152-208 | A fetch succeeds if and only if some hop within the redirect limit delivers within the byte limit and every hop before it is an accepted redirect. |
| Fetching.FetchDelivers | crates/amatl-core/src/fetch.rs:152-208 | What a fetch delivers is the status and whole body of the hop that ended it, under the address that hop was sent to, with the addresses before it as the chain; a failing fetch fails with the error of the first hop that does not lead on. |
| Deep.TurnDecreases | crates/amatl-core/src/deep.rs:176-469 | Each turn of the crawl queue decreases the pair (fetches left, queue length) lexicographically, although a refused fetch is refunded. |
| Deep.VisitSpendsForLinks | crates/amatl-core/src/deep.rs:215-452 | A visit that yields links has spent a fetch; a refunded one yields none. |
| Deep.DeepOrchestrator.RenderAgain | crates/amatl-core/src/deep.rs:332-381 | The render fallback changes budget, degradations and documents exactly as specified. |
| Deep.DeepOrchestrator.Acquire | crates/amatl-core/src/deep.rs:299-469 | A fetched page leaves the specified document, charges and links. |
| Deep.DeepOrchestrator.Visit | crates/amatl-core/src/deep.rs:176-300 | Deadline, robots, reservation, fetch, refund and charge of one candidate, with the outcome for the queue. |
| Deep.EnqueueLinks | crates/amatl-core/src/deep.rs:438-452 | The link loop enqueues the links not seen before, keyed with their fragment, and nothing else. |
| Deep.DeepOrchestrator.TakeTurn | crates/amatl-core/src/deep.rs:176-469 | One turn of the loop is one step of the crawl specification. |
| Deep.DeepOrchestrator.Run | crates/amatl-core/src/deep.rs:165-469 | The crawl loop ends and leaves the budget, documents and degradations of the specified crawl. |
| VisitProperties.RobotsAreObeyed | crates/amatl-core/src/deep.rs:184-213 | A candidate below the starting pages that robots rules do not allow is left out: nothing is spent, charged, followed or reported but the refusal, and the crawl goes on; and a refusal is reported for no other reason. |
| VisitProperties.StopsIff | crates/amatl-core/src/deep.rs:176-224 | A visit ends the run if and only if the deadline has passed or no fetch can be paid for, and then nothing was spent. |
| VisitProperties.FailedFetch | crates/amatl-core/src/deep.rs:262-283 | A failed fetch yields nothing; it is charged unless it was refused before anything was sent, and then the budget is as before. |
| VisitProperties.DocumentIs | crates/amatl-core/src/deep.rs:295-437 | Which document a visit yields, if any, for every answer of network, cache, extractor and renderer. |
| VisitProperties.LinksAre | crates/amatl-core/src/deep.rs:438-452 | Links are followed exactly from pages fetched afresh above the depth limit. |
| VisitProperties.ChargesAre | crates/amatl-core/src/deep.rs:176-437 | A visit charges its fetch and transfer, and a browser exactly when extraction failed on a fresh page, a call was left and the browser was there. |
| VisitProperties.DegradationsAre | crates/amatl-core/src/deep.rs:299-437 | Every shortfall of a delivered fetch is reported exactly when it happened. |
| VisitProperties.TurnFinds | crates/amatl-core/src/deep.rs:438-452 | One turn adds to the end of the queue exactly the links not visited before, each once and one level below their page, and remembers them. |
| VisitProperties.RunObeysRobots | crates/amatl-core/src/deep.rs:176-213 | In every run, every turn whose page robots rules do not allow leaves budget, charges, documents and links found as they were. |
| VisitProperties.ChargedTurnsWereAllowed | crates/amatl-core/src/deep.rs:176-213 | In every run, every turn below the starting pages that charged anything or yielded a document had been allowed by robots rules. |
| DeepProperties.FetchIsAlwaysAffordable | crates/amatl-core/src/deep.rs:215-294 | Whatever the network answers, the charge after a fetch that was given the remaining limits is never refused. |
| DeepProperties.VisitBalances | crates/amatl-core/src/deep.rs:176-469 | One visit keeps the books: what was there before is what is left plus what was charged. |
| DeepProperties.EnqueueKeepsQueue | crates/amatl-core/src/deep.rs:438-452 | Enqueueing keeps links unique, within the depth limit, and the queue in breadth-first order. |
| DeepProperties.CrawlKeeps | crates/amatl-core/src/deep.rs:176-469 | Those queue and accounting invariants hold from any state of the crawl to its end. |
| DeepProperties.EveryCrawl | crates/amatl-core/src/deep.rs:165-469 | For every run: each discovered link string is enqueued once, within the maximum depth, in breadth-first order, and every resource balances. |
| DeepProperties.BalancedIsWithinBudget | crates/amatl-core/src/budget.rs:81-151 | Balanced books mean that no resource is ever overdrawn. |
| FetchOnce.EnqueuedOnceIff | crates/amatl-core/src/deep.rs:438-452 | Every address is enqueued once if and only if no candidate is repeated and no two links remembered, fragments included, stand for the same address. |
| FetchOnce.EnqueueRemembers | crates/amatl-core/src/deep.rs:440 | Enqueueing a page's links makes exactly those links remembered in addition. |
| FetchOnce.LinksEnqueuedOnceIff | crates/amatl-core/src/deep.rs:438-452 | For one page, before its links are enqueued: every address will be enqueued once if and only if the candidates are distinct and the page's links together with those remembered stand for different addresses. |
| FetchOnce.VisitedOnceIff | crates/amatl-core/src/deep.rs:165-469 | For every run: no address is visited twice if and only if the links visited are different and no two share an address; when the queue is worked off, if and only if that holds of everything remembered. |
| FetchOnce.ApartOffersAreVisitedOnce | crates/amatl-core/src/deep.rs:165-469 | A condition on the inputs: with distinct candidates and no two different links, among the candidates and everything any page links to, that share an address, no run visits an address twice. |
| FetchOnce.PlainLinksAreVisitedOnce | crates/amatl-core/src/deep.rs:165-469 | With distinct candidates and no fragment in any candidate or link, no run visits an address twice. |
| FetchOnce.FragmentTwinIsFetchedTwice | crates/amatl-core/src/deep.rs:440-452 | A run that fetches and pays for one page twice: every page that links to itself with a fragment. |
| FetchOnce.FragmentTwinsAreEnqueuedTwice | crates/amatl-core/src/deep.rs:440-452 | From any state of a crawl, two links that differ only in their fragment are both enqueued for the same address. |
| FetchOnce.DropsFragment | crates/amatl-core/src/deep.rs:662-664 | Dropping the fragment of an address with one gives the address. |
| Subqueries.KeepUnknown | crates/amatl-core/src/deep.rs:553-559 | The filter keeps the results not known before, in order, and makes all of them known. |
| Subqueries.RunSubqueries | crates/amatl-core/src/deep.rs:501-584 | The proposal loop changes budget and known URLs, and records each subquery, as specified. |
| Subqueries.EveryRun | crates/amatl-core/src/deep.rs:501-584 | Every run: one record per proposal, the known URLs grow by exactly the results reported, the subqueries charged are those that reached the executor and fit the reserved number, and the books balance. |
| Subqueries.UnknownAre | crates/amatl-core/src/deep.rs:553-559 | The results of a subquery are the listed URLs not known before, each once. |
| Subqueries.EveryProposalIsRecorded | crates/amatl-core/src/deep.rs:501-584 | In every run the record of a proposal has the status, cost and results that what the proposals before it left and made known call for. |
| DeepRun.WholeRunKeepsBudget | crates/amatl-core/src/deep.rs:116-588 | Crawl and subqueries on one budget, for every run: everything charged plus what is left is the initial budget, no resource is overdrawn, and at most two subqueries are sent. |
| DeepRun.Enrich | crates/amatl-core/src/deep.rs:116-588 | The whole run: nothing happens without candidates; otherwise documents, subqueries and known URLs are those of the crawl followed by the subqueries, with balanced books, at most two subqueries sent, and known URLs grown by exactly the results. |
| Subqueries.GainsAddUpIff | crates/amatl-core/src/deep.rs:553-560 | The reported gains add up to the growth of the known set if and only if no proposal that the executor completes lists 2^32 or more URLs that were not known when it is run. |
| Subqueries.ShortExpansionsAddUp | crates/amatl-core/src/deep.rs:553-560 | Expansions of fewer than 2^32 URLs each are enough for that, whatever was known. |
| Subqueries.GainCanVanish | crates/amatl-core/src/deep.rs:560 | A run in which one subquery makes 2^32 URLs known and the total gain reported is zero. |
| Subqueries.TruncationLoses | crates/amatl-core/src/deep.rs:560 | Truncated gains never exceed the results, and equal them exactly when nothing was truncated. |
| Utf8.SeekOffset | crates/amatl-core/src/evidence.rs:230-235 | The byte offset of every character is a boundary, and seeking it finds that character. |
| Utf8.OffsetGrows | crates/amatl-core/src/evidence.rs:230-235 | Byte offsets grow by one to four bytes per character. |
| Evidence.FragmentsAreGood | crates/amatl-core/src/evidence.rs:193-228 | For every text: fragments are ascending and disjoint, non-empty, at most 512 bytes, without a newline, trimmed, and cover every character that is not whitespace. |
| Evidence.PreferredChoice | crates/amatl-core/src/evidence.rs:237-253 | The cut follows the last sentence end in the second half of the window, else the last whitespace there, else fills the window. |
| Evidence.CutChoice | crates/amatl-core/src/evidence.rs:206-228 | A rest that fits is not cut; otherwise the window reaches to the last character that fits. |
| Evidence.CutIsCut | crates/amatl-core/src/evidence.rs:206-253 | The cut meets both choices at once, said of byte offsets and characters only. |
| Evidence.EveryParagraphIsCutUp | crates/amatl-core/src/evidence.rs:193-228 | For every text and every paragraph of it: the fragments inside are the paragraph, trimmed as a whole, cut where each window prescribes, each piece trimmed, in order. |
| Evidence.FitIsTight | crates/amatl-core/src/evidence.rs:230-235 | The window is maximal: one more character would exceed 512 bytes. |
| Evidence.TrimmedIsTight | crates/amatl-core/src/evidence.rs:255-271 | Trimming drops exactly the surrounding whitespace, and the whole range only when it is all whitespace. |
| EvidenceCutting.FloorCharBoundary | crates/amatl-core/src/evidence.rs:230-235 | The loop returns the last character boundary at or before the index. |
| EvidenceCutting.PreferredSplit | crates/amatl-core/src/evidence.rs:237-253 | The scan over the window in bytes finds the specified cut. |
| EvidenceCutting.TrimRange | crates/amatl-core/src/evidence.rs:255-271 | Both cursor loops together compute the specified trimmed range in bytes. |
| EvidenceCutting.CutPiece | crates/amatl-core/src/evidence.rs:206-228 | One turn cuts at the specified place, which always lies behind the cursor. |
| EvidenceCutting.AppendBoundedRange | crates/amatl-core/src/evidence.rs:206-228 | The loop appends the fragments of one paragraph; it always lands on the split, so its one-byte fallback is never taken. |
| EvidenceCutting.NextCharBoundary | crates/amatl-core/src/evidence.rs:223-226 | The boundary search after the fallback returns its start when that is a boundary. |
| EvidenceCutting.BoundedContentRanges | crates/amatl-core/src/evidence.rs:193-204 | The ranges of a whole document are the specified fragments, in bytes. |
| EvidenceSelection.SelectBest | crates/amatl-core/src/evidence.rs:159-166 | From candidates with ascending starts the three in-place steps keep at most eight, in document order and without repeats, and everything left out ranks behind everything kept; from any candidates they invent none. |
| EvidenceSelection.BestAreBest | crates/amatl-core/src/evidence.rs:159-166 | At most eight candidates are kept, all of them if there are no more, in document order and without repeats; everything left out has a lower priority than everything kept, or the same and a later start. |
| EvidenceSelection.EvidenceFragments | crates/amatl-core/src/evidence.rs:115-191 | The fragments of a document are the best of its ranges with their ordinals and exact texts. |
| EvidenceSelection.EvidenceKeepsBest | crates/amatl-core/src/evidence.rs:115-191 | For every document and every scoring the fragments kept are its eight best, in document order. |
| Extract.CollectReadableText | crates/amatl-core/src/extract.rs:399-441 | The explicit-stack loop ends on every tree and emits the list of the recursive walk. |
| Extract.PushReversed | crates/amatl-core/src/extract.rs:437-439 | Pushing children in reverse puts them on the stack in document order. |
| Extract.ReadTop | crates/amatl-core/src/extract.rs:399-441 | One turn keeps what is emitted plus what is pending, and shrinks the work left. |
| Extract.WalkReads | crates/amatl-core/src/extract.rs:399-441 | The walk below a node emits the normalized text of every place that lies in no skipped element and less than 256 elements deep, in document order. |
| Extract.WalkAllReads | crates/amatl-core/src/extract.rs:399-441 | The same for a list of nodes: nothing else is emitted and nothing readable is lost. |
| Citations.ExtractCitations | crates/amatl-core/src/answer.rs:239-271 | The index loop returns the specified citations of the scanned text. |
| Citations.StripInvalidCitations | crates/amatl-core/src/answer.rs:273-313 | The copying loop returns the specified stripped text. |
| Citations.ScanIsScannable | crates/amatl-core/src/answer.rs:273-313 | Scanning loses nothing: rendering the pieces gives the text back. |
| Citations.ScanUndoesRender | crates/amatl-core/src/answer.rs:273-313 | Round trip the other way: scanning a rendering gives the pieces back. |
| Citations.StrippingKeepsTheRest | crates/amatl-core/src/answer.rs:273-313 | The pieces of the stripped text are exactly the pieces that were not fabricated: removing a marker creates no new one. |
| Citations.StrippingIsSafe | crates/amatl-core/src/answer.rs:239-313 | Stripping changes no citation, is idempotent, and leaves every token that is a valid index or no number, and only those. |
| Citations.CitedAre | crates/amatl-core/src/answer.rs:239-271 | The citations are the valid numbers among the tokens, each once. |
| Citations.CitedInOrder | crates/amatl-core/src/answer.rs:239-271 | Citations come in the order in which their sources are first named. |
| Citations.StrippingLeaves | crates/amatl-core/src/answer.rs:273-313 | Stripping keeps all text outside the tokens and, in order, every token that is not the text of a machine word that is no source. |
| Citations.ParsedIff | crates/amatl-core/src/answer.rs:250-291 | A token stands for a number if and only if it is that number in decimal after any zeros and perhaps a plus sign, and the number fits a 64-bit word. |
| Citations.ParseUndoesText | crates/amatl-core/src/answer.rs:250-291 | Round trip: such a text is read back as its number, or as none when it overflows. |
| Citations.Synthesize | crates/amatl-core/src/answer.rs:324-347 | An answer is refused without sources, on a failed request, or when it cites nothing valid; otherwise it is the stripped text with the citations of the original. |
| Audit.EveryMomentAccounted | crates/amatl-core/src/audit.rs:81-115 | In every interleaving, at every moment: the counter equals the active writers plus the callers between their add and subtract plus the writers lost, and at most 32 writers are active. |
| Audit.StepKeepsAccounts | crates/amatl-core/src/audit.rs:81-115 | Every atomic step preserves those accounts. |
| Audit.CounterIsBounded | crates/amatl-core/src/audit.rs:86-96 | The counter never exceeds the number of calls begun. |
| Audit.AtQuiescence | crates/amatl-core/src/audit.rs:81-115 | When every call has ended, calls are the finished, dropped and lost ones, and the counter is back at zero if and only if no writer was lost. |
| Audit.NeverStuck | crates/amatl-core/src/audit.rs:81-115 | Until every call has ended some step is possible. |
| Audit.RunsAreShort | crates/amatl-core/src/audit.rs:81-115 | Every interleaving of n calls takes at most 3 n steps. |
| Audit.RefusedIff | crates/amatl-core/src/audit.rs:86-96 | A call is refused if and only if active writers, callers about to subtract and lost writers together reach 32. |
| Audit.RefusedBelowTheCap | crates/amatl-core/src/audit.rs:86-96 | A run in which a call is refused while only 31 writers are active. |
| Audit.LostWritersCloseAdmission | crates/amatl-core/src/audit.rs:81-115 | In every run: once 32 writers are lost they stay lost, and a call that was still waiting is at no later moment admitted. |
| Audit.CounterCanStayUp | crates/amatl-core/src/audit.rs:97-115 | A run in which every call has ended and the counter stays at one: its writer was lost. |
| Diversity.CollectExceeded | crates/amatl-core/src/diversity.rs:102-120 | The caps a result would break are found from the count maps: its domain's, then its providers', then its type's. |
| Diversity.CountVisible | crates/amatl-core/src/diversity.rs:138-146 | A visible result raises the count of each of its groups, a repeated provider twice, and of no other. |
| Diversity.JudgeNext | crates/amatl-core/src/diversity.rs:102-127 | The verdict on a result is the specified one, given that the count maps agree with the verdicts so far. |
| Diversity.Admit | crates/amatl-core/src/diversity.rs:137-146 | The count maps keep agreeing with the verdicts, visible or not. |
| Diversity.Diversify | crates/amatl-core/src/diversity.rs:83-174 | Every input keeps its place and rank; visibility and recorded decisions are those of the verdicts, and a result over its caps is shown exactly when it scores at least the ratio times the next later competitor of each. |
| DiversityProperties.OverridesAreTheExcess | crates/amatl-core/src/diversity.rs:102-146 | For every list with distinct providers per result, and every domain, provider or type: the overrides number exactly the visible members beyond the cap, so visible members never exceed cap plus overrides. |
| DiversityProperties.LastCompetitorIsRelegated | crates/amatl-core/src/diversity.rs:121-127 | A result over the cap of a group without a later competitor in it is relegated. |
| DiversityProperties.HostlessCapIsHard | crates/amatl-core/src/diversity.rs:197-204 | Results without a host share the empty domain's cap, which no score overrides. |
| Diversity.NextIsFirstMatch | crates/amatl-core/src/diversity.rs:206-211 | The comparator is the first later competitor of the group. |
| DiversityProperties.OverridesCostRelevance | crates/amatl-core/src/diversity.rs:121-127 | On a ranked list a result followed by k overrides of a group, itself included, scores at least ratio^k times the group's last competitor. |
| DiversityProperties.ExceededIff | crates/amatl-core/src/diversity.rs:102-120 | A group is exceeded if and only if the result belongs to it and its tally has reached the cap. |
| Diversity.OverriddenIff | crates/amatl-core/src/diversity.rs:121-127 | A verdict overrides if and only if some cap is broken and, for every broken cap, the result reaches the ratio times the score of the next later competitor. |
| DiversityProperties.CapsReachedIff | crates/amatl-core/src/diversity.rs:102-120 | For results with distinct providers: a result breaks the cap of its domain, of a provider or of its type exactly when that many results of it are shown before. |
| DiversityProperties.ExceededKeepsOrder | crates/amatl-core/src/diversity.rs:102-120 | Broken caps are listed in the order of the groups. |
| DiversityProperties.DecisionsRecord | crates/amatl-core/src/diversity.rs:128-136 | There is one decision per broken cap, in rank order, with rank, score, outcome and the score of the next later competitor if there is one. |
| DiversityProperties.EveryBreachIsRecorded | crates/amatl-core/src/diversity.rs:128-136 | Every cap that a result breaks is recorded. |
| DiversityProperties.PolicyInForce | crates/amatl-core/src/diversity.rs:18-57 | The policy in force always has positive caps and a ratio of at least one: the given one if it does, else the default. |
| Canonical.NormalizePercentHex | crates/amatl-core/src/canonical.rs:144-164 | The byte loop equals the recursive normalization. |
| Canonical.HexKeepsShape | crates/amatl-core/src/canonical.rs:144-164 | Normalization keeps the length and changes nothing but the case of hex digits. |
| Canonical.HexKeepsOctets | crates/amatl-core/src/canonical.rs:144-164 | The percent-decoded octets are unchanged (section 6.2.2.1 of RFC 3986). |
| Canonical.HexIsIdempotent | crates/amatl-core/src/canonical.rs:144-164 | Normalizing twice is normalizing once. |
| Canonical.HexOfConcat | crates/amatl-core/src/canonical.rs:144-164 | Escapes never straddle a boundary before a character that is no hex digit. |
| Canonical.JoinUndoesSplit | crates/amatl-core/src/canonical.rs:23-35 | Joining the segments of a query gives the query back. |
| Canonical.SplitUndoesJoin | crates/amatl-core/src/canonical.rs:23-35 | Splitting a join of segments without separators gives the segments back. |
| Canonical.FilterSegments | crates/amatl-core/src/canonical.rs:23-35 | The loop separates tracking segments from the others, both in order. |
| Canonical.KeepsAllIffClean | crates/amatl-core/src/canonical.rs:25-33 | Kept and removed segments add up, and nothing is removed if and only if there is no tracking segment. |
| Canonical.FilterIsIdempotent | crates/amatl-core/src/canonical.rs:25-33 | A filtered query has nothing left to remove. |
| CanonicalUrls.ParseUndoesSerialize | crates/amatl-core/src/canonical.rs:15-21 | The text of a parsed address reads back as the same address, which the re-parse after normalization relies on. |
| Canonicalization.HexOfText | crates/amatl-core/src/canonical.rs:15-21 | Normalizing the text of an address normalizes its path, query and fragment and leaves scheme, host and port. |
| Canonicalization.Canonicalize | crates/amatl-core/src/canonical.rs:10-74 | The imperative pass, re-parse included, computes the canonical address and the recorded transformations of the specification, and is complete exactly when every percent sign starts an escape. |
| CanonicalProperties.CanonicalQuery | crates/amatl-core/src/canonical.rs:23-35 | The canonical query holds exactly the original's non-tracking segments in order, with hex digits in upper case, and is dropped if and only if none is left. |
| CanonicalProperties.TrackingIgnoresHexCase | crates/amatl-core/src/canonical.rs:25-33 | Hex case never decides whether a segment counts as tracking. |
| CanonicalProperties.CanonicalKeepsOctets | crates/amatl-core/src/canonical.rs:10-40 | Scheme, host and port are kept, and path and fragment keep their decoded octets. |
| CanonicalProperties.NothingStructural | crates/amatl-core/src/canonical.rs:86-142 | On the text of a parsed address no structural transformation is recorded. |
| CanonicalProperties.SecondPassFindsNothing | crates/amatl-core/src/canonical.rs:10-40 | Canonicalization is idempotent for every parsed address, and a second pass over the canonical text records no transformation. |
| CanonicalNotes.HexRaisesEscapes | crates/amatl-core/src/canonical.rs:144-165 | Exactly the digits of percent escapes are put in upper case; every other character stays. |
| CanonicalNotes.TrackingIff | crates/amatl-core/src/canonical.rs:24-32 | Exactly the parameters whose key starts with "utm_" or is on the list, in any letter case, are dropped, with or without a value. |
| CanonicalNotes.RemovedAre | crates/amatl-core/src/canonical.rs:24-32 | The keys recorded are those of the segments dropped, one for each. |
| CanonicalNotes.StructuralNotesAre | crates/amatl-core/src/canonical.rs:86-142 | Which structural notes a raw address gets, in order, told from its scheme, authority and rest. |
| CanonicalNotes.HostNoteIs | crates/amatl-core/src/canonical.rs:93-124 | The note on the host, told from the raw host between credentials and port. |
| CanonicalNotes.BracketedHostIsKept | crates/amatl-core/src/canonical.rs:113-124 | A host in brackets is never noted. |
| CanonicalNotes.NotesAre | crates/amatl-core/src/canonical.rs:10-43 | The notes on rewriting: a changed escape behind the authority, each tracking parameter, an empty fragment, each exactly when it occurs. |
| Binomials.Vandermonde | tools/analyze_supplemental_v3_treatment_control.py:41-53 | Choosing from two heaps is choosing from their union, the identity behind the enumeration. |
| Binomials.ChooseIsSymmetric | tools/analyze_supplemental_v3_treatment_control.py:45-48 | Choosing k of n is leaving n - k. |
| Binomials.ChooseByFactorials | tools/analyze_supplemental_v3_treatment_control.py:45-48 | Choosing, then ordering both parts, orders everything. |
| Fisher.OutsideIsImpossible | tools/analyze_supplemental_v3_treatment_control.py:43-44 | Outside the enumerated range every table has weight zero. |
| Fisher.ProbabilitiesSumToOne | tools/analyze_supplemental_v3_treatment_control.py:43-52 | Over all tables with the observed margins the enumerated probabilities sum to exactly one. |
| Fisher.PValueIsAProbability | tools/analyze_supplemental_v3_treatment_control.py:50-51 | The p-value is positive, at least the probability of the observed table, and at most one. |
| Fisher.PValueIsOneIff | tools/analyze_supplemental_v3_treatment_control.py:50-51 | The p-value is one if and only if the weight of no table with these margins exceeds that of the observed one by more than one part in 10^12. |
| Fisher.LikelierTablesAreLeftOut | tools/analyze_supplemental_v3_treatment_control.py:50-51 | Which tail is summed: a table no likelier than the observed one counts with its whole weight, and a likelier one not at all. |
| Fisher.PValueIsMonotone | tools/analyze_supplemental_v3_treatment_control.py:41-53 | Among tables with the same margins a likelier one has no smaller p-value. |
| Fisher.RowsAreInterchangeable | tools/analyze_supplemental_v3_treatment_control.py:41-53 | Swapping the rows of the table leaves the p-value unchanged. |
| Fisher.ColumnsAreInterchangeable | tools/analyze_supplemental_v3_treatment_control.py:41-53 | Swapping the columns leaves the p-value unchanged. |
| Fisher.TransposedWeight | tools/analyze_supplemental_v3_treatment_control.py:47-48 | Every table is equally probable whether counted by rows or by columns. |
| Fisher.RowsAndColumnsAreInterchangeable | tools/analyze_supplemental_v3_treatment_control.py:41-53 | Transposing the table leaves the p-value unchanged. |
| Fisher.OddsRatioOfSwaps | tools/analyze_supplemental_v3_treatment_control.py:52 | The odds ratio is unchanged by transposing, inverted by swapping rows or columns, and undefined exactly when a factor of its denominator is zero. |
| WilsonScore.IntervalInvertsScoreTest | tools/analyze_supplemental_v3_treatment_control.py:33-38 | The interval holds exactly the proportions that the score test does not reject. |
| WilsonScore.IntervalIsInRange | tools/analyze_supplemental_v3_treatment_control.py:33-38 | For every critical value the interval contains the observed proportion and lies within zero and one. |
| WilsonScore.WilsonEncloses | tools/analyze_supplemental_v3_treatment_control.py:33-38 | So does the interval the source reports, for every number of successes out of any positive number of trials. |
| Agreement.IndexRows | tools/validate_independent_relevance_adjudication.py:95 | The lookup by row id holds, for each id, its last row. |
| Agreement.Tally | tools/validate_independent_relevance_adjudication.py:96-100 | One row raises exactly one cell of the matrix. |
| Agreement.Compare | tools/validate_independent_relevance_adjudication.py:95-105 | The loop leaves a matrix whose cells count the rows with each pair of labels, the number of agreements, and the disagreements in order with their severity. |
| Kappa.Agree | tools/validate_independent_relevance_adjudication.py:78-110 | The report is refused unless both packets are valid; otherwise it holds matrix, agreements and queue, and kappa is the agreement beyond chance as a share of what chance leaves open, with chance taken from the label counts or, for a reference without repeated ids, from the totals of the matrix: zero, negative and one exactly as agreement compares with chance. |
| Kappa.MarginalsMatchIff | tools/validate_independent_relevance_adjudication.py:95-111 | For accepted packets, row and column totals equal the labelers' own counts if and only if the reference lists no row id twice. |
| Kappa.RepeatedIdIsAdmitted | tools/validate_independent_relevance_adjudication.py:58-109 | A reference that lists one row id twice passes validation of both packets, and its totals differ from the labelers' counts. |
| Kappa.TotalsOfMatrix | tools/validate_independent_relevance_adjudication.py:96-100 | Row and column sums of the matrix count the reference rows by the first and by the second label. |
| Kappa.DisputedIsTheRest | tools/validate_independent_relevance_adjudication.py:97-105 | Agreements and disagreement queue partition the reference rows. |
| Kappa.AcceptedIff | tools/validate_independent_relevance_adjudication.py:33-60 | A packet is valid if and only if it has 368 labeled rows, each id of the reference in exactly one row and no other ids, and each row shows the content the reference last gives its id. |
| Kappa.SeveritiesAre | tools/validate_independent_relevance_adjudication.py:104 | The severity of a disagreement, for every pair of labels. |
| Kappa.DisputesKeepOrder | tools/validate_independent_relevance_adjudication.py:98-105 | The queue follows the order of the reference. |
| Kappa.ExpectedBound | tools/validate_independent_relevance_adjudication.py:108-110 | The inequality on the marginals behind the lower bound: chance agreement leaves room for the agreements that the marginals force. |
| Kappa.KappaIsBounded | tools/validate_independent_relevance_adjudication.py:106-110 | For every pair of valid packets, repeated reference ids or not, kappa lies between -1 and 1, and is 1 if and only if the labelers never disagree. |
| PlanRunner.AcceptedIff | tools/benchmark_plan_runner.py:284-300 | A plan is accepted if and only if its positions are every query once per round in round-major order, without repeats. |
| PlanRunner.BuiltPlanIsAcceptedIff | tools/benchmark_plan_runner.py:272-300 | A plan the builder makes is accepted if and only if no query is listed twice. |
| PlanRunner.RoundMajor | tools/benchmark_plan_runner.py:272-282 | Position k of a plan is query k modulo the number of queries in round k divided by it, rounds counted from one. |
| PlanRunner.FaultIs | tools/benchmark_plan_runner.py:284-300 | Which fault a plan is refused for: a repeated position, else a wrong count, else a position out of its place. |
| PlanRunner.BuildsIff | tools/benchmark_plan_runner.py:272-282 | A plan is built exactly for a named benchmark and provider and at least one round, with every position in its place. |
| PlanExecution.DurableJSONLWriter.Append | tools/benchmark_plan_runner.py:180-191 | A record becomes durable once per position; a repeated position writes nothing; a failed write leaves nothing, part of a line, or an unsynced line, and does not make the position durable. |
| PlanExecution.ExecutionState.ExecutePosition | tools/benchmark_plan_runner.py:325-360 | Barriers, executor and durable write of one position: progress is recorded only after the write, and the events say how far it got. |
| PlanExecution.WithinHardLimit | tools/benchmark_plan_runner.py:363-384 | A validated plan that passes the limit check never meets the per-position limit. |
| PlanExecution.ExecutePlan | tools/benchmark_plan_runner.py:363-397 | For every executor behaviour and every failing write: the file grows by records of a prefix of the plan, numbered from one and without repeated positions, followed by what a failed write left: nothing, part of a line, or the whole line; the prefix is the whole run exactly when no exception ended it, and the events are those of its positions plus the one that failed. |
| PlanExecutionProperties.NoPositionRunsTwice | tools/benchmark_plan_runner.py:325-397 | The executor sees a prefix of the plan, no position twice; at most the last one lacks its record. |
| PlanExecutionProperties.NormalFinishSleeps | tools/benchmark_plan_runner.py:363-397 | A run that ends normally sleeps exactly k - 1 times for k positions when paced, and never otherwise. |
| PlanExecutionProperties.EventsAlternate | tools/benchmark_plan_runner.py:363-397 | Executions, durable writes and pauses alternate in every run, no run ends with a pause, and a failed write is the last event and ends the run. |
| PlanExecutionProperties.DurablesAreWritten | tools/benchmark_plan_runner.py:325-397 | The records that became durable during a run, in order, are exactly those of the positions it got through. |
| PlanExecutionProperties.RefusedBecause | tools/benchmark_plan_runner.py:363-384 | Why a run is refused before it starts, and how many positions it may reach otherwise. |
| PlanExecutionProperties.BarrierIs | tools/benchmark_plan_runner.py:325-340 | Which barrier refuses a position before the executor sees it. |
| PlanExecutionProperties.StopsBecause | tools/benchmark_plan_runner.py:325-360 | A run goes past a position exactly when the executor answers, the writer does not hold the position, and the record reaches the disk. |
| CaptureGate.V4Accumulator.Evaluate | tools/execute_supplemental_v4_capture.py:181-212 | The first objection in the frozen order decides; the canonical address is shown once it was computed. |
| CaptureGate.V4Accumulator.Accept | tools/execute_supplemental_v4_capture.py:214-249 | One result changes accepted rows, known addresses, ledger and counters as specified. |
| CaptureGate.V4Accumulator.CountArm | tools/execute_supplemental_v4_capture.py:208-211 | The count over the accepted rows is the arm's fill. |
| CaptureRun.CaptureQuery | tools/execute_supplemental_v4_capture.py:335-398 | At most two attempts per query: only a failed first one is repeated, an unreadable response is not, and three results of the last one are judged. |
| CaptureRun.Capture | tools/execute_supplemental_v4_capture.py:329-406 | The run executes a prefix of the capture order while an arm is short; it ends complete if and only if both arms are full, otherwise with the universe exhausted, and never with the incomplete status. |
| CaptureProperties.AdmitKeepsClean | tools/execute_supplemental_v4_capture.py:181-249 | Judging one more result keeps accepted addresses distinct, outside the exclusion sets, and the quotas. |
| CaptureProperties.AdmitKeepsAccounts | tools/execute_supplemental_v4_capture.py:214-249 | Each judged result adds one ledger entry and the counters keep agreeing with the ledger. |
| CaptureProperties.AcceptedIff | tools/execute_supplemental_v4_capture.py:181-212 | A result is accepted if and only if its query asked for its rank, it is complete, its address is among no accepted row and in no exclusion set, and its arm has fewer than 474 rows. |
| CaptureProperties.RejectedBecause | tools/execute_supplemental_v4_capture.py:181-212 | The exact condition of every rejection reason, with those tested before it ruled out. |
| CaptureProperties.AdmitRecords | tools/execute_supplemental_v4_capture.py:214-249 | The ledger entry and the accepted row one result leaves, field by field. |
| CaptureProperties.QueryIsEntered | tools/execute_supplemental_v4_capture.py:335-398 | In every run a query adds its first three results to the ledger, ranked from one, under the second attempt if the first timed out or failed. |
| CaptureProperties.RetriesAre | tools/execute_supplemental_v4_capture.py:335-398 | Retries count the queries whose first attempt timed out or failed. |
| CaptureProperties.EveryRunIsClean | tools/execute_supplemental_v4_capture.py:329-406 | For every answer of the endpoint and any number of queries: accepted addresses pairwise distinct and in no exclusion set, quotas kept, one ledger entry per judged result, and the ledger as long as accepted rows and rejection counters together. |
| CaptureProperties.LedgerSplits | tools/execute_supplemental_v4_capture.py:214-249 | Of every gate whose accounts are kept, the ledger is as long as the accepted rows plus the ten rejection counters. |
| CaptureProperties.CompleteRunIsExact | tools/execute_supplemental_v4_capture.py:400-406 | Both arms are full if and only if each holds exactly 474 rows, if and only if there are 948 accepted rows. |
| CaptureProperties.StoppingLosesNothing | tools/execute_supplemental_v4_capture.py:329-334 | Stopping when both arms are full accepts the same rows as running the whole universe would. |
| CaptureProperties.RowsAreUnique | tools/execute_supplemental_v4_capture.py:222-230 | No query contributes two rows of the same rank, so row identifiers made of both are unique. |
| PilotUniverse.ValidateUniverse | tools/supplemental_pilot_contract.py:38-74 | A universe is accepted if and only if header, identifiers and order are as frozen, every query has its stratum's positions, each stratum could return its quota, and the third is balanced; counts and capacities are then those of its queries. |
| PilotUniverse.FrozenIff | tools/supplemental_pilot_contract.py:38-74 | What a frozen universe is: the expected header, queries numbered from one under different ids, each with the positions of its stratum, at least twenty of the first two strata and twelve of the third, half procedural and half informational. |
| PilotUniverse.EntryFault | tools/supplemental_pilot_contract.py:56-65 | A query passes exactly when it names a known stratum and lists that stratum's positions. |
| Pilot.PilotAccumulator.AcceptOrReject | tools/supplemental_pilot_contract.py:95-127 | One offer changes counts and known addresses as specified and always leaves one attempt. |
| Pilot.RecordedKeepsSound | tools/supplemental_pilot_contract.py:95-127 | One more offer keeps quotas, counts and the disjointness of accepted addresses. |
| Pilot.AcceptedIff | tools/supplemental_pilot_contract.py:95-127 | An offer is accepted if and only if it is presentable, its address was not accepted before and is in neither corpus, and its stratum has fewer than 60. |
| Pilot.RejectedBecause | tools/supplemental_pilot_contract.py:95-127 | The exact condition of every rejection reason, with those tested before it ruled out. |
| Pilot.OfferIsNoted | tools/supplemental_pilot_contract.py:95-127 | The attempt each offer leaves, field by field. |
| Pilot.EveryRunIsSound | tools/supplemental_pilot_contract.py:95-127 | Over every sequence of offers: each stratum at most 60, accepted addresses pairwise distinct and outside both corpora, one attempt per offer. |
| Pilot.PilotAccumulator.ExhaustedStatus | tools/supplemental_pilot_contract.py:129-132 | The run is complete exactly when every stratum has reached its quota. |
| Pilot.TotalQuotaIsRedundant | tools/supplemental_pilot_contract.py:119-132 | The overall quota never refuses what its stratum's quota would accept, and is reached exactly when every stratum is complete. |
| Similarity.JaccardIsShare | tools/query_similarity.py:16-18 | The similarity lies between zero and one, and is one if and only if the token sets are equal. |
| Similarity.JaccardIsSymmetric | tools/query_similarity.py:16-18 | The similarity does not depend on the order of the two queries. |
| Similarity.ExceedsIff | tools/query_similarity.py:16-18 | The threshold is passed exactly when more than four fifths of all tokens are shared, or there are none. |
| Numbering.PaddedIsInjective | tools/generate_offline_candidate_universe.py:109-120 | Zero-padded numbers differ for different numbers, beyond four digits too. |
| Generator.CrossPairConflict | tools/generate_offline_candidate_universe.py:68-78 | The nested loops report a conflict if and only if some query of the pair is too close to some accepted query. |
| Generator.SelectStrategy | tools/generate_offline_candidate_universe.py:80-90 | The loop finds the first of the eight forms, cyclically from the base, that keeps clear of all accepted pairs, or none. |
| Generator.SelectIsFirst | tools/generate_offline_candidate_universe.py:80-90 | The form selected is the first of the eight, cyclically from the base, of which no query shares more than four fifths of its words with an accepted one; none is selected when there is no such form. |
| Generator.AddPair | tools/generate_offline_candidate_universe.py:107-140 | One turn extends pairs, rows and assignments of the specification by one pair, or fails exactly when that pair has no free form. |
| Generator.BuildCandidate | tools/generate_offline_candidate_universe.py:97-162 | The nested loops return the universe of the first target pairs of the catalog, or fail exactly when one of them has no distinct form. |
| Generator.PairCountIs | tools/generate_offline_candidate_universe.py:97-105 | A universe has as many pairs as asked for, or all of the catalog if it has fewer. |
| Generator.PairsAre | tools/generate_offline_candidate_universe.py:97-130 | Pair k of a universe asks about topic k in the first form, from form k on, that is clear of the pairs before it. |
| Generator.RowsAre | tools/generate_offline_candidate_universe.py:107-140 | Each pair gives a treatment and a control row and assignment with its texts, numbers and family. |
| NoveltyGate.ScanRows | tools/pre_execution_novelty_diversity_gate.py:87-95 | Repeated ids, incomplete rows and the lookup by id are counted over all rows. |
| NoveltyGate.LacksNothingIff | tools/pre_execution_novelty_diversity_gate.py:91-93 | A row is complete exactly when id, query, pair, family and strategy each show a visible character and it names its provenance. |
| NoveltyGate.ScanAssignments | tools/pre_execution_novelty_diversity_gate.py:95-101 | Unknown and mismatched assignments, the rows named, and the arms reached per pair are counted over all assignments. |
| NoveltyGate.Evaluate | tools/pre_execution_novelty_diversity_gate.py:84-128 | The integrity and cross-pair part of the verdict, in new-candidate mode with assignments that name query ids: the counters, integrity failing unless all are zero with at least one assignment, and whether all pairs are separated. |
| GeneratorMeetsGate.IntegrityIff | tools/pre_execution_novelty_diversity_gate.py:85-111 | All counters are zero if and only if rows and assignments match one to one, arm by arm, every field is present, and every pair has exactly one row per arm. |
| GeneratorMeetsGate.SeparatedIff | tools/pre_execution_novelty_diversity_gate.py:119-128 | Of every universe of complete pairs: the cross-pair condition holds if and only if no two queries of different pairs share more than four fifths of their words. |
| GeneratorMeetsGate.PairsAreFree | tools/generate_offline_candidate_universe.py:80-90 | Every accepted pair uses one form of its topic, and no two accepted pairs conflict. |
| GeneratorMeetsGate.GeneratedIsSeparated | tools/pre_execution_novelty_diversity_gate.py:119-128 | Every cross-pair similarity of a generated universe, re-read from its rows by pair and arm, is within the threshold. |
| GeneratorMeetsGate.GeneratedIsMatched | tools/pre_execution_novelty_diversity_gate.py:85-111 | A generated universe with at least one pair is a perfect matching of rows and assignments with complete pairs. |
| GeneratorMeetsGate.GeneratedUniversePasses | tools/pre_execution_novelty_diversity_gate.py:84-128 | For every catalog, tokenizer and target: a returned universe passes the gate's cross-pair condition, and its integrity check if and only if it holds at least one pair. |
| GeneratorMeetsGate.QueryIdIsInjective | tools/generate_offline_candidate_universe.py:118-120 | Query identifiers differ for different arms or pair numbers. |

## Left out

- HTTP, DNS, TLS, subprocesses, SQLite, tracing and telemetry; error messages and most degradation texts.
- Request validation, scoring, coverage and role assignment (`router.rs`, `progressive.rs`, `normalize.rs`, `ranking.rs`): functions of the model's `World`.
- URL and HTML parsing: the model starts from parsed addresses and trees. Re-parsing is modelled only for text that is the serialization of a parsed address.
- Whether a provider task gets its permits, has time left for an attempt, and may wait for another are parameters; backoff durations and jitter are not computed.
- Conditional requests, the document cache's write path, evidence scoring signals, ranking v2 and gap analysis in the deep run.
- Unicode normalization, case folding and confusable folding of titles, and the word pattern of queries: abstract functions.
- Wrap-around of machine integers other than the 32-bit truncation of subquery gains; the audit counter is shown never to exceed the number of calls begun.
- Diversity metrics, display fields and the limit names of decisions; a relegated result keeps all its fields.
- Diversity.Diversify: ranks are not truncated to 32 bits, because lists are far shorter.
- PlanExecution.ExecutePlan: always has a writer; the variant without one records nothing durable. The classification of an outcome is a fixed table.
- CaptureRun.Capture: takes the queries in capture order; hashing, file layout, packets and the frozen-input checks before the run are not modelled. Uncaught exceptions end the run.
- NoveltyGate.Evaluate: only new-candidate mode, assignments that name a query id, and the integrity and cross-pair conditions; novelty, family, balance and capacity metrics are ratios compared with thresholds. Whitespace is space, tab, newline and carriage return.
- Generator.BuildCandidate: the count of comparisons is not kept; catalogs and target are parameters.
- Kappa.Agree: rounding of the report, the adjudication packet's file and the acquisition estimate.
- WilsonScore.WilsonEncloses: the spread, critical value times square root, is a parameter with its defining equation.
- `classify.rs`, `gaps.rs`, `complementarity.rs`, `circuit.rs`, the caches and the command line: tables, folds and plumbing.
