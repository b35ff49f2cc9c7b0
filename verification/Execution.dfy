/** Progressive search (execution.rs): rounds of concurrent provider calls under a call budget. */
module Execution {
  // `SearchOrchestrator.Search` is the round loop.  Which task of a round finishes first is chosen
  // nondeterministically; the clock, the provider outcomes and the ranking are functions of `World`.

  import opened Wrappers
  import opened TextOrder
  import opened Dedupe
  import opened Planning
  import opened Counting

  // ---- Routing decisions ----

  datatype Policy = Policy(minimumExpectedGain: real, minimumGain: real, minimumRemainingMs: nat)

  datatype Coverage = Coverage(minimum: bool, target: bool, lowDiversity: bool)

  datatype StopReason = TimeExhausted | DeadlineNear | ProviderLimit | CoverageTargetReached
                      | MarginalGainLow | ProvidersExhausted | ExplicitFilterSatisfied

  datatype DebugReason = ExplicitFilterPending(filters: set<string>) | CoverageExceptionOnce

  datatype Next = Next(provider: string, usesException: bool, debugReason: Option<DebugReason>)

  datatype Inputs = Inputs(
    coverage: Coverage, candidates: seq<string>, pending: set<string>, remainingMs: nat,
    remainingCalls: nat, observedGain: Option<real>, expectedGain: map<string, real>,
    policy: Policy, exceptionUsed: bool)

  function GainOf(i: Inputs, provider: string): real {
    if provider in i.expectedGain then i.expectedGain[provider] else 0.0
  }

  predicate Promising(i: Inputs, provider: string) {
    GainOf(i, provider) >= i.policy.minimumExpectedGain
  }

  /** The first candidate whose expected gain reaches the threshold. */
  function FirstPromising(i: Inputs, candidates: seq<string>): Option<string> {
    if candidates == [] then None
    else if Promising(i, candidates[0]) then Some(candidates[0])
    else FirstPromising(i, candidates[1..])
  }

  function Decide(i: Inputs): Result<Next, StopReason> {
    var expectedLow :=
      && i.coverage.minimum && i.candidates != [] && i.pending == {}
      && (forall c :: c in i.candidates ==> GainOf(i, c) < i.policy.minimumExpectedGain);
    var observedLow := i.observedGain.Some? && i.observedGain.value < i.policy.minimumGain && i.pending == {};
    if i.remainingMs == 0 then Err(TimeExhausted)
    else if i.remainingMs < i.policy.minimumRemainingMs then Err(DeadlineNear)
    else if i.candidates != [] && i.remainingCalls == 0 then Err(ProviderLimit)
    else if i.coverage.target && i.pending == {} then Err(CoverageTargetReached)
    else if expectedLow || observedLow then Err(MarginalGainLow)
    else if i.candidates == [] then Err(ProvidersExhausted)
    else if i.coverage.minimum && !i.coverage.lowDiversity && i.pending == {} then Err(ExplicitFilterSatisfied)
    else if i.pending != {} then Ok(Next(i.candidates[0], false, Some(ExplicitFilterPending(i.pending))))
    else if FirstPromising(i, i.candidates).Some? then Ok(Next(FirstPromising(i, i.candidates).value, false, None))
    else if !i.coverage.minimum && !i.exceptionUsed then Ok(Next(i.candidates[0], true, Some(CoverageExceptionOnce)))
    else Err(MarginalGainLow)
  }

  // ---- The world around one search ----

  datatype ProviderResult = ProviderResult(
    provider: string, rows: seq<CanonicalResult>, acceptedFilters: set<string>, partial: bool)

  /** What routing sees of the accumulated results: the ranked URLs and their coverage. */
  datatype Pipeline = Pipeline(urls: seq<string>, coverage: Coverage)

  /** How one provider task ends: with rows, with an error, or by panicking. */
  datatype Outcome = Finished(result: ProviderResult) | Failed | Panicked

  datatype World = World(
    ordered: seq<string>,
    firstRound: seq<string>,
    expectedGain: map<string, real>,
    requiredFilters: set<string>,
    policy: Policy,
    registered: set<string>,
    outcome: (nat, string) -> Outcome,
    remainingMs: nat -> nat,
    pipeline: seq<ProviderResult> -> Pipeline,
    calls: nat)

  function OutcomeOf(w: World, round: nat, provider: string): Outcome { w.outcome(round, provider) }

  function RemainingMs(w: World, round: nat): nat { w.remainingMs(round) }

  function View(w: World, results: seq<ProviderResult>): Pipeline { w.pipeline(results) }

  /** Ranking, diversity and coverage, which all work on the deduplicated rows. */
  datatype Ranking = Ranking(text: TextRules, rank: (nat, seq<DeduplicatedResult>) -> Pipeline)

  /** The router offers distinct providers and starts with some of them. */
  ghost predicate Routed(w: World) {
    AllDifferent(w.ordered) && AllDifferent(w.firstRound) && forall p :: p in w.firstRound ==> p in w.ordered
  }

  datatype ParallelOutput = ParallelOutput(results: seq<ProviderResult>, used: seq<string>, failed: seq<string>, partial: seq<string>)

  /** One joined task added to the output. */
  function Join(w: World, round: nat, out: ParallelOutput, name: string): ParallelOutput {
    match OutcomeOf(w, round, name)
    case Finished(result) =>
      ParallelOutput(out.results + [result], out.used + [name], out.failed,
             if result.partial then out.partial + [name] else out.partial)
    case Failed => out.(failed := out.failed + [name])
    case Panicked => out
  }

  function JoinAll(w: World, round: nat, order: seq<string>): ParallelOutput {
    if order == [] then ParallelOutput([], [], [], [])
    else Join(w, round, JoinAll(w, round, order[..|order| - 1]), order[|order| - 1])
  }

  /** Selected providers no task answered for, in name order. */
  function Missing(selected: seq<string>, out: ParallelOutput): seq<string> {
    SortedUnique(Keep(selected, SetOf(selected) - SetOf(out.used) - SetOf(out.failed)))
  }

  function Settled(w: World, round: nat, selected: seq<string>, order: seq<string>): ParallelOutput {
    var out := JoinAll(w, round, order);
    ParallelOutput(out.results, SortedUnique(out.used), SortedUnique(out.failed + Missing(selected, out)), SortedUnique(out.partial))
  }

  function Spawned(w: World, selected: seq<string>): seq<string> { Keep(selected, w.registered) }

  function Merge(target: ParallelOutput, source: ParallelOutput): ParallelOutput {
    ParallelOutput(target.results + source.results, SortedUnique(target.used + source.used),
           SortedUnique(target.failed + source.failed), SortedUnique(target.partial + source.partial))
  }

  function Rows(results: seq<ProviderResult>): seq<CanonicalResult> {
    if results == [] then [] else results[0].rows + Rows(results[1..])
  }

  function ActiveProviders(results: seq<ProviderResult>): nat {
    |set r | r in Rows(results) :: r.provider|
  }

  function RunPipeline(ranking: Ranking, results: seq<ProviderResult>): Pipeline {
    ranking.rank(ActiveProviders(results), Deduplicated(ranking.text, Rows(results)))
  }

  function Accepted(results: seq<ProviderResult>): set<string> {
    set r, f | r in results && f in r.acceptedFilters :: f
  }

  function PendingFilters(required: set<string>, results: seq<ProviderResult>): set<string> {
    var accepted := Accepted(results);
    var covered := if "time_range" in accepted then accepted + {"date_from", "date_to"} else accepted;
    required - covered
  }

  /** How many of the current URLs were not among the previous ones. */
  function NewUrls(previous: seq<string>, current: seq<string>): nat {
    if current == [] then 0
    else (if current[0] in previous then 0 else 1) + NewUrls(previous, current[1..])
  }

  // ---- One round ----

  datatype Round = Round(selected: seq<string>, inputs: Inputs, decision: Result<Next, StopReason>)

  datatype State = State(
    attempted: set<string>, remainingCalls: nat, accumulated: ParallelOutput, previous: seq<string>,
    exceptionUsed: bool, nextSelected: seq<string>, trace: seq<Round>, stop: Option<StopReason>)

  function Start(w: World): State {
    State({}, w.calls, ParallelOutput([], [], [], []), [], false, w.firstRound, [], None)
  }

  function Selected(s: State): seq<string> { Planned(s.nextSelected, s.remainingCalls) }

  function Candidates(w: World, attempted: set<string>): seq<string> {
    Keep(w.ordered, SetOf(w.ordered) - attempted)
  }

  /** What one round has done and seen when it reaches its decision. */
  datatype Observation = Observation(
    selected: seq<string>, attempted: set<string>, remainingCalls: nat, accumulated: ParallelOutput,
    urls: seq<string>, inputs: Inputs)

  function Accumulated(w: World, s: State, order: seq<string>): ParallelOutput {
    if Selected(s) == [] then s.accumulated
    else Merge(s.accumulated, Settled(w, |s.trace| + 1, Selected(s), order))
  }

  /** Everything the decision after round `round` looks at. */
  function InputsFor(w: World, round: nat, previous: seq<string>, exceptionUsed: bool,
                     attempted: set<string>, remaining: nat, results: seq<ProviderResult>): Inputs {
    var view := View(w, results);
    var gain := if round > 1 then Some(NewUrls(previous, view.urls) as real) else None;
    Inputs(view.coverage, Candidates(w, attempted), PendingFilters(w.requiredFilters, results),
           RemainingMs(w, round), remaining, gain, w.expectedGain, w.policy, exceptionUsed)
  }

  function Observed(w: World, s: State, order: seq<string>): Observation {
    var attempted := s.attempted + SetOf(Selected(s));
    var remaining := s.remainingCalls - Reserved(s.nextSelected, s.remainingCalls);
    var accumulated := Accumulated(w, s, order);
    Observation(Selected(s), attempted, remaining, accumulated, View(w, accumulated.results).urls,
                InputsFor(w, |s.trace| + 1, s.previous, s.exceptionUsed, attempted, remaining, accumulated.results))
  }

  function Concluded(s: State, o: Observation): State {
    var decision := Decide(o.inputs);
    var trace := s.trace + [Round(o.selected, o.inputs, decision)];
    match decision
    case Ok(next) =>
      State(o.attempted, o.remainingCalls, o.accumulated, o.urls, s.exceptionUsed || next.usesException,
            [next.provider], trace, None)
    case Err(reason) =>
      State(o.attempted, o.remainingCalls, o.accumulated, s.previous, s.exceptionUsed, s.nextSelected, trace, Some(reason))
  }

  /** One turn of the round loop, given the order in which the spawned tasks finish. */
  function Step(w: World, s: State, order: seq<string>): State {
    Concluded(s, Observed(w, s, order))
  }

  /** The state after some rounds, one completion order each. */
  function After(w: World, orders: seq<seq<string>>): State {
    if orders == [] then Start(w)
    else Step(w, After(w, orders[..|orders| - 1]), orders[|orders| - 1])
  }

  /** Each round starts only if the one before did not stop, and joins exactly the tasks it spawned. */
  ghost predicate IsRun(w: World, orders: seq<seq<string>>) {
    orders == [] ||
    var before := orders[..|orders| - 1];
    && IsRun(w, before)
    && JoinsSpawned(w, After(w, before), orders[|orders| - 1])
  }

  ghost predicate JoinsSpawned(w: World, s: State, order: seq<string>) {
    && s.stop.None?
    && AllDifferent(order)
    && SetOf(order) == SetOf(Spawned(w, Selected(s)))
  }
}
