module RoutingProperties {
  // What the decision after each round looks at, and which decision it is (execution.rs).

  import opened Wrappers
  import opened Planning
  import opened Counting
  import opened Execution
  import opened ExecutionProperties

  // ---- Decisions ----

  /** Candidate `k` is the first one expected to bring enough; one without a forecast is expected to bring nothing. */
  ghost predicate FirstWorthwhile(i: Inputs, candidates: seq<string>, k: nat) {
    && k < |candidates| && Worthwhile(i, candidates[k])
    && forall j :: 0 <= j < k ==> !Worthwhile(i, candidates[j])
  }

  ghost predicate Worthwhile(i: Inputs, provider: string) {
    if provider in i.expectedGain then i.expectedGain[provider] >= i.policy.minimumExpectedGain
    else 0.0 >= i.policy.minimumExpectedGain
  }

  lemma {:induction false} FirstPromisingIsFirst(i: Inputs, candidates: seq<string>)
    ensures match FirstPromising(i, candidates)
      case Some(p) => exists k: nat :: FirstWorthwhile(i, candidates, k) && candidates[k] == p
      case None => forall k :: 0 <= k < |candidates| ==> !Worthwhile(i, candidates[k])
  {
    if candidates != [] {
      if Promising(i, candidates[0]) {
        assert FirstWorthwhile(i, candidates, 0);
      } else {
        FirstPromisingIsFirst(i, candidates[1..]);
        if k: nat :| FirstWorthwhile(i, candidates[1..], k) && FirstPromising(i, candidates) == Some(candidates[1..][k]) {
          forall j | 0 <= j < k + 1 ensures !Worthwhile(i, candidates[j]) {
            if j > 0 { assert candidates[1..][j - 1] == candidates[j]; }
          }
          assert FirstWorthwhile(i, candidates, k + 1) && candidates[k + 1] == candidates[1..][k];
        }
      }
    }
  }

  /** The provider a continuing search calls, and why. */
  lemma NextIs(i: Inputs)
    requires Decide(i).Ok?
    ensures var next := Decide(i).value;
      if i.pending != {} then next == Next(i.candidates[0], false, Some(ExplicitFilterPending(i.pending)))
      else if exists k :: 0 <= k < |i.candidates| && Worthwhile(i, i.candidates[k]) then
        next.debugReason == None && !next.usesException
        && exists k: nat :: FirstWorthwhile(i, i.candidates, k) && i.candidates[k] == next.provider
      else next == Next(i.candidates[0], true, Some(CoverageExceptionOnce))
  {
    FirstPromisingIsFirst(i, i.candidates);
  }

  /** The gain seen or to be expected is too low. */
  ghost predicate GainTooLow(i: Inputs) {
    && i.pending == {}
    && (|| (i.observedGain.Some? && i.observedGain.value < i.policy.minimumGain)
        || (i.candidates != [] && (forall k :: 0 <= k < |i.candidates| ==> !Worthwhile(i, i.candidates[k]))
            && (i.coverage.minimum || i.exceptionUsed)))
  }

  /** Why a search stops: each reason, with those that come before it ruled out. */
  lemma StopsBecause(i: Inputs)
    ensures Decide(i) == Err(TimeExhausted) <==> i.remainingMs == 0
    ensures Decide(i) == Err(DeadlineNear) <==> 0 < i.remainingMs < i.policy.minimumRemainingMs
    ensures var inTime := 0 < i.remainingMs && i.policy.minimumRemainingMs <= i.remainingMs;
      var canCall := inTime && (i.candidates == [] || i.remainingCalls > 0);
      var wanting := canCall && !(i.coverage.target && i.pending == {});
      && (Decide(i) == Err(ProviderLimit) <==> inTime && !canCall)
      && (Decide(i) == Err(CoverageTargetReached) <==> canCall && !wanting)
      && (Decide(i) == Err(MarginalGainLow) <==> wanting && GainTooLow(i))
      && (Decide(i) == Err(ProvidersExhausted) <==> wanting && !GainTooLow(i) && i.candidates == [])
      && (Decide(i) == Err(ExplicitFilterSatisfied) <==>
          wanting && !GainTooLow(i) && i.candidates != [] && i.pending == {} && i.coverage.minimum && !i.coverage.lowDiversity)
  {
    FirstPromisingIsFirst(i, i.candidates);
    forall c | c in i.candidates ensures exists k :: 0 <= k < |i.candidates| && i.candidates[k] == c {}
    assert forall c :: Worthwhile(i, c) <==> GainOf(i, c) >= i.policy.minimumExpectedGain;
  }

  // ---- What a decision looks at ----

  /** A filter is pending exactly when it is required and no result accepted it, a time range standing for both dates. */
  lemma PendingFiltersIff(required: set<string>, results: seq<ProviderResult>, f: string)
    ensures f in PendingFilters(required, results) <==>
      && f in required && (forall r :: r in results ==> f !in r.acceptedFilters)
      && (f in {"date_from", "date_to"} ==> forall r :: r in results ==> "time_range" !in r.acceptedFilters)
  {
    var accepted := Accepted(results);
    assert forall g :: g in accepted <==> exists r :: r in results && g in r.acceptedFilters;
  }

  /** The observed gain is how many of the URLs listed now were not listed before. */
  lemma {:induction false} NewUrlsCount(previous: seq<string>, current: seq<string>)
    ensures NewUrls(previous, current) == Count(current, (url: string) => url !in previous)
  {
    var f := (url: string) => url !in previous;
    if current != [] {
      NewUrlsCount(previous, current[1..]);
      assert current == [current[0]] + current[1..];
      CountConcat([current[0]], current[1..], f);
      CountOne(current[0], f);
    }
  }

  /** Candidates are the offered providers not yet attempted, in the order of the router. */
  lemma CandidatesAre(w: World, attempted: set<string>)
    ensures forall p :: p in Candidates(w, attempted) <==> p in w.ordered && p !in attempted
    ensures InOrder(Candidates(w, attempted), w.ordered)
  {
    KeepMembers(w.ordered, SetOf(w.ordered) - attempted);
    KeptInOrder(w.ordered, SetOf(w.ordered) - attempted);
  }

  /** `part` is `all` with some elements left out. */
  predicate InOrder(part: seq<string>, all: seq<string>) {
    part == [] || (all != [] && InOrder(if part[0] == all[0] then part[1..] else part, all[1..]))
  }

  lemma {:induction false} KeptInOrder(names: seq<string>, kept: set<string>)
    ensures InOrder(Keep(names, kept), names)
  {
    if names != [] {
      KeptInOrder(names[1..], kept);
      if names[0] in kept {
        assert Keep(names, kept)[1..] == Keep(names[1..], kept);
      } else {
        KeepMembers(names[1..], kept);
        assert Keep(names, kept) == Keep(names[1..], kept);
        assert Keep(names, kept) != [] ==> Keep(names, kept)[0] in Keep(names[1..], kept);
      }
    }
  }

  // ---- Every round of a run ----

  /** The results joined when round `k` decides. */
  function JoinedBy(w: World, orders: seq<seq<string>>, k: nat): seq<ProviderResult>
    requires k < |orders|
  {
    After(w, orders[..k + 1]).accumulated.results
  }

  /** The state after `k + 1` rounds, from the one after `k`. */
  lemma RoundStep(w: World, orders: seq<seq<string>>, k: nat)
    requires k < |orders|
    ensures After(w, orders[..k + 1]) == Step(w, After(w, orders[..k]), orders[k])
  {
    assert orders[..k + 1][..k] == orders[..k];
  }

  lemma TraceLength(w: World, orders: seq<seq<string>>)
    ensures |After(w, orders).trace| == |orders|
  {
    TraceIsPrefix(w, orders, |orders|);
  }

  lemma {:induction false} TraceIsPrefix(w: World, orders: seq<seq<string>>, k: nat)
    requires k <= |orders|
    ensures |After(w, orders).trace| == |orders| && |After(w, orders[..k]).trace| == k
    ensures After(w, orders[..k]).trace == After(w, orders).trace[..k]
  {
    hide Observed;
    if orders == [] {
      assert orders[..k] == orders;
    } else {
      var front := orders[..|orders| - 1];
      if k <= |front| {
        assert front[..k] == orders[..k];
        TraceIsPrefix(w, front, k);
      } else {
        assert orders[..k] == orders;
        TraceIsPrefix(w, front, |front|);
      }
    }
  }

  /** Some task of the round finishes with `r`. */
  ghost predicate Finishes(w: World, round: nat, order: seq<string>, r: ProviderResult) {
    exists p :: p in order && OutcomeOf(w, round, p) == Finished(r)
  }

  ghost predicate Answered(w: World, orders: seq<seq<string>>, r: ProviderResult) {
    exists j :: 0 <= j < |orders| && Finishes(w, j + 1, orders[j], r)
  }

  lemma AnsweredGrows(w: World, orders: seq<seq<string>>, r: ProviderResult)
    requires orders != []
    ensures var n := |orders| - 1; Answered(w, orders, r) <==> Answered(w, orders[..n], r) || Finishes(w, n + 1, orders[n], r)
  {
    hide Finishes;
    var n := |orders| - 1;
    if j :| 0 <= j < n && Finishes(w, j + 1, orders[..n][j], r) { assert orders[..n][j] == orders[j]; }
    if j :| 0 <= j < n && Finishes(w, j + 1, orders[j], r) { assert orders[..n][j] == orders[j]; }
  }

  lemma StepJoins(w: World, s: State, order: seq<string>, r: ProviderResult)
    requires JoinsSpawned(w, s, order)
    ensures r in Step(w, s, order).accumulated.results <==> r in s.accumulated.results || Finishes(w, |s.trace| + 1, order, r)
  {
    hide Decide, InputsFor;
    if Selected(s) == [] {
      assert SetOf(order) == {};
      assert forall p :: p in order ==> p in SetOf(order);
    } else {
      JoinAllMembers(w, |s.trace| + 1, order);
    }
  }

  lemma JoinedGrows(w: World, orders: seq<seq<string>>, s: State, r: ProviderResult)
    requires orders != [] && s == After(w, orders[..|orders| - 1]) && JoinsSpawned(w, s, orders[|orders| - 1])
    requires r in s.accumulated.results <==> Answered(w, orders[..|orders| - 1], r)
    ensures r in Step(w, s, orders[|orders| - 1]).accumulated.results <==> Answered(w, orders, r)
  {
    hide Answered, Step, JoinsSpawned, Finishes, After;
    TraceLength(w, orders[..|orders| - 1]);
    StepJoins(w, s, orders[|orders| - 1], r);
    AnsweredGrows(w, orders, r);
  }

  /** The results joined are those of the tasks that finished, in any round so far. */
  lemma {:induction false} JoinedAre(w: World, orders: seq<seq<string>>, r: ProviderResult)
    requires IsRun(w, orders)
    ensures r in After(w, orders).accumulated.results <==> Answered(w, orders, r)
  {
    hide Step, JoinsSpawned, Finishes;
    if orders != [] {
      var s := After(w, orders[..|orders| - 1]);
      JoinedAre(w, orders[..|orders| - 1], r);
      JoinedGrows(w, orders, s, r);
    }
  }

  /** One round is decided on what was there after joining its tasks. */
  ghost predicate DecidedOn(w: World, before: State, after: State, r: Round) {
    && r.inputs == InputsFor(w, |before.trace| + 1, before.previous, before.exceptionUsed,
                             after.attempted, after.remainingCalls, after.accumulated.results)
    && r.decision == Decide(r.inputs)
    && (r.decision.Ok? ==> after.previous == View(w, after.accumulated.results).urls)
  }

  lemma StepDecides(w: World, s: State, order: seq<string>)
    ensures var next := Step(w, s, order);
      |next.trace| == |s.trace| + 1 && DecidedOn(w, s, next, next.trace[|s.trace|])
  {
    hide InputsFor, Decide, Accumulated, View;
  }

  lemma RoundDecides(w: World, orders: seq<seq<string>>, k: nat)
    requires k < |orders|
    ensures |After(w, orders).trace| == |orders| && |After(w, orders[..k]).trace| == k
    ensures DecidedOn(w, After(w, orders[..k]), After(w, orders[..k + 1]), After(w, orders).trace[k])
  {
    hide DecidedOn, Step, After;
    TraceIsPrefix(w, orders, k + 1);
    TraceIsPrefix(w, orders, k);
    RoundStep(w, orders, k);
    StepDecides(w, After(w, orders[..k]), orders[k]);
    assert After(w, orders).trace[..k + 1][k] == After(w, orders).trace[k];
  }

  /** A round continues for filters exactly when it continues and a required filter was accepted by nothing joined so far. */
  ghost predicate Unaccepted(w: World, results: seq<ProviderResult>, f: string) {
    && f in w.requiredFilters && (forall r :: r in results ==> f !in r.acceptedFilters)
    && (f == "date_from" || f == "date_to" ==> forall r :: r in results ==> "time_range" !in r.acceptedFilters)
  }

  /**
   Every round of every run that goes on because of filters has a required filter that no result joined
   so far accepted, and names exactly those; when all are accepted no round goes on for that reason.
   */
  lemma FiltersExplainRounds(w: World, orders: seq<seq<string>>, k: nat)
    requires k < |orders|
    ensures |After(w, orders).trace| == |orders|
    ensures var r := After(w, orders).trace[k];
      && (forall f :: f in r.inputs.pending <==> Unaccepted(w, JoinedBy(w, orders, k), f))
      && (r.decision.Ok? ==>
          var reason := r.decision.value.debugReason;
          && (reason.Some? && reason.value.ExplicitFilterPending? <==> exists f :: Unaccepted(w, JoinedBy(w, orders, k), f))
          && (reason.Some? && reason.value.ExplicitFilterPending? ==>
              forall f :: f in reason.value.filters <==> Unaccepted(w, JoinedBy(w, orders, k), f)))
  {
    hide Decide, PendingFilters, Unaccepted, After;
    RoundDecides(w, orders, k);
    var r := After(w, orders).trace[k];
    forall f ensures f in r.inputs.pending <==> Unaccepted(w, JoinedBy(w, orders, k), f) {
      PendingIsUnaccepted(w, JoinedBy(w, orders, k), f);
    }
    if r.decision.Ok? {
      NextIs(r.inputs);
      if r.inputs.pending != {} { var f :| f in r.inputs.pending; }
    }
  }

  lemma PendingIsUnaccepted(w: World, results: seq<ProviderResult>, f: string)
    ensures f in PendingFilters(w.requiredFilters, results) <==> Unaccepted(w, results, f)
  {
    PendingFiltersIff(w.requiredFilters, results, f);
  }

  /** Everything else a round of a run is decided on. */
  lemma RoundsSee(w: World, orders: seq<seq<string>>, k: nat)
    requires Routed(w) && IsRun(w, orders) && k < |orders|
    ensures |After(w, orders).trace| == |orders|
    ensures var i, attempted := After(w, orders).trace[k].inputs, After(w, orders[..k + 1]).attempted;
      && i.coverage == View(w, JoinedBy(w, orders, k)).coverage
      && (forall p :: p in i.candidates <==> p in w.ordered && p !in attempted) && InOrder(i.candidates, w.ordered)
      && i.remainingMs == RemainingMs(w, k + 1)
      && i.remainingCalls + |attempted| == w.calls
      && i.expectedGain == w.expectedGain && i.policy == w.policy
  {
    hide Decide, PendingFilters, Candidates, NewUrls, After, InOrder;
    RoundDecides(w, orders, k);
    CandidatesAre(w, After(w, orders[..k + 1]).attempted);
    RunPrefix(w, orders, k + 1);
    RunKeepsAccounts(w, orders[..k + 1]);
  }

  /** The gain a round observes: how many URLs it ranks that the round before did not; the first round observes none. */
  lemma RoundsMeasureGain(w: World, orders: seq<seq<string>>, k: nat)
    requires Routed(w) && IsRun(w, orders) && k < |orders|
    ensures |After(w, orders).trace| == |orders|
    ensures var gain := After(w, orders).trace[k].inputs.observedGain;
      && (gain.None? <==> k == 0)
      && (k > 0 ==>
          var before := View(w, JoinedBy(w, orders, k - 1)).urls;
          gain == Some(Count(View(w, JoinedBy(w, orders, k)).urls, (url: string) => url !in before) as real))
  {
    hide Decide, PendingFilters, Candidates, NewUrls, After, Count;
    RoundDecides(w, orders, k);
    if k > 0 {
      RoundDecides(w, orders, k - 1);
      RoundWentOn(w, orders, k);
      NewUrlsCount(View(w, JoinedBy(w, orders, k - 1)).urls, View(w, JoinedBy(w, orders, k)).urls);
    }
  }

  lemma RunPrefix(w: World, orders: seq<seq<string>>, n: nat)
    requires IsRun(w, orders) && n <= |orders|
    ensures IsRun(w, orders[..n])
  {
    if n < |orders| { PrefixIsRun(w, orders, n); } else { assert orders[..n] == orders; }
  }

  /** A run has another round only after a decision to go on. */
  lemma RoundWentOn(w: World, orders: seq<seq<string>>, k: nat)
    requires Routed(w) && IsRun(w, orders) && 0 < k < |orders|
    ensures |After(w, orders).trace| == |orders| && After(w, orders).trace[k - 1].decision.Ok?
  {
    hide JoinsSpawned, Step;
    TraceIsPrefix(w, orders, k);
    PrefixIsRun(w, orders, k);
    RunIsJustified(w, orders);
    assert Follows(After(w, orders).trace[k - 1], After(w, orders).trace[k]);
  }
}
