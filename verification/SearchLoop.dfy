/** The imperative search: retries of one call, the join loop of one round, and the round loop. */
module SearchLoop {
  import opened Wrappers
  import opened Budgets
  import opened Planning
  import opened Counting
  import opened Execution
  import opened ExecutionProperties
  import opened TextOrder

  // ---- One provider task ----

  datatype CallError = Timeout | RateLimit | Network | Unavailable | Permanent

  predicate Recoverable(error: CallError) { error != Permanent }

  /** One attempt: the provider's answer, or none when no time is left to call it. */
  type Attempt<T> = Option<Result<T, CallError>>

  /** An attempt without time left counts as a timeout. */
  function Answer<T>(attempt: Attempt<T>): Result<T, CallError> {
    if attempt.Some? then attempt.value else Err(Timeout)
  }

  function AttemptAt<T>(attempts: nat -> Attempt<T>, k: nat): Attempt<T> { attempts(k) }

  predicate TimeLeft(timeLeft: nat -> bool, k: nat) { timeLeft(k) }

  /** Attempt `k` failed recoverably, may be repeated, and the backoff after it ends before the deadline. */
  predicate Repeats<T>(attempts: nat -> Attempt<T>, timeLeft: nat -> bool, maxRetries: nat, k: nat) {
    var answer := Answer(AttemptAt(attempts, k));
    k < maxRetries && answer.Err? && Recoverable(answer.error) && TimeLeft(timeLeft, k)
  }

  /** The attempts a provider task makes before its last: each is repeated, and the last is not. */
  ghost predicate Attempts<T>(attempts: nat -> Attempt<T>, timeLeft: nat -> bool, maxRetries: nat, n: nat) {
    (forall k :: 0 <= k < n ==> Repeats(attempts, timeLeft, maxRetries, k)) && !Repeats(attempts, timeLeft, maxRetries, n)
  }

  /** Calls that reach the provider among the first `n` attempts. */
  function Calls<T>(attempts: nat -> Attempt<T>, n: nat): nat {
    if n == 0 then 0 else Calls(attempts, n - 1) + if AttemptAt(attempts, n - 1).Some? then 1 else 0
  }

  /**
   One provider task.  Without the permits in time the provider is not called at all; otherwise the
   answer is that of the first attempt that is not repeated.
   */
  method RunProvider<T>(permitted: bool, attempts: nat -> Attempt<T>, timeLeft: nat -> bool, maxRetries: nat)
    returns (result: Result<T, CallError>, made: nat, calls: nat)
    ensures !permitted ==> result == Err(Timeout) && made == 0
    ensures permitted ==>
      && 1 <= made <= maxRetries + 1 && result == Answer(AttemptAt(attempts, made - 1))
      && Attempts(attempts, timeLeft, maxRetries, made - 1)
    ensures calls == Calls(attempts, made) <= made
  {
    made, calls := 0, 0;
    if !permitted { return Err(Timeout), 0, 0; }
    while true
      invariant made <= maxRetries && calls == Calls(attempts, made) <= made
      invariant forall k :: 0 <= k < made ==> Repeats(attempts, timeLeft, maxRetries, k)
      decreases maxRetries - made
    {
      var attempt := AttemptAt(attempts, made);
      if attempt.Some? { calls := calls + 1; }
      result := Answer(attempt);
      made := made + 1;
      var retry := result.Err? && Recoverable(result.error);
      if made > maxRetries || !retry { return; }
      if !TimeLeft(timeLeft, made - 1) { return; }
    }
  }

  /**
   An attempt is repeated exactly when it was not the last allowed, ran out of time or failed in a way that
   may pass (not permanently), and time is left for the backoff.
   */
  lemma RepeatsIff<T>(attempts: nat -> Attempt<T>, timeLeft: nat -> bool, maxRetries: nat, k: nat)
    ensures Repeats(attempts, timeLeft, maxRetries, k) <==>
      && k + 1 <= maxRetries && TimeLeft(timeLeft, k)
      && match AttemptAt(attempts, k)
         case None => true
         case Some(Ok(_)) => false
         case Some(Err(error)) => error in {Timeout, RateLimit, Network, Unavailable}
  {}

  /** The number of attempts is determined: the last is the first one not worth or not able to be repeated. */
  lemma AttemptsAreUnique<T>(attempts: nat -> Attempt<T>, timeLeft: nat -> bool, maxRetries: nat, m: nat, n: nat)
    requires Attempts(attempts, timeLeft, maxRetries, m) && Attempts(attempts, timeLeft, maxRetries, n)
    ensures m == n
  {}

  // ---- One search ----

  class SearchOrchestrator {
    const budget: Budget
    var routingTrace: seq<Round>

    constructor (budget: Budget)
      ensures this.budget == budget && routingTrace == []
    {
      this.budget := budget;
      routingTrace := [];
    }

    /** Spawns one task per registered provider and joins them in whatever order they finish. */
    method ExecuteParallel(w: World, round: nat, selected: seq<string>) returns (output: ParallelOutput, ghost order: seq<string>)
      requires AllDifferent(selected)
      ensures AllDifferent(order) && SetOf(order) == SetOf(Spawned(w, selected))
      ensures output == Settled(w, round, selected, order)
    {
      hide SortedUnique, Missing, Keep;
      var tasks := SetOf(Spawned(w, selected));
      output, order := ParallelOutput([], [], [], []), [];
      assert SetOf(order) == {};
      while tasks != {}
        invariant AllDifferent(order) && SetOf(order) !! tasks && SetOf(order) + tasks == SetOf(Spawned(w, selected))
        invariant output == JoinAll(w, round, order)
      {
        var name :| name in tasks;
        tasks := tasks - {name};
        assert name !in SetOf(order);
        ghost var before := order;
        order := order + [name];
        assert order[..|order| - 1] == before && SetOf(order) == SetOf(before) + {name};
        match OutcomeOf(w, round, name) {
          case Finished(result) =>
            output := output.(used := output.used + [name]);
            if result.partial { output := output.(partial := output.partial + [name]); }
            output := output.(results := output.results + [result]);
          case Failed =>
            output := output.(failed := output.failed + [name]);
          case Panicked =>
        }
      }
      var missing := Missing(selected, output);
      output := ParallelOutput(
        output.results, SortedUnique(output.used), SortedUnique(output.failed + missing), SortedUnique(output.partial));
    }

    /** Plans one round, runs its provider calls and merges what they return. */
    method ExecuteRound(w: World, nextSelected: seq<string>, accumulated: ParallelOutput, ghost s: State)
      returns (selected: seq<string>, merged: ParallelOutput, ghost order: seq<string>)
      requires Routed(w) && CanContinue(w, s) && budget.Valid() && s.stop.None?
      requires s.remainingCalls == budget.remainingProviderCalls
      requires s.nextSelected == nextSelected && s.accumulated == accumulated && s.trace == routingTrace
      modifies budget
      ensures budget.Valid()
      ensures budget.remainingProviderCalls == s.remainingCalls - Reserved(nextSelected, s.remainingCalls)
      ensures selected == Selected(s) && JoinsSpawned(w, s, order) && merged == Accumulated(w, s, order)
    {
      hide Settled, Merge, Planned;
      ContinuingRoundIsPaidFor(w, s);
      selected := BuildSearchPlan(nextSelected, budget);
      merged, order := accumulated, [];
      if selected != [] {
        var output;
        output, order := ExecuteParallel(w, |routingTrace| + 1, selected);
        merged := Merge(accumulated, output);
      }
    }

    /** One round up to the point where the search decides whether to go on. */
    method RunRound(w: World, nextSelected: seq<string>, attempted: set<string>, accumulated: ParallelOutput,
                    previous: seq<string>, exceptionUsed: bool, ghost s: State)
      returns (seen: Observation, ghost order: seq<string>)
      requires Routed(w) && CanContinue(w, s) && budget.Valid()
      requires s == State(attempted, budget.remainingProviderCalls, accumulated, previous, exceptionUsed,
                          nextSelected, routingTrace, None)
      modifies budget
      ensures budget.Valid() && budget.remainingProviderCalls == seen.remainingCalls
      ensures JoinsSpawned(w, s, order) && seen == Observed(w, s, order)
    {
      hide Merge, Settled, InputsFor, Decide, Planned;
      var selected, merged;
      selected, merged, order := ExecuteRound(w, nextSelected, accumulated, s);
      var tried := attempted + SetOf(selected);
      var inputs := InputsFor(w, |routingTrace| + 1, previous, exceptionUsed, tried, budget.remainingProviderCalls, merged.results);
      seen := Observation(selected, tried, budget.remainingProviderCalls, merged, View(w, merged.results).urls, inputs);
    }

    /**
     The round loop.  It ends: a round goes on only with a call left and a provider not yet tried.
     */
    method Search(w: World) returns (accumulated: ParallelOutput, attempted: set<string>, reason: StopReason,
                                     ghost orders: seq<seq<string>>)
      requires Routed(w) && budget.Valid() && budget.remainingProviderCalls == w.calls
      modifies this, budget
      ensures budget.Valid()
      ensures IsRun(w, orders)
      ensures var s := After(w, orders);
        && s.stop == Some(reason) && s.attempted == attempted && s.accumulated == accumulated
        && s.trace == routingTrace && s.remainingCalls == budget.remainingProviderCalls
      ensures budget.remainingProviderCalls + |attempted| == w.calls
      ensures SetOf(accumulated.used) + SetOf(accumulated.failed) == attempted
      ensures SetOf(accumulated.used) !! SetOf(accumulated.failed)
      ensures |routingTrace| <= |w.ordered| + 1
    {
      routingTrace := [];
      attempted := {};
      accumulated := ParallelOutput([], [], [], []);
      var previous: seq<string> := [];
      var exceptionUsed := false;
      var nextSelected := w.firstRound;
      orders := [];
      while true
        invariant budget.Valid() && IsRun(w, orders)
        invariant After(w, orders) ==
          State(attempted, budget.remainingProviderCalls, accumulated, previous, exceptionUsed, nextSelected, routingTrace, None)
        decreases |w.ordered| + 1 - |orders|
      {
        ghost var s := After(w, orders);
        RunKeepsAccounts(w, orders);
        var seen: Observation;
        ghost var order: seq<string>;
        seen, order := RunRound(w, nextSelected, attempted, accumulated, previous, exceptionUsed, s);
        attempted, accumulated := seen.attempted, seen.accumulated;
        var decision := Decide(seen.inputs);
        routingTrace := routingTrace + [Round(seen.selected, seen.inputs, decision)];
        RunGrows(w, orders, order);
        orders := orders + [order];
        RunsAreShort(w, orders);
        match decision {
          case Ok(next) =>
            exceptionUsed := exceptionUsed || next.usesException;
            previous := seen.urls;
            nextSelected := [next.provider];
          case Err(why) =>
            RunKeepsAccounts(w, orders);
            reason := why;
            return;
        }
      }
    }
  }

  lemma RunGrows(w: World, orders: seq<seq<string>>, order: seq<string>)
    requires IsRun(w, orders) && JoinsSpawned(w, After(w, orders), order)
    ensures IsRun(w, orders + [order])
    ensures After(w, orders + [order]) == Concluded(After(w, orders), Observed(w, After(w, orders), order))
  {
    var more := orders + [order];
    assert more[..|more| - 1] == orders;
  }
}
