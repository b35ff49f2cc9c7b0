module ExecutionProperties {
  // What every run of the progressive search keeps, and why its routing ignores completion order.

  import opened Wrappers
  import opened TextOrder
  import opened Dedupe
  import opened Planning
  import opened Counting
  import opened Execution
  import DedupeProperties

  // ---- Decisions ----

  /** Why a further provider is called. */
  ghost predicate Justified(i: Inputs, next: Next) {
    i.candidates != [] &&
    (|| (i.pending != {} && !next.usesException && next.provider == i.candidates[0])
    || (i.pending == {} && !next.usesException && Promising(i, next.provider))
    || (i.pending == {} && next.usesException && !i.coverage.minimum && !i.exceptionUsed
        && next.provider == i.candidates[0] && forall c :: c in i.candidates ==> !Promising(i, c)))
  }

  lemma {:induction false} FirstPromisingFinds(i: Inputs, candidates: seq<string>)
    ensures FirstPromising(i, candidates).None? <==> forall c :: c in candidates ==> !Promising(i, c)
    ensures var r := FirstPromising(i, candidates); r.Some? ==> r.value in candidates && Promising(i, r.value)
  {
    if candidates != [] { FirstPromisingFinds(i, candidates[1..]); }
  }

  /** Exactly when the search goes on, and with whom. */
  lemma ContinuesIff(i: Inputs)
    ensures Decide(i).Ok? <==>
      && i.remainingMs > 0 && i.remainingMs >= i.policy.minimumRemainingMs
      && i.candidates != [] && i.remainingCalls > 0
      && (i.pending == {} ==>
          && !i.coverage.target
          && (i.observedGain.Some? ==> i.observedGain.value >= i.policy.minimumGain)
          && (i.coverage.minimum ==> i.coverage.lowDiversity && exists c :: c in i.candidates && Promising(i, c))
          && (!i.coverage.minimum ==> !i.exceptionUsed || exists c :: c in i.candidates && Promising(i, c)))
    ensures Decide(i).Ok? ==> Decide(i).value.provider in i.candidates && Justified(i, Decide(i).value)
  {
    FirstPromisingFinds(i, i.candidates);
  }

  /** Without a low observed gain, a low-gain stop means: coverage is short of the minimum and the exception is spent. */
  lemma FallThroughMeansExceptionSpent(i: Inputs)
    requires Decide(i) == Err(MarginalGainLow)
    requires i.observedGain.Some? ==> i.observedGain.value >= i.policy.minimumGain
    requires !i.coverage.minimum || exists c :: c in i.candidates && Promising(i, c)
    ensures !i.coverage.minimum && i.exceptionUsed && i.pending == {}
    ensures forall c :: c in i.candidates ==> !Promising(i, c)
  {
    FirstPromisingFinds(i, i.candidates);
  }

  // ---- Names ----

  lemma {:induction false} KeepMembers(names: seq<string>, kept: set<string>)
    ensures forall x :: x in Keep(names, kept) <==> x in names && x in kept
  {
    if names != [] { KeepMembers(names[1..], kept); }
  }

  // ---- One joined round ----

  lemma {:induction false} JoinAllMembers(w: World, round: nat, order: seq<string>)
    ensures var out := JoinAll(w, round, order);
      && (forall p :: p in out.used <==> p in order && OutcomeOf(w, round, p).Finished?)
      && (forall p :: p in out.failed <==> p in order && OutcomeOf(w, round, p).Failed?)
      && (forall p :: p in out.partial <==> p in order && OutcomeOf(w, round, p).Finished? && OutcomeOf(w, round, p).result.partial)
      && (forall r :: r in out.results <==> exists p :: p in order && OutcomeOf(w, round, p) == Finished(r))
  {
    if order != [] {
      var front, last := order[..|order| - 1], order[|order| - 1];
      JoinAllMembers(w, round, front);
      assert order == front + [last];
      var before, out := JoinAll(w, round, front), JoinAll(w, round, order);
      forall r ensures r in out.results <==> exists p :: p in order && OutcomeOf(w, round, p) == Finished(r) {
        assert r in before.results <==> exists p :: p in front && OutcomeOf(w, round, p) == Finished(r);
        if OutcomeOf(w, round, last) == Finished(r) { assert last in order; }
      }
    }
  }

  /** Every selected provider is used or failed, none is both: unanswered calls count as failed. */
  lemma SettledPartitions(w: World, round: nat, selected: seq<string>, order: seq<string>)
    requires SetOf(order) <= SetOf(selected)
    ensures var out := Settled(w, round, selected, order);
      && SetOf(out.used) + SetOf(out.failed) == SetOf(selected) && SetOf(out.used) !! SetOf(out.failed)
      && (forall p :: p in out.used <==> p in order && OutcomeOf(w, round, p).Finished?)
  {
    var out := JoinAll(w, round, order);
    JoinAllMembers(w, round, order);
    SettledMembers(selected, out);
    forall p | p in order ensures p in selected {
      assert p in SetOf(order);
    }
    var s := Settled(w, round, selected, order);
    forall p ensures p in selected <==> p in s.used || p in s.failed {}
    forall p ensures !(p in s.used && p in s.failed) {}
  }

  lemma SettledMembers(selected: seq<string>, out: ParallelOutput)
    ensures forall p :: p in Missing(selected, out) <==> p in selected && p !in out.used && p !in out.failed
    ensures forall p :: p in SortedUnique(out.used) <==> p in out.used
    ensures forall p :: p in SortedUnique(out.partial) <==> p in out.partial
    ensures forall p :: p in SortedUnique(out.failed + Missing(selected, out)) <==> p in out.failed || p in Missing(selected, out)
  {
    var open := SetOf(selected) - SetOf(out.used) - SetOf(out.failed);
    KeepMembers(selected, open);
    SortedUniqueMembers(Keep(selected, open));
    SortedUniqueMembers(out.used);
    SortedUniqueMembers(out.partial);
    SortedUniqueMembers(out.failed + Missing(selected, out));
  }

  lemma MergeMembers(target: ParallelOutput, source: ParallelOutput)
    ensures var out := Merge(target, source);
      && SetOf(out.used) == SetOf(target.used) + SetOf(source.used)
      && SetOf(out.failed) == SetOf(target.failed) + SetOf(source.failed)
      && SetOf(out.partial) == SetOf(target.partial) + SetOf(source.partial)
      && multiset(out.results) == multiset(target.results) + multiset(source.results)
  {
    SortedUniqueMembers(target.used + source.used);
    SortedUniqueMembers(target.failed + source.failed);
    SortedUniqueMembers(target.partial + source.partial);
  }

  // ---- Invariants of a run ----

  /** Accounting: calls, attempted providers and their two possible fates. */
  ghost predicate Accounted(w: World, s: State) {
    && s.attempted <= SetOf(w.ordered)
    && s.remainingCalls + |s.attempted| == w.calls
    && SetOf(s.accumulated.used) + SetOf(s.accumulated.failed) == s.attempted
    && SetOf(s.accumulated.used) !! SetOf(s.accumulated.failed)
    && (s.trace != [] ==> |s.attempted| == Reserved(w.firstRound, w.calls) + |s.trace| - 1)
  }

  /** The provider calls the next round will make are affordable, new, and offered by the router. */
  ghost predicate ReadyFor(w: World, s: State, selected: seq<string>) {
    && AllDifferent(selected) && SetOf(selected) <= SetOf(w.ordered) && SetOf(selected) !! s.attempted
    && |selected| == Reserved(s.nextSelected, s.remainingCalls)
    && (s.trace != [] ==> |selected| == 1)
    && (s.trace == [] ==> |selected| == Reserved(w.firstRound, w.calls) && s.attempted == {})
  }

  ghost predicate CanContinue(w: World, s: State) {
    if s.trace == [] then s == Start(w)
    else
      && |s.nextSelected| == 1 && s.nextSelected[0] in w.ordered
      && s.nextSelected[0] !in s.attempted && s.remainingCalls > 0
  }

  lemma ContinuingRoundIsPaidFor(w: World, s: State)
    requires Routed(w) && CanContinue(w, s)
    ensures ReadyFor(w, s, Selected(s))
    ensures s.trace != [] ==> Selected(s) == s.nextSelected
  {
    PlanIsAffordablePrefix(s.nextSelected, s.remainingCalls);
    if s.trace != [] {
      assert s.nextSelected[..1] == s.nextSelected;
    }
  }

  lemma AccumulatedPartitions(w: World, s: State, order: seq<string>)
    requires SetOf(order) <= SetOf(Selected(s)) && SetOf(Selected(s)) !! s.attempted
    requires SetOf(s.accumulated.used) + SetOf(s.accumulated.failed) == s.attempted
    requires SetOf(s.accumulated.used) !! SetOf(s.accumulated.failed)
    ensures var out := Accumulated(w, s, order);
      && SetOf(out.used) + SetOf(out.failed) == s.attempted + SetOf(Selected(s))
      && SetOf(out.used) !! SetOf(out.failed)
  {
    var selected := Selected(s);
    if selected == [] {
      assert SetOf(selected) == {};
    } else {
      var settled := Settled(w, |s.trace| + 1, selected, order);
      SettledPartitions(w, |s.trace| + 1, selected, order);
      MergeMembers(s.accumulated, settled);
      PartitionsUnite(SetOf(s.accumulated.used), SetOf(s.accumulated.failed), SetOf(settled.used), SetOf(settled.failed));
    }
  }

  lemma PartitionsUnite(u: set<string>, f: set<string>, u': set<string>, f': set<string>)
    requires u !! f && u' !! f' && (u + f) !! (u' + f')
    ensures (u + u') + (f + f') == (u + f) + (u' + f') && (u + u') !! (f + f')
  {}

  lemma AttemptedCount(w: World, s: State)
    requires Routed(w) && Accounted(w, s) && CanContinue(w, s)
    ensures s.attempted + SetOf(Selected(s)) <= SetOf(w.ordered)
    ensures |s.attempted + SetOf(Selected(s))| == |s.attempted| + Reserved(s.nextSelected, s.remainingCalls)
    ensures |s.attempted + SetOf(Selected(s))| == Reserved(w.firstRound, w.calls) + |s.trace|
  {
    ContinuingRoundIsPaidFor(w, s);
    SetOfDistinct(Selected(s));
  }

  lemma ObservationAccounts(w: World, s: State, order: seq<string>)
    requires Routed(w) && Accounted(w, s) && CanContinue(w, s)
    requires SetOf(order) == SetOf(Spawned(w, Selected(s)))
    ensures var o := Observed(w, s, order);
      && o.attempted <= SetOf(w.ordered) && o.remainingCalls + |o.attempted| == w.calls
      && SetOf(o.accumulated.used) + SetOf(o.accumulated.failed) == o.attempted
      && SetOf(o.accumulated.used) !! SetOf(o.accumulated.failed)
      && |o.attempted| == Reserved(w.firstRound, w.calls) + |s.trace|
  {
    AttemptedCount(w, s);
    SpawnedFromSelected(w, s, order);
    AccumulatedPartitions(w, s, order);
  }

  lemma SpawnedFromSelected(w: World, s: State, order: seq<string>)
    requires Routed(w) && CanContinue(w, s) && SetOf(order) == SetOf(Spawned(w, Selected(s)))
    ensures SetOf(order) <= SetOf(Selected(s)) && SetOf(Selected(s)) !! s.attempted
  {
    ContinuingRoundIsPaidFor(w, s);
    KeepMembers(Selected(s), w.registered);
  }

  lemma ConclusionContinues(w: World, s: State, o: Observation)
    requires o.inputs.candidates == Candidates(w, o.attempted) && o.inputs.remainingCalls == o.remainingCalls
    ensures Concluded(s, o).stop.None? ==> CanContinue(w, Concluded(s, o))
  {
    ContinuesIff(o.inputs);
    KeepMembers(w.ordered, SetOf(w.ordered) - o.attempted);
  }

  lemma ConclusionKeepsAccounts(w: World, s: State, o: Observation)
    requires o.attempted <= SetOf(w.ordered) && o.remainingCalls + |o.attempted| == w.calls
    requires SetOf(o.accumulated.used) + SetOf(o.accumulated.failed) == o.attempted
    requires SetOf(o.accumulated.used) !! SetOf(o.accumulated.failed)
    requires |o.attempted| == Reserved(w.firstRound, w.calls) + |s.trace|
    ensures Accounted(w, Concluded(s, o))
  {}

  lemma StepKeepsAccounts(w: World, s: State, order: seq<string>)
    requires Routed(w) && Accounted(w, s) && CanContinue(w, s)
    requires SetOf(order) == SetOf(Spawned(w, Selected(s)))
    ensures var next := Concluded(s, Observed(w, s, order));
      Accounted(w, next) && (next.stop.None? ==> CanContinue(w, next))
  {
    ObservationAccounts(w, s, order);
    ConclusionKeepsAccounts(w, s, Observed(w, s, order));
    ConclusionContinues(w, s, Observed(w, s, order));
  }

  lemma {:induction false} RunKeepsAccounts(w: World, orders: seq<seq<string>>)
    requires Routed(w) && IsRun(w, orders)
    ensures Accounted(w, After(w, orders)) && |After(w, orders).trace| == |orders|
    ensures After(w, orders).stop.None? ==> CanContinue(w, After(w, orders))
  {
    if orders == [] {
      assert SetOf<string>([]) == {};
    } else {
      var before := orders[..|orders| - 1];
      RunKeepsAccounts(w, before);
      StepKeepsAccounts(w, After(w, before), orders[|orders| - 1]);
    }
  }

  /** No run has more rounds than one plus the providers left over by the first round. */
  lemma RunsAreShort(w: World, orders: seq<seq<string>>)
    requires Routed(w) && IsRun(w, orders)
    ensures |orders| <= |w.ordered| + 1 - Reserved(w.firstRound, w.calls)
  {
    RunKeepsAccounts(w, orders);
    SetOfDistinct(w.ordered);
    CardinalityOfNames(After(w, orders).attempted, SetOf(w.ordered));
    CardinalityOfNames(SetOf(w.firstRound), SetOf(w.ordered));
    SetOfDistinct(w.firstRound);
  }

  lemma CardinalityOfNames(a: set<string>, b: set<string>)
    requires a <= b
    ensures |a| <= |b|
  {
    assert b == a + (b - a);
  }

  /** Each round after the first calls the one provider the previous decision chose, for its reason. */
  ghost predicate TraceJustified(s: State) {
    && (forall j, k :: 0 <= j && k == j + 1 && k < |s.trace| ==> Follows(s.trace[j], s.trace[k]))
    && (forall j, k :: 0 <= j < k < |s.trace| ==> SetOf(s.trace[j].selected) !! SetOf(s.trace[k].selected))
  }

  ghost predicate Follows(before: Round, after: Round) {
    && before.decision.Ok? && after.selected == [before.decision.value.provider]
    && Justified(before.inputs, before.decision.value)
  }

  ghost predicate UsesException(r: Round) { r.decision.Ok? && r.decision.value.usesException }

  ghost predicate ExceptionRecorded(s: State) {
    && (s.exceptionUsed <==> exists k :: 0 <= k < |s.trace| && UsesException(s.trace[k]))
    && (forall k :: 0 <= k < |s.trace| && UsesException(s.trace[k]) ==> !s.trace[k].inputs.exceptionUsed)
    && (forall j, k :: 0 <= j < k < |s.trace| && UsesException(s.trace[j]) ==> s.trace[k].inputs.exceptionUsed)
  }

  ghost predicate LastDecisionCarried(s: State) {
    && (forall k :: 0 <= k < |s.trace| ==> s.trace[k].decision == Decide(s.trace[k].inputs))
    && (forall k :: 0 <= k < |s.trace| ==> SetOf(s.trace[k].selected) <= s.attempted)
    && (s.trace != [] ==>
        var last := s.trace[|s.trace| - 1].decision;
        if s.stop.None? then last.Ok? && s.nextSelected == [last.value.provider]
        else last == Err(s.stop.value))
  }

  lemma ConclusionIsJustified(s: State, o: Observation)
    requires TraceJustified(s) && LastDecisionCarried(s)
    requires s.trace != [] ==> s.stop.None? && o.selected == s.nextSelected
    requires SetOf(o.selected) !! s.attempted
    ensures TraceJustified(Concluded(s, o))
  {
    var next := Concluded(s, o).trace;
    var n := |s.trace|;
    assert forall k :: 0 <= k < n ==> next[k] == s.trace[k];
    if n > 0 {
      ContinuesIff(s.trace[n - 1].inputs);
      assert Follows(next[n - 1], next[n]);
    }
  }

  lemma ConclusionIsCarried(s: State, o: Observation)
    requires LastDecisionCarried(s) && o.attempted == s.attempted + SetOf(o.selected)
    ensures LastDecisionCarried(Concluded(s, o))
  {
    var next := Concluded(s, o).trace;
    assert forall k :: 0 <= k < |s.trace| ==> next[k] == s.trace[k];
  }

  lemma ConclusionRecordsException(s: State, o: Observation)
    requires ExceptionRecorded(s) && o.inputs.exceptionUsed == s.exceptionUsed
    ensures ExceptionRecorded(Concluded(s, o))
  {
    var next := Concluded(s, o);
    var n := |s.trace|;
    assert forall k :: 0 <= k < n ==> next.trace[k] == s.trace[k];
    if Decide(o.inputs).Ok? { ContinuesIff(o.inputs); }
    assert UsesException(next.trace[n]) ==> !s.exceptionUsed;
    assert next.exceptionUsed == (s.exceptionUsed || UsesException(next.trace[n]));
    assert (exists k :: 0 <= k < n && UsesException(next.trace[k])) <==> s.exceptionUsed by {
      if k :| 0 <= k < n && UsesException(s.trace[k]) { assert UsesException(next.trace[k]); }
    }
  }

  lemma {:induction false} RunIsJustified(w: World, orders: seq<seq<string>>)
    requires Routed(w) && IsRun(w, orders)
    ensures TraceJustified(After(w, orders)) && ExceptionRecorded(After(w, orders)) && LastDecisionCarried(After(w, orders))
  {
    if orders != [] {
      var before := orders[..|orders| - 1];
      var s := After(w, before);
      RunIsJustified(w, before);
      RunKeepsAccounts(w, before);
      ContinuingRoundIsPaidFor(w, s);
      var o := Observed(w, s, orders[|orders| - 1]);
      ConclusionIsJustified(s, o);
      ConclusionIsCarried(s, o);
      ConclusionRecordsException(s, o);
    }
  }

  /** The coverage exception is granted at most once per run. */
  lemma ExceptionOnce(w: World, orders: seq<seq<string>>, j: nat, k: nat)
    requires Routed(w) && IsRun(w, orders)
    requires j < |After(w, orders).trace| && k < |After(w, orders).trace|
    requires UsesException(After(w, orders).trace[j]) && UsesException(After(w, orders).trace[k])
    ensures j == k
  {
    RunIsJustified(w, orders);
  }

  // ---- Completion order ----

  /** Adapters answer under their own name. */
  ghost predicate Tagged(w: World) {
    forall round: nat, p, r :: OutcomeOf(w, round, p) == Finished(r) ==>
      r.provider == p && forall row :: row in r.rows ==> row.provider == p
  }

  ghost predicate OneResultPerProvider(results: seq<ProviderResult>) {
    && (forall i, j :: 0 <= i < j < |results| ==> results[i].provider != results[j].provider)
    && (forall r, row :: r in results && row in r.rows ==> row.provider == r.provider)
  }

  ghost predicate SameResults(xs: seq<ProviderResult>, ys: seq<ProviderResult>) {
    forall r :: r in xs <==> r in ys
  }

  function Blocks(results: seq<ProviderResult>): seq<DedupeProperties.Block> {
    seq(|results|, i requires 0 <= i < |results| => DedupeProperties.Block(results[i].provider, results[i].rows))
  }

  lemma {:induction false} RowsAreJoinedBlocks(results: seq<ProviderResult>)
    ensures Rows(results) == DedupeProperties.Joined(Blocks(results))
  {
    if results != [] {
      assert Blocks(results)[1..] == Blocks(results[1..]);
      RowsAreJoinedBlocks(results[1..]);
    }
  }

  lemma {:induction false} RowMembers(results: seq<ProviderResult>, row: CanonicalResult)
    ensures row in Rows(results) <==> exists r :: r in results && row in r.rows
  {
    if results != [] {
      RowMembers(results[1..], row);
      assert results == [results[0]] + results[1..];
    }
  }

  lemma BlocksFollow(xs: seq<ProviderResult>, ys: seq<ProviderResult>)
    requires SameResults(xs, ys)
    ensures forall b :: b in Blocks(xs) ==> b in Blocks(ys)
  {
    forall i | 0 <= i < |xs| ensures Blocks(xs)[i] in Blocks(ys) {
      assert xs[i] in ys;
      var j :| 0 <= j < |ys| && ys[j] == xs[i];
      assert Blocks(ys)[j] == Blocks(xs)[i];
    }
  }

  lemma BlocksPerProvider(results: seq<ProviderResult>)
    requires OneResultPerProvider(results)
    ensures DedupeProperties.OneBlockPerProvider(Blocks(results))
  {
    forall b, row | b in Blocks(results) && row in b.rows ensures row.provider == b.provider {
      var i :| 0 <= i < |results| && Blocks(results)[i] == b;
      assert results[i] in results;
    }
  }

  /** The search looks at its results through deduplication. */
  ghost predicate Deduplicates(w: World, ranking: Ranking) {
    forall results :: View(w, results) == RunPipeline(ranking, results)
  }

  /** What routing reads off the accumulated results does not depend on their order. */
  lemma ViewIgnoresOrder(w: World, ranking: Ranking, xs: seq<ProviderResult>, ys: seq<ProviderResult>)
    requires OneResultPerProvider(xs) && OneResultPerProvider(ys) && SameResults(xs, ys)
    requires Deduplicates(w, ranking)
    ensures View(w, xs) == View(w, ys)
    ensures PendingFilters(w.requiredFilters, xs) == PendingFilters(w.requiredFilters, ys)
  {
    RowsAreJoinedBlocks(xs);
    RowsAreJoinedBlocks(ys);
    BlocksPerProvider(xs);
    BlocksPerProvider(ys);
    BlocksFollow(xs, ys);
    BlocksFollow(ys, xs);
    DedupeProperties.CompletionOrderIsInvisible(ranking.text, Blocks(xs), Blocks(ys));
    assert (set r | r in Rows(xs) :: r.provider) == (set r | r in Rows(ys) :: r.provider) by {
      forall row ensures row in Rows(xs) <==> row in Rows(ys) {
        RowMembers(xs, row);
        RowMembers(ys, row);
      }
    }
    assert Accepted(xs) == Accepted(ys);
  }

  /** Equal in everything but the order of the accumulated results. */
  ghost predicate SameButResultOrder(s: State, t: State) {
    && t == s.(accumulated := s.accumulated.(results := t.accumulated.results))
    && SameResults(s.accumulated.results, t.accumulated.results)
  }

  ghost predicate ResultsOfUsed(s: State) {
    && OneResultPerProvider(s.accumulated.results)
    && (forall r :: r in s.accumulated.results ==> r.provider in s.attempted)
  }

  lemma {:induction false} JoinAllOnePerProvider(w: World, round: nat, order: seq<string>)
    requires Tagged(w) && AllDifferent(order)
    ensures OneResultPerProvider(JoinAll(w, round, order).results)
    ensures forall r :: r in JoinAll(w, round, order).results ==> r.provider in order
  {
    if order != [] {
      var front, last := order[..|order| - 1], order[|order| - 1];
      JoinAllOnePerProvider(w, round, front);
      assert order == front + [last];
      assert last !in front;
      var before, out := JoinAll(w, round, front).results, JoinAll(w, round, order).results;
      forall i, j | 0 <= i < j < |out| ensures out[i].provider != out[j].provider {
        assert before[i] in before && before[i].provider in front;
      }
    }
  }

  lemma SettledIgnoresOrder(w: World, round: nat, selected: seq<string>, a: seq<string>, b: seq<string>)
    requires SetOf(a) == SetOf(b)
    ensures var s, t := Settled(w, round, selected, a), Settled(w, round, selected, b);
      s.used == t.used && s.failed == t.failed && s.partial == t.partial && SameResults(s.results, t.results)
  {
    var x, y := JoinAll(w, round, a), JoinAll(w, round, b);
    assert forall p :: p in a <==> p in b by {
      forall p ensures p in a <==> p in b { assert p in SetOf(a) <==> p in SetOf(b); }
    }
    JoinAllMembers(w, round, a);
    JoinAllMembers(w, round, b);
    SortedUniqueIsSetOrder(x.used, y.used);
    SortedUniqueIsSetOrder(x.partial, y.partial);
    assert Missing(selected, x) == Missing(selected, y) by {
      assert SetOf(x.used) == SetOf(y.used) && SetOf(x.failed) == SetOf(y.failed);
    }
    SortedUniqueIsSetOrder(x.failed + Missing(selected, x), y.failed + Missing(selected, y));
  }

  lemma JoinedResultsStayTagged(w: World, s: State, order: seq<string>)
    requires Tagged(w) && ResultsOfUsed(s) && AllDifferent(order)
    requires SetOf(order) <= SetOf(Selected(s)) && SetOf(Selected(s)) !! s.attempted
    ensures var out := Accumulated(w, s, order).results;
      OneResultPerProvider(out) && forall r :: r in out ==> r.provider in s.attempted + SetOf(Selected(s))
  {
    JoinAllOnePerProvider(w, |s.trace| + 1, order);
    var added := JoinAll(w, |s.trace| + 1, order).results;
    forall r | r in added ensures r.provider in SetOf(Selected(s)) {
      assert r.provider in SetOf(order);
    }
    DisjointResults(s.accumulated.results, added, s.attempted, SetOf(Selected(s)));
  }

  lemma DisjointResults(past: seq<ProviderResult>, added: seq<ProviderResult>, before: set<string>, now: set<string>)
    requires OneResultPerProvider(past) && OneResultPerProvider(added) && before !! now
    requires forall r :: r in past ==> r.provider in before
    requires forall r :: r in added ==> r.provider in now
    ensures OneResultPerProvider(past + added)
    ensures forall r :: r in past + added ==> r.provider in before + now
  {
    var all := past + added;
    forall i, j | 0 <= i < j < |all| ensures all[i].provider != all[j].provider {
      if i < |past| <= j {
        assert all[i] in past && all[j] in added;
      }
    }
  }

  ghost predicate SameOutput(x: ParallelOutput, y: ParallelOutput) {
    x.used == y.used && x.failed == y.failed && x.partial == y.partial && SameResults(x.results, y.results)
  }

  lemma AccumulatedAgree(w: World, s: State, t: State, a: seq<string>, b: seq<string>)
    requires SameButResultOrder(s, t) && SetOf(a) == SetOf(b)
    ensures SameOutput(Accumulated(w, s, a), Accumulated(w, t, b))
  {
    SettledIgnoresOrder(w, |s.trace| + 1, Selected(s), a, b);
  }

  lemma ConclusionsAgree(s: State, t: State, o: Observation, p: Observation)
    requires SameButResultOrder(s, t) && SameOutput(o.accumulated, p.accumulated)
    requires p == o.(accumulated := p.accumulated)
    ensures SameButResultOrder(Concluded(s, o), Concluded(t, p))
  {}

  lemma ObservationsAgree(w: World, ranking: Ranking, s: State, t: State, a: seq<string>, b: seq<string>)
    requires Deduplicates(w, ranking) && SameButResultOrder(s, t) && SetOf(a) == SetOf(b)
    requires OneResultPerProvider(Accumulated(w, s, a).results) && OneResultPerProvider(Accumulated(w, t, b).results)
    ensures var o, p := Observed(w, s, a), Observed(w, t, b);
      p == o.(accumulated := p.accumulated) && SameOutput(o.accumulated, p.accumulated)
  {
    hide Accumulated, PendingFilters;
    var xs, ys := Accumulated(w, s, a).results, Accumulated(w, t, b).results;
    AccumulatedAgree(w, s, t, a, b);
    ViewIgnoresOrder(w, ranking, xs, ys);
  }

  lemma StepKeepsResults(w: World, s: State, order: seq<string>)
    requires Routed(w) && Tagged(w) && CanContinue(w, s) && ResultsOfUsed(s)
    requires AllDifferent(order) && SetOf(order) == SetOf(Spawned(w, Selected(s)))
    ensures ResultsOfUsed(Step(w, s, order)) && OneResultPerProvider(Accumulated(w, s, order).results)
  {
    SpawnedFromSelected(w, s, order);
    JoinedResultsStayTagged(w, s, order);
  }

  lemma StepsAgree(w: World, ranking: Ranking, s: State, t: State, a: seq<string>, b: seq<string>)
    requires Deduplicates(w, ranking) && SameButResultOrder(s, t) && SetOf(a) == SetOf(b)
    requires OneResultPerProvider(Accumulated(w, s, a).results) && OneResultPerProvider(Accumulated(w, t, b).results)
    ensures SameButResultOrder(Step(w, s, a), Step(w, t, b))
  {
    ObservationsAgree(w, ranking, s, t, a, b);
    ConclusionsAgree(s, t, Observed(w, s, a), Observed(w, t, b));
  }

  /**
   Two searches that see the same provider outcomes and clock take the same decisions, attempt the
   same providers and stop for the same reason, however the tasks of each round were scheduled.
   */
  lemma {:induction false} SchedulingNeverSteersRouting(w: World, ranking: Ranking, a: seq<seq<string>>, b: seq<seq<string>>)
    requires Routed(w) && Tagged(w) && Deduplicates(w, ranking)
    requires IsRun(w, a) && IsRun(w, b) && |a| == |b|
    ensures SameButResultOrder(After(w, a), After(w, b))
    ensures ResultsOfUsed(After(w, a)) && ResultsOfUsed(After(w, b))
  {
    if a != [] {
      var a', b' := a[..|a| - 1], b[..|b| - 1];
      var s, t := After(w, a'), After(w, b');
      SchedulingNeverSteersRouting(w, ranking, a', b');
      RunKeepsAccounts(w, a');
      RunKeepsAccounts(w, b');
      StepKeepsResults(w, s, a[|a| - 1]);
      StepKeepsResults(w, t, b[|b| - 1]);
      StepsAgree(w, ranking, s, t, a[|a| - 1], b[|b| - 1]);
    }
  }

  lemma AgreeingStatesLookAlike(w: World, ranking: Ranking, s: State, t: State)
    requires Deduplicates(w, ranking) && SameButResultOrder(s, t) && ResultsOfUsed(s) && ResultsOfUsed(t)
    ensures View(w, s.accumulated.results) == View(w, t.accumulated.results)
  {
    ViewIgnoresOrder(w, ranking, s.accumulated.results, t.accumulated.results);
  }

  /** In particular all complete runs have the same number of rounds and give the same ranked answer. */
  lemma CompleteRunsAgree(w: World, ranking: Ranking, a: seq<seq<string>>, b: seq<seq<string>>)
    requires Routed(w) && Tagged(w) && Deduplicates(w, ranking) && IsRun(w, a) && IsRun(w, b)
    requires After(w, a).stop.Some? && After(w, b).stop.Some?
    ensures |a| == |b| && SameButResultOrder(After(w, a), After(w, b))
    ensures View(w, After(w, a).accumulated.results) == View(w, After(w, b).accumulated.results)
  {
    hide Concluded, Observed, View;
    if |a| < |b| {
      PrefixIsRun(w, b, |a|);
      SchedulingNeverSteersRouting(w, ranking, a, b[..|a|]);
    } else if |b| < |a| {
      PrefixIsRun(w, a, |b|);
      SchedulingNeverSteersRouting(w, ranking, a[..|b|], b);
    } else {
      SchedulingNeverSteersRouting(w, ranking, a, b);
      AgreeingStatesLookAlike(w, ranking, After(w, a), After(w, b));
    }
  }

  lemma {:induction false} PrefixIsRun(w: World, orders: seq<seq<string>>, n: nat)
    requires IsRun(w, orders) && n < |orders|
    ensures IsRun(w, orders[..n]) && JoinsSpawned(w, After(w, orders[..n]), orders[n])
  {
    hide JoinsSpawned, Concluded, Observed;
    var before := orders[..|orders| - 1];
    if n == |before| {
      assert orders[..n] == before && orders[n] == orders[|orders| - 1];
    } else {
      PrefixIsRun(w, before, n);
      assert before[..n] == orders[..n] && before[n] == orders[n];
    }
  }
}
