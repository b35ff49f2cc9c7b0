module PlanExecutionProperties {
  // What every run of a validated plan looks like (benchmark_plan_runner.py).

  import opened Wrappers
  import opened Counting
  import opened PlanRunner
  import opened PlanExecution

  /** The positions given to the executor, in order. */
  function Executed(events: seq<Event>): seq<Position> {
    if events == [] then []
    else
      var last := events[|events| - 1];
      Executed(events[..|events| - 1]) + if last.Execute? then [last.position] else []
  }

  function Sleeps(events: seq<Event>): nat { Count(events, (e: Event) => e.Sleep?) }

  lemma {:induction false} ExecutedConcat(s: seq<Event>, t: seq<Event>)
    ensures Executed(s + t) == Executed(s) + Executed(t)
  {
    if t == [] {
      assert s + t == s;
    } else {
      assert (s + t)[..|s + t| - 1] == s + t[..|t| - 1];
      ExecutedConcat(s, t[..|t| - 1]);
    }
  }

  lemma ExecutedOfOne(e: Event)
    ensures Executed([e]) == (if e.Execute? then [e.position] else []) && Sleeps([e]) == if e.Sleep? then 1 else 0
  {
    assert [e][..0] == [];
  }

  lemma SleepsConcat(s: seq<Event>, t: seq<Event>)
    ensures Sleeps(s + t) == Sleeps(s) + Sleeps(t)
  {
    CountConcat(s, t, (e: Event) => e.Sleep?);
  }

  lemma ExecutedOfBeat(p: Position, r: Record, slept: bool)
    ensures Executed(Beat(p, r, slept)) == [p] && Sleeps(Beat(p, r, slept)) == if slept then 1 else 0
  {
    hide Executed, Sleeps;
    ExecutedOfOne(Execute(p));
    ExecutedOfOne(Durable(r));
    ExecutedOfOne(Sleep);
    var pair := [Execute(p), Durable(r)];
    assert pair == [Execute(p)] + [Durable(r)];
    ExecutedConcat([Execute(p)], [Durable(r)]);
    SleepsConcat([Execute(p)], [Durable(r)]);
    ExecutedConcat(pair, [Sleep]);
    SleepsConcat(pair, [Sleep]);
  }

  lemma BeatsGrow(positions: seq<Position>, k: nat, limit: nat, paced: bool, w: World)
    requires 0 < k <= |positions|
    ensures Beats(positions, k, limit, paced, w) ==
      Beats(positions, k - 1, limit, paced, w) + Beat(positions[k - 1], RecordAt(positions, k - 1, w), paced && k < limit)
  {}

  lemma {:induction false} BeatsExecute(positions: seq<Position>, k: nat, limit: nat, paced: bool, w: World)
    requires k <= |positions|
    ensures Executed(Beats(positions, k, limit, paced, w)) == positions[..k]
  {
    hide Executed, RecordAt, Beat;
    if k == 0 {
      ExecutedOfNothing();
    } else {
      hide Beats;
      var n := k - 1;
      BeatsGrow(positions, k, limit, paced, w);
      BeatsExecute(positions, n, limit, paced, w);
      ExecutedConcat(Beats(positions, n, limit, paced, w), Beat(positions[n], RecordAt(positions, n, w), paced && k < limit));
      ExecutedOfBeat(positions[n], RecordAt(positions, n, w), paced && k < limit);
      assert positions[..k] == positions[..n] + [positions[n]];
    }
  }

  lemma ExecutedOfNothing()
    ensures Executed([]) == [] && Sleeps([]) == 0
  {}

  lemma {:induction false} BeatsSleep(positions: seq<Position>, k: nat, limit: nat, paced: bool, w: World)
    requires k <= |positions| && k <= limit
    ensures Sleeps(Beats(positions, k, limit, paced, w)) ==
      if !paced then 0 else if k < limit || k == 0 then k else k - 1
  {
    hide Sleeps, RecordAt, Beat;
    if k == 0 {
      ExecutedOfNothing();
    } else {
      hide Beats;
      var n := k - 1;
      BeatsGrow(positions, k, limit, paced, w);
      BeatsSleep(positions, n, limit, paced, w);
      SleepsConcat(Beats(positions, n, limit, paced, w), Beat(positions[n], RecordAt(positions, n, w), paced && k < limit));
      ExecutedOfBeat(positions[n], RecordAt(positions, n, w), paced && k < limit);
    }
  }

  lemma ExecutedOfLastBeat(p: Position, fault: Abort)
    ensures Executed(LastBeat(p, fault)) == [p] && Sleeps(LastBeat(p, fault)) == 0
  {
    assert [Execute(p)][..0] == [];
    assert [Execute(p), WriteFailed(p)][..1] == [Execute(p)];
    assert Executed([Execute(p)]) == [p] && Sleeps([Execute(p)]) == 0;
  }

  lemma PrefixDistinct<T>(s: seq<T>, n: nat)
    requires AllDifferent(s) && n <= |s|
    ensures AllDifferent(s[..n])
  {}

  /** The executor sees a prefix of the plan, hence no position twice; only the last of them may lack its record. */
  lemma NoPositionRunsTwice(
    positions: seq<Position>, k: nat, limit: nat, paced: bool, w: World, held: set<Position>,
    fault: Option<Abort>, events: seq<Event>, written: seq<Record>)
    requires AllDifferent(positions) && Outcome(positions, k, limit, paced, w, held, fault, events, written)
    ensures var n := if fault.Some? then k + 1 else k;
      n <= |positions| && Executed(events) == positions[..n] && AllDifferent(Executed(events))
  {
    hide Beats, Records, StepFault, LastBeat, Executed;
    BeatsExecute(positions, k, limit, paced, w);
    if fault.Some? {
      ExecutedConcat(Beats(positions, k, limit, paced, w), LastBeat(positions[k], fault.value));
      ExecutedOfLastBeat(positions[k], fault.value);
      assert positions[..k + 1] == positions[..k] + [positions[k]];
      PrefixDistinct(positions, k + 1);
    } else {
      PrefixDistinct(positions, k);
    }
  }

  /** A run that ends normally sleeps exactly between its positions. */
  lemma NormalFinishSleeps(
    positions: seq<Position>, k: nat, limit: nat, paced: bool, w: World, held: set<Position>,
    events: seq<Event>, written: seq<Record>)
    requires Outcome(positions, k, limit, paced, w, held, None, events, written)
    ensures Sleeps(events) == if paced && k > 0 then k - 1 else 0
  {
    BeatsSleep(positions, k, limit, paced, w);
  }

  /** What may follow an event. */
  predicate Follows(paced: bool, before: Event, after: Event) {
    match before
    case Execute(p) => (after.Durable? && after.record.position == p) || after == WriteFailed(p)
    case Durable(_) => if paced then after.Sleep? else after.Execute?
    case Sleep => after.Execute?
    case WriteFailed(_) => false
  }

  /** Execute, durable, sleep, execute, durable, ..., starting with an execution. */
  ghost predicate Alternates(paced: bool, events: seq<Event>) {
    && (events != [] ==> events[0].Execute?)
    && forall i, j :: 0 <= i && j == i + 1 && j < |events| ==> Follows(paced, events[i], events[j])
  }

  lemma AlternatesConcat(paced: bool, s: seq<Event>, t: seq<Event>)
    requires Alternates(paced, s) && Alternates(paced, t)
    requires s != [] && t != [] ==> Follows(paced, s[|s| - 1], t[0])
    ensures Alternates(paced, s + t)
  {
    if s != [] { assert (s + t)[0] == s[0]; }
    forall i, j | 0 <= i && j == i + 1 && j < |s + t| ensures Follows(paced, (s + t)[i], (s + t)[j]) {
      if j < |s| {
        assert Follows(paced, s[i], s[j]);
      } else if i >= |s| {
        assert Follows(paced, t[i - |s|], t[j - |s|]);
      }
    }
  }

  lemma {:induction false} BeatsAlternate(positions: seq<Position>, k: nat, limit: nat, paced: bool, w: World)
    requires k <= |positions| && k <= limit
    ensures var events := Beats(positions, k, limit, paced, w);
      && Alternates(paced, events)
      && (events == [] <==> k == 0)
      && (k > 0 ==> if paced && k < limit then events[|events| - 1].Sleep? else events[|events| - 1].Durable?)
  {
    if k > 0 {
      hide Alternates, RecordAt, Beat;
      BeatsAlternate(positions, k - 1, limit, paced, w);
      var record := RecordAt(positions, k - 1, w);
      BeatAlternates(positions[k - 1], record, paced, paced && k < limit);
      assert record.position == positions[k - 1];
      AlternatesConcat(paced, Beats(positions, k - 1, limit, paced, w), Beat(positions[k - 1], record, paced && k < limit));
    }
  }

  lemma BeatAlternates(p: Position, r: Record, paced: bool, slept: bool)
    requires r.position == p && (slept ==> paced)
    ensures var beat := Beat(p, r, slept);
      && Alternates(paced, beat) && beat != [] && beat[0] == Execute(p)
      && if slept then beat[|beat| - 1].Sleep? else beat[|beat| - 1].Durable?
  {}

  /**
   * Executions, durable writes and pauses alternate in every run; a pause is always followed by
   * an execution, and nothing follows a failed write.
   */
  lemma EventsAlternate(
    positions: seq<Position>, k: nat, limit: nat, paced: bool, w: World, held: set<Position>,
    fault: Option<Abort>, events: seq<Event>, written: seq<Record>)
    requires Outcome(positions, k, limit, paced, w, held, fault, events, written)
    ensures Alternates(paced, events)
    ensures events != [] ==> !events[|events| - 1].Sleep?
    ensures forall i :: 0 <= i < |events| && events[i].WriteFailed? ==> i == |events| - 1 && fault == Some(PersistenceFailure)
    ensures fault == Some(PersistenceFailure) ==> events != [] && events[|events| - 1] == WriteFailed(positions[k])
  {
    hide Beats, Records, StepFault;
    var before := Beats(positions, k, limit, paced, w);
    BeatsAlternate(positions, k, limit, paced, w);
    if fault.Some? { AlternatesConcat(paced, before, LastBeat(positions[k], fault.value)); }
    forall i | 0 <= i < |events| - 1 ensures !events[i].WriteFailed? { NothingAfterFailure(paced, events, i, i + 1); }
  }

  lemma NothingAfterFailure(paced: bool, events: seq<Event>, i: nat, j: nat)
    requires Alternates(paced, events) && j == i + 1 < |events|
    ensures !events[i].WriteFailed?
  {
    assert Follows(paced, events[i], events[j]);
  }

  // ---- Durable records ----

  /** The records that became durable, in order. */
  function Durables(events: seq<Event>): seq<Record> {
    if events == [] then []
    else
      var last := events[|events| - 1];
      Durables(events[..|events| - 1]) + if last.Durable? then [last.record] else []
  }

  lemma {:induction false} DurablesConcat(s: seq<Event>, t: seq<Event>)
    ensures Durables(s + t) == Durables(s) + Durables(t)
  {
    if t == [] {
      assert s + t == s;
    } else {
      assert (s + t)[..|s + t| - 1] == s + t[..|t| - 1];
      DurablesConcat(s, t[..|t| - 1]);
    }
  }

  lemma DurablesOfOne(e: Event)
    ensures Durables([e]) == if e.Durable? then [e.record] else []
  {
    assert [e][..0] == [];
  }

  lemma DurablesOfTwo(d: Event, e: Event)
    ensures Durables([d, e]) == (if d.Durable? then [d.record] else []) + (if e.Durable? then [e.record] else [])
  {
    hide Durables;
    assert [d, e] == [d] + [e];
    DurablesConcat([d], [e]);
    DurablesOfOne(d);
    DurablesOfOne(e);
  }

  lemma DurablesOfBeat(p: Position, r: Record, slept: bool)
    ensures Durables(Beat(p, r, slept)) == [r]
  {
    hide Durables;
    DurablesOfTwo(Execute(p), Durable(r));
    DurablesOfOne(Sleep);
    DurablesConcat([Execute(p), Durable(r)], [Sleep]);
  }

  lemma DurablesOfNothing()
    ensures Durables([]) == []
  {}

  lemma {:induction false} BeatsRecord(positions: seq<Position>, k: nat, limit: nat, paced: bool, w: World)
    requires k <= |positions|
    ensures Durables(Beats(positions, k, limit, paced, w)) == Records(positions, k, w)
  {
    hide Durables, RecordAt, Beat;
    if k == 0 {
      DurablesOfNothing();
    } else {
      hide Beats;
      var n := k - 1;
      BeatsGrow(positions, k, limit, paced, w);
      BeatsRecord(positions, n, limit, paced, w);
      DurablesConcat(Beats(positions, n, limit, paced, w), Beat(positions[n], RecordAt(positions, n, w), paced && k < limit));
      DurablesOfBeat(positions[n], RecordAt(positions, n, w), paced && k < limit);
      assert Records(positions, k, w) == Records(positions, n, w) + [RecordAt(positions, n, w)];
    }
  }

  /** What became durable during a run is what it returns as written. */
  lemma DurablesAreWritten(
    positions: seq<Position>, k: nat, limit: nat, paced: bool, w: World, held: set<Position>,
    fault: Option<Abort>, events: seq<Event>, written: seq<Record>)
    requires Outcome(positions, k, limit, paced, w, held, fault, events, written)
    ensures Durables(events) == written
  {
    hide Durables, Beats, Records, StepFault;
    BeatsRecord(positions, k, limit, paced, w);
    if fault.Some? {
      DurablesConcat(Beats(positions, k, limit, paced, w), LastBeat(positions[k], fault.value));
      DurablesOfOne(Execute(positions[k]));
      DurablesOfTwo(Execute(positions[k]), WriteFailed(positions[k]));
    }
  }

  // ---- Refusals and faults ----

  /** Why a run is refused before it starts: more than thirty planned calls, a bad position limit, or a negative pause. */
  lemma RefusedBecause(plan: Plan, maxPositions: Option<int>, interval: real)
    ensures var refusal := Refusal(plan, maxPositions, interval);
      var tooMany := plan.repetitions * |Queries(plan.positions)| > 30;
      var badLimit := maxPositions.Some? && (maxPositions.value < 1 || maxPositions.value > |plan.positions|);
      && (refusal == Some(ExecutionLimitExceeded) <==> tooMany)
      && (refusal == Some(InvalidPositionLimit) <==> !tooMany && badLimit)
      && (refusal == Some(InvalidInterval) <==> !tooMany && !badLimit && interval < 0.0)
      && (refusal.None? <==> !tooMany && !badLimit && interval >= 0.0)
      && (refusal.None? && maxPositions.Some? ==> Limit(plan, maxPositions) == maxPositions.value)
      && (maxPositions.None? ==> Limit(plan, maxPositions) == |plan.positions|)
  {}

  /** A run goes past a position exactly when the executor answers, its identity is new, and its record reaches the disk. */
  lemma StopsBecause(positions: seq<Position>, i: nat, w: World, held: set<Position>)
    requires i < |positions|
    ensures var fault := StepFault(positions, i, w, held);
      && (fault == Some(ExecutorRaised) <==> Answer(w, i) == None)
      && (fault == Some(DuplicateExecutionAttempt) <==> Answer(w, i).Some? && positions[i] in held)
      && (fault == Some(PersistenceFailure) <==> Answer(w, i).Some? && positions[i] !in held && WriteOf(w, i) != Synced)
      && (fault == None <==> Answer(w, i).Some? && positions[i] !in held && WriteOf(w, i) == Synced)
  {}

  /** Which barrier refuses a position: it is no part of the plan, the run is at its limit, or it was attempted already. */
  lemma BarrierIs(state: ExecutionState, position: Position)
    ensures var barrier := state.Barrier(position);
      var spent := state.attemptCount >= |state.plan.positions| || state.attemptCount >= 30;
      && (barrier == Some(PositionNotInPlan) <==> position !in state.plan.positions)
      && (barrier == Some(ExecutionLimitExceeded) <==> position in state.plan.positions && spent)
      && (barrier == Some(DuplicateExecutionAttempt) <==> position in state.plan.positions && !spent && position in state.attempted)
      && (barrier == None <==> position in state.plan.positions && !spent && position !in state.attempted)
  {}
}
