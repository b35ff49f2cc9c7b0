/** Executing a plan: barriers, durable records, pacing (benchmark_plan_runner.py). */
module PlanExecution {
  import opened Wrappers
  import opened Counting
  import opened PlanRunner

  datatype Record = Record(sequenceNumber: nat, position: Position, status: string)

  /** What can be observed while a plan runs, in order. */
  datatype Event = Execute(position: Position) | Durable(record: Record) | WriteFailed(position: Position) | Sleep

  /**
   What becomes of one write: it is on the disk, or it failed and left nothing, part of its line, or
   a whole line that was not synced.
   */
  datatype Write = Synced | Vanished | Torn | Unsynced

  /** The environment: what the executor answers for each attempt, and what becomes of its record. */
  datatype World = World(answer: nat -> Option<string>, write: nat -> Write)

  function Answer(w: World, attempt: nat): Option<string> { w.answer(attempt) }

  function Status(w: World, attempt: nat): string { if Answer(w, attempt).Some? then Answer(w, attempt).value else "" }

  function WriteOf(w: World, attempt: nat): Write { w.write(attempt) }

  predicate Writable(w: World, attempt: nat) { WriteOf(w, attempt).Synced? }

  /** A line of the output file: a record, or what is left of one (and of anything appended to that). */
  datatype Line = Whole(record: Record) | Garbled

  /** The file: its lines, and whether it ends inside the last one. */
  datatype File = File(lines: seq<Line>, torn: bool)

  function Written(file: File, record: Record, write: Write): File {
    match write
    case Vanished => file
    case Torn => if file.torn then file else File(file.lines + [Garbled], true)
    case _ =>  // the line is completed; it continues a torn one
      if file.torn && file.lines != [] then File(file.lines[..|file.lines| - 1] + [Garbled], false)
      else File(file.lines + [Whole(record)], false)
  }

  const HARD_LIMIT := 30

  /** Append-only records with one durable identity each. */
  class DurableJSONLWriter {
    var file: File
    var durable: set<Position>

    constructor ()
      ensures file == File([], false) && durable == {}
    {
      file, durable := File([], false), {};
    }

    method Append(record: Record, write: Write) returns (fault: Option<Abort>)
      modifies this
      ensures fault == if record.position in old(durable) then Some(DuplicateExecutionAttempt)
        else if write != Synced then Some(PersistenceFailure) else None
      ensures file == if record.position in old(durable) then old(file) else Written(old(file), record, write)
      ensures durable == if fault.None? then old(durable) + {record.position} else old(durable)
    {
      if record.position in durable { return Some(DuplicateExecutionAttempt); }
      file := Written(file, record, write);
      if write != Synced { return Some(PersistenceFailure); }
      durable := durable + {record.position};
      fault := None;
    }
  }

  /** Progress of one run. */
  class ExecutionState {
    const plan: Plan
    var attempted: set<Position>
    var attemptCount: nat
    var records: seq<Record>

    constructor (plan: Plan)
      ensures this.plan == plan && attempted == {} && attemptCount == 0 && records == []
    {
      this.plan := plan;
      attempted, attemptCount, records := {}, 0, [];
    }

    /** The barrier that refuses a position, checked before the executor runs. */
    function Barrier(position: Position): Option<Abort>
      reads this
    {
      if position !in plan.positions then Some(PositionNotInPlan)
      else if attemptCount >= |plan.positions| || attemptCount >= HARD_LIMIT then Some(ExecutionLimitExceeded)
      else if position in attempted then Some(DuplicateExecutionAttempt)
      else None
    }

    /** One position: barriers, executor, durable write, and only then progress. */
    method ExecutePosition(position: Position, w: World, writer: DurableJSONLWriter) returns (fault: Option<Abort>, events: seq<Event>)
      modifies this, writer
      ensures var record := Record(old(attemptCount) + 1, position, Status(w, old(attemptCount)));
        && fault == (
          if old(Barrier(position)).Some? then old(Barrier(position))
          else if Answer(w, old(attemptCount)).None? then Some(ExecutorRaised)
          else if position in old(writer.durable) then Some(DuplicateExecutionAttempt)
          else if !Writable(w, old(attemptCount)) then Some(PersistenceFailure)
          else None)
        && events == (
          if old(Barrier(position)).Some? then []
          else if fault.None? then [Execute(position), Durable(record)]
          else if fault == Some(PersistenceFailure) then [Execute(position), WriteFailed(position)]
          else [Execute(position)])
        && writer.file == (
          if fault.None? || fault == Some(PersistenceFailure) then Written(old(writer.file), record, WriteOf(w, old(attemptCount)))
          else old(writer.file))
        && writer.durable == (if fault.None? then old(writer.durable) + {position} else old(writer.durable))
        && attempted == (if fault.None? then old(attempted) + {position} else old(attempted))
        && attemptCount == (if fault.None? then old(attemptCount) + 1 else old(attemptCount))
        && records == (if fault.None? then old(records) + [record] else old(records))
    {
      events := [];
      fault := Barrier(position);
      if fault.Some? { return; }
      events := [Execute(position)];
      var answer := Answer(w, attemptCount);
      if answer.None? { return Some(ExecutorRaised), events; }
      var record := Record(attemptCount + 1, position, answer.value);
      if record.position != position { return Some(RecordIdentityMismatch), events; }
      fault := writer.Append(record, WriteOf(w, attemptCount));
      if fault == Some(PersistenceFailure) { events := events + [WriteFailed(position)]; }
      if fault.Some? { return; }
      events := events + [Durable(record)];
      attempted := attempted + {position};
      attemptCount := attemptCount + 1;
      records := records + [record];
    }
  }

  // ---- A whole run ----

  function RecordAt(positions: seq<Position>, i: nat, w: World): Record
    requires i < |positions|
  {
    Record(i + 1, positions[i], Status(w, i))
  }

  /** The first `k` positions, recorded and numbered from one. */
  function Records(positions: seq<Position>, k: nat, w: World): seq<Record>
    requires k <= |positions|
  {
    seq(k, i requires 0 <= i < k => RecordAt(positions, i, w))
  }

  /** What stops a run at position `i`, given the identities the writer held before the run. */
  function StepFault(positions: seq<Position>, i: nat, w: World, held: set<Position>): Option<Abort>
    requires i < |positions|
  {
    if Answer(w, i).None? then Some(ExecutorRaised)
    else if positions[i] in held then Some(DuplicateExecutionAttempt)
    else if !Writable(w, i) then Some(PersistenceFailure)
    else None
  }

  /** Events of a position that goes through, with the pause after it. */
  function Beat(position: Position, record: Record, slept: bool): seq<Event> {
    if slept then [Execute(position), Durable(record)] + [Sleep] else [Execute(position), Durable(record)]
  }

  /** Events of the first `k` positions, when the run may reach `limit` of them. */
  function Beats(positions: seq<Position>, k: nat, limit: nat, paced: bool, w: World): seq<Event>
    requires k <= |positions|
  {
    if k == 0 then []
    else
      Beats(positions, k - 1, limit, paced, w) + Beat(positions[k - 1], RecordAt(positions, k - 1, w), paced && k < limit)
  }

  /** Events of a position that fails. */
  function LastBeat(position: Position, fault: Abort): seq<Event> {
    if fault == PersistenceFailure then [Execute(position), WriteFailed(position)] else [Execute(position)]
  }

  function Queries(positions: seq<Position>): set<string> { set p | p in positions :: p.query }

  function Refusal(plan: Plan, maxPositions: Option<int>, interval: real): Option<Abort> {
    if plan.repetitions * |Queries(plan.positions)| > HARD_LIMIT then Some(ExecutionLimitExceeded)
    else if maxPositions.Some? && !(1 <= maxPositions.value <= |plan.positions|) then Some(InvalidPositionLimit)
    else if interval < 0.0 then Some(InvalidInterval)
    else None
  }

  function Limit(plan: Plan, maxPositions: Option<int>): nat {
    if maxPositions.Some? && 1 <= maxPositions.value <= |plan.positions| then maxPositions.value else |plan.positions|
  }

  /** The outcome of a run that got through `k` of `limit` positions. */
  ghost predicate Outcome(
    positions: seq<Position>, k: nat, limit: nat, paced: bool, w: World, held: set<Position>,
    fault: Option<Abort>, events: seq<Event>, written: seq<Record>)
  {
    && k <= limit <= |positions|
    && (forall i :: 0 <= i < k ==> StepFault(positions, i, w, held).None?)
    && (fault.None? <==> k == limit)
    && written == Records(positions, k, w)
    && (fault.Some? ==> k < |positions| && fault == StepFault(positions, k, w, held))
    && events == (
      if fault.Some? && k < |positions| then Beats(positions, k, limit, paced, w) + LastBeat(positions[k], fault.value)
      else Beats(positions, k, limit, paced, w))
  }

  lemma {:induction false} QueriesOfRounds(b: string, p: string, ids: seq<string>, n: int)
    requires n >= 1
    ensures Queries(Rounds(b, p, ids, n)) == SetOf(ids)
  {
    RoundsMembers(b, p, ids, n);
    forall id | id in ids ensures id in Queries(Rounds(b, p, ids, n)) {
      var k :| 0 <= k < |ids| && ids[k] == id;
      var last := Round(b, p, ids, n);
      assert last[k] in last && last[k].query == id;
      assert last[k] in Rounds(b, p, ids, n);
    }
  }

  lemma NoRounds(b: string, p: string, ids: seq<string>, n: int)
    requires n < 1
    ensures Rounds(b, p, ids, n) == []
  {}

  /** A validated plan that passes the limit check has at most the hard limit of positions. */
  lemma WithinHardLimit(plan: Plan, ids: seq<string>)
    requires Fault(plan, ids).None? && plan.repetitions * |Queries(plan.positions)| <= HARD_LIMIT
    ensures |plan.positions| <= HARD_LIMIT && AllDifferent(plan.positions)
  {
    hide Fault, Rounds, Queries, SetOf, AllDifferent;
    AcceptedIff(plan, ids);
    if plan.repetitions < 1 {
      NoRounds(plan.benchmark, plan.provider, ids, plan.repetitions);
    } else {
      QueriesOfRounds(plan.benchmark, plan.provider, ids, plan.repetitions);
      RoundsRepeat(plan.benchmark, plan.provider, ids, plan.repetitions);
      SetOfDistinct(ids);
      RoundsLength(plan.benchmark, plan.provider, ids, plan.repetitions);
    }
  }

  /** The first `i` positions went through. */
  ghost predicate Progress(
    positions: seq<Position>, i: nat, limit: nat, paced: bool, w: World, held: set<Position>,
    events: seq<Event>, written: seq<Record>)
  {
    && i <= limit <= |positions|
    && (forall j :: 0 <= j < i ==> StepFault(positions, j, w, held).None?)
    && written == Records(positions, i, w)
    && events == Beats(positions, i, limit, paced, w)
  }

  lemma ProgressGrows(positions: seq<Position>, i: nat, limit: nat, paced: bool, w: World, held: set<Position>,
    events: seq<Event>, written: seq<Record>)
    requires Progress(positions, i, limit, paced, w, held, events, written)
    requires i < limit && StepFault(positions, i, w, held).None?
    ensures var record := RecordAt(positions, i, w);
      Progress(positions, i + 1, limit, paced, w, held,
        (if paced && i + 1 < limit then events + [Execute(positions[i]), Durable(record)] + [Sleep]
         else events + [Execute(positions[i]), Durable(record)]), written + [record])
  {
    hide StepFault, RecordAt;
  }

  lemma ProgressEnds(positions: seq<Position>, i: nat, limit: nat, paced: bool, w: World, held: set<Position>,
    fault: Option<Abort>, events: seq<Event>, written: seq<Record>)
    requires Progress(positions, i, limit, paced, w, held, events, written)
    requires fault.None? <==> i == limit
    requires fault.Some? ==> i < |positions| && fault == StepFault(positions, i, w, held)
    ensures Outcome(positions, i, limit, paced, w, held, fault,
      (if fault.Some? && i < |positions| then events + LastBeat(positions[i], fault.value) else events), written)
  {
    hide StepFault, Beats, Records, LastBeat;
  }

  function Lines(written: seq<Record>): seq<Line> {
    seq(|written|, i requires 0 <= i < |written| => Whole(written[i]))
  }

  /** What a run adds to a file that does not end inside a line: its records, and what a failed write left. */
  ghost predicate Extends(before: File, after: File, written: seq<Record>, residue: seq<Line>) {
    !before.torn ==> after.lines == before.lines + Lines(written) + residue && (residue == [] ==> !after.torn)
  }

  /** What a failed write leaves: nothing, part of a line, or the whole line. */
  function Remains(record: Record, write: Write): seq<Line> {
    match write
    case Torn => [Garbled]
    case Unsynced => [Whole(record)]
    case _ => []
  }

  /** At most one line, from the record whose write failed. */
  ghost predicate Residue(residue: seq<Line>, positions: seq<Position>, k: nat, w: World, fault: Option<Abort>) {
    residue ==
      if fault == Some(PersistenceFailure) && k < |positions| then Remains(RecordAt(positions, k, w), WriteOf(w, k)) else []
  }

  lemma LineAdded(before: File, file: File, written: seq<Record>, record: Record)
    requires Extends(before, file, written, [])
    ensures Extends(before, Written(file, record, Synced), written + [record], [])
  {
    assert Lines(written + [record]) == Lines(written) + [Whole(record)];
  }

  lemma LineFailed(before: File, file: File, written: seq<Record>, record: Record, write: Write) returns (residue: seq<Line>)
    requires Extends(before, file, written, []) && write != Synced
    ensures Extends(before, Written(file, record, write), written, residue)
    ensures residue == Remains(record, write)
  {
    residue := Remains(record, write);
    var none: seq<Line> := [];
    assert before.lines + Lines(written) + none == before.lines + Lines(written);
  }

  /**
   Runs a validated plan.  `fault` is the exception that ends it early, `k` the positions done and
   `written` their records: a prefix of the plan, numbered from one.  The file grows by those
   records, and by at most one line of a write that failed.
   */
  method ExecutePlan(plan: Plan, ghost ids: seq<string>, w: World, writer: DurableJSONLWriter, maxPositions: Option<int>, interval: real)
    returns (fault: Option<Abort>, events: seq<Event>, ghost k: nat, ghost written: seq<Record>, ghost residue: seq<Line>)
    requires Fault(plan, ids).None?
    modifies writer
    ensures Extends(old(writer.file), writer.file, written, residue)
    ensures Refusal(plan, maxPositions, interval).Some? ==>
      fault == Refusal(plan, maxPositions, interval) && events == [] && written == [] && residue == []
    ensures Refusal(plan, maxPositions, interval).None? ==>
      && Outcome(plan.positions, k, Limit(plan, maxPositions), interval != 0.0, w, old(writer.durable), fault, events, written)
      && Residue(residue, plan.positions, k, w, fault)
      && |written| == k <= |plan.positions| && (k == Limit(plan, maxPositions) <==> fault.None?)
      && (forall i :: 0 <= i < k ==> written[i].sequenceNumber == i + 1 && written[i].position == plan.positions[i])
      && (forall i :: 0 <= i < k ==> Answer(w, i) == Some(written[i].status))
      && (forall i, j :: 0 <= i < j < k ==> written[i].position != written[j].position)
  {
    hide Fault, Queries, Outcome, Progress, Extends, Residue, Written;
    k, events, written, residue := 0, [], [], [];
    NothingAdded(writer.file);
    fault := Refusal(plan, maxPositions, interval);
    if fault.Some? { return; }
    WithinHardLimit(plan, ids);
    ghost var held, before := writer.durable, writer.file;
    ghost var limit, paced := Limit(plan, maxPositions), interval != 0.0;
    var positions := plan.positions;
    var state := new ExecutionState(plan);
    var index := 0;
    ProgressStarts(positions, limit, paced, w, held);
    while index < |positions|
      invariant fault.None? && k == index <= limit <= |positions| && fresh(state) && state.plan == plan
      invariant state.attemptCount == index && state.attempted == SetOf(positions[..index])
      invariant Extends(before, writer.file, written, [])
      invariant writer.durable == held + SetOf(positions[..index])
      invariant Progress(positions, index, limit, paced, w, held, events, written)
      invariant index == limit ==> index == |positions|
    {
      hide Refusal, SetOf, AllDifferent, Limit;
      NotYetAttempted(positions, index);
      var stepEvents;
      ghost var file := writer.file;
      fault, stepEvents := state.ExecutePosition(positions[index], w, writer);
      if fault.Some? {
        ProgressEnds(positions, index, limit, paced, w, held, fault, events, written);
        if fault == Some(PersistenceFailure) {
          residue := LineFailed(before, file, written, RecordAt(positions, index, w), WriteOf(w, index));
        }
        NumberedPrefix(positions, k, limit, paced, w, held, fault, events + stepEvents, written);
        ResidueLeft(residue, positions, k, w, fault);
        events := events + stepEvents;
        return;
      }
      ProgressGrows(positions, index, limit, paced, w, held, events, written);
      LineAdded(before, file, written, RecordAt(positions, index, w));
      written := written + [RecordAt(positions, index, w)];
      events := events + stepEvents;
      index := index + 1;
      k := index;
      if maxPositions.Some? && state.attemptCount >= maxPositions.value { break; }
      if interval != 0.0 && index < |positions| { events := events + [Sleep]; }
    }
    ProgressEnds(positions, index, limit, paced, w, held, None, events, written);
    NumberedPrefix(positions, k, limit, paced, w, held, fault, events, written);
    ResidueLeft(residue, positions, k, w, fault);
  }

  lemma NothingAdded(file: File)
    ensures Extends(file, file, [], [])
  {
    var none: seq<Line> := [];
    assert file.lines + Lines([]) + none == file.lines;
  }

  lemma ResidueLeft(residue: seq<Line>, positions: seq<Position>, k: nat, w: World, fault: Option<Abort>)
    requires residue ==
      if fault == Some(PersistenceFailure) && k < |positions| then Remains(RecordAt(positions, k, w), WriteOf(w, k)) else []
    ensures Residue(residue, positions, k, w, fault)
  {}

  lemma NumberedPrefix(
    positions: seq<Position>, k: nat, limit: nat, paced: bool, w: World, held: set<Position>,
    fault: Option<Abort>, events: seq<Event>, written: seq<Record>)
    requires AllDifferent(positions) && Outcome(positions, k, limit, paced, w, held, fault, events, written)
    ensures |written| == k <= |positions| && (k == limit <==> fault.None?)
    ensures forall i :: 0 <= i < k ==> written[i].sequenceNumber == i + 1 && written[i].position == positions[i]
    ensures forall i :: 0 <= i < k ==> Answer(w, i) == Some(written[i].status)
    ensures forall i, j :: 0 <= i < j < k ==> written[i].position != written[j].position
  {
    hide Beats;
    forall i | 0 <= i < k ensures Answer(w, i) == Some(written[i].status) { assert StepFault(positions, i, w, held).None?; }
  }

  lemma ProgressStarts(positions: seq<Position>, limit: nat, paced: bool, w: World, held: set<Position>)
    requires limit <= |positions|
    ensures Progress(positions, 0, limit, paced, w, held, [], [])
  {}

  lemma NotYetAttempted(positions: seq<Position>, i: nat)
    requires AllDifferent(positions) && i < |positions|
    ensures positions[i] !in SetOf(positions[..i])
    ensures SetOf(positions[..i + 1]) == SetOf(positions[..i]) + {positions[i]}
  {
    assert positions[..i + 1] == positions[..i] + [positions[i]];
  }
}
