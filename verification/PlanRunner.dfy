module PlanRunner {
  // Sequential execution of a validated plan with durable records and pacing (benchmark_plan_runner.py).

  import opened Wrappers
  import opened Counting

  datatype Position = Position(benchmark: string, provider: string, query: string, repetition: int)

  datatype Plan = Plan(benchmark: string, provider: string, repetitions: int, positions: seq<Position>)

  datatype Abort =
    | InvalidDataset | DuplicatePosition | PlanCountMismatch | MissingPosition | PositionNotInPlan
    | ExecutionLimitExceeded | DuplicateExecutionAttempt | RecordIdentityMismatch | PersistenceFailure
    | InvalidPositionLimit | InvalidInterval | ExecutorRaised

  // ---- The plan ----

  function Round(benchmark: string, provider: string, ids: seq<string>, repetition: int): seq<Position> {
    seq(|ids|, i requires 0 <= i < |ids| => Position(benchmark, provider, ids[i], repetition))
  }

  /** Every query once per round, rounds in order. */
  function Rounds(benchmark: string, provider: string, ids: seq<string>, repetitions: int): seq<Position>
    decreases if repetitions < 0 then 0 else repetitions
  {
    if repetitions <= 0 then []
    else Rounds(benchmark, provider, ids, repetitions - 1) + Round(benchmark, provider, ids, repetitions)
  }

  function BuildPlan(benchmark: string, provider: string, ids: seq<string>, repetitions: int): Result<Plan, Abort> {
    if benchmark == "" || provider == "" || repetitions < 1 then Err(InvalidDataset)
    else Ok(Plan(benchmark, provider, repetitions, Rounds(benchmark, provider, ids, repetitions)))
  }

  /** The first fault of a plan, in the order the source looks for them. */
  function Fault(plan: Plan, ids: seq<string>): Option<Abort> {
    var expected := Rounds(plan.benchmark, plan.provider, ids, plan.repetitions);
    if !AllDifferent(plan.positions) then Some(DuplicatePosition)
    else if |plan.positions| != |ids| * plan.repetitions then Some(PlanCountMismatch)
    else if SetOf(plan.positions) != SetOf(expected) then Some(MissingPosition)
    else if plan.positions != expected then Some(MissingPosition)
    else None
  }

  lemma {:induction false} RoundsLength(b: string, p: string, ids: seq<string>, n: int)
    requires n >= 0
    ensures |Rounds(b, p, ids, n)| == |ids| * n
  {
    if n > 0 {
      RoundsLength(b, p, ids, n - 1);
      assert |ids| * n == |ids| * (n - 1) + |ids|;
    }
  }

  /** Positions of the first `n` rounds: their repetitions are 1 to `n`, and their queries are the ids. */
  lemma {:induction false} RoundsMembers(b: string, p: string, ids: seq<string>, n: int)
    ensures forall x :: x in Rounds(b, p, ids, n) ==> 1 <= x.repetition <= n && x.query in ids
    decreases if n < 0 then 0 else n
  {
    if n > 0 { RoundsMembers(b, p, ids, n - 1); }
  }

  lemma DistinctConcat<T>(s: seq<T>, t: seq<T>)
    requires AllDifferent(s) && AllDifferent(t) && forall x :: x in s ==> x !in t
    ensures AllDifferent(s + t)
  {
    forall i, j | 0 <= i < j < |s + t| ensures (s + t)[i] != (s + t)[j] {
      if i < |s| <= j { assert s[i] in s && t[j - |s|] in t; }
    }
  }

  lemma {:induction false} RoundsDistinct(b: string, p: string, ids: seq<string>, n: int)
    requires AllDifferent(ids)
    ensures AllDifferent(Rounds(b, p, ids, n))
    decreases if n < 0 then 0 else n
  {
    if n > 0 {
      RoundsDistinct(b, p, ids, n - 1);
      RoundsMembers(b, p, ids, n - 1);
      DistinctConcat(Rounds(b, p, ids, n - 1), Round(b, p, ids, n));
    }
  }

  /** A repeated query repeats a position in every round. */
  lemma RoundsRepeat(b: string, p: string, ids: seq<string>, n: int)
    requires n >= 1 && AllDifferent(Rounds(b, p, ids, n))
    ensures AllDifferent(ids)
  {
    var before, last := Rounds(b, p, ids, n - 1), Round(b, p, ids, n);
    forall i, j | 0 <= i < j < |ids| ensures ids[i] != ids[j] {
      assert (before + last)[|before| + i] == last[i] && (before + last)[|before| + j] == last[j];
    }
  }

  /** A plan is accepted exactly when it lists every query once per round, in round-major order. */
  lemma AcceptedIff(plan: Plan, ids: seq<string>)
    ensures Fault(plan, ids).None? <==>
      && plan.positions == Rounds(plan.benchmark, plan.provider, ids, plan.repetitions)
      && AllDifferent(plan.positions) && (plan.repetitions >= 0 || ids == [])
  {
    if plan.repetitions >= 0 {
      RoundsLength(plan.benchmark, plan.provider, ids, plan.repetitions);
    } else if ids != [] {
      NegativeProduct(|ids|, plan.repetitions);
    }
  }

  lemma NegativeProduct(a: int, b: int)
    requires a > 0 && b < 0
    ensures a * b < 0
  {}

  /** The builder's plans are accepted exactly when no query is listed twice. */
  lemma BuiltPlanIsAcceptedIff(b: string, p: string, ids: seq<string>, n: int)
    requires BuildPlan(b, p, ids, n).Ok?
    ensures Fault(BuildPlan(b, p, ids, n).value, ids).None? <==> AllDifferent(ids)
  {
    AcceptedIff(BuildPlan(b, p, ids, n).value, ids);
    if AllDifferent(ids) {
      RoundsDistinct(b, p, ids, n);
    } else if AllDifferent(Rounds(b, p, ids, n)) {
      RoundsRepeat(b, p, ids, n);
    }
  }

  // ---- Order of a plan, and its faults ----

  lemma RowOfIndex(m: nat, n: nat, k: nat)
    requires m > 0 && n * m <= k < (n + 1) * m
    ensures k / m == n && k % m == k - n * m
  {
    var q, r := k / m, k % m;
    assert k == q * m + r;
    if q < n { AtMost(q + 1, n, m); } else if q > n { AtMost(n + 1, q, m); }
  }

  lemma AtMost(x: int, y: int, m: nat)
    requires x <= y
    ensures x * m <= y * m
  {}

  /** Position `k` of a plan: all queries in order, then all again in the next round, rounds counted from one. */
  lemma {:induction false} RoundMajor(b: string, p: string, ids: seq<string>, n: int, k: nat)
    requires n >= 0 && k < |ids| * n
    ensures |Rounds(b, p, ids, n)| == |ids| * n && |ids| > 0
    ensures Rounds(b, p, ids, n)[k] == Position(b, p, ids[k % |ids|], k / |ids| + 1)
  {
    RoundsLength(b, p, ids, n);
    RoundsLength(b, p, ids, n - 1);
    var m := |ids|;
    assert m * n == n * m && m * (n - 1) == (n - 1) * m && (n - 1 + 1) * m == n * m;
    if k < m * (n - 1) {
      RoundMajor(b, p, ids, n - 1, k);
    } else {
      RowOfIndex(m, n - 1, k);
    }
  }

  /** Which fault a plan is refused for: each, with those looked for before it ruled out. */
  lemma FaultIs(plan: Plan, ids: seq<string>)
    ensures var fault, distinct := Fault(plan, ids), forall i, j :: 0 <= i < j < |plan.positions| ==> plan.positions[i] != plan.positions[j];
      && (fault == Some(DuplicatePosition) <==> !distinct)
      && (fault == Some(PlanCountMismatch) <==> distinct && |plan.positions| != |ids| * plan.repetitions)
      && (fault == Some(MissingPosition) <==>
          && distinct && |plan.positions| == |ids| * plan.repetitions
          && exists k :: 0 <= k < |plan.positions| && !InPlace(plan, ids, k))
      && (fault.Some? ==> fault.value in {DuplicatePosition, PlanCountMismatch, MissingPosition})
  {
    hide Rounds, SetOf, InPlace;
    if |plan.positions| == |ids| * plan.repetitions { InPlaceIff(plan, ids); }
  }

  lemma InPlaceIff(plan: Plan, ids: seq<string>)
    requires |plan.positions| == |ids| * plan.repetitions
    ensures plan.positions == Rounds(plan.benchmark, plan.provider, ids, plan.repetitions) <==>
      forall k :: 0 <= k < |plan.positions| ==> InPlace(plan, ids, k)
  {
    hide Rounds;
    var expected := Rounds(plan.benchmark, plan.provider, ids, plan.repetitions);
    ExpectedLength(plan, ids);
    forall k | 0 <= k < |plan.positions| ensures InPlace(plan, ids, k) <==> plan.positions[k] == expected[k] {
      RoundMajor(plan.benchmark, plan.provider, ids, plan.repetitions, k);
    }
  }

  lemma ExpectedLength(plan: Plan, ids: seq<string>)
    requires |plan.positions| == |ids| * plan.repetitions
    ensures |Rounds(plan.benchmark, plan.provider, ids, plan.repetitions)| == |plan.positions|
    ensures plan.positions != [] ==> plan.repetitions > 0
  {
    if plan.repetitions >= 0 {
      RoundsLength(plan.benchmark, plan.provider, ids, plan.repetitions);
    } else if ids != [] {
      NegativeProduct(|ids|, plan.repetitions);
    }
  }

  /** Position `k` is the one that round-major order puts there. */
  ghost predicate InPlace(plan: Plan, ids: seq<string>, k: nat)
    requires k < |plan.positions|
  {
    ids != [] && plan.positions[k] == Position(plan.benchmark, plan.provider, ids[k % |ids|], k / |ids| + 1)
  }

  /** A plan is built exactly from a named benchmark and provider and at least one round. */
  lemma BuildsIff(b: string, p: string, ids: seq<string>, n: int)
    ensures BuildPlan(b, p, ids, n).Ok? <==> |b| > 0 && |p| > 0 && n > 0
    ensures var r := BuildPlan(b, p, ids, n);
      r.Ok? ==> r.value.benchmark == b && r.value.provider == p && r.value.repetitions == n && |r.value.positions| == |ids| * n
    ensures var r := BuildPlan(b, p, ids, n); r.Ok? ==> forall k :: 0 <= k < |r.value.positions| ==> InPlace(r.value, ids, k)
  {
    hide Rounds;
    if n > 0 {
      RoundsLength(b, p, ids, n);
      if b != "" && p != "" {
        var plan := BuildPlan(b, p, ids, n).value;
        forall k | 0 <= k < |plan.positions| ensures InPlace(plan, ids, k) { RoundMajor(b, p, ids, n, k); }
      }
    }
  }
}
