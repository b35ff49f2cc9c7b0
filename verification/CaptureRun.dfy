/** The capture loop over the frozen query universe (execute_supplemental_v4_capture.py). */
module CaptureRun {
  import opened CaptureGate

  datatype Fetch = Timeout | HttpFailure | Unparsed | Results(items: seq<Item>)

  /** What the endpoint answers to attempt 1 or 2 of the query at an index. */
  datatype World = World(fetch: (nat, nat) -> Fetch)

  function Fetched(w: World, index: nat, attempt: nat): Fetch { w.fetch(index, attempt) }

  predicate Failed(f: Fetch) { f.Timeout? || f.HttpFailure? }

  datatype RawAttempt = RawAttempt(queryId: string, attempt: nat, fetch: Fetch)

  datatype Status = CompleteValid | ExhaustedFrozenUniverse | Incomplete

  function Shown(items: seq<Item>): nat { if |items| < DEPTH then |items| else DEPTH }

  /** The gate after the first `n` results of one response, ranked from one. */
  function AdmitFirst(rules: Rules, g: Gate, id: string, attempt: nat, items: seq<Item>, n: nat): Gate
    requires n <= |items|
  {
    if n == 0 then g
    else Admit(rules, AdmitFirst(rules, g, id, attempt, items, n - 1), id, attempt, n, items[n - 1])
  }

  /** Only a failed first attempt is repeated, once; an unreadable response is not. */
  predicate Retried(w: World, index: nat) { Failed(Fetched(w, index, 1)) }

  function LastAttempt(w: World, index: nat): nat { if Retried(w, index) then 2 else 1 }

  function AfterQuery(rules: Rules, g: Gate, query: Query, w: World, index: nat): Gate {
    match Fetched(w, index, LastAttempt(w, index))
    case Results(items) => AdmitFirst(rules, g, query.id, LastAttempt(w, index), items, Shown(items))
    case _ => g
  }

  /** The gate after the first `k` queries. */
  function After(rules: Rules, queries: seq<Query>, w: World, k: nat): Gate
    requires k <= |queries|
  {
    if k == 0 then EMPTY else AfterQuery(rules, After(rules, queries, w, k - 1), queries[k - 1], w, k - 1)
  }

  function Retries(w: World, k: nat): nat { if k == 0 then 0 else Retries(w, k - 1) + if Retried(w, k - 1) then 1 else 0 }

  predicate Full(g: Gate) { Filled(g, Treatment) >= TARGET_PER_ARM && Filled(g, Control) >= TARGET_PER_ARM }

  method AdmitResponse(acc: V4Accumulator, id: string, attempt: nat, items: seq<Item>)
    modifies acc
    ensures acc.Snapshot() == AdmitFirst(acc.rules, old(acc.Snapshot()), id, attempt, items, Shown(items))
  {
    hide Admit, Judge;
    var rank := 0;
    while rank < Shown(items)
      invariant rank <= Shown(items)
      invariant acc.Snapshot() == AdmitFirst(acc.rules, old(acc.Snapshot()), id, attempt, items, rank)
    {
      var _ := acc.Accept(id, attempt, rank + 1, items[rank]);
      rank := rank + 1;
    }
  }

  /** One query: at most two attempts. */
  method CaptureQuery(acc: V4Accumulator, query: Query, w: World, index: nat) returns (raw: seq<RawAttempt>)
    modifies acc
    ensures acc.Snapshot() == AfterQuery(acc.rules, old(acc.Snapshot()), query, w, index)
    ensures |raw| == LastAttempt(w, index)
    ensures forall i :: 0 <= i < |raw| ==> raw[i] == RawAttempt(query.id, i + 1, Fetched(w, index, i + 1))
  {
    raw := [];
    for attempt := 1 to 3
      invariant |raw| == attempt - 1 && acc.Snapshot() == old(acc.Snapshot())
      invariant forall i :: 0 <= i < |raw| ==> raw[i] == RawAttempt(query.id, i + 1, Fetched(w, index, i + 1))
      invariant attempt > 1 ==> Retried(w, index)
      invariant attempt <= 2
    {
      hide AdmitFirst;
      var response := Fetched(w, index, attempt);
      raw := raw + [RawAttempt(query.id, attempt, response)];
      if response.Unparsed? { break; }
      if response.Results? {
        AdmitResponse(acc, query.id, attempt, response.items);
        break;
      }
      if attempt == 2 { break; }
    }
  }

  /** Queries in capture order until both arms are full or the universe is exhausted. */
  method Capture(rules: Rules, queries: seq<Query>, w: World)
    returns (acc: V4Accumulator, executed: seq<Query>, raw: seq<RawAttempt>, retries: nat, status: Status)
    ensures acc.rules == rules && |executed| <= |queries| && executed == queries[..|executed|]
    ensures acc.Snapshot() == After(rules, queries, w, |executed|)
    ensures forall k :: 0 <= k < |executed| ==> !Full(After(rules, queries, w, k))
    ensures retries == Retries(w, |executed|) && |raw| == |executed| + retries
    ensures status == CompleteValid <==> Full(acc.Snapshot())
    ensures status == ExhaustedFrozenUniverse <==> executed == queries && !Full(acc.Snapshot())
    ensures status != Incomplete
  {
    hide AfterQuery, Filled;
    acc := new V4Accumulator(rules);
    executed, raw, retries := [], [], 0;
    var index := 0;
    var treatment, control := 0, 0;
    while index < |queries|
      invariant index <= |queries| && executed == queries[..index] && acc.rules == rules && fresh(acc)
      invariant acc.Snapshot() == After(rules, queries, w, index)
      invariant forall k :: 0 <= k < index ==> !Full(After(rules, queries, w, k))
      invariant retries == Retries(w, index) && |raw| == index + retries
    {
      treatment := acc.CountArm(Treatment);
      control := acc.CountArm(Control);
      if treatment >= TARGET_PER_ARM && control >= TARGET_PER_ARM { break; }
      executed := executed + [queries[index]];
      var attempts := CaptureQuery(acc, queries[index], w, index);
      raw := raw + attempts;
      if |attempts| == 2 { retries := retries + 1; }
      index := index + 1;
    }
    treatment := acc.CountArm(Treatment);
    control := acc.CountArm(Control);
    var reached := treatment >= TARGET_PER_ARM && control >= TARGET_PER_ARM;
    status := if reached then CompleteValid else if |executed| == |queries| then ExhaustedFrozenUniverse else Incomplete;
  }
}
