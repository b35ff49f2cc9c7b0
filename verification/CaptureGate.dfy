/** The quota and contamination gate of a capture run (execute_supplemental_v4_capture.py). */
module CaptureGate {
  import opened Wrappers
  import opened Counting

  datatype Arm = Treatment | Control

  datatype Query = Query(id: string, order: nat, permitted: set<nat>, arm: Arm)

  /** A result as returned; `url` is its canonical form, none when it is no web address. */
  datatype Item = Item(title: string, snippet: string, url: Option<string>)

  datatype Reason =
    | Accepted | OutsideFrozenUniverse | OutsideAllowedDepth | InvalidResult | DuplicateCurrent | OverlapV1
    | OverlapSupplemental | OverlapV3 | HistoricalOverlap | TreatmentTargetFilled | ControlTargetFilled

  datatype Row = Row(query: Query, rank: nat, url: string, title: string, snippet: string)

  datatype Entry = Entry(queryId: string, attempt: nat, rank: nat, url: Option<string>, reason: Reason)

  const TARGET_PER_ARM := 474

  const DEPTH := 3

  /** The frozen universe and the corpora no result may overlap. */
  datatype Rules = Rules(
    queries: map<string, Query>, v1: set<string>, supplemental: set<string>, v3: set<string>, historical: set<string>)

  /** The state of the gate. */
  datatype Gate = Gate(current: set<string>, accepted: seq<Row>, ledger: seq<Entry>, rejected: map<Reason, nat>)

  const EMPTY := Gate({}, [], [], map[])

  function InArm(arm: Arm): Row -> bool { (r: Row) => r.query.arm == arm }

  function Filled(g: Gate, arm: Arm): nat { Count(g.accepted, InArm(arm)) }

  /** Why a result of a known query is not accepted. */
  function Objection(rules: Rules, g: Gate, query: Query, item: Item): Reason {
    if item.url.None? || item.title == "" || item.snippet == "" then InvalidResult
    else if item.url.value in g.current then DuplicateCurrent
    else if item.url.value in rules.v1 then OverlapV1
    else if item.url.value in rules.supplemental then OverlapSupplemental
    else if item.url.value in rules.v3 then OverlapV3
    else if item.url.value in rules.historical then HistoricalOverlap
    else if Filled(g, query.arm) >= TARGET_PER_ARM then
      if query.arm == Treatment then TreatmentTargetFilled else ControlTargetFilled
    else Accepted
  }

  function Judge(rules: Rules, g: Gate, id: string, rank: nat, item: Item): Reason {
    if id !in rules.queries then OutsideFrozenUniverse
    else if rank !in rules.queries[id].permitted then OutsideAllowedDepth
    else Objection(rules, g, rules.queries[id], item)
  }

  /** The canonical address the ledger shows: none when the result was refused before parsing it. */
  function ShownUrl(rules: Rules, id: string, rank: nat, item: Item): Option<string> {
    if id in rules.queries && rank in rules.queries[id].permitted then item.url else None
  }

  function Bump(counts: map<Reason, nat>, reason: Reason): map<Reason, nat> {
    counts[reason := 1 + if reason in counts then counts[reason] else 0]
  }

  /** The gate after one result. */
  function Admit(rules: Rules, g: Gate, id: string, attempt: nat, rank: nat, item: Item): Gate {
    var reason := Judge(rules, g, id, rank, item);
    var ledger := g.ledger + [Entry(id, attempt, rank, ShownUrl(rules, id, rank, item), reason)];
    if reason == Accepted && id in rules.queries && item.url.Some? then
      Gate(g.current + {item.url.value},
        g.accepted + [Row(rules.queries[id], rank, item.url.value, item.title, item.snippet)], ledger, g.rejected)
    else g.(ledger := ledger, rejected := Bump(g.rejected, reason))
  }

  class V4Accumulator {
    const rules: Rules
    var current: set<string>
    var accepted: seq<Row>
    var ledger: seq<Entry>
    var rejected: map<Reason, nat>

    constructor (rules: Rules)
      ensures this.rules == rules && Snapshot() == EMPTY
    {
      this.rules := rules;
      current, accepted, ledger, rejected := {}, [], [], map[];
    }

    function Snapshot(): Gate
      reads this
    {
      Gate(current, accepted, ledger, rejected)
    }

    /** How many accepted rows an arm has. */
    method CountArm(arm: Arm) returns (n: nat)
      ensures n == Filled(Snapshot(), arm)
    {
      n := 0;
      for i := 0 to |accepted|
        invariant n == Count(accepted[..i], InArm(arm))
      {
        assert accepted[..i + 1][..i] == accepted[..i];
        if accepted[i].query.arm == arm { n := n + 1; }
      }
      assert accepted[..|accepted|] == accepted;
    }

    method Evaluate(id: string, rank: nat, item: Item) returns (reason: Reason, url: Option<string>)
      ensures reason == Judge(rules, Snapshot(), id, rank, item)
      ensures url == ShownUrl(rules, id, rank, item)
    {
      hide Filled;
      url := None;
      if id !in rules.queries { return OutsideFrozenUniverse, None; }
      var query := rules.queries[id];
      if rank !in query.permitted { return OutsideAllowedDepth, None; }
      reason := Accepted;
      url := item.url;
      if url.None? { reason := InvalidResult; }
      if reason == Accepted && (item.title == "" || item.snippet == "") { reason := InvalidResult; }
      if reason == Accepted && url.value in current { reason := DuplicateCurrent; }
      if reason == Accepted && url.value in rules.v1 { reason := OverlapV1; }
      if reason == Accepted && url.value in rules.supplemental { reason := OverlapSupplemental; }
      if reason == Accepted && url.value in rules.v3 { reason := OverlapV3; }
      if reason == Accepted && url.value in rules.historical { reason := HistoricalOverlap; }
      if reason == Accepted {
        var count := CountArm(query.arm);
        if count >= TARGET_PER_ARM {
          reason := if query.arm == Treatment then TreatmentTargetFilled else ControlTargetFilled;
        }
      }
    }

    method Accept(id: string, attempt: nat, rank: nat, item: Item) returns (row: Option<Row>)
      modifies this
      ensures Snapshot() == Admit(rules, old(Snapshot()), id, attempt, rank, item)
      ensures row == if Judge(rules, old(Snapshot()), id, rank, item) == Accepted then Some(accepted[|accepted| - 1]) else None
      ensures ledger != []
    {
      hide Filled;
      var reason, url := Evaluate(id, rank, item);
      if reason != Accepted {
        ledger := ledger + [Entry(id, attempt, rank, url, reason)];
        rejected := Bump(rejected, reason);
        return None;
      }
      var added := Row(rules.queries[id], rank, url.value, item.title, item.snippet);
      current := current + {url.value};
      accepted := accepted + [added];
      ledger := ledger + [Entry(id, attempt, rank, url, Accepted)];
      row := Some(added);
    }
  }
}
