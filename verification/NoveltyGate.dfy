module NoveltyGate {
  // Integrity and separation checks before a universe may be frozen (pre_execution_novelty_diversity_gate.py).

  import opened Wrappers
  import opened Counting
  import opened Generator

  predicate Blank(s: string) { forall c :: c in s ==> c in {' ', '\t', '\n', '\r'} }

  /** A field the new-candidate mode demands is missing. */
  predicate Incomplete(r: Row) {
    Blank(r.id) || Blank(r.query) || Blank(r.pair) || Blank(r.family) || Blank(r.strategy) || !r.provenance
  }

  function ById(rows: seq<Row>): map<string, Row> {
    if rows == [] then map[] else ById(rows[..|rows| - 1])[rows[|rows| - 1].id := rows[|rows| - 1]]
  }

  function RowIds(rows: seq<Row>): seq<string> { seq(|rows|, i requires 0 <= i < |rows| => rows[i].id) }

  predicate Known(byId: map<string, Row>, a: Assignment) { a.id in byId }

  predicate Mismatched(byId: map<string, Row>, a: Assignment) { a.id in byId && byId[a.id].arm != a.arm }

  /** The ids of the assignments that name a row, in order. */
  function AssignedIds(byId: map<string, Row>, assignments: seq<Assignment>): seq<string> {
    if assignments == [] then []
    else
      var a := assignments[|assignments| - 1];
      AssignedIds(byId, assignments[..|assignments| - 1]) + if Known(byId, a) then [a.id] else []
  }

  /** The arms the assignments reach in a pair. */
  function ArmsReached(byId: map<string, Row>, assignments: seq<Assignment>, pair: string): set<Arm> {
    set a | a in assignments && a.id in byId && byId[a.id].pair == pair :: byId[a.id].arm
  }

  function InCell(pair: string, arm: Arm): Row -> bool { (r: Row) => r.pair == pair && r.arm == arm }

  predicate OneEach(rows: seq<Row>, pair: string) {
    Count(rows, InCell(pair, Treatment)) == 1 && Count(rows, InCell(pair, Control)) == 1
  }

  function PairsOf(rows: seq<Row>): set<string> { set r | r in rows && r.pair != "" :: r.pair }

  const BOTH := {Treatment, Control}

  /** What the gate counts. */
  datatype Counts = Counts(duplicates: nat, missing: nat, unknown: nat, mismatch: nat, incomplete: nat)

  function CountsOf(rows: seq<Row>, assignments: seq<Assignment>): Counts {
    var byId := ById(rows);
    var named := AssignedIds(byId, assignments);
    SetNoLarger(RowIds(rows));
    SetNoLarger(named);
    Counts(
      |rows| - |SetOf(RowIds(rows))| + (|named| - |SetOf(named)|),
      Count(rows, r => Incomplete(r)) + Count(rows, (r: Row) => r.id !in named),
      Count(assignments, Unknowns(byId)),
      Count(assignments, Mismatches(byId)),
      if assignments == [] then 0 else
        |set p | p in PairsReached(byId, assignments) && ArmsReached(byId, assignments, p) != BOTH| +
        |set p | p in PairsOf(rows) && !OneEach(rows, p)|)
  }

  function PairsReached(byId: map<string, Row>, assignments: seq<Assignment>): set<string> {
    set a | a in assignments && a.id in byId && byId[a.id].pair != "" :: byId[a.id].pair
  }

  lemma SetNoLarger<T(!new)>(s: seq<T>)
    ensures |SetOf(s)| <= |s|
  {
    SetOfDistinct(s);
  }

  /** The integrity check in new-candidate mode. */
  predicate PassesIntegrity(rows: seq<Row>, assignments: seq<Assignment>) {
    CountsOf(rows, assignments) == Counts(0, 0, 0, 0, 0) && assignments != []
  }

  // ---- The counting loops ----

  method ScanRows(rows: seq<Row>) returns (duplicates: nat, missing: nat, byId: map<string, Row>)
    ensures duplicates == |rows| - |SetOf(RowIds(rows))|
    ensures missing == Count(rows, r => Incomplete(r))
    ensures byId == ById(rows)
  {
    hide Incomplete, Count;
    duplicates, missing, byId := 0, 0, map[];
    var seen: set<string> := {};
    NothingScanned();
    for i := 0 to |rows|
      invariant seen == SetOf(RowIds(rows[..i])) && duplicates == i - |seen|
      invariant missing == Count(rows[..i], r => Incomplete(r))
      invariant byId == ById(rows[..i])
    {
      var row := rows[i];
      RowsGrow(rows, i);
      if row.id in seen {
        duplicates := duplicates + 1;
        assert seen + {row.id} == seen;
      }
      seen := seen + {row.id};
      if Incomplete(row) { missing := missing + 1; }
      byId := byId[row.id := row];
    }
    assert rows[..|rows|] == rows;
  }

  lemma NothingScanned()
    ensures SetOf(RowIds([])) == {} && Count([], r => Incomplete(r)) == 0
  {}

  lemma RowsGrow(rows: seq<Row>, i: nat)
    requires i < |rows|
    ensures SetOf(RowIds(rows[..i + 1])) == SetOf(RowIds(rows[..i])) + {rows[i].id}
    ensures ById(rows[..i + 1]) == ById(rows[..i])[rows[i].id := rows[i]]
    ensures Count(rows[..i + 1], r => Incomplete(r)) == Count(rows[..i], r => Incomplete(r)) + if Incomplete(rows[i]) then 1 else 0
  {
    hide Incomplete;
    assert rows[..i + 1][..i] == rows[..i];
    assert RowIds(rows[..i + 1]) == RowIds(rows[..i]) + [rows[i].id];
  }

  function Unknowns(byId: map<string, Row>): Assignment -> bool { (a: Assignment) => !Known(byId, a) }

  function Mismatches(byId: map<string, Row>): Assignment -> bool { (a: Assignment) => Mismatched(byId, a) }

  /** Which arms of which pairs the assignments reach. */
  ghost predicate Reaches(reached: map<string, set<Arm>>, byId: map<string, Row>, assignments: seq<Assignment>) {
    && reached.Keys == PairsReached(byId, assignments)
    && forall p :: p in reached ==> reached[p] == ArmsReached(byId, assignments, p)
  }

  method ScanAssignments(byId: map<string, Row>, assignments: seq<Assignment>)
    returns (unknown: nat, mismatch: nat, named: seq<string>, reached: map<string, set<Arm>>)
    ensures unknown == Count(assignments, Unknowns(byId)) && mismatch == Count(assignments, Mismatches(byId))
    ensures named == AssignedIds(byId, assignments) && Reaches(reached, byId, assignments)
  {
    hide Count, Reaches, Unknowns, Mismatches;
    unknown, mismatch, named, reached := 0, 0, [], map[];
    NothingReached(byId);
    for i := 0 to |assignments|
      invariant unknown == Count(assignments[..i], Unknowns(byId)) && mismatch == Count(assignments[..i], Mismatches(byId))
      invariant named == AssignedIds(byId, assignments[..i]) && Reaches(reached, byId, assignments[..i])
    {
      var a := assignments[i];
      AssignmentsGrow(byId, assignments, i);
      if a.id !in byId {
        unknown := unknown + 1;
      } else {
        named := named + [a.id];
        if a.arm != byId[a.id].arm { mismatch := mismatch + 1; }
      }
      reached := Reach(reached, byId, assignments[..i], a);
    }
    assert assignments[..|assignments|] == assignments;
  }

  method Reach(reached: map<string, set<Arm>>, byId: map<string, Row>, ghost assignments: seq<Assignment>, a: Assignment)
    returns (after: map<string, set<Arm>>)
    requires Reaches(reached, byId, assignments)
    ensures Reaches(after, byId, assignments + [a])
  {
    hide ArmsReached, PairsReached;
    PairsGrow(byId, assignments, a);
    after := reached;
    if a.id in byId && byId[a.id].pair != "" {
      var pair := byId[a.id].pair;
      if pair !in reached {
        NotReached(byId, assignments, pair);
      }
      after := reached[pair := (if pair in reached then reached[pair] else {}) + {byId[a.id].arm}];
      assert after.Keys == reached.Keys + {pair};
    }
    forall p | p in after ensures after[p] == ArmsReached(byId, assignments + [a], p) { ArmsGrow(byId, assignments, a, p); }
  }

  lemma NotReached(byId: map<string, Row>, assignments: seq<Assignment>, pair: string)
    requires pair != "" && pair !in PairsReached(byId, assignments)
    ensures ArmsReached(byId, assignments, pair) == {}
  {}

  lemma NothingReached(byId: map<string, Row>)
    ensures Reaches(map[], byId, []) && Count([], Unknowns(byId)) == 0 && Count([], Mismatches(byId)) == 0
  {}

  lemma PairsGrow(byId: map<string, Row>, assignments: seq<Assignment>, a: Assignment)
    ensures PairsReached(byId, assignments + [a]) == (
      if a.id in byId && byId[a.id].pair != "" then PairsReached(byId, assignments) + {byId[a.id].pair}
      else PairsReached(byId, assignments))
    ensures "" !in PairsReached(byId, assignments)
  {}

  lemma ArmsGrow(byId: map<string, Row>, assignments: seq<Assignment>, a: Assignment, p: string)
    ensures ArmsReached(byId, assignments + [a], p) == (
      if a.id in byId && byId[a.id].pair == p then ArmsReached(byId, assignments, p) + {byId[a.id].arm}
      else ArmsReached(byId, assignments, p))
  {}

  lemma AssignmentsGrow(byId: map<string, Row>, assignments: seq<Assignment>, i: nat)
    requires i < |assignments|
    ensures var before, after, a := assignments[..i], assignments[..i + 1], assignments[i];
      && after == before + [a]
      && Count(after, Unknowns(byId)) == Count(before, Unknowns(byId)) + (if Known(byId, a) then 0 else 1)
      && Count(after, Mismatches(byId)) == Count(before, Mismatches(byId)) + (if Mismatched(byId, a) then 1 else 0)
      && AssignedIds(byId, after) == if Known(byId, a) then AssignedIds(byId, before) + [a.id] else AssignedIds(byId, before)
  {
    assert assignments[..i + 1][..i] == assignments[..i];
  }

  // ---- Separation of pairs ----

  /** The query a pair holds for an arm; a later row replaces an earlier one. */
  function HeldBy(rows: seq<Row>, pair: string, arm: Arm): Option<string> {
    if rows == [] then None
    else
      var r := rows[|rows| - 1];
      if r.pair == pair && r.arm == arm then Some(r.query) else HeldBy(rows[..|rows| - 1], pair, arm)
  }

  predicate Apart(t: Tokenizer, a: Option<string>, b: Option<string>) {
    a.Some? && b.Some? ==> !TooClose(t, a.value, b.value)
  }

  predicate PairsApart(t: Tokenizer, rows: seq<Row>, p: string, q: string) {
    && Apart(t, HeldBy(rows, p, Treatment), HeldBy(rows, q, Treatment)) && Apart(t, HeldBy(rows, p, Treatment), HeldBy(rows, q, Control))
    && Apart(t, HeldBy(rows, p, Control), HeldBy(rows, q, Treatment)) && Apart(t, HeldBy(rows, p, Control), HeldBy(rows, q, Control))
  }

  /** No two queries of different pairs are more alike than the threshold. */
  predicate Separated(t: Tokenizer, rows: seq<Row>) {
    forall p, q :: p in PairsOf(rows) && q in PairsOf(rows) && p != q ==> PairsApart(t, rows, p, q)
  }

  datatype Verdict = Verdict(counts: Counts, integrity: bool, separated: bool)

  /** The integrity and cross-pair conditions of the gate; a query without text ends the evaluation. */
  method Evaluate(t: Tokenizer, rows: seq<Row>, assignments: seq<Assignment>) returns (r: Result<Verdict, string>)
    ensures r.Err? <==> exists row :: row in rows && Blank(row.query)
    ensures r.Ok? ==> r.value == Verdict(CountsOf(rows, assignments), PassesIntegrity(rows, assignments), Separated(t, rows))
  {
    hide Blank, Separated, Incomplete, Count, ById, AssignedIds, ArmsReached, PairsReached, PairsOf, OneEach, SetOf;
    if exists row :: row in rows && Blank(row.query) { return Err("QUERY_TEXT_MISSING"); }
    var duplicates, missing, byId := ScanRows(rows);
    var unknown, mismatch, named, reached := ScanAssignments(byId, assignments);
    SetNoLarger(named);
    var unassigned := CountUnassigned(rows, named);
    missing := missing + unassigned;
    duplicates := duplicates + (|named| - |SetOf(named)|);
    var incomplete := 0;
    if assignments != [] {
      incomplete := |set p | p in reached && reached[p] != BOTH| + |set p | p in PairsOf(rows) && !OneEach(rows, p)|;
      assert (set p | p in reached && reached[p] != BOTH) ==
        (set p | p in PairsReached(byId, assignments) && ArmsReached(byId, assignments, p) != BOTH);
    }
    var counts := Counts(duplicates, missing, unknown, mismatch, incomplete);
    r := Ok(Verdict(counts, counts == Counts(0, 0, 0, 0, 0) && assignments != [], Separated(t, rows)));
  }

  method CountUnassigned(rows: seq<Row>, named: seq<string>) returns (n: nat)
    ensures n == Count(rows, (r: Row) => r.id !in named)
  {
    n := 0;
    for i := 0 to |rows|
      invariant n == Count(rows[..i], (r: Row) => r.id !in named)
    {
      assert rows[..i + 1][..i] == rows[..i];
      if rows[i].id !in named { n := n + 1; }
    }
    assert rows[..|rows|] == rows;
  }

  // ---- What a zero count means ----

  function AssignmentIds(assignments: seq<Assignment>): seq<string> {
    seq(|assignments|, i requires 0 <= i < |assignments| => assignments[i].id)
  }

  /** Rows and assignments match one to one, arm by arm, and every pair has one row per arm. */
  ghost predicate Matched(rows: seq<Row>, assignments: seq<Assignment>) {
    && (forall r :: r in rows ==> !Incomplete(r))
    && AllDifferent(RowIds(rows)) && AllDifferent(AssignmentIds(assignments))
    && SetOf(AssignmentIds(assignments)) == SetOf(RowIds(rows))
    && (forall a, r :: a in assignments && r in rows && a.id == r.id ==> a.arm == r.arm)
    && (forall r :: r in rows ==> OneEach(rows, r.pair))
    && assignments != []
  }

  lemma {:induction false} CountIsZero<T(!new)>(s: seq<T>, f: T -> bool)
    ensures Count(s, f) == 0 <==> forall x :: x in s ==> !f(x)
  {
    if s != [] {
      var n := |s| - 1;
      assert s == s[..n] + [s[n]];
      CountIsZero(s[..n], f);
    }
  }

  lemma {:induction false} NamedAll(byId: map<string, Row>, assignments: seq<Assignment>)
    requires forall a :: a in assignments ==> Known(byId, a)
    ensures AssignedIds(byId, assignments) == AssignmentIds(assignments)
  {
    if assignments != [] {
      var n := |assignments| - 1;
      assert assignments == assignments[..n] + [assignments[n]];
      NamedAll(byId, assignments[..n]);
    }
  }

  lemma {:induction false} ByIdMembers(rows: seq<Row>)
    ensures forall id :: id in ById(rows) <==> id in RowIds(rows)
    ensures forall id :: id in ById(rows) ==> ById(rows)[id] in rows && ById(rows)[id].id == id
  {
    if rows != [] {
      var n := |rows| - 1;
      ByIdMembers(rows[..n]);
      assert rows == rows[..n] + [rows[n]];
      assert RowIds(rows) == RowIds(rows[..n]) + [rows[n].id];
    }
  }

  lemma IdIsKey(rows: seq<Row>, r: Row, s: Row)
    requires AllDifferent(RowIds(rows)) && r in rows && s in rows && r.id == s.id
    ensures r == s
  {
    var i :| 0 <= i < |rows| && rows[i] == r;
    var j :| 0 <= j < |rows| && rows[j] == s;
    assert RowIds(rows)[i] == RowIds(rows)[j];
  }

  /** Some character is no space, tab, newline or carriage return. */
  ghost predicate Visible(s: string) {
    exists i :: 0 <= i < |s| && s[i] != ' ' && s[i] != '\t' && s[i] != '\n' && s[i] != '\r'
  }

  lemma BlankIff(s: string)
    ensures Blank(s) <==> !Visible(s)
  {
    if i :| 0 <= i < |s| && s[i] != ' ' && s[i] != '\t' && s[i] != '\n' && s[i] != '\r' { assert s[i] in s; }
  }

  /** A row lacks nothing exactly when all five texts show something and it says where it comes from. */
  lemma LacksNothingIff(r: Row)
    ensures !Incomplete(r) <==>
      Visible(r.id) && Visible(r.query) && Visible(r.pair) && Visible(r.family) && Visible(r.strategy) && r.provenance
  {
    hide Visible, Blank;
    BlankIff(r.id);
    BlankIff(r.query);
    BlankIff(r.pair);
    BlankIff(r.family);
    BlankIff(r.strategy);
  }
}
