module GeneratorMeetsGate {
  // The gate's counters characterize a perfect matching, and every generated universe is one.

  import opened Wrappers
  import opened Counting
  import opened Similarity
  import opened Numbering
  import opened Generator
  import opened NoveltyGate

  // ---- The integrity counters ----

  lemma NoDuplicatesIff(rows: seq<Row>, named: seq<string>)
    ensures |SetOf(RowIds(rows))| <= |rows| && |SetOf(named)| <= |named|
    ensures |rows| - |SetOf(RowIds(rows))| + (|named| - |SetOf(named)|) == 0 <==> AllDifferent(RowIds(rows)) && AllDifferent(named)
  {
    SetOfDistinct(RowIds(rows));
    SetOfDistinct(named);
  }

  lemma NoMissingIff(rows: seq<Row>, named: seq<string>)
    ensures Count(rows, r => Incomplete(r)) + Count(rows, (r: Row) => r.id !in named) == 0 <==>
      forall r :: r in rows ==> !Incomplete(r) && r.id in named
  {
    hide Count, Incomplete;
    CountIsZero(rows, r => Incomplete(r));
    CountIsZero(rows, (r: Row) => r.id !in named);
  }

  lemma PairHasBothArms(rows: seq<Row>, byId: map<string, Row>, assignments: seq<Assignment>, p: string)
    requires byId == ById(rows) && AllDifferent(RowIds(rows)) && OneEach(rows, p)
    requires forall r :: r in rows ==> r.id in AssignmentIds(assignments)
    ensures ArmsReached(byId, assignments, p) == BOTH
  {
    ArmIsReached(rows, byId, assignments, p, Treatment);
    ArmIsReached(rows, byId, assignments, p, Control);
    forall arm | arm in BOTH ensures arm in ArmsReached(byId, assignments, p) {}
    forall arm | arm in ArmsReached(byId, assignments, p) ensures arm in BOTH {}
  }

  lemma ArmIsReached(rows: seq<Row>, byId: map<string, Row>, assignments: seq<Assignment>, p: string, arm: Arm)
    requires byId == ById(rows) && AllDifferent(RowIds(rows)) && Count(rows, InCell(p, arm)) == 1
    requires forall r :: r in rows ==> r.id in AssignmentIds(assignments)
    ensures arm in ArmsReached(byId, assignments, p)
  {
    hide Count, ById;
    CountIsZero(rows, InCell(p, arm));
    var r :| r in rows && InCell(p, arm)(r);
    ByIdMembers(rows);
    assert r.id in byId by {
      var i :| 0 <= i < |rows| && rows[i] == r;
      assert RowIds(rows)[i] == r.id;
    }
    IdIsKey(rows, r, byId[r.id]);
    var k :| 0 <= k < |assignments| && AssignmentIds(assignments)[k] == r.id;
    assert assignments[k] in assignments;
  }

  lemma NoIncompleteIff(rows: seq<Row>, byId: map<string, Row>, assignments: seq<Assignment>)
    requires byId == ById(rows) && AllDifferent(RowIds(rows)) && forall r :: r in rows ==> r.pair != ""
    requires forall r :: r in rows ==> r.id in AssignmentIds(assignments)
    ensures
      |set p | p in PairsReached(byId, assignments) && ArmsReached(byId, assignments, p) != BOTH| +
      |set p | p in PairsOf(rows) && !OneEach(rows, p)| == 0
      <==> forall r :: r in rows ==> OneEach(rows, r.pair)
  {
    hide OneEach, ArmsReached, ById;
    var broken := set p | p in PairsOf(rows) && !OneEach(rows, p);
    var short := set p | p in PairsReached(byId, assignments) && ArmsReached(byId, assignments, p) != BOTH;
    if forall r :: r in rows ==> OneEach(rows, r.pair) {
      assert broken == {};
      ByIdMembers(rows);
      forall p | p in PairsReached(byId, assignments) ensures ArmsReached(byId, assignments, p) == BOTH {
        PairHasBothArms(rows, byId, assignments, p);
      }
      assert short == {};
    } else {
      var r :| r in rows && !OneEach(rows, r.pair);
      assert r.pair in broken;
    }
  }

  /** All counters are zero exactly when rows and assignments match one to one with complete pairs. */
  lemma IntegrityIff(rows: seq<Row>, assignments: seq<Assignment>)
    ensures PassesIntegrity(rows, assignments) <==> Matched(rows, assignments)
  {
    hide PassesIntegrity, Matched;
    if PassesIntegrity(rows, assignments) {
      PassingIsMatched(rows, assignments);
    }
    if Matched(rows, assignments) {
      MatchedIsPassing(rows, assignments);
    }
  }

  lemma PairsNamed(rows: seq<Row>)
    requires forall r :: r in rows ==> !Incomplete(r)
    ensures forall r :: r in rows ==> r.pair != ""
  {}

  lemma PassingIsMatched(rows: seq<Row>, assignments: seq<Assignment>)
    requires PassesIntegrity(rows, assignments)
    ensures Matched(rows, assignments)
  {
    hide Count, ById, AssignedIds, Incomplete, OneEach, ArmsReached, PairsReached, PairsOf, AllDifferent;
    var byId := ById(rows);
    var named := AssignedIds(byId, assignments);
    NoDuplicatesIff(rows, named);
    NoMissingIff(rows, named);
    CountIsZero(assignments, Unknowns(byId));
    CountIsZero(assignments, Mismatches(byId));
    NamedAll(byId, assignments);
    ByIdMembers(rows);
    PairsNamed(rows);
    SameIdSets(rows, assignments);
    NoIncompleteIff(rows, byId, assignments);
    ArmsAgree(rows, assignments);
  }

  lemma SameIdSets(rows: seq<Row>, assignments: seq<Assignment>)
    requires forall r :: r in rows ==> r.id in AssignmentIds(assignments)
    requires forall a :: a in assignments ==> a.id in RowIds(rows)
    ensures SetOf(AssignmentIds(assignments)) == SetOf(RowIds(rows))
  {
    forall id | id in RowIds(rows) ensures id in AssignmentIds(assignments) {
      var i :| 0 <= i < |rows| && RowIds(rows)[i] == id;
      assert rows[i] in rows;
    }
    forall id | id in AssignmentIds(assignments) ensures id in RowIds(rows) {
      var i :| 0 <= i < |assignments| && AssignmentIds(assignments)[i] == id;
      assert assignments[i] in assignments;
    }
  }

  lemma ArmsAgree(rows: seq<Row>, assignments: seq<Assignment>)
    requires AllDifferent(RowIds(rows)) && forall a :: a in assignments ==> Known(ById(rows), a)
    ensures (forall a :: a in assignments ==> !Mismatched(ById(rows), a)) <==>
      forall a, r :: a in assignments && r in rows && a.id == r.id ==> a.arm == r.arm
  {
    hide ById;
    ByIdMembers(rows);
    forall a, r | a in assignments && r in rows && a.id == r.id ensures ById(rows)[a.id] == r {
      IdIsKey(rows, r, ById(rows)[a.id]);
    }
    forall a | a in assignments ensures ById(rows)[a.id] in rows && ById(rows)[a.id].id == a.id {}
  }

  lemma MatchedIsPassing(rows: seq<Row>, assignments: seq<Assignment>)
    requires Matched(rows, assignments)
    ensures PassesIntegrity(rows, assignments)
  {
    hide Count, ById, AssignedIds, Incomplete, OneEach, ArmsReached, PairsReached, PairsOf, AllDifferent;
    var byId := ById(rows);
    ByIdMembers(rows);
    AllKnown(rows, assignments);
    NamedAll(byId, assignments);
    var named := AssignedIds(byId, assignments);
    NoDuplicatesIff(rows, named);
    NoMissingIff(rows, named);
    CountIsZero(assignments, Unknowns(byId));
    CountIsZero(assignments, Mismatches(byId));
    PairsNamed(rows);
    NoIncompleteIff(rows, byId, assignments);
    ArmsAgree(rows, assignments);
  }

  lemma AllKnown(rows: seq<Row>, assignments: seq<Assignment>)
    requires SetOf(AssignmentIds(assignments)) == SetOf(RowIds(rows))
    ensures forall a :: a in assignments ==> a.id in RowIds(rows)
    ensures forall r :: r in rows ==> r.id in AssignmentIds(assignments)
  {
    forall a | a in assignments ensures a.id in RowIds(rows) {
      var i :| 0 <= i < |assignments| && assignments[i] == a;
      assert AssignmentIds(assignments)[i] in SetOf(AssignmentIds(assignments));
    }
    forall r | r in rows ensures r.id in AssignmentIds(assignments) {
      var i :| 0 <= i < |rows| && rows[i] == r;
      assert RowIds(rows)[i] in SetOf(RowIds(rows));
    }
  }

  // ---- Generated universes ----

  function ArmAt(k: nat): Arm { if k % 2 == 0 then Treatment else Control }

  lemma RowByIndex(choices: seq<Choice>, concepts: seq<string>, contexts: seq<string>, k: nat)
    requires k < 2 * |choices|
    ensures |RowsOf(choices, concepts, contexts)| == |AssignmentsOf(choices)| == 2 * |choices|
    ensures RowsOf(choices, concepts, contexts)[k] == RowOf(choices[k / 2], ArmAt(k), k / 2 + 1, FamilyAt(concepts, contexts, k / 2))
    ensures AssignmentsOf(choices)[k] == AssignmentOf(choices[k / 2], ArmAt(k), k / 2 + 1)
  {
    hide RowsOf, AssignmentsOf, RowOf, AssignmentOf, FamilyAt;
    RowsAt(choices, concepts, contexts, k / 2);
    AssignmentsAt(choices, k / 2);
  }

  lemma PrefixedEqual(a: string, b: string, p: string, q: string)
    requires |p| == |q| && p + a == q + b
    ensures p == q && a == b
  {
    assert (p + a)[..|p|] == p && (q + b)[..|q|] == q;
    assert (p + a)[|p|..] == a && (q + b)[|q|..] == b;
  }

  lemma PairIdIsInjective(m: nat, n: nat)
    requires PairId(m) == PairId(n)
    ensures m == n
  {
    hide Padded;
    PrefixedEqual(Padded(m), Padded(n), "candidate-p-", "candidate-p-");
    PaddedIsInjective(m, n);
  }

  lemma QueryIdIsInjective(a: Arm, m: nat, b: Arm, n: nat)
    requires QueryId(a, m) == QueryId(b, n)
    ensures a == b && m == n
  {
    hide Padded;
    var p := if a == Treatment then "candidate-t-" else "candidate-c-";
    var q := if b == Treatment then "candidate-t-" else "candidate-c-";
    PrefixedEqual(Padded(m), Padded(n), p, q);
    assert p[10] == q[10];
    PaddedIsInjective(m, n);
  }

  lemma GeneratedIds(choices: seq<Choice>, concepts: seq<string>, contexts: seq<string>)
    ensures var rows, assignments := RowsOf(choices, concepts, contexts), AssignmentsOf(choices);
      && RowIds(rows) == AssignmentIds(assignments) && AllDifferent(RowIds(rows))
      && forall i, j :: 0 <= i < |assignments| && 0 <= j < |rows| && assignments[i].id == rows[j].id ==> assignments[i].arm == rows[j].arm
  {
    hide RowsOf, AssignmentsOf, QueryId, PairId, FamilyAt;
    var rows, assignments := RowsOf(choices, concepts, contexts), AssignmentsOf(choices);
    RowsLength(choices, concepts, contexts);
    forall k | 0 <= k < |rows|
      ensures rows[k].id == assignments[k].id == QueryId(ArmAt(k), k / 2 + 1) && rows[k].arm == assignments[k].arm == ArmAt(k)
    {
      RowByIndex(choices, concepts, contexts, k);
    }
    forall i, j | 0 <= i < |rows| && 0 <= j < |rows| && QueryId(ArmAt(i), i / 2 + 1) == QueryId(ArmAt(j), j / 2 + 1) ensures i == j {
      QueryIdIsInjective(ArmAt(i), i / 2 + 1, ArmAt(j), j / 2 + 1);
    }
  }

  lemma CountTwo<T>(s: seq<T>, x: T, y: T, f: T -> bool)
    ensures Count(s + [x, y], f) == Count(s, f) + (if f(x) then 1 else 0) + (if f(y) then 1 else 0)
  {
    assert (s + [x, y])[..|s| + 1] == s + [x] && (s + [x])[..|s|] == s;
  }

  /** A pair has one row in each arm once its number is reached. */
  lemma {:induction false} GeneratedPairCount(choices: seq<Choice>, concepts: seq<string>, contexts: seq<string>, number: nat, arm: Arm)
    requires number >= 1
    ensures Count(RowsOf(choices, concepts, contexts), InCell(PairId(number), arm)) == if number <= |choices| then 1 else 0
  {
    if choices != [] {
      hide Count, PairId, QueryId, FamilyAt;
      var n := |choices|;
      GeneratedPairCount(choices[..n - 1], concepts, contexts, number, arm);
      var family := FamilyAt(concepts, contexts, n - 1);
      CountTwo(RowsOf(choices[..n - 1], concepts, contexts), RowOf(choices[n - 1], Treatment, n, family),
        RowOf(choices[n - 1], Control, n, family), InCell(PairId(number), arm));
      if PairId(n) == PairId(number) { PairIdIsInjective(n, number); }
    }
  }

  lemma StartsVisibly(s: string)
    requires s != [] && s[0] !in {' ', '\t', '\n', '\r'}
    ensures !Blank(s)
  {
    assert s[0] in s;
  }

  lemma FormStartsVisibly(form: Form, topic: string)
    requires form.before != [] && form.before[0] !in {' ', '\t', '\n', '\r'}
    ensures !Blank(Filled(form, topic))
  {
    StartsVisibly(Filled(form, topic));
  }

  lemma FormsStartVisibly(topic: string, strategy: nat)
    requires strategy < FORMS
    ensures !Blank(Filled(TREATMENT_FORMS[strategy], topic)) && !Blank(Filled(CONTROL_FORMS[strategy], topic))
  {
    hide Blank;
    FormStartsVisibly(TREATMENT_FORMS[strategy], topic);
    FormStartsVisibly(CONTROL_FORMS[strategy], topic);
  }

  lemma ContainsVisible(s: string, k: nat)
    requires k < |s| && s[k] == '/'
    ensures !Blank(s)
  {
    assert s[k] in s;
  }

  lemma FamilyIsVisible(concepts: seq<string>, contexts: seq<string>, k: nat)
    ensures !Blank(FamilyAt(concepts, contexts, k))
  {
    var f := FamilyAt(concepts, contexts, k);
    if |contexts| > 0 && 0 <= k / |contexts| < |concepts| && 0 <= k % |contexts| < |contexts| {
      ContainsVisible(f, |concepts[k / |contexts|]| + 1);
    } else {
      ContainsVisible(f, 1);
    }
  }

  lemma {:induction false} SelectedIsFree(t: Tokenizer, topic: string, base: nat, accepted: seq<Choice>, alternative: nat)
    requires alternative <= FORMS && Select(t, topic, base, accepted, alternative).Some?
    ensures var c := Select(t, topic, base, accepted, alternative).value;
      c.strategy < FORMS && c == ChoiceOf(topic, c.strategy) && !Conflicted(t, c, accepted)
    decreases FORMS - alternative
  {
    hide Conflicted, Filled;
    if alternative < FORMS && Conflicted(t, ChoiceOf(topic, (base + alternative) % FORMS), accepted) {
      SelectedIsFree(t, topic, base, accepted, alternative + 1);
    }
  }

  /** Every pair uses one form of its topic, and no two pairs conflict. */
  lemma {:induction false} PairsAreFree(t: Tokenizer, concepts: seq<string>, contexts: seq<string>, k: nat)
    requires Pairs(t, concepts, contexts, k).Some?
    ensures var choices := Pairs(t, concepts, contexts, k).value;
      && |choices| == k
      && (forall i :: 0 <= i < k ==>
        && choices[i].strategy < FORMS
        && choices[i] == ChoiceOf(TopicAt(concepts, contexts, i), choices[i].strategy))
      && (forall i, j :: 0 <= i < j < k ==> !Conflicts(t, choices[j], choices[i]))
  {
    hide Select, Conflicts, ChoiceOf, TopicAt;
    if k > 0 {
      PairsAreFree(t, concepts, contexts, k - 1);
      var accepted := Pairs(t, concepts, contexts, k - 1).value;
      SelectedIsFree(t, TopicAt(concepts, contexts, k - 1), (k - 1) % FORMS, accepted, 0);
    }
  }

  lemma {:induction false} HeldByGenerated(choices: seq<Choice>, concepts: seq<string>, contexts: seq<string>, i: nat, arm: Arm)
    requires i < |choices|
    ensures HeldBy(RowsOf(choices, concepts, contexts), PairId(i + 1), arm) == Some(Text(choices[i], arm))
  {
    hide PairId, QueryId, FamilyAt, Text;
    var n := |choices|;
    var before := RowsOf(choices[..n - 1], concepts, contexts);
    var family := FamilyAt(concepts, contexts, n - 1);
    var first, second := RowOf(choices[n - 1], Treatment, n, family), RowOf(choices[n - 1], Control, n, family);
    HeldByTwo(before, first, second, PairId(i + 1), arm);
    if i < n - 1 {
      HeldByGenerated(choices[..n - 1], concepts, contexts, i, arm);
      if PairId(n) == PairId(i + 1) { PairIdIsInjective(n, i + 1); }
    }
  }

  lemma HeldByTwo(before: seq<Row>, first: Row, second: Row, pair: string, arm: Arm)
    ensures HeldBy(before + [first, second], pair, arm) == (
      if second.pair == pair && second.arm == arm then Some(second.query)
      else if first.pair == pair && first.arm == arm then Some(first.query)
      else HeldBy(before, pair, arm))
  {
    assert (before + [first, second])[..|before| + 1] == before + [first];
    assert (before + [first])[..|before|] == before;
  }

  lemma TooCloseIsSymmetric(t: Tokenizer, a: string, b: string)
    ensures TooClose(t, a, b) == TooClose(t, b, a)
  {
    JaccardIsSymmetric(Tokens(t, a), Tokens(t, b));
  }

  lemma FreePairsAreApart(t: Tokenizer, choices: seq<Choice>, concepts: seq<string>, contexts: seq<string>, i: nat, j: nat)
    requires i < |choices| && j < |choices| && i != j
    requires forall x, y :: 0 <= x < y < |choices| ==> !Conflicts(t, choices[y], choices[x])
    ensures PairsApart(t, RowsOf(choices, concepts, contexts), PairId(i + 1), PairId(j + 1))
  {
    hide HeldBy, RowsOf, TooClose, PairId;
    HeldByGenerated(choices, concepts, contexts, i, Treatment);
    HeldByGenerated(choices, concepts, contexts, i, Control);
    HeldByGenerated(choices, concepts, contexts, j, Treatment);
    HeldByGenerated(choices, concepts, contexts, j, Control);
    var x, y := choices[i], choices[j];
    TooCloseIsSymmetric(t, x.treatment, y.treatment);
    TooCloseIsSymmetric(t, x.treatment, y.control);
    TooCloseIsSymmetric(t, x.control, y.treatment);
    TooCloseIsSymmetric(t, x.control, y.control);
    assert if i < j then !Conflicts(t, y, x) else !Conflicts(t, x, y);
  }

  lemma RowIsGenerated(choices: seq<Choice>, concepts: seq<string>, contexts: seq<string>, r: Row) returns (k: nat)
    requires r in RowsOf(choices, concepts, contexts)
    ensures k < |choices| && r.pair == PairId(k + 1)
    ensures r == RowOf(choices[k], r.arm, k + 1, FamilyAt(concepts, contexts, k))
  {
    hide RowsOf, AssignmentsOf, PairId, QueryId, FamilyAt;
    var rows := RowsOf(choices, concepts, contexts);
    RowsLength(choices, concepts, contexts);
    var i :| 0 <= i < |rows| && rows[i] == r;
    RowByIndex(choices, concepts, contexts, i);
    k := i / 2;
  }

  lemma GeneratedIsSeparated(t: Tokenizer, choices: seq<Choice>, concepts: seq<string>, contexts: seq<string>)
    requires forall x, y :: 0 <= x < y < |choices| ==> !Conflicts(t, choices[y], choices[x])
    ensures Separated(t, RowsOf(choices, concepts, contexts))
  {
    hide RowsOf, PairsApart, Conflicts, PairId;
    var rows := RowsOf(choices, concepts, contexts);
    forall p, q | p in PairsOf(rows) && q in PairsOf(rows) && p != q ensures PairsApart(t, rows, p, q) {
      var r :| r in rows && r.pair == p;
      var s :| s in rows && s.pair == q;
      var i := RowIsGenerated(choices, concepts, contexts, r);
      var j := RowIsGenerated(choices, concepts, contexts, s);
      FreePairsAreApart(t, choices, concepts, contexts, i, j);
    }
  }

  lemma PrefixVisible(prefix: string, s: string)
    requires prefix != [] && prefix[0] == 'c'
    ensures !Blank(prefix + s)
  {
    StartsVisibly(prefix + s);
  }

  lemma StrategyIsVisible()
    ensures !Blank(STRATEGY)
  {
    var last := STRATEGY[|STRATEGY| - 1];
    assert last == 'G' && last in STRATEGY;
  }

  lemma RowIsComplete(c: Choice, arm: Arm, number: nat, family: string, topic: string)
    requires c.strategy < FORMS && c == ChoiceOf(topic, c.strategy) && !Blank(family)
    ensures !Incomplete(RowOf(c, arm, number, family))
  {
    hide Padded, Blank, Filled;
    FormsStartVisibly(topic, c.strategy);
    PrefixVisible("candidate-t-", Padded(number));
    PrefixVisible("candidate-c-", Padded(number));
    PrefixVisible("candidate-p-", Padded(number));
    StrategyIsVisible();
  }

  lemma GeneratedIsMatched(choices: seq<Choice>, concepts: seq<string>, contexts: seq<string>)
    requires choices != []
    requires forall i :: 0 <= i < |choices| ==>
      choices[i].strategy < FORMS && choices[i] == ChoiceOf(TopicAt(concepts, contexts, i), choices[i].strategy)
    ensures Matched(RowsOf(choices, concepts, contexts), AssignmentsOf(choices))
  {
    hide RowsOf, AssignmentsOf, Incomplete, ChoiceOf, TopicAt, FamilyAt, PairId, QueryId, Count;
    var rows, assignments := RowsOf(choices, concepts, contexts), AssignmentsOf(choices);
    RowsLength(choices, concepts, contexts);
    GeneratedIds(choices, concepts, contexts);
    forall r | r in rows ensures !Incomplete(r) && OneEach(rows, r.pair) {
      var k := RowIsGenerated(choices, concepts, contexts, r);
      FamilyIsVisible(concepts, contexts, k);
      RowIsComplete(choices[k], r.arm, k + 1, FamilyAt(concepts, contexts, k), TopicAt(concepts, contexts, k));
      GeneratedPairCount(choices, concepts, contexts, k + 1, Treatment);
      GeneratedPairCount(choices, concepts, contexts, k + 1, Control);
    }
    forall a, r | a in assignments && r in rows && a.id == r.id ensures a.arm == r.arm {
      var i :| 0 <= i < |assignments| && assignments[i] == a;
      var j :| 0 <= j < |rows| && rows[j] == r;
    }
  }

  /**
   * For every catalog and tokenizer, a universe the generator returns passes the gate's
   * cross-pair condition, and its integrity check exactly when it holds at least one pair.
   */
  lemma GeneratedUniversePasses(t: Tokenizer, concepts: seq<string>, contexts: seq<string>, n: nat)
    requires Pairs(t, concepts, contexts, n).Some?
    ensures var choices := Pairs(t, concepts, contexts, n).value;
      && Separated(t, RowsOf(choices, concepts, contexts))
      && (PassesIntegrity(RowsOf(choices, concepts, contexts), AssignmentsOf(choices)) <==> n > 0)
  {
    hide RowsOf, AssignmentsOf, Matched, PassesIntegrity, Separated, Conflicts, ChoiceOf, Pairs;
    var choices := Pairs(t, concepts, contexts, n).value;
    PairsAreFree(t, concepts, contexts, n);
    GeneratedIsSeparated(t, choices, concepts, contexts);
    IntegrityIff(RowsOf(choices, concepts, contexts), AssignmentsOf(choices));
    if n > 0 {
      GeneratedIsMatched(choices, concepts, contexts);
    } else {
      EmptyFails(choices, RowsOf(choices, concepts, contexts));
    }
  }

  lemma EmptyFails(choices: seq<Choice>, rows: seq<Row>)
    requires choices == []
    ensures !PassesIntegrity(rows, AssignmentsOf(choices))
  {}

  // ---- What separation means ----

  lemma {:induction false} HeldIsOnly(rows: seq<Row>, r: Row)
    requires r in rows && Count(rows, InCell(r.pair, r.arm)) == 1
    ensures HeldBy(rows, r.pair, r.arm) == Some(r.query)
  {
    var n := |rows| - 1;
    assert rows == rows[..n] + [rows[n]];
    if InCell(r.pair, r.arm)(rows[n]) {
      CountIsZero(rows[..n], InCell(r.pair, r.arm));
    } else {
      HeldIsOnly(rows[..n], r);
    }
  }

  lemma CellHasRow(rows: seq<Row>, pair: string, arm: Arm) returns (r: Row)
    requires Count(rows, InCell(pair, arm)) == 1
    ensures r in rows && r.pair == pair && r.arm == arm
  {
    CountIsZero(rows, InCell(pair, arm));
    r :| r in rows && InCell(pair, arm)(r);
  }

  ghost predicate Complete(rows: seq<Row>) { forall r :: r in rows ==> r.pair != "" && OneEach(rows, r.pair) }

  lemma PairsApartIff(t: Tokenizer, rows: seq<Row>, p: string, q: string)
    requires OneEach(rows, p) && OneEach(rows, q)
    ensures PairsApart(t, rows, p, q) <==>
      forall r, s :: r in rows && s in rows && r.pair == p && s.pair == q ==> !TooClose(t, r.query, s.query)
  {
    hide TooClose, Count, HeldBy;
    var pt := CellHasRow(rows, p, Treatment);
    var pc := CellHasRow(rows, p, Control);
    var qt := CellHasRow(rows, q, Treatment);
    var qc := CellHasRow(rows, q, Control);
    forall r | r in rows && (r.pair == p || r.pair == q) ensures HeldBy(rows, r.pair, r.arm) == Some(r.query) { HeldIsOnly(rows, r); }
  }

  /** In a universe of complete pairs: no two queries of different pairs share more than four fifths of their words. */
  lemma SeparatedIff(t: Tokenizer, rows: seq<Row>)
    requires Complete(rows)
    ensures Separated(t, rows) <==>
      forall r, s :: r in rows && s in rows && r.pair != s.pair ==> !TooSimilar(t, r.query, s.query)
  {
    hide PairsApart, OneEach, TooClose, TooSimilar;
    forall a, b ensures TooSimilar(t, a, b) <==> TooClose(t, a, b) { TooSimilarIff(t, a, b); }
    forall p, q | p in PairsOf(rows) && q in PairsOf(rows)
      ensures PairsApart(t, rows, p, q) <==>
        forall r, s :: r in rows && s in rows && r.pair == p && s.pair == q ==> !TooClose(t, r.query, s.query)
    {
      PairsApartIff(t, rows, p, q);
    }
    assert forall r :: r in rows ==> r.pair in PairsOf(rows);
  }
}
