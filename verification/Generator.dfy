/** The offline query generator with cross-pair separation (generate_offline_candidate_universe.py). */
module Generator {
  import opened Wrappers
  import opened Similarity
  import opened Numbering

  datatype Arm = Treatment | Control

  /** A query form: the text before and after the topic. */
  datatype Form = Form(before: string, after: string)

  const TREATMENT_FORMS := [
    Form("which mechanisms govern ", ""), Form("how can researchers measure ", ""), Form("what evidence explains ", ""),
    Form("under what conditions does ", " change"), Form("what are the main constraints on ", ""),
    Form("how do models represent ", ""), Form("what tradeoffs shape ", ""), Form("how is ", " evaluated in practice")]

  const CONTROL_FORMS := [
    Form("a practical briefing on ", ""), Form("a research overview of ", ""), Form("background material about ", ""),
    Form("an introductory account of ", ""), Form("a plain language guide to ", ""),
    Form("key concepts associated with ", ""), Form("a general explanation of ", ""), Form("essential context for ", "")]

  const FORMS := 8

  /** A chosen form and the two queries of a pair. */
  datatype Choice = Choice(strategy: nat, treatment: string, control: string)

  /** Splits a query into its words; normalization and the word pattern are the library's. */
  datatype Tokenizer = Tokenizer(words: string -> set<string>)

  function Tokens(t: Tokenizer, query: string): set<string> { t.words(query) }

  function Filled(form: Form, topic: string): string { form.before + topic + form.after }

  function ChoiceOf(topic: string, strategy: nat): Choice
    requires strategy < FORMS
  {
    Choice(strategy, Filled(TREATMENT_FORMS[strategy], topic), Filled(CONTROL_FORMS[strategy], topic))
  }

  function Text(c: Choice, arm: Arm): string { if arm == Treatment then c.treatment else c.control }

  predicate TooClose(t: Tokenizer, a: string, b: string) { Exceeds(Jaccard(Tokens(t, a), Tokens(t, b))) }

  predicate Conflicts(t: Tokenizer, a: Choice, b: Choice) {
    || TooClose(t, a.treatment, b.treatment) || TooClose(t, a.treatment, b.control)
    || TooClose(t, a.control, b.treatment) || TooClose(t, a.control, b.control)
  }

  predicate Conflicted(t: Tokenizer, c: Choice, accepted: seq<Choice>) {
    exists i :: 0 <= i < |accepted| && Conflicts(t, c, accepted[i])
  }

  /** The first strategy from `base` on, cyclically, that keeps clear of every accepted pair. */
  function Select(t: Tokenizer, topic: string, base: nat, accepted: seq<Choice>, alternative: nat): Option<Choice>
    requires alternative <= FORMS
    decreases FORMS - alternative
  {
    if alternative == FORMS then None
    else
      var c := ChoiceOf(topic, (base + alternative) % FORMS);
      if Conflicted(t, c, accepted) then Select(t, topic, base, accepted, alternative + 1) else Some(c)
  }

  function Topic(concept: string, context: string): string { concept + " within " + context }

  /** The topic of a pair number, counted from zero. */
  function TopicAt(concepts: seq<string>, contexts: seq<string>, k: nat): string {
    if |contexts| > 0 && 0 <= k / |contexts| < |concepts| && 0 <= k % |contexts| < |contexts| then
      Topic(concepts[k / |contexts|], contexts[k % |contexts|])
    else ""
  }

  /** The first `k` pairs, or none when one of them has no free strategy. */
  function Pairs(t: Tokenizer, concepts: seq<string>, contexts: seq<string>, k: nat): Option<seq<Choice>> {
    if k == 0 then Some([])
    else
      match Pairs(t, concepts, contexts, k - 1)
      case None => None
      case Some(accepted) =>
        match Select(t, TopicAt(concepts, contexts, k - 1), (k - 1) % FORMS, accepted, 0)
        case None => None
        case Some(c) => Some(accepted + [c])
  }

  // ---- Rows ----

  datatype Row = Row(
    id: string, query: string, arm: Arm, pair: string, family: string, strategy: string, provenance: bool)

  datatype Assignment = Assignment(id: string, pair: string, arm: Arm, query: string)

  datatype Universe = Universe(rows: seq<Row>, assignments: seq<Assignment>)

  function PairId(number: nat): string { "candidate-p-" + Padded(number) }

  function QueryId(arm: Arm, number: nat): string {
    (if arm == Treatment then "candidate-t-" else "candidate-c-") + Padded(number)
  }

  const STRATEGY := "NEW_CANDIDATE_MODE:STRATIFIED_CONCEPT_CONTEXT_CATALOG"

  function RowOf(c: Choice, arm: Arm, number: nat, family: string): Row {
    Row(QueryId(arm, number), Text(c, arm), arm, PairId(number), family, STRATEGY, true)
  }

  function AssignmentOf(c: Choice, arm: Arm, number: nat): Assignment {
    Assignment(QueryId(arm, number), PairId(number), arm, Text(c, arm))
  }

  function Family(concept: string, context: string): string { concept + " / " + context }

  function FamilyAt(concepts: seq<string>, contexts: seq<string>, k: nat): string {
    if |contexts| > 0 && 0 <= k / |contexts| < |concepts| && 0 <= k % |contexts| < |contexts| then
      Family(concepts[k / |contexts|], contexts[k % |contexts|])
    else " / "
  }

  /** The rows of the pairs `choices`: treatment before control, pairs numbered from one. */
  function RowsOf(choices: seq<Choice>, concepts: seq<string>, contexts: seq<string>): seq<Row> {
    if choices == [] then []
    else
      var n := |choices|;
      var family := FamilyAt(concepts, contexts, n - 1);
      RowsOf(choices[..n - 1], concepts, contexts) +
      [RowOf(choices[n - 1], Treatment, n, family), RowOf(choices[n - 1], Control, n, family)]
  }

  function AssignmentsOf(choices: seq<Choice>): seq<Assignment> {
    if choices == [] then []
    else
      var n := |choices|;
      AssignmentsOf(choices[..n - 1]) + [AssignmentOf(choices[n - 1], Treatment, n), AssignmentOf(choices[n - 1], Control, n)]
  }

  // ---- The generator ----

  method CrossPairConflict(t: Tokenizer, c: Choice, accepted: seq<Choice>) returns (conflict: bool)
    ensures conflict == Conflicted(t, c, accepted)
  {
    hide TooClose;
    var queries := [c.treatment, c.control];
    for q := 0 to 2
      invariant forall j, i :: 0 <= j < q && 0 <= i < |accepted| ==>
        !TooClose(t, queries[j], accepted[i].treatment) && !TooClose(t, queries[j], accepted[i].control)
    {
      for i := 0 to |accepted|
        invariant forall j :: 0 <= j < i ==>
          !TooClose(t, queries[q], accepted[j].treatment) && !TooClose(t, queries[q], accepted[j].control)
      {
        if TooClose(t, queries[q], accepted[i].treatment) || TooClose(t, queries[q], accepted[i].control) {
          assert Conflicts(t, c, accepted[i]);
          return true;
        }
      }
    }
    forall i | 0 <= i < |accepted| ensures !Conflicts(t, c, accepted[i]) {
      assert queries[0] == c.treatment && queries[1] == c.control;
    }
    conflict := false;
  }

  method SelectStrategy(t: Tokenizer, topic: string, base: nat, accepted: seq<Choice>) returns (r: Option<Choice>)
    ensures r == Select(t, topic, base, accepted, 0)
  {
    hide Conflicted, ChoiceOf;
    for alternative := 0 to FORMS
      invariant Select(t, topic, base, accepted, 0) == Select(t, topic, base, accepted, alternative)
    {
      var c := ChoiceOf(topic, (base + alternative) % FORMS);
      var conflict := CrossPairConflict(t, c, accepted);
      if !conflict { return Some(c); }
    }
    r := None;
  }

  lemma PairIndex(m: nat, i: nat, j: nat)
    requires j < m
    ensures (i * m + j) / m == i && (i * m + j) % m == j
  {
    var q, r := (i * m + j) / m, (i * m + j) % m;
    assert i * m + j == q * m + r;
    if q < i {
      assert (i - q) * m == r - j;
      AtLeast(i - q, m);
    } else if q > i {
      assert (q - i) * m == j - r;
      AtLeast(q - i, m);
    }
  }

  lemma AtLeast(k: nat, m: nat)
    requires k >= 1
    ensures k * m >= m
  {
    assert k * m == (k - 1) * m + m;
  }

  lemma TopicsOfGrid(concepts: seq<string>, contexts: seq<string>, i: nat, j: nat)
    requires i < |concepts| && j < |contexts|
    ensures TopicAt(concepts, contexts, i * |contexts| + j) == Topic(concepts[i], contexts[j])
    ensures FamilyAt(concepts, contexts, i * |contexts| + j) == Family(concepts[i], contexts[j])
  {
    PairIndex(|contexts|, i, j);
  }

  lemma {:induction false} PairsLength(t: Tokenizer, concepts: seq<string>, contexts: seq<string>, k: nat)
    requires Pairs(t, concepts, contexts, k).Some?
    ensures |Pairs(t, concepts, contexts, k).value| == k
  {
    hide Select;
    if k > 0 { PairsLength(t, concepts, contexts, k - 1); }
  }

  /** A pair without a free strategy stops every longer universe. */
  lemma {:induction false} PairsStayBlocked(t: Tokenizer, concepts: seq<string>, contexts: seq<string>, k: nat, n: nat)
    requires k <= n && Pairs(t, concepts, contexts, k).None?
    ensures Pairs(t, concepts, contexts, n).None?
  {
    hide Select;
    if k < n { PairsStayBlocked(t, concepts, contexts, k, n - 1); }
  }

  /** One pair: select a strategy and append its two rows and assignments. */
  method AddPair(
    t: Tokenizer, concepts: seq<string>, contexts: seq<string>, i: nat, j: nat, accepted: seq<Choice>,
    rows: seq<Row>, assignments: seq<Assignment>)
    returns (ok: bool, accepted': seq<Choice>, rows': seq<Row>, assignments': seq<Assignment>)
    requires i < |concepts| && j < |contexts|
    requires var k := i * |contexts| + j; |accepted| == k && Pairs(t, concepts, contexts, k) == Some(accepted)
    requires rows == RowsOf(accepted, concepts, contexts) && assignments == AssignmentsOf(accepted)
    ensures var k := i * |contexts| + j + 1;
      && (ok <==> Pairs(t, concepts, contexts, k).Some?)
      && (ok ==>
        && |accepted'| == k && Pairs(t, concepts, contexts, k) == Some(accepted')
        && rows' == RowsOf(accepted', concepts, contexts) && assignments' == AssignmentsOf(accepted'))
  {
    hide Select, RowOf, AssignmentOf, TopicAt, FamilyAt;
    var number := |accepted| + 1;
    var topic, family := Topic(concepts[i], contexts[j]), Family(concepts[i], contexts[j]);
    TopicsOfGrid(concepts, contexts, i, j);
    var choice := SelectStrategy(t, topic, |accepted| % FORMS, accepted);
    if choice.None? { return false, accepted, rows, assignments; }
    var c := choice.value;
    accepted' := accepted + [c];
    assert accepted'[..number - 1] == accepted;
    rows' := rows + [RowOf(c, Treatment, number, family), RowOf(c, Control, number, family)];
    assignments' := assignments + [AssignmentOf(c, Treatment, number), AssignmentOf(c, Control, number)];
    ok := true;
  }

  function PairCount(concepts: seq<string>, contexts: seq<string>, target: nat): nat {
    var grid := |concepts| * |contexts|;
    if grid < target then grid else target
  }

  /** As many pairs as asked for, or the whole catalog if it has fewer. */
  lemma PairCountIs(concepts: seq<string>, contexts: seq<string>, target: nat)
    ensures var n := PairCount(concepts, contexts, target);
      && n <= target && n <= |concepts| * |contexts| && (n == target || n == |concepts| * |contexts|)
  {}

  /** The universe of the first `target` pairs of the catalog, or a failure when some pair has no distinct form. */
  method BuildCandidate(t: Tokenizer, concepts: seq<string>, contexts: seq<string>, target: nat)
    returns (r: Result<Universe, string>)
    ensures var pairs := Pairs(t, concepts, contexts, PairCount(concepts, contexts, target));
      && (r.Ok? <==> pairs.Some?)
      && (r.Ok? ==> r.value == Universe(RowsOf(pairs.value, concepts, contexts), AssignmentsOf(pairs.value)))
  {
    hide Pairs, RowsOf, AssignmentsOf;
    var accepted: seq<Choice> := [];
    var rows: seq<Row>, assignments: seq<Assignment> := [], [];
    NoPairs(t, concepts, contexts);
    ghost var n := PairCount(concepts, contexts, target);
    var i := 0;
    while i < |concepts| && |accepted| < target
      invariant i <= |concepts| && |accepted| <= n
      invariant |accepted| == i * |contexts| || |accepted| == target == n
      invariant Pairs(t, concepts, contexts, |accepted|) == Some(accepted)
      invariant rows == RowsOf(accepted, concepts, contexts) && assignments == AssignmentsOf(accepted)
      decreases |concepts| - i
    {
      GridRow(|concepts|, |contexts|, i);
      var j := 0;
      while j < |contexts|
        invariant j <= |contexts| && |accepted| == i * |contexts| + j <= n
        invariant Pairs(t, concepts, contexts, |accepted|) == Some(accepted)
        invariant rows == RowsOf(accepted, concepts, contexts) && assignments == AssignmentsOf(accepted)
      {
        if |accepted| >= target { break; }
        var ok;
        ok, accepted, rows, assignments := AddPair(t, concepts, contexts, i, j, accepted, rows, assignments);
        if !ok {
          PairsStayBlocked(t, concepts, contexts, i * |contexts| + j + 1, n);
          return Err("INSUFFICIENT_DISTINCT_QUERY_SPACE");
        }
        j := j + 1;
      }
      i := i + 1;
    }
    r := Ok(Universe(rows, assignments));
  }

  lemma NoPairs(t: Tokenizer, concepts: seq<string>, contexts: seq<string>)
    ensures Pairs(t, concepts, contexts, 0) == Some([]) && RowsOf([], concepts, contexts) == [] && AssignmentsOf([]) == []
  {}

  lemma GridRow(a: nat, m: nat, i: nat)
    requires i < a
    ensures i * m + m == (i + 1) * m <= a * m
  {
    AtLeastProduct(i + 1, a, m);
  }

  lemma AtLeastProduct(x: nat, y: nat, m: nat)
    requires x <= y
    ensures x * m <= y * m
  {}

  // ---- Which forms are chosen ----

  /** More than four fifths of all words of the two queries are shared. */
  ghost predicate TooSimilar(t: Tokenizer, a: string, b: string) {
    var x, y := Tokens(t, a), Tokens(t, b);
    x + y == {} || |x * y| as real > 0.8 * |x + y| as real
  }

  lemma TooSimilarIff(t: Tokenizer, a: string, b: string)
    ensures TooSimilar(t, a, b) <==> TooClose(t, a, b)
  {
    hide Exceeds, Jaccard;
    ExceedsIff(Tokens(t, a), Tokens(t, b));
  }

  /** No query of the pair is too similar to a query of an accepted pair. */
  ghost predicate Clear(t: Tokenizer, c: Choice, accepted: seq<Choice>) {
    forall i, a, b :: 0 <= i < |accepted| ==> !TooSimilar(t, Text(c, a), Text(accepted[i], b))
  }

  lemma ClearIff(t: Tokenizer, c: Choice, accepted: seq<Choice>)
    ensures Clear(t, c, accepted) <==> !Conflicted(t, c, accepted)
  {
    hide TooSimilar, TooClose;
    forall a, b ensures TooSimilar(t, a, b) <==> TooClose(t, a, b) { TooSimilarIff(t, a, b); }
    forall i | 0 <= i < |accepted|
      ensures Conflicts(t, c, accepted[i]) <==> exists a, b :: TooSimilar(t, Text(c, a), Text(accepted[i], b))
    {
      AnyArms(t, c, accepted[i]);
    }
  }

  lemma AnyArms(t: Tokenizer, c: Choice, d: Choice)
    requires forall a, b :: TooSimilar(t, a, b) <==> TooClose(t, a, b)
    ensures Conflicts(t, c, d) <==> exists a, b :: TooSimilar(t, Text(c, a), Text(d, b))
  {
    hide TooSimilar, TooClose;
    assert Text(c, Treatment) == c.treatment && Text(c, Control) == c.control;
    assert Text(d, Treatment) == d.treatment && Text(d, Control) == d.control;
    if a, b :| TooSimilar(t, Text(c, a), Text(d, b)) {
      assert a == Treatment || a == Control;
      assert b == Treatment || b == Control;
    }
  }

  /** The form tried after `b` others, from `base` on. */
  function FormAt(topic: string, base: nat, b: nat): Choice { ChoiceOf(topic, (base + b) % 8) }

  lemma FormsWrap(topic: string, base: nat, b: nat)
    ensures FormAt(topic, base % 8, b) == FormAt(topic, base, b)
  {
    hide ChoiceOf;
    Wraps(base, b);
  }

  lemma Wraps(base: nat, b: nat)
    ensures (base % 8 + b) % 8 == (base + b) % 8
  {
    var x := base % 8 + b;
    assert base + b == 8 * (base / 8 + x / 8) + x % 8;
  }

  /** Of the eight forms, tried from `base` on, number `a` is the first that is clear. */
  ghost predicate FirstClear(t: Tokenizer, topic: string, base: nat, accepted: seq<Choice>, a: nat) {
    && a < 8 && Clear(t, FormAt(topic, base, a), accepted)
    && forall b: nat :: b < a ==> !Clear(t, FormAt(topic, base, b), accepted)
  }

  lemma {:induction false} SelectIsFirst(t: Tokenizer, topic: string, base: nat, accepted: seq<Choice>, from: nat)
    requires from <= 8 && forall b: nat :: b < from ==> !Clear(t, FormAt(topic, base, b), accepted)
    ensures match Select(t, topic, base, accepted, from)
      case Some(c) => exists a: nat :: FirstClear(t, topic, base, accepted, a) && c == FormAt(topic, base, a)
      case None => forall b: nat :: b < 8 ==> !Clear(t, FormAt(topic, base, b), accepted)
    decreases 8 - from
  {
    hide Clear, Conflicted, ChoiceOf;
    if from < 8 {
      var c := FormAt(topic, base, from);
      ClearIff(t, c, accepted);
      if Conflicted(t, c, accepted) {
        SelectIsFirst(t, topic, base, accepted, from + 1);
      } else {
        assert FirstClear(t, topic, base, accepted, from);
      }
    }
  }

  /** Pair `k` of a universe asks about topic `k` in the first form, from form `k` on, that is clear of the pairs before it. */
  lemma {:induction false} PairsAre(t: Tokenizer, concepts: seq<string>, contexts: seq<string>, n: nat, k: nat)
    requires Pairs(t, concepts, contexts, n).Some? && k < n
    ensures var cs, topic := Pairs(t, concepts, contexts, n).value, TopicAt(concepts, contexts, k);
      |cs| == n && exists a: nat :: FirstClear(t, topic, k, cs[..k], a) && cs[k] == FormAt(topic, k, a)
  {
    hide Select, FirstClear, TopicAt, FormAt;
    PairsLength(t, concepts, contexts, n);
    PairsLength(t, concepts, contexts, n - 1);
    var cs, before := Pairs(t, concepts, contexts, n).value, Pairs(t, concepts, contexts, n - 1).value;
    if k < n - 1 {
      PairsAre(t, concepts, contexts, n - 1, k);
      assert cs[..k] == before[..k];
    } else {
      assert cs[..k] == before;
      PairIsFirst(t, TopicAt(concepts, contexts, k), k, before);
    }
  }

  lemma PairIsFirst(t: Tokenizer, topic: string, k: nat, before: seq<Choice>)
    requires Select(t, topic, k % FORMS, before, 0).Some?
    ensures exists a: nat :: FirstClear(t, topic, k, before, a) && Select(t, topic, k % FORMS, before, 0) == Some(FormAt(topic, k, a))
  {
    hide Select, Clear, FormAt;
    SelectIsFirst(t, topic, k % 8, before, 0);
    forall b: nat ensures FormAt(topic, k % 8, b) == FormAt(topic, k, b) { FormsWrap(topic, k, b); }
    var a: nat :| FirstClear(t, topic, k % 8, before, a) && Select(t, topic, k % 8, before, 0).value == FormAt(topic, k % 8, a);
    assert FirstClear(t, topic, k, before, a);
  }

  /** A row and its assignment name the same query, pair and arm. */
  ghost predicate Describes(r: Row, a: Assignment, text: string, arm: Arm, number: nat, family: string) {
    && r.query == text == a.query && r.arm == arm == a.arm && r.family == family && r.provenance
    && r.id == a.id == (match arm case Treatment => "candidate-t-" case Control => "candidate-c-") + Padded(number)
    && r.pair == a.pair == "candidate-p-" + Padded(number)
  }

  lemma RowDescribes(c: Choice, arm: Arm, number: nat, family: string)
    ensures Describes(RowOf(c, arm, number, family), AssignmentOf(c, arm, number),
      match arm case Treatment => c.treatment case Control => c.control, arm, number, family)
  {
    hide Padded;
  }

  lemma {:induction false} RowsAt(choices: seq<Choice>, concepts: seq<string>, contexts: seq<string>, i: nat)
    requires i < |choices|
    ensures var rows := RowsOf(choices, concepts, contexts);
      && |rows| == 2 * |choices|
      && rows[2 * i] == RowOf(choices[i], Treatment, i + 1, FamilyAt(concepts, contexts, i))
      && rows[2 * i + 1] == RowOf(choices[i], Control, i + 1, FamilyAt(concepts, contexts, i))
  {
    hide RowOf, FamilyAt;
    var n := |choices|;
    if n > 1 { RowsAt(choices[..n - 1], concepts, contexts, if i < n - 1 then i else 0); }
  }

  lemma {:induction false} AssignmentsAt(choices: seq<Choice>, i: nat)
    requires i < |choices|
    ensures var assignments := AssignmentsOf(choices);
      && |assignments| == 2 * |choices|
      && assignments[2 * i] == AssignmentOf(choices[i], Treatment, i + 1)
      && assignments[2 * i + 1] == AssignmentOf(choices[i], Control, i + 1)
  {
    hide AssignmentOf;
    var n := |choices|;
    if n > 1 { AssignmentsAt(choices[..n - 1], if i < n - 1 then i else 0); }
  }

  /** Pair `k` gives rows and assignments `2k` (treatment) and `2k + 1` (control), numbered from one, with its texts. */
  lemma RowsAre(choices: seq<Choice>, concepts: seq<string>, contexts: seq<string>, k: nat)
    requires k < |choices|
    ensures var rows, assignments := RowsOf(choices, concepts, contexts), AssignmentsOf(choices);
      && |rows| == |assignments| == 2 * |choices|
      && Describes(rows[2 * k], assignments[2 * k], choices[k].treatment, Treatment, k + 1, FamilyAt(concepts, contexts, k))
      && Describes(rows[2 * k + 1], assignments[2 * k + 1], choices[k].control, Control, k + 1, FamilyAt(concepts, contexts, k))
  {
    hide RowsOf, AssignmentsOf, FamilyAt, RowOf, AssignmentOf, Describes;
    RowsAt(choices, concepts, contexts, k);
    AssignmentsAt(choices, k);
    RowDescribes(choices[k], Treatment, k + 1, FamilyAt(concepts, contexts, k));
    RowDescribes(choices[k], Control, k + 1, FamilyAt(concepts, contexts, k));
  }

  lemma {:induction false} RowsLength(choices: seq<Choice>, concepts: seq<string>, contexts: seq<string>)
    ensures |RowsOf(choices, concepts, contexts)| == |AssignmentsOf(choices)| == 2 * |choices|
  {
    hide FamilyAt, RowOf, AssignmentOf;
    if choices != [] { RowsLength(choices[..|choices| - 1], concepts, contexts); }
  }
}
