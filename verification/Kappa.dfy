module Kappa {
  // Cohen's kappa of two validated labelings, as an exact fraction (validate_independent_relevance_adjudication.py).

  import opened Wrappers
  import opened Counting
  import opened Agreement
  import opened Numbering

  datatype Ratio = Ratio(num: int, den: int)

  datatype Report = Report(
    matrix: map<(Label, Label), nat>, agreements: nat, disagreements: seq<Disagreement>, kappa: Ratio)

  function Product(aRows: seq<Row>, bRows: seq<Row>, l: Label): nat {
    Times(LabelCount(aRows, l), LabelCount(bRows, l))
  }

  function Times(a: nat, b: nat): (r: nat) { a * b }

  /** Chance agreement, times the square of the row count. */
  function Expected(aRows: seq<Row>, bRows: seq<Row>): nat {
    Product(aRows, bRows, Relevant) + Product(aRows, bRows, PossiblyRelevant) +
    Product(aRows, bRows, NotRelevant) + Product(aRows, bRows, Unknown)
  }

  /** `(observed - expected) / (1 - expected)` with both scaled by the squared total; one when all agreement is by chance. */
  function KappaOf(agreements: nat, expected: nat, total: nat): Ratio {
    if expected == total * total then Ratio(1, 1)
    else Ratio(agreements * total - expected, total * total - expected)
  }

  /**
   `kappa` is the agreement beyond chance as a share of what chance leaves open: among `n` rows, with
   chance agreement `e` over `n * n`.
   */
  ghost predicate BeyondChance(kappa: Ratio, agreements: nat, n: nat, e: int) {
    && kappa.den > 0
    && (e == n * n ==> kappa == Ratio(1, 1))
    && (e != n * n ==>
        && kappa.num * (n * n - e) == kappa.den * (agreements * n - e)
        && (kappa.num == 0 <==> agreements * n == e)
        && (kappa.num < 0 <==> agreements * n < e))
  }

  function RowTotalOf(matrix: map<(Label, Label), nat>, l: Label): nat
    requires forall la, lb :: (la, lb) in matrix
  {
    matrix[(l, Relevant)] + matrix[(l, PossiblyRelevant)] + matrix[(l, NotRelevant)] + matrix[(l, Unknown)]
  }

  function ColumnTotalOf(matrix: map<(Label, Label), nat>, l: Label): nat
    requires forall la, lb :: (la, lb) in matrix
  {
    matrix[(Relevant, l)] + matrix[(PossiblyRelevant, l)] + matrix[(NotRelevant, l)] + matrix[(Unknown, l)]
  }

  /** Chance agreement from the labelers' own label counts. */
  ghost predicate CorrectedByCounts(kappa: Ratio, agreements: nat, reference: seq<Row>, aRows: seq<Row>, bRows: seq<Row>) {
    BeyondChance(kappa, agreements, |reference|,
      LabelCount(aRows, Relevant) * LabelCount(bRows, Relevant) +
      LabelCount(aRows, PossiblyRelevant) * LabelCount(bRows, PossiblyRelevant) +
      LabelCount(aRows, NotRelevant) * LabelCount(bRows, NotRelevant) +
      LabelCount(aRows, Unknown) * LabelCount(bRows, Unknown))
  }

  /** Chance agreement from the row and column totals of the confusion matrix. */
  ghost predicate CorrectedByTotals(kappa: Ratio, agreements: nat, reference: seq<Row>, m: map<(Label, Label), nat>) {
    && (forall la, lb :: (la, lb) in m)
    && BeyondChance(kappa, agreements, |reference|,
      RowTotalOf(m, Relevant) * ColumnTotalOf(m, Relevant) +
      RowTotalOf(m, PossiblyRelevant) * ColumnTotalOf(m, PossiblyRelevant) +
      RowTotalOf(m, NotRelevant) * ColumnTotalOf(m, NotRelevant) +
      RowTotalOf(m, Unknown) * ColumnTotalOf(m, Unknown))
  }

  method Agree(reference: seq<Row>, aRows: seq<Row>, bRows: seq<Row>) returns (r: Result<Report, string>)
    ensures r.Ok? <==> Valid(aRows, reference) && Valid(bRows, reference)
    ensures r.Ok? ==>
      var a, b, ids := ById(aRows), ById(bRows), Ids(reference);
      && Tabulates(r.value.matrix, ids, a, b)
      && r.value.agreements == Count(ids, Agrees(a, b))
      && r.value.disagreements == Disputed(reference, a, b)
      && r.value.kappa == KappaOf(r.value.agreements, Expected(aRows, bRows), |reference|)
    ensures r.Ok? ==> CorrectedByCounts(r.value.kappa, r.value.agreements, reference, aRows, bRows)
    ensures r.Ok? && AllDifferent(Ids(reference)) ==> CorrectedByTotals(r.value.kappa, r.value.agreements, reference, r.value.matrix)
  {
    hide Valid, Tabulates, Count, Disputed, Expected, CorrectedByCounts, CorrectedByTotals, KappaOf;
    if !(Valid(aRows, reference) && Valid(bRows, reference)) { return Err("BLOCKED_LABEL_INPUT_INVALID"); }
    var matrix, agreements, disagreements := Compare(reference, aRows, bRows);
    KappaCorrects(reference, aRows, bRows);
    if AllDifferent(Ids(reference)) {
      TotalsCorrect(reference, aRows, bRows, matrix);
    }
    r := Ok(Report(matrix, agreements, disagreements, KappaOf(agreements, Expected(aRows, bRows), |reference|)));
  }

  // ---- Labels by id ----

  lemma {:induction false} ByIdFinds(rows: seq<Row>, k: nat)
    requires AllDifferent(Ids(rows)) && k < |rows|
    ensures rows[k].id in ById(rows) && ById(rows)[rows[k].id] == rows[k]
  {
    var n := |rows| - 1;
    if k < n {
      assert Ids(rows)[k] != Ids(rows)[n];
      assert Ids(rows[..n]) == Ids(rows)[..n];
      ByIdFinds(rows[..n], k);
    }
  }

  lemma {:induction false} CountByIndex(rows: seq<Row>, ids: seq<string>, f: Row -> bool, g: string -> bool)
    requires |rows| == |ids| && forall k :: 0 <= k < |rows| ==> (f(rows[k]) <==> g(ids[k]))
    ensures Count(rows, f) == Count(ids, g)
  {
    if rows != [] {
      var n := |rows| - 1;
      CountByIndex(rows[..n], ids[..n], f, g);
    }
  }

  /** A labeler's count of a label is the number of its ids given that label. */
  lemma CountsByLabel(rows: seq<Row>, reference: seq<Row>, l: Label)
    requires Valid(rows, reference)
    ensures LabelCount(rows, l) == Count(Ids(rows), Labels(ById(rows), l))
  {
    hide Count, ById;
    forall k | 0 <= k < |rows| ensures rows[k].mark == Some(l) <==> Labels(ById(rows), l)(Ids(rows)[k]) {
      ByIdFinds(rows, k);
      assert rows[k] in rows;
    }
    CountByIndex(rows, Ids(rows), (r: Row) => r.mark == Some(l), Labels(ById(rows), l));
  }

  lemma SameIds(s: seq<string>, t: seq<string>)
    requires AllDifferent(s) && SetOf(s) == SetOf(t)
    ensures multiset(s) <= multiset(t) && |s| <= |t|
    ensures |s| == |t| <==> AllDifferent(t)
  {
    DistinctBag(s);
    forall x ensures multiset(s)[x] <= multiset(t)[x] {
      if x in s {
        assert x in SetOf(s);
        assert x in t && x in multiset(t);
      }
    }
    SetOfDistinct(s);
    SetOfDistinct(t);
  }

  // ---- Counters add up ----

  lemma {:induction false} LabelsPartition(s: seq<string>, m: map<string, Row>)
    ensures Count(s, Labels(m, Relevant)) + Count(s, Labels(m, PossiblyRelevant)) +
      Count(s, Labels(m, NotRelevant)) + Count(s, Labels(m, Unknown)) == |s|
  {
    if s != [] { LabelsPartition(s[..|s| - 1], m); }
  }

  lemma {:induction false} DiagonalIsAgreement(s: seq<string>, a: map<string, Row>, b: map<string, Row>)
    ensures Count(s, Gives(a, b, Relevant, Relevant)) + Count(s, Gives(a, b, PossiblyRelevant, PossiblyRelevant)) +
      Count(s, Gives(a, b, NotRelevant, NotRelevant)) + Count(s, Gives(a, b, Unknown, Unknown)) == Count(s, Agrees(a, b))
  {
    if s != [] { DiagonalIsAgreement(s[..|s| - 1], a, b); }
  }

  lemma {:induction false} RowTotal(s: seq<string>, a: map<string, Row>, b: map<string, Row>, l: Label)
    ensures Count(s, Gives(a, b, l, Relevant)) + Count(s, Gives(a, b, l, PossiblyRelevant)) +
      Count(s, Gives(a, b, l, NotRelevant)) + Count(s, Gives(a, b, l, Unknown)) == Count(s, Labels(a, l))
  {
    if s != [] { RowTotal(s[..|s| - 1], a, b, l); }
  }

  lemma {:induction false} ColumnTotal(s: seq<string>, a: map<string, Row>, b: map<string, Row>, l: Label)
    ensures Count(s, Gives(a, b, Relevant, l)) + Count(s, Gives(a, b, PossiblyRelevant, l)) +
      Count(s, Gives(a, b, NotRelevant, l)) + Count(s, Gives(a, b, Unknown, l)) == Count(s, Labels(b, l))
  {
    if s != [] { ColumnTotal(s[..|s| - 1], a, b, l); }
  }

  /** Agreements and disagreements partition the reference rows. */
  lemma {:induction false} DisputedIsTheRest(reference: seq<Row>, a: map<string, Row>, b: map<string, Row>)
    ensures |Disputed(reference, a, b)| + Count(Ids(reference), Agrees(a, b)) == |reference|
    ensures forall d :: d in Disputed(reference, a, b) ==>
      d.row in reference && d.first == LabelOf(a, d.row.id) && d.second == LabelOf(b, d.row.id) && d.first != d.second
  {
    hide SeverityOf;
    if reference != [] {
      var n := |reference| - 1;
      DisputedIsTheRest(reference[..n], a, b);
      assert reference[..n + 1] == reference;
      IdsOfPrefix(reference, n);
      CountAppended(Ids(reference[..n]), reference[n].id, Agrees(a, b));
    }
  }

  lemma SeverityIs(x: Label, y: Label)
    ensures SeverityOf(x, y) == UnknownConflict <==> x == Unknown || y == Unknown
    ensures SeverityOf(x, y) == Extreme <==> (x == Relevant && y == NotRelevant) || (x == NotRelevant && y == Relevant)
  {}

  /** A conflict with "Unknown" is of its own kind; relevant against not relevant is extreme; the rest is minor. */
  lemma {:induction false} SeveritiesAre(reference: seq<Row>, a: map<string, Row>, b: map<string, Row>, d: Disagreement)
    requires d in Disputed(reference, a, b)
    ensures d.severity == UnknownConflict <==> d.first == Unknown || d.second == Unknown
    ensures d.severity == Extreme <==>
      (d.first == Relevant && d.second == NotRelevant) || (d.first == NotRelevant && d.second == Relevant)
  {
    hide SeverityOf, LabelOf;
    SeverityIs(d.first, d.second);
    var n := |reference| - 1;
    if d in Disputed(reference[..n], a, b) { SeveritiesAre(reference[..n], a, b, d); }
  }

  /** The queue follows the order of the reference. */
  lemma {:induction false} DisputesKeepOrder(reference: seq<Row>, a: map<string, Row>, b: map<string, Row>, i: nat)
    requires i <= |reference|
    ensures Disputed(reference[..i], a, b) <= Disputed(reference, a, b)
  {
    hide SeverityOf, LabelOf;
    var n := |reference| - 1;
    if i <= n {
      assert reference[..n][..i] == reference[..i];
      DisputesKeepOrder(reference[..n], a, b, i);
    } else {
      assert reference[..i] == reference;
    }
  }

  // ---- Marginals ----

  /** The reference repeats the ids of the packets, each at least once. */
  lemma ReferenceCovers(rows: seq<Row>, reference: seq<Row>)
    requires Valid(rows, reference)
    ensures multiset(Ids(rows)) <= multiset(Ids(reference)) && |rows| <= |reference|
    ensures |rows| == |reference| <==> AllDifferent(Ids(reference))
  {
    SameIds(Ids(rows), Ids(reference));
  }

  /** Both packets hold the same ids. */
  lemma PacketsMatch(aRows: seq<Row>, bRows: seq<Row>, reference: seq<Row>)
    requires Valid(aRows, reference) && Valid(bRows, reference)
    ensures multiset(Ids(aRows)) <= multiset(Ids(bRows)) && multiset(Ids(bRows)) <= multiset(Ids(aRows))
  {
    SameIds(Ids(aRows), Ids(bRows));
    SameIds(Ids(bRows), Ids(aRows));
  }

  lemma CountsOverSharedIds(aRows: seq<Row>, bRows: seq<Row>, reference: seq<Row>, l: Label)
    requires Valid(aRows, reference) && Valid(bRows, reference)
    ensures LabelCount(aRows, l) == Count(Ids(aRows), Labels(ById(aRows), l))
    ensures LabelCount(bRows, l) == Count(Ids(aRows), Labels(ById(bRows), l))
  {
    hide Count, ById, LabelCount, Labels;
    CountsByLabel(aRows, reference, l);
    CountsByLabel(bRows, reference, l);
    PacketsMatch(aRows, bRows, reference);
    CountGrows(Ids(aRows), Ids(bRows), Labels(ById(bRows), l));
    CountGrows(Ids(bRows), Ids(aRows), Labels(ById(bRows), l));
  }

  ghost predicate MarginalsMatch(reference: seq<Row>, aRows: seq<Row>, bRows: seq<Row>) {
    forall l ::
      && Count(Ids(reference), Labels(ById(aRows), l)) == LabelCount(aRows, l)
      && Count(Ids(reference), Labels(ById(bRows), l)) == LabelCount(bRows, l)
  }

  /**
   * The matrix's row and column totals are the two labelers' counts exactly when the reference
   * lists no id twice, which the validation of the packets does not check.
   */
  lemma MarginalsMatchIff(reference: seq<Row>, aRows: seq<Row>, bRows: seq<Row>)
    requires Valid(aRows, reference) && Valid(bRows, reference)
    ensures MarginalsMatch(reference, aRows, bRows) <==> AllDifferent(Ids(reference))
  {
    hide Count, ById, LabelCount, Labels;
    var a, b, ids := ById(aRows), ById(bRows), Ids(reference);
    ReferenceCovers(aRows, reference);
    forall l ensures LabelCount(aRows, l) == Count(Ids(aRows), Labels(a, l)) && LabelCount(bRows, l) == Count(Ids(aRows), Labels(b, l)) {
      CountsOverSharedIds(aRows, bRows, reference, l);
    }
    if AllDifferent(ids) {
      SameIds(ids, Ids(aRows));
      forall l ensures Count(ids, Labels(a, l)) == LabelCount(aRows, l) && Count(ids, Labels(b, l)) == LabelCount(bRows, l) {
        CountGrows(Ids(aRows), ids, Labels(a, l));
        CountGrows(ids, Ids(aRows), Labels(a, l));
        CountGrows(Ids(aRows), ids, Labels(b, l));
        CountGrows(ids, Ids(aRows), Labels(b, l));
      }
    }
    LabelsPartition(ids, a);
    LabelsPartition(Ids(aRows), a);
  }

  lemma {:induction false} ByIdOfOlder(rows: seq<Row>, k: nat)
    requires AllDifferent(Ids(rows)) && k < |rows|
    ensures rows[k].id in ById(rows + [rows[0]]) && ById(rows + [rows[0]])[rows[k].id] == rows[k]
  {
    assert (rows + [rows[0]])[..|rows|] == rows;
    ByIdFinds(rows, k);
    assert k > 0 ==> Ids(rows)[0] != Ids(rows)[k];
  }

  /** A reference that lists its first row twice is accepted, and its matrix counts that row twice. */
  lemma RepeatedIdIsAdmitted() returns (reference: seq<Row>, rows: seq<Row>)
    ensures Valid(rows, reference) && !AllDifferent(Ids(reference)) && !MarginalsMatch(reference, rows, rows)
  {
    hide ById, MarginalsMatch, Padded;
    rows := seq(EXPECTED_ROWS, i requires 0 <= i < EXPECTED_ROWS => Row(Padded(i), "", Some(Relevant)));
    reference := rows + [rows[0]];
    forall i, j | 0 <= i < j < |rows| ensures Ids(rows)[i] != Ids(rows)[j] {
      if Padded(i) == Padded(j) { PaddedIsInjective(i, j); }
    }
    assert Ids(reference) == Ids(rows) + [Ids(rows)[0]];
    assert SetOf(Ids(rows)) == SetOf(Ids(reference));
    forall r | r in rows ensures r.id in ById(reference) && ById(reference)[r.id].content == r.content {
      var k :| 0 <= k < |rows| && rows[k] == r;
      ByIdOfOlder(rows, k);
    }
    assert Ids(reference)[0] == Ids(reference)[|rows|];
    MarginalsMatchIff(reference, rows, rows);
  }

  /** What the row and column totals of a matrix are. */
  lemma TotalsOfMatrix(matrix: map<(Label, Label), nat>, ids: seq<string>, a: map<string, Row>, b: map<string, Row>, l: Label)
    requires Tabulates(matrix, ids, a, b)
    ensures matrix[(l, Relevant)] + matrix[(l, PossiblyRelevant)] + matrix[(l, NotRelevant)] + matrix[(l, Unknown)]
      == Count(ids, Labels(a, l))
    ensures matrix[(Relevant, l)] + matrix[(PossiblyRelevant, l)] + matrix[(NotRelevant, l)] + matrix[(Unknown, l)]
      == Count(ids, Labels(b, l))
  {
    hide Count;
    RowTotal(ids, a, b, l);
    ColumnTotal(ids, a, b, l);
  }

  // ---- Bounds ----

  function Room(m: nat, s: nat, d: nat): nat { m * s + 2 * (m * d) }

  /** One label's share: `d` rows carry it twice, so `a + b` cannot exceed `m + d`. */
  lemma ClassBound(m: nat, a: nat, b: nat, d: nat)
    requires a + b <= m + d && a <= m && b <= m
    ensures 4 * Times(a, b) <= Room(m, a + b, d)
  {
    var s := a + b;
    FourProducts(a, b);
    if s <= m {
      ProductNonNegative(m - s, s);
      ProductNonNegative(m, d);
      assert (m - s) * s == m * s - s * s;
    } else {
      LargeClass(m, s, d);
    }
  }

  lemma FourProducts(a: nat, b: nat)
    ensures 4 * Times(a, b) <= (a + b) * (a + b)
  {
    SquareNonNegative(a - b);
    assert (a + b) * (a + b) - 4 * (a * b) == (a - b) * (a - b);
  }

  lemma LargeClass(m: nat, s: nat, d: nat)
    requires m < s <= 2 * m && s <= m + d
    ensures s * s <= m * s + 2 * (m * d)
  {
    ProductNonNegative(s - m, 2 * m - s);
    assert (s - m) * (2 * m - s) == m * s + 2 * (m * (s - m)) - s * s;
    ProductNonNegative(m, d - (s - m));
    assert m * (d - (s - m)) == m * d - m * (s - m);
  }

  lemma SquareNonNegative(x: int)
    ensures x * x >= 0
  {}

  lemma ProductNonNegative(x: int, y: int)
    requires x >= 0 && y >= 0
    ensures x * y >= 0
  {}

  lemma ClassOfLabels(aRows: seq<Row>, bRows: seq<Row>, reference: seq<Row>, l: Label)
    requires Valid(aRows, reference) && Valid(bRows, reference)
    ensures var d := Count(Ids(aRows), Gives(ById(aRows), ById(bRows), l, l));
      && d <= Count(Ids(reference), Gives(ById(aRows), ById(bRows), l, l))
      && 4 * Product(aRows, bRows, l) <= Room(|aRows|, LabelCount(aRows, l) + LabelCount(bRows, l), d)
  {
    hide Count, ById, LabelCount, Times, Valid, Room;
    var a, b, u := ById(aRows), ById(bRows), Ids(aRows);
    CountsOverSharedIds(aRows, bRows, reference, l);
    ReferenceCovers(aRows, reference);
    CountBoth(u, Labels(a, l), Labels(b, l), Gives(a, b, l, l));
    CountGrows(u, Ids(reference), Gives(a, b, l, l));
    ClassBound(|u|, LabelCount(aRows, l), LabelCount(bRows, l), Count(u, Gives(a, b, l, l)));
  }

  lemma CountsPartition(aRows: seq<Row>, bRows: seq<Row>, reference: seq<Row>)
    requires Valid(aRows, reference) && Valid(bRows, reference)
    ensures LabelCount(aRows, Relevant) + LabelCount(aRows, PossiblyRelevant) + LabelCount(aRows, NotRelevant) + LabelCount(aRows, Unknown) == |aRows|
    ensures LabelCount(bRows, Relevant) + LabelCount(bRows, PossiblyRelevant) + LabelCount(bRows, NotRelevant) + LabelCount(bRows, Unknown) == |aRows|
  {
    hide Count, ById, LabelCount, Labels, Valid;
    CountsOverSharedIds(aRows, bRows, reference, Relevant);
    CountsOverSharedIds(aRows, bRows, reference, PossiblyRelevant);
    CountsOverSharedIds(aRows, bRows, reference, NotRelevant);
    CountsOverSharedIds(aRows, bRows, reference, Unknown);
    LabelsPartition(Ids(aRows), ById(aRows));
    LabelsPartition(Ids(aRows), ById(bRows));
  }

  lemma Summed(m: nat, a1: nat, a2: nat, a3: nat, a4: nat, b1: nat, b2: nat, b3: nat, b4: nat, d1: nat, d2: nat, d3: nat, d4: nat)
    requires a1 + a2 + a3 + a4 == m && b1 + b2 + b3 + b4 == m
    ensures Room(m, a1 + b1, d1) + Room(m, a2 + b2, d2) + Room(m, a3 + b3, d3) + Room(m, a4 + b4, d4)
      == 2 * (m * m) + 2 * (m * (d1 + d2 + d3 + d4))
  {
    assert m * (a1 + b1) + m * (a2 + b2) + m * (a3 + b3) + m * (a4 + b4)
      == m * (a1 + a2 + a3 + a4) + m * (b1 + b2 + b3 + b4);
  }

  /** Chance agreement leaves room: twice the expected sum is at most `m * m + m * d`, `d` the agreements among the `m` rows. */
  lemma ExpectedBound(aRows: seq<Row>, bRows: seq<Row>, reference: seq<Row>)
    requires Valid(aRows, reference) && Valid(bRows, reference)
    ensures var d := Count(Ids(aRows), Agrees(ById(aRows), ById(bRows)));
      && d <= |aRows| && d <= Count(Ids(reference), Agrees(ById(aRows), ById(bRows)))
      && 2 * Expected(aRows, bRows) <= |aRows| * |aRows| + |aRows| * d
  {
    hide Count, ById, LabelCount, Product, Valid, Room, Gives, Agrees;
    var a, b, u := ById(aRows), ById(bRows), Ids(aRows);
    ReferenceCovers(aRows, reference);
    CountGrows(u, Ids(reference), Agrees(a, b));
    ClassOfLabels(aRows, bRows, reference, Relevant);
    ClassOfLabels(aRows, bRows, reference, PossiblyRelevant);
    ClassOfLabels(aRows, bRows, reference, NotRelevant);
    ClassOfLabels(aRows, bRows, reference, Unknown);
    CountsPartition(aRows, bRows, reference);
    DiagonalIsAgreement(u, a, b);
    Summed(|u|, LabelCount(aRows, Relevant), LabelCount(aRows, PossiblyRelevant), LabelCount(aRows, NotRelevant), LabelCount(aRows, Unknown),
      LabelCount(bRows, Relevant), LabelCount(bRows, PossiblyRelevant), LabelCount(bRows, NotRelevant), LabelCount(bRows, Unknown),
      Count(u, Gives(a, b, Relevant, Relevant)), Count(u, Gives(a, b, PossiblyRelevant, PossiblyRelevant)),
      Count(u, Gives(a, b, NotRelevant, NotRelevant)), Count(u, Gives(a, b, Unknown, Unknown)));
  }

  lemma RatioBounds(n: nat, m: nat, o: nat, d: nat, e: nat)
    requires 0 < m <= n && d <= m && d <= o <= n && 2 * e <= m * m + m * d
    ensures e <= n * n && (e == n * n ==> o == n)
    ensures -(n * n - e) <= o * n - e <= n * n - e
    ensures o * n - e == n * n - e <==> o == n
  {
    MulOrder(d, m, m);
    MulOrder(m, n, m);
    MulOrder(m, n, n);
    MulOrder(d, o, m);
    MulOrder(m, n, o);
    MulOrder(o, n, n);
    if o < n { StrictMulOrder(o, n, n); }
    if m < n { StrictMulOrder(m, n, n); }
    if m == n && o < n { StrictMulOrder(d, m, m); }
  }

  lemma MulOrder(a: nat, b: nat, k: nat)
    requires a <= b
    ensures k * a <= k * b && a * k <= b * k
  {}

  lemma StrictMulOrder(a: nat, b: nat, k: nat)
    requires a < b && k > 0
    ensures k * a < k * b && a * k < b * k
  {}

  /** Kappa lies between minus one and one, and is one exactly when the labelers never disagree. */
  lemma KappaIsBounded(reference: seq<Row>, aRows: seq<Row>, bRows: seq<Row>)
    requires Valid(aRows, reference) && Valid(bRows, reference)
    ensures var a, b := ById(aRows), ById(bRows);
      var k := KappaOf(Count(Ids(reference), Agrees(a, b)), Expected(aRows, bRows), |reference|);
      && k.den > 0 && -k.den <= k.num <= k.den
      && (k.num == k.den <==> Disputed(reference, a, b) == [])
  {
    hide Count, ById, Disputed, Expected;
    var a, b, u := ById(aRows), ById(bRows), Ids(aRows);
    ExpectedBound(aRows, bRows, reference);
    ReferenceCovers(aRows, reference);
    DisputedIsTheRest(reference, a, b);
    RatioBounds(|reference|, |aRows|, Count(Ids(reference), Agrees(a, b)), Count(u, Agrees(a, b)), Expected(aRows, bRows));
  }

  lemma KappaCorrects(reference: seq<Row>, aRows: seq<Row>, bRows: seq<Row>)
    requires Valid(aRows, reference) && Valid(bRows, reference)
    ensures var agreements := Count(Ids(reference), Agrees(ById(aRows), ById(bRows)));
      CorrectedByCounts(KappaOf(agreements, Expected(aRows, bRows), |reference|), agreements, reference, aRows, bRows)
  {
    hide Count, ById, LabelCount, Valid;
    KappaIsBounded(reference, aRows, bRows);
    var o, n, e := Count(Ids(reference), Agrees(ById(aRows), ById(bRows))), |reference|, Expected(aRows, bRows);
    if e != n * n { Commutes(o * n - e, n * n - e); }
  }

  lemma Commutes(a: int, b: int)
    ensures a * b == b * a
  {}

  /** For a reference without repeated ids the matrix's totals are the labelers' counts. */
  lemma MatrixTotals(reference: seq<Row>, aRows: seq<Row>, bRows: seq<Row>, matrix: map<(Label, Label), nat>)
    requires Valid(aRows, reference) && Valid(bRows, reference) && AllDifferent(Ids(reference))
    requires Tabulates(matrix, Ids(reference), ById(aRows), ById(bRows))
    ensures forall la, lb :: (la, lb) in matrix
    ensures forall l :: RowTotalOf(matrix, l) == LabelCount(aRows, l) && ColumnTotalOf(matrix, l) == LabelCount(bRows, l)
  {
    hide Count, ById, LabelCount, Valid;
    MarginalsMatchIff(reference, aRows, bRows);
    forall l ensures RowTotalOf(matrix, l) == LabelCount(aRows, l) && ColumnTotalOf(matrix, l) == LabelCount(bRows, l) {
      TotalsOfMatrix(matrix, Ids(reference), ById(aRows), ById(bRows), l);
    }
  }

  lemma TotalsCorrect(reference: seq<Row>, aRows: seq<Row>, bRows: seq<Row>, matrix: map<(Label, Label), nat>)
    requires Valid(aRows, reference) && Valid(bRows, reference) && AllDifferent(Ids(reference))
    requires Tabulates(matrix, Ids(reference), ById(aRows), ById(bRows))
    ensures var agreements := Count(Ids(reference), Agrees(ById(aRows), ById(bRows)));
      CorrectedByTotals(KappaOf(agreements, Expected(aRows, bRows), |reference|), agreements, reference, matrix)
  {
    hide Count, ById, LabelCount, Valid, BeyondChance, KappaOf, Expected, RowTotalOf, ColumnTotalOf;
    KappaCorrects(reference, aRows, bRows);
    MatrixTotals(reference, aRows, bRows, matrix);
  }

  // ---- Which packets are accepted ----

  /** The last row of the reference with the id of `r` is its row `k`. */
  ghost predicate LastWithId(reference: seq<Row>, id: string, k: nat) {
    && k < |reference| && reference[k].id == id
    && forall j :: k < j < |reference| ==> reference[j].id != id
  }

  lemma {:induction false} ByIdIsLast(rows: seq<Row>, id: string)
    ensures id in ById(rows) <==> id in Ids(rows)
    ensures id in ById(rows) ==> exists k: nat :: LastWithId(rows, id, k) && ById(rows)[id] == rows[k]
  {
    if rows != [] {
      var n := |rows| - 1;
      ByIdIsLast(rows[..n], id);
      IdsOfPrefix(rows, n);
      assert rows[..n + 1] == rows;
      if rows[n].id == id {
        assert LastWithId(rows, id, n);
      } else if id in ById(rows) {
        var k: nat :| LastWithId(rows[..n], id, k) && ById(rows[..n])[id] == rows[..n][k];
        assert LastWithId(rows, id, k);
      }
    }
  }

  ghost predicate Shows(reference: seq<Row>, r: Row) {
    exists j: nat :: LastWithId(reference, r.id, j) && reference[j].content == r.content
  }

  lemma ShowsIff(reference: seq<Row>, r: Row)
    ensures Shows(reference, r) <==> r.id in ById(reference) && ById(reference)[r.id].content == r.content
    ensures Shows(reference, r) ==> r.id in Ids(reference)
  {
    hide ById;
    ByIdIsLast(reference, r.id);
    if Shows(reference, r) {
      var j: nat :| LastWithId(reference, r.id, j) && reference[j].content == r.content;
      assert Ids(reference)[j] == r.id;
      var k: nat :| LastWithId(reference, r.id, k) && ById(reference)[r.id] == reference[k];
      assert j == k;
    }
  }

  ghost predicate Holds(rows: seq<Row>, id: string) { exists j :: 0 <= j < |rows| && rows[j].id == id }

  lemma HoldsIff(rows: seq<Row>, id: string)
    ensures Holds(rows, id) <==> id in SetOf(Ids(rows))
  {
    if id in Ids(rows) {
      var j :| 0 <= j < |rows| && Ids(rows)[j] == id;
      assert rows[j].id == id;
    }
    if j :| 0 <= j < |rows| && rows[j].id == id { assert Ids(rows)[j] == id; }
  }

  lemma SameIdsIff(rows: seq<Row>, reference: seq<Row>)
    requires forall r :: r in rows ==> r.id in Ids(reference)
    ensures SetOf(Ids(rows)) == SetOf(Ids(reference)) <==>
      forall k :: 0 <= k < |reference| ==> Holds(rows, reference[k].id)
  {
    hide Holds;
    forall id ensures (Holds(rows, id) <==> id in SetOf(Ids(rows))) && (Holds(reference, id) <==> id in SetOf(Ids(reference))) {
      HoldsIff(rows, id);
      HoldsIff(reference, id);
    }
    forall id | id in Ids(rows) ensures id in Ids(reference) {
      var j :| 0 <= j < |rows| && Ids(rows)[j] == id;
      assert rows[j] in rows;
    }
    if forall k :: 0 <= k < |reference| ==> Holds(rows, reference[k].id) {
      forall id | id in Ids(reference) ensures id in SetOf(Ids(rows)) {
        var k :| 0 <= k < |reference| && Ids(reference)[k] == id;
        assert Holds(rows, reference[k].id);
      }
    } else {
      var k :| 0 <= k < |reference| && !Holds(rows, reference[k].id);
      assert Ids(reference)[k] in SetOf(Ids(reference));
    }
  }

  /**
   A packet is accepted exactly when it has 368 fully labeled rows, holds every id of the reference in
   exactly one row and no others, and each row shows the content the reference last gives its id.
   */
  lemma AcceptedIff(rows: seq<Row>, reference: seq<Row>)
    ensures Valid(rows, reference) <==>
      && |rows| == 368 && (forall r :: r in rows ==> r.mark.Some? && Shows(reference, r))
      && (forall j, k :: 0 <= j < k < |rows| ==> rows[j].id != rows[k].id)
      && (forall k :: 0 <= k < |reference| ==> Holds(rows, reference[k].id))
  {
    hide ById, Shows, SetOf, Holds;
    forall r ensures Shows(reference, r) <==> r.id in ById(reference) && ById(reference)[r.id].content == r.content
      ensures Shows(reference, r) ==> r.id in Ids(reference)
    {
      ShowsIff(reference, r);
    }
    if forall r :: r in rows ==> Shows(reference, r) { SameIdsIff(rows, reference); }
    assert forall j :: 0 <= j < |rows| ==> Ids(rows)[j] == rows[j].id;
  }
}
