module Agreement {
  // Agreement of two labelers over a frozen row list (validate_independent_relevance_adjudication.py).

  import opened Wrappers
  import opened Counting

  datatype Label = Relevant | PossiblyRelevant | NotRelevant | Unknown

  /** A labeled row; its label is none when it is missing or outside the label set. */
  datatype Row = Row(id: string, content: string, mark: Option<Label>)

  datatype Severity = MinorBoundary | Extreme | UnknownConflict

  datatype Disagreement = Disagreement(row: Row, first: Label, second: Label, severity: Severity)

  const EXPECTED_ROWS := 368

  function Ids(rows: seq<Row>): seq<string> { seq(|rows|, i requires 0 <= i < |rows| => rows[i].id) }

  /** Rows by id; a later row replaces an earlier one with the same id. */
  function ById(rows: seq<Row>): map<string, Row> {
    if rows == [] then map[] else ById(rows[..|rows| - 1])[rows[|rows| - 1].id := rows[|rows| - 1]]
  }

  /** A packet is accepted: complete, without repeats, fully labeled, and its rows are the reference's. */
  predicate Valid(rows: seq<Row>, reference: seq<Row>) {
    && |rows| == EXPECTED_ROWS
    && SetOf(Ids(rows)) == SetOf(Ids(reference))
    && AllDifferent(Ids(rows))
    && (forall r :: r in rows ==> r.mark.Some?)
    && (forall r :: r in rows ==> r.id in ById(reference) && ById(reference)[r.id].content == r.content)
  }

  function LabelOf(m: map<string, Row>, id: string): Label {
    if id in m && m[id].mark.Some? then m[id].mark.value else Unknown
  }

  function SeverityOf(a: Label, b: Label): Severity {
    if a == Unknown || b == Unknown then UnknownConflict
    else if {a, b} == {Relevant, NotRelevant} then Extreme
    else MinorBoundary
  }

  // ---- What the counters mean ----

  /** Labelers `a` and `b` give this pair of labels to `id`. */
  function Gives(a: map<string, Row>, b: map<string, Row>, la: Label, lb: Label): string -> bool {
    id => LabelOf(a, id) == la && LabelOf(b, id) == lb
  }

  function Labels(m: map<string, Row>, l: Label): string -> bool { id => LabelOf(m, id) == l }

  function Agrees(a: map<string, Row>, b: map<string, Row>): string -> bool { id => LabelOf(a, id) == LabelOf(b, id) }

  /** The rows the labelers disagree on, in order. */
  function Disputed(reference: seq<Row>, a: map<string, Row>, b: map<string, Row>): seq<Disagreement> {
    if reference == [] then []
    else
      var row := reference[|reference| - 1];
      var la, lb := LabelOf(a, row.id), LabelOf(b, row.id);
      Disputed(reference[..|reference| - 1], a, b) +
      if la == lb then [] else [Disagreement(row, la, lb, SeverityOf(la, lb))]
  }

  /** How many rows carry a label. */
  function LabelCount(rows: seq<Row>, l: Label): nat { Count(rows, (r: Row) => r.mark == Some(l)) }

  // ---- The counting loop ----

  function EmptyMatrix(): map<(Label, Label), nat> {
    map la: Label, lb: Label | true :: (la, lb) := 0
  }

  lemma {:induction false} IdsOfPrefix(rows: seq<Row>, i: nat)
    requires i < |rows|
    ensures Ids(rows[..i + 1]) == Ids(rows[..i]) + [rows[i].id]
  {}

  method IndexRows(rows: seq<Row>) returns (m: map<string, Row>)
    ensures m == ById(rows)
  {
    m := map[];
    for i := 0 to |rows|
      invariant m == ById(rows[..i])
    {
      assert rows[..i + 1][..i] == rows[..i];
      m := m[rows[i].id := rows[i]];
    }
    assert rows[..|rows|] == rows;
  }

  /** Every cell of the matrix counts the rows given that pair of labels. */
  ghost predicate Tabulates(matrix: map<(Label, Label), nat>, ids: seq<string>, a: map<string, Row>, b: map<string, Row>) {
    forall la, lb :: (la, lb) in matrix && matrix[(la, lb)] == Count(ids, Gives(a, b, la, lb))
  }

  method Tally(matrix: map<(Label, Label), nat>, ghost ids: seq<string>, id: string, a: map<string, Row>, b: map<string, Row>)
    returns (after: map<(Label, Label), nat>)
    requires Tabulates(matrix, ids, a, b)
    ensures Tabulates(after, ids + [id], a, b)
  {
    hide Count;
    var la, lb := LabelOf(a, id), LabelOf(b, id);
    after := matrix[(la, lb) := matrix[(la, lb)] + 1];
    forall x, y ensures (x, y) in after && after[(x, y)] == Count(ids + [id], Gives(a, b, x, y)) {
      CountAppended(ids, id, Gives(a, b, x, y));
    }
  }

  /** The confusion matrix, the number of agreements and the disagreement queue. */
  method Compare(reference: seq<Row>, aRows: seq<Row>, bRows: seq<Row>)
    returns (matrix: map<(Label, Label), nat>, agreements: nat, disagreements: seq<Disagreement>)
    ensures Tabulates(matrix, Ids(reference), ById(aRows), ById(bRows))
    ensures agreements == Count(Ids(reference), Agrees(ById(aRows), ById(bRows)))
    ensures disagreements == Disputed(reference, ById(aRows), ById(bRows))
  {
    hide ById, Tabulates, SeverityOf, Count;
    var a := IndexRows(aRows);
    var b := IndexRows(bRows);
    matrix, agreements, disagreements := EmptyMatrix(), 0, [];
    CountsStartAtZero(a, b);
    for i := 0 to |reference|
      invariant Tabulates(matrix, Ids(reference[..i]), a, b)
      invariant agreements == Count(Ids(reference[..i]), Agrees(a, b))
      invariant disagreements == Disputed(reference[..i], a, b)
    {
      hide EmptyMatrix, Ids;
      var row := reference[i];
      var la, lb := LabelOf(a, row.id), LabelOf(b, row.id);
      IdsOfPrefix(reference, i);
      CountAppended(Ids(reference[..i]), row.id, Agrees(a, b));
      assert reference[..i + 1][..i] == reference[..i];
      matrix := Tally(matrix, Ids(reference[..i]), row.id, a, b);
      if la == lb {
        agreements := agreements + 1;
      } else {
        disagreements := disagreements + [Disagreement(row, la, lb, SeverityOf(la, lb))];
      }
    }
    assert reference[..|reference|] == reference;
  }

  lemma CountsStartAtZero(a: map<string, Row>, b: map<string, Row>)
    ensures Tabulates(EmptyMatrix(), Ids([]), a, b)
    ensures Count(Ids([]), Agrees(a, b)) == 0
  {}
}
