/** Validating the frozen query universe of the pilot (supplemental_pilot_contract.py). */
module PilotUniverse {
  import opened Wrappers
  import opened Counting
  import opened Pilot

  /** A query as listed; its stratum is none when it names no known one. */
  datatype Entry = Entry(id: string, order: int, stratum: Option<Stratum>, positions: seq<int>, form: string)

  datatype Universe = Universe(schema: string, provider: string, expansion: string, entries: seq<Entry>)

  datatype Fault =
    | InvalidSchema | NotSearxngOnly | DynamicExpansion | EmptyUniverse | IdsNotUnique | OrderNotContiguous
    | UnknownStratum | PositionsNotSorted | PositionsViolateContract | InsufficientCapacity | Unbalanced

  const SCHEMA := "amatl.relevance.supplemental-query-universe.v1"

  function Expected(s: Stratum): seq<int> { if s != S3 then [1, 2, 3] else [4, 5, 6, 7, 8] }

  predicate Ascending(positions: seq<int>) { forall i, j :: 0 <= i < j < |positions| ==> positions[i] < positions[j] }

  function Ids(entries: seq<Entry>): seq<string> { seq(|entries|, i requires 0 <= i < |entries| => entries[i].id) }

  function InStratum(s: Stratum): Entry -> bool { (e: Entry) => e.stratum == Some(s) }

  function OfForm(form: string): Entry -> bool { (e: Entry) => e.stratum == Some(S3) && e.form == form }

  /** How many results the queries of a stratum can return at most. */
  function Capacity(entries: seq<Entry>, s: Stratum): nat { Count(entries, InStratum(s)) * |Expected(s)| }

  predicate PositionsFrozen(e: Entry) { e.stratum.Some? && e.positions == Expected(e.stratum.value) }

  /** Identifiers are present and unique, and the order runs from one. */
  predicate Listed(entries: seq<Entry>) {
    && entries != [] && AllDifferent(Ids(entries)) && (forall e :: e in entries ==> e.id != "")
    && (forall i :: 0 <= i < |entries| ==> entries[i].order == i + 1)
  }

  /** The third stratum holds as many procedural as informational queries. */
  predicate Balanced(entries: seq<Entry>) {
    Count(entries, OfForm("procedural")) == Count(entries, OfForm("informational"))
  }

  /** Everything a universe must satisfy before the pilot may use it. */
  predicate Frozen(u: Universe) {
    && u.schema == SCHEMA && u.provider == "SEARXNG_ONLY" && u.expansion == "DISABLED" && Listed(u.entries)
    && (forall e :: e in u.entries ==> PositionsFrozen(e))
    && (forall s :: Capacity(u.entries, s) >= TARGET_PER_STRATUM)
    && Balanced(u.entries)
  }

  datatype Tally = Tally(counts: map<Stratum, nat>, capacity: map<Stratum, nat>, procedural: nat, informational: nat)

  ghost predicate Tallies(t: Tally, entries: seq<Entry>) {
    && (forall s: Stratum :: s in t.counts && t.counts[s] == Count(entries, InStratum(s)))
    && (forall s: Stratum :: s in t.capacity && t.capacity[s] == Capacity(entries, s))
    && t.procedural == Count(entries, OfForm("procedural")) && t.informational == Count(entries, OfForm("informational"))
  }

  method TallyEntry(t: Tally, ghost before: seq<Entry>, e: Entry) returns (after: Tally)
    requires Tallies(t, before) && PositionsFrozen(e)
    ensures Tallies(after, before + [e])
  {
    hide Count;
    var s := e.stratum.value;
    after := Tally(t.counts[s := t.counts[s] + 1], t.capacity[s := t.capacity[s] + |e.positions|],
      t.procedural + (if s == S3 && e.form == "procedural" then 1 else 0),
      t.informational + (if s == S3 && e.form == "informational" then 1 else 0));
    CountAppended(before, e, OfForm("procedural"));
    CountAppended(before, e, OfForm("informational"));
    forall x: Stratum
      ensures x in after.counts && after.counts[x] == Count(before + [e], InStratum(x))
      ensures x in after.capacity && after.capacity[x] == Capacity(before + [e], x)
    {
      CountAppended(before, e, InStratum(x));
      Distributes(Count(before, InStratum(x)), if x == s then 1 else 0, |Expected(x)|);
    }
  }

  lemma Distributes(a: nat, b: nat, c: nat)
    ensures (a + b) * c == a * c + b * c
  {}

  method Start() returns (t: Tally)
    ensures Tallies(t, [])
  {
    t := Tally(map[S1 := 0, S2 := 0, S3 := 0], map[S1 := 0, S2 := 0, S3 := 0], 0, 0);
    forall s: Stratum ensures s in t.counts && t.counts[s] == 0 && s in t.capacity && t.capacity[s] == 0 { Strata(s); }
  }

  /** Accepts exactly the frozen universes, and reports how many queries and results each stratum has. */
  method ValidateUniverse(u: Universe) returns (r: Result<(map<Stratum, nat>, map<Stratum, nat>), Fault>)
    ensures r.Ok? <==> Frozen(u)
    ensures r.Ok? ==> forall s: Stratum ::
      && s in r.value.0 && r.value.0[s] == Count(u.entries, InStratum(s))
      && s in r.value.1 && r.value.1[s] == Capacity(u.entries, s)
  {
    hide Count, Tallies, PositionsFrozen;
    if u.schema != SCHEMA { return Err(InvalidSchema); }
    if u.provider != "SEARXNG_ONLY" { return Err(NotSearxngOnly); }
    if u.expansion != "DISABLED" { return Err(DynamicExpansion); }
    if u.entries == [] { return Err(EmptyUniverse); }
    if !AllDifferent(Ids(u.entries)) || exists e :: e in u.entries && e.id == "" { return Err(IdsNotUnique); }
    if exists i :: 0 <= i < |u.entries| && u.entries[i].order != i + 1 { return Err(OrderNotContiguous); }
    var t := Start();
    for i := 0 to |u.entries|
      invariant Tallies(t, u.entries[..i]) && forall e :: e in u.entries[..i] ==> PositionsFrozen(e)
    {
      hide Capacity;
      var e := u.entries[i];
      assert e in u.entries && u.entries[..i + 1] == u.entries[..i] + [e];
      var fault := EntryFault(e);
      if fault.Some? { return Err(fault.value); }
      t := TallyEntry(t, u.entries[..i], e);
    }
    assert u.entries[..|u.entries|] == u.entries;
    r := Conclude(u, t);
  }

  method EntryFault(e: Entry) returns (fault: Option<Fault>)
    ensures fault.None? <==> PositionsFrozen(e)
  {
    if e.stratum.None? { return Some(UnknownStratum); }
    if !Ascending(e.positions) || e.positions == [] {
      assert Ascending(Expected(e.stratum.value)) && Expected(e.stratum.value) != [];
      return Some(PositionsNotSorted);
    }
    if e.positions != Expected(e.stratum.value) { return Some(PositionsViolateContract); }
    fault := None;
  }

  method Conclude(u: Universe, t: Tally) returns (r: Result<(map<Stratum, nat>, map<Stratum, nat>), Fault>)
    requires Tallies(t, u.entries)
    ensures r.Ok? <==> (forall s :: Capacity(u.entries, s) >= TARGET_PER_STRATUM) && Balanced(u.entries)
    ensures r.Ok? ==> r.value == (t.counts, t.capacity)
    ensures forall s: Stratum ::
      && s in t.counts && t.counts[s] == Count(u.entries, InStratum(s))
      && s in t.capacity && t.capacity[s] == Capacity(u.entries, s)
  {
    hide Count, Capacity;
    if exists s :: s in t.capacity && t.capacity[s] < TARGET_PER_STRATUM { return Err(InsufficientCapacity); }
    if t.procedural != t.informational { return Err(Unbalanced); }
    r := Ok((t.counts, t.capacity));
  }

  // ---- What a frozen universe is ----

  /** A query lists the first three positions, or in the third stratum the fourth to eighth. */
  predicate ListsItsPositions(e: Entry) {
    match e.stratum
    case None => false
    case Some(S3) => e.positions == [4, 5, 6, 7, 8]
    case Some(_) => e.positions == [1, 2, 3]
  }

  lemma PositionsAre(e: Entry)
    ensures PositionsFrozen(e) <==> ListsItsPositions(e)
  {}

  /** How many queries of the third stratum have this form. */
  function OfThird(entries: seq<Entry>, form: string): nat {
    if entries == [] then 0
    else
      var e := entries[|entries| - 1];
      OfThird(entries[..|entries| - 1], form) + if e.stratum == Some(S3) && e.form == form then 1 else 0
  }

  lemma {:induction false} OfThirdCounts(entries: seq<Entry>, form: string)
    ensures OfThird(entries, form) == Count(entries, OfForm(form))
  {
    if entries != [] { OfThirdCounts(entries[..|entries| - 1], form); }
  }

  lemma CapacitiesSuffice(entries: seq<Entry>)
    ensures (forall s :: Capacity(entries, s) >= TARGET_PER_STRATUM) <==>
      && Count(entries, (e: Entry) => e.stratum == Some(S1)) >= 20
      && Count(entries, (e: Entry) => e.stratum == Some(S2)) >= 20
      && Count(entries, (e: Entry) => e.stratum == Some(S3)) >= 12
  {
    hide Count;
    CountSame(entries, InStratum(S1), (e: Entry) => e.stratum == Some(S1));
    CountSame(entries, InStratum(S2), (e: Entry) => e.stratum == Some(S2));
    CountSame(entries, InStratum(S3), (e: Entry) => e.stratum == Some(S3));
    assert Capacity(entries, S1) == 3 * Count(entries, InStratum(S1)) && Capacity(entries, S2) == 3 * Count(entries, InStratum(S2));
    assert Capacity(entries, S3) == 5 * Count(entries, InStratum(S3));
    if Capacity(entries, S1) >= 60 && Capacity(entries, S2) >= 60 && Capacity(entries, S3) >= 60 {
      forall s: Stratum ensures Capacity(entries, s) >= TARGET_PER_STRATUM { Strata(s); }
    }
  }

  /**
   A universe is frozen exactly when its header is the expected one, its queries are numbered from one
   under different non-empty ids, each lists the positions of its stratum, there are at least twenty of the
   first two strata and twelve of the third, and those are half procedural, half informational.
   */
  lemma FrozenIff(u: Universe)
    ensures Frozen(u) <==>
      && u.schema == "amatl.relevance.supplemental-query-universe.v1" && u.provider == "SEARXNG_ONLY" && u.expansion == "DISABLED"
      && u.entries != [] && (forall i :: 0 <= i < |u.entries| ==> u.entries[i].order == i + 1 && |u.entries[i].id| > 0)
      && (forall i, j :: 0 <= i < j < |u.entries| ==> u.entries[i].id != u.entries[j].id)
      && (forall e :: e in u.entries ==> ListsItsPositions(e))
      && Count(u.entries, (e: Entry) => e.stratum == Some(S1)) >= 20
      && Count(u.entries, (e: Entry) => e.stratum == Some(S2)) >= 20
      && Count(u.entries, (e: Entry) => e.stratum == Some(S3)) >= 12
      && OfThird(u.entries, "procedural") == OfThird(u.entries, "informational")
  {
    hide Count, Capacity, PositionsFrozen, ListsItsPositions, OfThird;
    CapacitiesSuffice(u.entries);
    OfThirdCounts(u.entries, "procedural");
    OfThirdCounts(u.entries, "informational");
    forall e ensures PositionsFrozen(e) <==> ListsItsPositions(e) { PositionsAre(e); }
    ListedIff(u.entries);
  }

  lemma ListedIff(entries: seq<Entry>)
    ensures Listed(entries) <==>
      && entries != [] && (forall i :: 0 <= i < |entries| ==> entries[i].order == i + 1 && |entries[i].id| > 0)
      && (forall i, j :: 0 <= i < j < |entries| ==> entries[i].id != entries[j].id)
  {
    assert forall i :: 0 <= i < |entries| ==> Ids(entries)[i] == entries[i].id;
    assert forall i :: 0 <= i < |entries| ==> entries[i] in entries;
  }
}
