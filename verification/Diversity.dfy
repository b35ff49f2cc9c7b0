/** Greedy diversity caps with a relevance override (diversity.rs). */
module Diversity {
  import opened Wrappers

  datatype Ranked = Ranked(host: Option<string>, providers: seq<string>, resultType: string, score: real)

  datatype Policy = Policy(version: string, perDomain: nat, perProvider: nat, perType: nat, ratio: real)

  const DEFAULT := Policy("v1", 2, 5, 6, 1.15)

  predicate Validates(p: Policy) {
    p.version == "v1" && p.perDomain > 0 && p.perProvider > 0 && p.perType > 0 && p.ratio >= 1.0
  }

  function Effective(p: Policy): Policy { if Validates(p) then p else DEFAULT }

  datatype Group = Domain(name: string) | Provider(name: string) | Type(name: string)

  function Cap(p: Policy, g: Group): nat {
    match g
    case Domain(_) => p.perDomain
    case Provider(_) => p.perProvider
    case Type(_) => p.perType
  }

  /** A result without a host counts under the empty domain. */
  function DomainOf(r: Ranked): string { if r.host.Some? then r.host.value else "" }

  function ProviderGroups(providers: seq<string>): seq<Group> {
    seq(|providers|, i requires 0 <= i < |providers| => Provider(providers[i]))
  }

  /** The groups a result counts towards. */
  function Groups(r: Ranked): seq<Group> {
    [Domain(DomainOf(r))] + ProviderGroups(r.providers) + [Type(r.resultType)]
  }

  /** Whether a result competes with a group; one without a host competes with no domain. */
  predicate Matches(g: Group, r: Ranked) {
    match g
    case Domain(name) => r.host == Some(name)
    case Provider(name) => name in r.providers
    case Type(name) => r.resultType == name
  }

  /** The next result after `index` that competes with `g`. */
  function Next(results: seq<Ranked>, index: nat, g: Group): Option<nat>
    requires index < |results|
    decreases |results| - index
  {
    if index + 1 == |results| then None
    else if Matches(g, results[index + 1]) then Some(index + 1)
    else Next(results, index + 1, g)
  }

  datatype Verdict = Verdict(exceeded: seq<Group>, overridden: bool) {
    predicate Visible() { exceeded == [] || overridden }
  }

  /** How often the visible results count towards `g`. */
  function Tally(results: seq<Ranked>, verdicts: seq<Verdict>, g: Group): nat
    requires |verdicts| <= |results|
  {
    if verdicts == [] then 0
    else
      var n := |verdicts| - 1;
      Tally(results, verdicts[..n], g) + (if verdicts[n].Visible() then multiset(Groups(results[n]))[g] else 0)
  }

  function Exceeded(p: Policy, results: seq<Ranked>, verdicts: seq<Verdict>, groups: seq<Group>): seq<Group>
    requires |verdicts| <= |results|
  {
    if groups == [] then []
    else
      Exceeded(p, results, verdicts, groups[..|groups| - 1]) +
      (if Tally(results, verdicts, groups[|groups| - 1]) >= Cap(p, groups[|groups| - 1]) then [groups[|groups| - 1]] else [])
  }

  /** The result beats the next competitor in `g` by the policy's ratio. */
  predicate Beats(p: Policy, results: seq<Ranked>, index: nat, g: Group)
    requires index < |results|
  {
    var next := Next(results, index, g);
    next.Some? && index < next.value < |results| && results[index].score >= results[next.value].score * p.ratio
  }

  function Judge(p: Policy, results: seq<Ranked>, verdicts: seq<Verdict>): Verdict
    requires |verdicts| < |results|
  {
    var exceeded := Exceeded(p, results, verdicts, Groups(results[|verdicts|]));
    Verdict(exceeded, exceeded != [] && forall g :: g in exceeded ==> Beats(p, results, |verdicts|, g))
  }

  function Verdicts(p: Policy, results: seq<Ranked>, n: nat): (v: seq<Verdict>)
    requires n <= |results|
    ensures |v| == n
  {
    if n == 0 then [] else Verdicts(p, results, n - 1) + [Judge(p, results, Verdicts(p, results, n - 1))]
  }

  // ---- When a result is let in over a cap ----

  lemma {:induction false} VerdictsArePrefixes(p: Policy, results: seq<Ranked>, n: nat, k: nat)
    requires k <= n <= |results|
    ensures Verdicts(p, results, n)[..k] == Verdicts(p, results, k)
    ensures k < n ==> Verdicts(p, results, n)[k] == Judge(p, results, Verdicts(p, results, k))
  {
    hide Judge;
    if k < n { VerdictsArePrefixes(p, results, n - 1, k); }
  }

  lemma {:induction false} NextIsFirstMatch(results: seq<Ranked>, index: nat, g: Group)
    requires index < |results|
    ensures var next := Next(results, index, g);
      && (next.Some? ==> index < next.value < |results| && Matches(g, results[next.value]))
      && forall k :: index < k < |results| && (next.Some? ==> k < next.value) ==> !Matches(g, results[k])
    decreases |results| - index
  {
    if index + 1 < |results| && !Matches(g, results[index + 1]) { NextIsFirstMatch(results, index + 1, g); }
  }

  /** Result `k` is the next after `i` to compete with `g`. */
  ghost predicate NextRival(results: seq<Ranked>, i: nat, g: Group, k: nat) {
    && i < k < |results| && Matches(g, results[k])
    && forall m :: i < m < k ==> !Matches(g, results[m])
  }

  ghost predicate OutscoresRival(p: Policy, results: seq<Ranked>, i: nat, g: Group)
    requires i < |results|
  {
    exists k: nat :: NextRival(results, i, g, k) && results[i].score >= results[k].score * p.ratio
  }

  /** Verdict `i` overrides exactly when its result beats the next rival of every cap it breaks. */
  ghost predicate OverridesFairly(p: Policy, results: seq<Ranked>, i: nat, verdict: Verdict)
    requires i < |results|
  {
    verdict.overridden <==>
      && verdict.exceeded != []
      && forall g :: g in verdict.exceeded ==> OutscoresRival(p, results, i, g)
  }

  lemma BeatsNextRival(p: Policy, results: seq<Ranked>, i: nat, g: Group)
    requires i < |results|
    ensures Beats(p, results, i, g) <==> OutscoresRival(p, results, i, g)
  {
    hide Matches;
    NextIsFirstMatch(results, i, g);
    var next := Next(results, i, g);
    if next.Some? { assert NextRival(results, i, g, next.value); }
  }

  /** A result over its caps is shown exactly when it beats the next rival of each. */
  lemma OverriddenIff(p: Policy, results: seq<Ranked>, i: nat)
    requires i < |results|
    ensures OverridesFairly(p, results, i, Verdicts(p, results, |results|)[i])
  {
    hide OutscoresRival, Beats, Exceeded, Groups;
    VerdictsArePrefixes(p, results, |results|, i);
    forall g ensures Beats(p, results, i, g) <==> OutscoresRival(p, results, i, g) { BeatsNextRival(p, results, i, g); }
  }

  // ---- The algorithm ----

  datatype Placed = Placed(rank: nat, result: Ranked, visible: bool)

  datatype Decision = Decision(rank: nat, group: Group, score: real, comparator: Option<real>, overridden: bool)

  function Comparator(results: seq<Ranked>, index: nat, g: Group): Option<real>
    requires index < |results|
  {
    var next := Next(results, index, g);
    if next.Some? && next.value < |results| then Some(results[next.value].score) else None
  }

  /** The three count maps. */
  datatype Counts = Counts(domains: map<string, nat>, providers: map<string, nat>, types: map<string, nat>)

  function Lookup(counts: map<string, nat>, key: string): nat { if key in counts then counts[key] else 0 }

  function Count(c: Counts, g: Group): nat {
    match g
    case Domain(name) => Lookup(c.domains, name)
    case Provider(name) => Lookup(c.providers, name)
    case Type(name) => Lookup(c.types, name)
  }

  function Increment(c: Counts, g: Group): Counts {
    match g
    case Domain(name) => c.(domains := c.domains[name := Lookup(c.domains, name) + 1])
    case Provider(name) => c.(providers := c.providers[name := Lookup(c.providers, name) + 1])
    case Type(name) => c.(types := c.types[name := Lookup(c.types, name) + 1])
  }

  lemma IncrementCounts(c: Counts, g: Group, h: Group)
    ensures Count(Increment(c, g), h) == Count(c, h) + if g == h then 1 else 0
  {}

  /** The count maps agree with the tally of every group. */
  ghost predicate Tallied(counts: Counts, results: seq<Ranked>, verdicts: seq<Verdict>)
    requires |verdicts| <= |results|
  {
    forall g :: Count(counts, g) == Tally(results, verdicts, g)
  }

  function Decisions(results: seq<Ranked>, verdicts: seq<Verdict>): seq<Decision>
    requires |verdicts| <= |results|
  {
    if verdicts == [] then []
    else
      var n := |verdicts| - 1;
      Decisions(results, verdicts[..n]) + DecisionsFor(results, n, verdicts[n].exceeded, verdicts[n].overridden)
  }

  function DecisionsFor(results: seq<Ranked>, n: nat, exceeded: seq<Group>, overridden: bool): seq<Decision>
    requires n < |results|
  {
    seq(|exceeded|, k requires 0 <= k < |exceeded| =>
      Decision(n + 1, exceeded[k], results[n].score, Comparator(results, n, exceeded[k]), overridden))
  }

  /** The caps a result would break: its domain's, then its providers', then its type's. */
  method CollectExceeded(p: Policy, r: Ranked, counts: Counts, ghost results: seq<Ranked>, ghost verdicts: seq<Verdict>)
    returns (exceeded: seq<Group>)
    requires |verdicts| <= |results| && Tallied(counts, results, verdicts)
    ensures exceeded == Exceeded(p, results, verdicts, Groups(r))
  {
    hide Tally, Count, Cap, Groups;
    var groups := Groups(r);
    exceeded := [];
    for i := 0 to |groups|
      invariant exceeded == Exceeded(p, results, verdicts, groups[..i])
    {
      assert groups[..i + 1][..i] == groups[..i];
      if Count(counts, groups[i]) >= Cap(p, groups[i]) { exceeded := exceeded + [groups[i]]; }
    }
    assert groups[..|groups|] == groups;
  }

  method CountVisible(r: Ranked, counts: Counts) returns (counts': Counts)
    ensures forall g :: Count(counts', g) == Count(counts, g) + multiset(Groups(r))[g]
  {
    hide Count, Increment, Groups;
    var groups := Groups(r);
    counts' := counts;
    for i := 0 to |groups|
      invariant forall g :: Count(counts', g) == Count(counts, g) + multiset(groups[..i])[g]
    {
      assert groups[..i + 1] == groups[..i] + [groups[i]];
      forall g { IncrementCounts(counts', groups[i], g); }
      counts' := Increment(counts', groups[i]);
    }
    assert groups[..|groups|] == groups;
  }

  lemma VerdictAdded(results: seq<Ranked>, verdicts: seq<Verdict>, verdict: Verdict, before: Counts, after: Counts)
    requires |verdicts| < |results| && Tallied(before, results, verdicts)
    requires forall g :: Count(after, g) == Count(before, g) + if verdict.Visible() then multiset(Groups(results[|verdicts|]))[g] else 0
    ensures Tallied(after, results, verdicts + [verdict])
    ensures Decisions(results, verdicts + [verdict]) ==
      Decisions(results, verdicts) + DecisionsFor(results, |verdicts|, verdict.exceeded, verdict.overridden)
  {
    hide Count, Groups;
    assert (verdicts + [verdict])[..|verdicts|] == verdicts;
  }

  /** The verdict on one result, given the counts so far. */
  method JudgeNext(p: Policy, results: seq<Ranked>, index: nat, counts: Counts, ghost verdicts: seq<Verdict>)
    returns (verdict: Verdict)
    requires index == |verdicts| < |results| && Tallied(counts, results, verdicts)
    ensures verdict == Judge(p, results, verdicts)
  {
    hide Tallied, Groups, Exceeded, Beats;
    var exceeded := CollectExceeded(p, results[index], counts, results, verdicts);
    var overridden := exceeded != [] && forall g :: g in exceeded ==> Beats(p, results, index, g);
    verdict := Verdict(exceeded, overridden);
  }

  /** Every result keeps its place; those over a cap they do not override are relegated. */
  method Diversify(results: seq<Ranked>, policy: Policy) returns (output: seq<Placed>, decisions: seq<Decision>)
    ensures var v := Verdicts(Effective(policy), results, |results|);
      && |output| == |results|
      && (forall i :: 0 <= i < |results| ==> output[i] == Placed(i + 1, results[i], v[i].Visible()))
      && decisions == Decisions(results, v)
      && forall i :: 0 <= i < |results| ==> OverridesFairly(Effective(policy), results, i, v[i])
  {
    hide Count, Groups, Judge, DecisionsFor, Effective, Tally, Decisions, OverridesFairly;
    var p := Effective(policy);
    var counts := Counts(map[], map[], map[]);
    output, decisions := [], [];
    ghost var v: seq<Verdict> := [];
    NothingCounted(results);
    for i := 0 to |results|
      invariant v == Verdicts(p, results, i) && Tallied(counts, results, v)
      invariant |output| == i && forall k :: 0 <= k < i ==> output[k] == Placed(k + 1, results[k], v[k].Visible())
      invariant decisions == Decisions(results, v)
    {
      hide Tallied, Verdict.Visible;
      var verdict := JudgeNext(p, results, i, counts, v);
      decisions := decisions + DecisionsFor(results, i, verdict.exceeded, verdict.overridden);
      var visible := verdict.Visible();
      counts := Admit(results, i, verdict, counts, v);
      v := v + [verdict];
      output := output + [Placed(i + 1, results[i], visible)];
    }
    forall i | 0 <= i < |results| ensures OverridesFairly(p, results, i, v[i]) { OverriddenIff(p, results, i); }
  }

  /** A visible result is counted; a relegated one is not. */
  method Admit(results: seq<Ranked>, index: nat, verdict: Verdict, counts: Counts, ghost verdicts: seq<Verdict>)
    returns (counts': Counts)
    requires index == |verdicts| < |results| && Tallied(counts, results, verdicts)
    ensures Tallied(counts', results, verdicts + [verdict])
    ensures Decisions(results, verdicts + [verdict]) ==
      Decisions(results, verdicts) + DecisionsFor(results, |verdicts|, verdict.exceeded, verdict.overridden)
  {
    hide Groups, Tally, Decisions;
    counts' := counts;
    if verdict.Visible() { counts' := CountVisible(results[index], counts); }
    VerdictAdded(results, verdicts, verdict, counts, counts');
  }

  lemma NothingCounted(results: seq<Ranked>)
    ensures Tallied(Counts(map[], map[], map[]), results, [])
    ensures Decisions(results, []) == []
  {}
}
