module DiversityProperties {
  // What the diversity caps guarantee over a whole result list (diversity.rs).

  import opened Wrappers
  import opened Diversity
  import Counting

  /** Results `lo..hi` that were shown although they broke the cap of `g`. */
  function Overrides(v: seq<Verdict>, g: Group, lo: nat, hi: nat): nat
    requires lo <= hi <= |v|
  {
    if lo == hi then 0 else Overrides(v, g, lo, hi - 1) + if Overrode(v[hi - 1], g) then 1 else 0
  }

  predicate Overrode(verdict: Verdict, g: Group) { verdict.overridden && g in verdict.exceeded }

  lemma {:induction false} OverridesFromFirst(v: seq<Verdict>, g: Group, lo: nat, hi: nat)
    requires lo < hi <= |v|
    ensures Overrides(v, g, lo, hi) == Overrides(v, g, lo + 1, hi) + if Overrode(v[lo], g) then 1 else 0
  {
    if lo + 1 < hi { OverridesFromFirst(v, g, lo, hi - 1); }
  }

  lemma {:induction false} OverridesOfPrefix(v: seq<Verdict>, w: seq<Verdict>, g: Group, n: nat)
    requires n <= |v| && n <= |w| && v[..n] == w[..n]
    ensures Overrides(v, g, 0, n) == Overrides(w, g, 0, n)
  {
    if n > 0 {
      assert v[..n][..n - 1] == v[..n - 1] && w[..n][..n - 1] == w[..n - 1];
      assert v[n - 1] == v[..n][n - 1] == w[..n][n - 1] == w[n - 1];
      OverridesOfPrefix(v, w, g, n - 1);
    }
  }

  // ---- Each verdict is judged against the results before it ----

  lemma {:induction false} ExceededIff(p: Policy, results: seq<Ranked>, v: seq<Verdict>, groups: seq<Group>, g: Group)
    requires |v| <= |results|
    ensures g in Exceeded(p, results, v, groups) <==> g in groups && Tally(results, v, g) >= Cap(p, g)
  {
    hide Tally, Cap;
    if groups != [] {
      var init, last := groups[..|groups| - 1], groups[|groups| - 1];
      ExceededIff(p, results, v, init, g);
      assert groups == init + [last];
    }
  }

  /** Broken caps are listed in the order of the groups. */
  lemma {:induction false} ExceededKeepsOrder(p: Policy, results: seq<Ranked>, v: seq<Verdict>, groups: seq<Group>, i: nat)
    requires |v| <= |results| && i <= |groups|
    ensures Exceeded(p, results, v, groups[..i]) <= Exceeded(p, results, v, groups)
  {
    hide Tally, Cap;
    var n := |groups| - 1;
    if i <= n {
      assert groups[..n][..i] == groups[..i];
      ExceededKeepsOrder(p, results, v, groups[..n], i);
    } else {
      assert groups[..i] == groups;
    }
  }

  /** Which results count towards a group. */
  lemma GroupsOf(r: Ranked, g: Group)
    ensures g in Groups(r) <==>
      match g
      case Domain(name) => name == DomainOf(r)
      case Provider(name) => name in r.providers
      case Type(name) => name == r.resultType
  {
    if g.Provider? && g.name in r.providers {
      var k :| 0 <= k < |r.providers| && r.providers[k] == g.name;
      assert Groups(r)[k + 1] == g;
    }
  }

  predicate ProvidersDistinct(r: Ranked) { Counting.AllDifferent(r.providers) }

  /** A result with distinct providers counts once towards each of its groups. */
  lemma CountsOnce(r: Ranked, g: Group)
    requires ProvidersDistinct(r)
    ensures multiset(Groups(r))[g] == if g in Groups(r) then 1 else 0
  {
    var groups := Groups(r);
    forall i, j | 0 <= i < j < |groups| ensures groups[i] != groups[j] {}
    Counting.DistinctBag(groups);
  }

  // ---- Caps ----

  function Over(tally: nat, cap: nat): nat { if tally > cap then tally - cap else 0 }

  /**
   * Every visible result of a group beyond its cap was let in by an override, and no override
   * is spent below the cap: the visible members number at most the cap plus the overrides.
   */
  lemma {:induction false} OverridesAreTheExcess(p: Policy, results: seq<Ranked>, n: nat, g: Group)
    requires n <= |results|
    requires forall r :: r in results ==> ProvidersDistinct(r)
    ensures var v := Verdicts(p, results, n);
      Overrides(v, g, 0, n) == Over(Tally(results, v, g), Cap(p, g))
  {
    if n > 0 {
      hide Groups, Exceeded, Cap, Judge, Tally, Over, ProvidersDistinct;
      OverridesAreTheExcess(p, results, n - 1, g);
      assert results[n - 1] in results;
      ExcessGrows(p, results, Verdicts(p, results, n - 1), g);
    }
  }

  /** One verdict keeps the balance between overrides and excess. */
  lemma ExcessGrows(p: Policy, results: seq<Ranked>, v: seq<Verdict>, g: Group)
    requires |v| < |results| && ProvidersDistinct(results[|v|])
    requires Overrides(v, g, 0, |v|) == Over(Tally(results, v, g), Cap(p, g))
    ensures var w := v + [Judge(p, results, v)];
      Overrides(w, g, 0, |w|) == Over(Tally(results, w, g), Cap(p, g))
  {
    hide Groups, Exceeded, Cap, Beats, ProvidersDistinct;
    var w := v + [Judge(p, results, v)];
    assert w[..|v|] == v == v[..|v|];
    OverridesOfPrefix(w, v, g, |v|);
    ExceededIff(p, results, v, Groups(results[|v|]), g);
    CountsOnce(results[|v|], g);
  }

  // ---- Overrides cost relevance ----

  /** A parsed web address has a non-empty host when it has one. */
  ghost predicate HostsNamed(results: seq<Ranked>) {
    forall r :: r in results ==> r.host != Some("")
  }

  lemma OverrideNeedsRival(p: Policy, results: seq<Ranked>, i: nat, g: Group)
    requires i < |results| && Overrode(Verdicts(p, results, |results|)[i], g)
    ensures g in Groups(results[i]) && Beats(p, results, i, g)
  {
    hide Groups, Beats, Exceeded;
    VerdictsArePrefixes(p, results, |results|, i);
    ExceededIff(p, results, Verdicts(p, results, i), Groups(results[i]), g);
  }

  lemma NoRivalNoOverride(p: Policy, results: seq<Ranked>, i: nat, g: Group)
    requires i < |results|
    requires forall k :: i < k < |results| ==> !Matches(g, results[k])
    ensures !Overrode(Verdicts(p, results, |results|)[i], g)
  {
    if Overrode(Verdicts(p, results, |results|)[i], g) {
      OverrideNeedsRival(p, results, i, g);
      NextIsFirstMatch(results, i, g);
      assert false;
    }
  }

  /** A result over the cap of a group it is the last competitor in is relegated. */
  lemma LastCompetitorIsRelegated(p: Policy, results: seq<Ranked>, i: nat, g: Group)
    requires i < |results|
    requires g in Verdicts(p, results, |results|)[i].exceeded
    requires forall k :: i < k < |results| ==> !Matches(g, results[k])
    ensures !Verdicts(p, results, |results|)[i].Visible()
  {
    hide Verdicts;
    NoRivalNoOverride(p, results, i, g);
  }

  /** Results without a host share a cap, which no relevance overrides. */
  lemma HostlessCapIsHard(p: Policy, results: seq<Ranked>)
    requires HostsNamed(results) && forall r :: r in results ==> ProvidersDistinct(r)
    ensures Tally(results, Verdicts(p, results, |results|), Domain("")) <= p.perDomain
  {
    hide Verdicts, Tally, Overrides, Groups, Beats, Over;
    var v := Verdicts(p, results, |results|);
    forall i | 0 <= i < |results| ensures !Overrode(v[i], Domain("")) {
      forall k | i < k < |results| ensures !Matches(Domain(""), results[k]) { assert results[k] in results; }
      NoRivalNoOverride(p, results, i, Domain(""));
    }
    NoOverrides(v, Domain(""), |results|);
    OverridesAreTheExcess(p, results, |results|, Domain(""));
    ExcessNone(Tally(results, v, Domain("")), p.perDomain);
  }

  lemma ExcessNone(tally: nat, cap: nat)
    requires Over(tally, cap) == 0
    ensures tally <= cap
  {}

  lemma {:induction false} NoOverrides(v: seq<Verdict>, g: Group, n: nat)
    requires n <= |v| && forall i :: 0 <= i < n ==> !Overrode(v[i], g)
    ensures Overrides(v, g, 0, n) == 0
  {
    if n > 0 { NoOverrides(v, g, n - 1); }
  }

  function Power(x: real, n: nat): real { if n == 0 then 1.0 else x * Power(x, n - 1) }

  ghost predicate Ranks(results: seq<Ranked>) {
    forall i, j :: 0 <= i < j < |results| ==> results[i].score >= results[j].score
  }

  ghost predicate LastMatch(results: seq<Ranked>, g: Group, last: nat) {
    last < |results| && Matches(g, results[last]) && forall k :: last < k < |results| ==> !Matches(g, results[k])
  }

  lemma OverriderMatches(p: Policy, results: seq<Ranked>, i: nat, g: Group, last: nat)
    requires HostsNamed(results) && LastMatch(results, g, last)
    requires i < |results| && Overrode(Verdicts(p, results, |results|)[i], g)
    ensures Matches(g, results[i]) && i < last
  {
    hide Verdicts;
    OverrideNeedsRival(p, results, i, g);
    GroupsOf(results[i], g);
    NextIsFirstMatch(results, i, g);
    assert results[i] in results && results[last] in results;
  }

  /** Between two competitors nothing is overridden. */
  lemma {:induction false} NoOverridesBetween(p: Policy, results: seq<Ranked>, i: nat, n: nat, g: Group, last: nat)
    requires HostsNamed(results) && LastMatch(results, g, last)
    requires i <= n <= |results| && forall k :: i <= k < n ==> !Matches(g, results[k])
    ensures var v := Verdicts(p, results, |results|);
      Overrides(v, g, i, |results|) == Overrides(v, g, n, |results|)
    decreases n - i
  {
    hide Verdicts, Matches, LastMatch, HostsNamed, Overrode;
    if i < n {
      var v := Verdicts(p, results, |results|);
      if Overrode(v[i], g) { OverriderMatches(p, results, i, g, last); }
      OverridesFromFirst(v, g, i, |results|);
      NoOverridesBetween(p, results, i + 1, n, g, last);
    }
  }

  lemma NoneAfterLast(p: Policy, results: seq<Ranked>, g: Group, last: nat)
    requires HostsNamed(results) && LastMatch(results, g, last)
    ensures Overrides(Verdicts(p, results, |results|), g, last, |results|) == 0
  {
    var v := Verdicts(p, results, |results|);
    NoOverridesBetween(p, results, last + 1, |results|, g, last);
    OverridesFromFirst(v, g, last, |results|);
    if Overrode(v[last], g) { OverriderMatches(p, results, last, g, last); }
  }

  lemma Scaled(r: real, a: real, b: real, c: real)
    requires r >= 1.0 && a >= b * r && b >= c
    ensures a >= r * c
  {}

  lemma Regroup(r: real, x: real, s: real)
    ensures r * (x * s) == (r * x) * s
  {}

  /**
   * On a ranked list, a result at or before `k` overrides of a group scores at least `ratio^k`
   * times the group's last competitor.
   */
  lemma {:induction false} OverridesCostRelevance(p: Policy, results: seq<Ranked>, i: nat, g: Group, last: nat)
    requires Validates(p) && Ranks(results) && HostsNamed(results) && LastMatch(results, g, last) && i <= last < |results|
    ensures var k := Overrides(Verdicts(p, results, |results|), g, i, |results|);
      results[i].score >= Power(p.ratio, k) * results[last].score
    decreases last - i
  {
    hide Verdicts, Matches, HostsNamed, Overrode, Overrides, Ranks, Validates, Next, Beats, LastMatch;
    var v := Verdicts(p, results, |results|);
    if i == last {
      NoneAfterLast(p, results, g, last);
    } else {
      OverridesFromFirst(v, g, i, |results|);
      if Overrode(v[i], g) {
        var n := RivalOf(p, results, i, g, last);
        OverridesCostRelevance(p, results, n, g, last);
        NoOverridesBetween(p, results, i + 1, n, g, last);
        var k := Overrides(v, g, n, |results|);
        Scaled(p.ratio, results[i].score, results[n].score, Power(p.ratio, k) * results[last].score);
        Regroup(p.ratio, Power(p.ratio, k), results[last].score);
      } else {
        OverridesCostRelevance(p, results, i + 1, g, last);
        Adjacent(results, i);
      }
    }
  }

  lemma Adjacent(results: seq<Ranked>, i: nat)
    requires Ranks(results) && i + 1 < |results|
    ensures results[i].score >= results[i + 1].score
  {}

  /** An override beats the next competitor by the ratio. */
  lemma RivalOf(p: Policy, results: seq<Ranked>, i: nat, g: Group, last: nat) returns (n: nat)
    requires Validates(p) && HostsNamed(results) && LastMatch(results, g, last)
    requires i < |results| && Overrode(Verdicts(p, results, |results|)[i], g)
    ensures i < n <= last && results[i].score >= results[n].score * p.ratio && p.ratio >= 1.0
    ensures forall k :: i < k < n ==> !Matches(g, results[k])
  {
    hide Verdicts, Matches;
    OverrideNeedsRival(p, results, i, g);
    NextIsFirstMatch(results, i, g);
    n := Next(results, i, g).value;
  }

  // ---- Which caps are broken ----

  /** How many of the first `n` results are shown and satisfy `f`. */
  function Shown(results: seq<Ranked>, v: seq<Verdict>, n: nat, f: Ranked -> bool): nat
    requires n <= |v| && n <= |results|
  {
    if n == 0 then 0 else Shown(results, v, n - 1, f) + if v[n - 1].Visible() && f(results[n - 1]) then 1 else 0
  }

  function CountsTowards(g: Group): Ranked -> bool {
    match g
    case Domain(name) => (r: Ranked) => DomainOf(r) == name
    case Provider(name) => (r: Ranked) => name in r.providers
    case Type(name) => (r: Ranked) => r.resultType == name
  }

  lemma {:induction false} TallyIsShown(results: seq<Ranked>, v: seq<Verdict>, n: nat, g: Group)
    requires n <= |v| <= |results| && forall r :: r in results ==> ProvidersDistinct(r)
    ensures Tally(results, v[..n], g) == Shown(results, v, n, CountsTowards(g))
  {
    hide Groups, ProvidersDistinct;
    if n > 0 {
      assert v[..n][..n - 1] == v[..n - 1];
      TallyIsShown(results, v, n - 1, g);
      CountsOnce(results[n - 1], g);
      GroupsOf(results[n - 1], g);
    }
  }

  lemma ExceedsIff(p: Policy, results: seq<Ranked>, i: nat, g: Group)
    requires i < |results| && forall r :: r in results ==> ProvidersDistinct(r)
    ensures var v := Verdicts(p, results, |results|);
      g in v[i].exceeded <==> CountsTowards(g)(results[i]) && Shown(results, v, i, CountsTowards(g)) >= Cap(p, g)
  {
    hide Groups, ProvidersDistinct, Cap, Exceeded, Tally;
    var v := Verdicts(p, results, |results|);
    VerdictsArePrefixes(p, results, |results|, i);
    ExceededIff(p, results, v[..i], Groups(results[i]), g);
    GroupsOf(results[i], g);
    TallyIsShown(results, v, i, g);
  }

  /** The result's address has this host, or none if the name is empty. */
  predicate OnHost(r: Ranked, name: string) { r.host == Some(name) || (r.host == None && name == "") }

  /**
   Which caps a result breaks: that of its domain, of each of its providers and of its type, when as
   many results as the policy allows are shown of that domain, provider or type before it.
   */
  lemma CapsReachedIff(p: Policy, results: seq<Ranked>, i: nat, name: string)
    requires i < |results| && forall r :: r in results ==> ProvidersDistinct(r)
    ensures var v := Verdicts(p, results, |results|);
      && (Domain(name) in v[i].exceeded <==> OnHost(results[i], name) && Shown(results, v, i, r => OnHost(r, name)) >= p.perDomain)
      && (Provider(name) in v[i].exceeded <==>
          name in results[i].providers && Shown(results, v, i, (r: Ranked) => name in r.providers) >= p.perProvider)
      && (Type(name) in v[i].exceeded <==>
          results[i].resultType == name && Shown(results, v, i, (r: Ranked) => r.resultType == name) >= p.perType)
  {
    hide ProvidersDistinct, Verdicts;
    var v := Verdicts(p, results, |results|);
    ExceedsIff(p, results, i, Domain(name));
    ExceedsIff(p, results, i, Provider(name));
    ExceedsIff(p, results, i, Type(name));
    ShownSame(results, v, i, CountsTowards(Domain(name)), r => OnHost(r, name));
    ShownSame(results, v, i, CountsTowards(Provider(name)), (r: Ranked) => name in r.providers);
    ShownSame(results, v, i, CountsTowards(Type(name)), (r: Ranked) => r.resultType == name);
  }

  lemma {:induction false} ShownSame(results: seq<Ranked>, v: seq<Verdict>, n: nat, f: Ranked -> bool, g: Ranked -> bool)
    requires n <= |v| && n <= |results| && forall r :: f(r) <==> g(r)
    ensures Shown(results, v, n, f) == Shown(results, v, n, g)
  {
    if n > 0 { ShownSame(results, v, n - 1, f, g); }
  }

  // ---- The record of decisions ----

  /** What is recorded of result `i` for a cap it broke. */
  ghost predicate Records(results: seq<Ranked>, i: nat, verdict: Verdict, d: Decision)
    requires i < |results|
  {
    && d.rank == i + 1 && d.score == results[i].score && d.overridden == verdict.overridden
    && d.group in verdict.exceeded
    && (d.comparator.Some? ==> exists k: nat :: NextRival(results, i, d.group, k) && d.comparator == Some(results[k].score))
    && (d.comparator.None? ==> forall k: nat :: !NextRival(results, i, d.group, k))
  }

  lemma ComparatorIs(results: seq<Ranked>, i: nat, verdict: Verdict, g: Group)
    requires i < |results| && g in verdict.exceeded
    ensures Records(results, i, verdict, Decision(i + 1, g, results[i].score, Comparator(results, i, g), verdict.overridden))
  {
    hide Matches;
    NextIsFirstMatch(results, i, g);
    var next := Next(results, i, g);
    if next.Some? { assert NextRival(results, i, g, next.value); }
  }

  function Breaches(v: seq<Verdict>): nat {
    if v == [] then 0 else Breaches(v[..|v| - 1]) + |v[|v| - 1].exceeded|
  }

  ghost predicate Recorded(results: seq<Ranked>, v: seq<Verdict>, n: nat, d: Decision)
    requires n <= |v| && n <= |results|
  {
    1 <= d.rank <= n && Records(results, d.rank - 1, v[d.rank - 1], d)
  }

  /** One decision per result and cap it breaks, in rank order, each with the score of the next rival if there is one. */
  lemma {:induction false} DecisionsRecord(results: seq<Ranked>, v: seq<Verdict>)
    requires |v| <= |results|
    ensures |Decisions(results, v)| == Breaches(v)
    ensures forall d :: d in Decisions(results, v) ==> Recorded(results, v, |v|, d)
    ensures forall j, k :: 0 <= j < k < |Decisions(results, v)| ==> Decisions(results, v)[j].rank <= Decisions(results, v)[k].rank
  {
    if v != [] {
      hide Records;
      var n := |v| - 1;
      DecisionsRecord(results, v[..n]);
      var before, now := Decisions(results, v[..n]), DecisionsFor(results, n, v[n].exceeded, v[n].overridden);
      DecisionsNow(results, n, v[n]);
      assert Decisions(results, v) == before + now;
      forall d | d in before ensures Recorded(results, v, |v|, d) {
        assert Recorded(results, v[..n], n, d);
      }
      forall j, k | 0 <= j < k < |before + now| ensures (before + now)[j].rank <= (before + now)[k].rank {
        if k >= |before| {
          assert now[k - |before|] in now;
          if j < |before| { assert before[j] in before; } else { assert now[j - |before|] in now; }
        }
      }
    }
  }

  lemma DecisionsNow(results: seq<Ranked>, n: nat, verdict: Verdict)
    requires n < |results|
    ensures var now := DecisionsFor(results, n, verdict.exceeded, verdict.overridden);
      && |now| == |verdict.exceeded|
      && forall d :: d in now ==> d.rank == n + 1 && Records(results, n, verdict, d)
  {
    hide Records, Comparator;
    var now := DecisionsFor(results, n, verdict.exceeded, verdict.overridden);
    forall d | d in now ensures Records(results, n, verdict, d) {
      var k :| 0 <= k < |now| && now[k] == d;
      ComparatorIs(results, n, verdict, verdict.exceeded[k]);
    }
  }

  /** Every cap that a result breaks is recorded. */
  lemma {:induction false} EveryBreachIsRecorded(results: seq<Ranked>, v: seq<Verdict>, i: nat, g: Group)
    requires i < |v| <= |results| && g in v[i].exceeded
    ensures exists d :: d in Decisions(results, v) && d.rank == i + 1 && d.group == g
  {
    var n := |v| - 1;
    var before, now := Decisions(results, v[..n]), DecisionsFor(results, n, v[n].exceeded, v[n].overridden);
    if i < n {
      assert v[..n][i] == v[i];
      EveryBreachIsRecorded(results, v[..n], i, g);
      var d :| d in before && d.rank == i + 1 && d.group == g;
      assert d in before + now;
    } else {
      var k :| 0 <= k < |v[n].exceeded| && v[n].exceeded[k] == g;
      assert now[k] in before + now;
    }
  }

  /** The policy in force always has positive caps and a ratio of at least one; an invalid one is replaced by the default. */
  lemma PolicyInForce(p: Policy)
    ensures var e := Effective(p);
      && e.version == "v1" && e.perDomain > 0 && e.perProvider > 0 && e.perType > 0 && e.ratio >= 1.0
      && (e == p || e == Policy("v1", 2, 5, 6, 1.15))
      && (p.version == "v1" && p.perDomain > 0 && p.perProvider > 0 && p.perType > 0 && p.ratio >= 1.0 ==> e == p)
  {}
}
