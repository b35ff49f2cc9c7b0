/** Reserving provider calls for one round (planning.rs). */
module Planning {
  import opened Budgets
  import opened Counting

  function Keep(names: seq<string>, kept: set<string>): seq<string> {
    if names == [] then [] else (if names[0] in kept then [names[0]] else []) + Keep(names[1..], kept)
  }

  /** How many reservations succeed. */
  function Reserved(selected: seq<string>, remaining: nat): nat { Min(|selected|, remaining) }

  /** The providers a plan runs when `remaining` calls are left. */
  function Planned(selected: seq<string>, remaining: nat): seq<string> {
    Keep(selected, SetOf(selected[..Reserved(selected, remaining)]))
  }

  method BuildSearchPlan(selected: seq<string>, budget: Budget) returns (plan: seq<string>)
    requires budget.Valid()
    modifies budget
    ensures budget.Valid()
    ensures plan == Planned(selected, old(budget.remainingProviderCalls))
    ensures budget.remainingProviderCalls ==
      old(budget.remainingProviderCalls) - Reserved(selected, old(budget.remainingProviderCalls))
  {
    var budgets: map<string, nat> := map[];
    for i := 0 to |selected|
      invariant budget.Valid()
      invariant budget.remainingProviderCalls ==
        old(budget.remainingProviderCalls) - Min(i, old(budget.remainingProviderCalls))
      invariant budgets.Keys == SetOf(selected[..Min(i, old(budget.remainingProviderCalls))])
    {
      var r := budget.ReserveProvider();
      if r.Ok? {
        assert selected[..i + 1] == selected[..i] + [selected[i]];
        budgets := budgets[selected[i] := 1];
      }
    }
    plan := Keep(selected, budgets.Keys);
  }

  lemma {:induction false} KeepAll(names: seq<string>, kept: set<string>, all: bool)
    requires forall x :: x in names ==> (x in kept) == all
    ensures Keep(names, kept) == if all then names else []
  {
    if names != [] {
      assert names == [names[0]] + names[1..];
      KeepAll(names[1..], kept, all);
    }
  }

  lemma KeepStep(x: string, rest: seq<string>, kept: set<string>)
    ensures Keep([x] + rest, kept) == (if x in kept then [x] else []) + Keep(rest, kept)
  {
    assert ([x] + rest)[1..] == rest;
  }

  lemma {:induction false} KeepJoins(xs: seq<string>, ys: seq<string>, kept: set<string>)
    ensures Keep(xs + ys, kept) == Keep(xs, kept) + Keep(ys, kept)
  {
    if xs == [] {
      assert xs + ys == ys;
    } else {
      KeepJoins(xs[1..], ys, kept);
      KeepStep(xs[0], xs[1..], kept);
      KeepStep(xs[0], xs[1..] + ys, kept);
      assert [xs[0]] + xs[1..] == xs && [xs[0]] + (xs[1..] + ys) == xs + ys;
    }
  }

  lemma PlanSplits(selected: seq<string>, remaining: nat)
    ensures var n := Reserved(selected, remaining);
      Planned(selected, remaining) == selected[..n] + Keep(selected[n..], SetOf(selected[..n]))
  {
    var n := Reserved(selected, remaining);
    assert selected == selected[..n] + selected[n..];
    KeepJoins(selected[..n], selected[n..], SetOf(selected[..n]));
    KeepAll(selected[..n], SetOf(selected[..n]), true);
  }

  /** Distinct names: the plan is the longest affordable prefix, one reserved call each. */
  lemma PlanIsAffordablePrefix(selected: seq<string>, remaining: nat)
    requires AllDifferent(selected)
    ensures Planned(selected, remaining) == selected[..Reserved(selected, remaining)]
  {
    var n := Reserved(selected, remaining);
    PlanSplits(selected, remaining);
    KeepAll(selected[n..], SetOf(selected[..n]), false);
  }

  /** Every planned call was paid for, whatever the budget, exactly when no name is selected twice. */
  lemma PlanIsPaidForIffDistinct(selected: seq<string>)
    ensures (forall remaining: nat :: |Planned(selected, remaining)| == Reserved(selected, remaining)) <==> AllDifferent(selected)
  {
    if AllDifferent(selected) {
      forall remaining: nat ensures |Planned(selected, remaining)| == Reserved(selected, remaining) {
        PlanIsAffordablePrefix(selected, remaining);
      }
    } else {
      var i, j :| 0 <= i < j < |selected| && selected[i] == selected[j];
      PlanSplits(selected, j);
      var rest, kept := selected[j..], SetOf(selected[..j]);
      assert selected[i] in selected[..j];
      assert rest[0] in kept;
      assert |Keep(rest, kept)| > 0;
      assert |Planned(selected, j)| > Reserved(selected, j);
    }
  }
}
