/** Call and resource budgets (budget.rs). */
module Budgets {
  import opened Wrappers

  datatype Cause = ProviderLimit | FetchLimit | CrawlLimit | ByteLimit | RedirectLimit
                 | BrowserLimit | SubqueryLimit | CostLimit

  const U32_MAX := 0xFFFF_FFFF
  const MAX_SUBQUERIES := 2

  function Min(a: nat, b: nat): nat { if a <= b then a else b }

  /** The provider calls of one search. */
  class Budget {
    const maxProviderCalls: nat
    var remainingProviderCalls: nat

    ghost predicate Valid() reads this {
      remainingProviderCalls <= maxProviderCalls
    }

    constructor (maxProviderCalls: nat)
      ensures Valid() && this.maxProviderCalls == maxProviderCalls && remainingProviderCalls == maxProviderCalls
    {
      this.maxProviderCalls := maxProviderCalls;
      remainingProviderCalls := maxProviderCalls;
    }

    method ReserveProvider() returns (r: Result<(), Cause>)
      requires Valid()
      modifies this
      ensures Valid()
      ensures r == if old(remainingProviderCalls) == 0 then Err(ProviderLimit) else Ok(())
      ensures remainingProviderCalls == if r.Ok? then old(remainingProviderCalls) - 1 else old(remainingProviderCalls)
    {
      if remainingProviderCalls == 0 { return Err(ProviderLimit); }
      remainingProviderCalls := remainingProviderCalls - 1;
      return Ok(());
    }
  }

  /** What is left of the resources of one deep run. */
  datatype Snapshot = Snapshot(
    fetches: nat, bytes: nat, redirects: nat, browserCalls: nat, crawlUrls: nat, subqueries: nat, cost: nat)

  datatype Limits = Limits(fetches: nat, browserCalls: nat, crawlUrls: nat)

  ghost predicate Within(s: Snapshot, max: Limits) {
    && s.fetches <= max.fetches <= U32_MAX
    && s.browserCalls <= max.browserCalls <= U32_MAX
    && s.crawlUrls <= max.crawlUrls <= U32_MAX
  }

  function ReserveFetchOf(s: Snapshot): (Result<nat, Cause>, Snapshot) {
    if s.fetches == 0 then (Err(FetchLimit), s)
    else if s.crawlUrls == 0 then (Err(CrawlLimit), s)
    else if s.bytes == 0 then (Err(ByteLimit), s)
    else (Ok(s.bytes), s.(fetches := s.fetches - 1, crawlUrls := s.crawlUrls - 1))
  }

  function ConsumeFetchOf(s: Snapshot, bytes: nat, redirects: nat): (Result<(), Cause>, Snapshot) {
    if bytes > s.bytes then (Err(ByteLimit), s)
    else if redirects > s.redirects then (Err(RedirectLimit), s)
    else (Ok(()), s.(bytes := s.bytes - bytes, redirects := s.redirects - redirects))
  }

  function Saturating(n: nat): nat { Min(n + 1, U32_MAX) }

  function ReleaseFetchOf(s: Snapshot, max: Limits): Snapshot {
    s.(fetches := Min(Saturating(s.fetches), max.fetches),
       crawlUrls := Min(Saturating(s.crawlUrls), max.crawlUrls))
  }

  function ReserveBrowserOf(s: Snapshot): (Result<(), Cause>, Snapshot) {
    if s.browserCalls == 0 then (Err(BrowserLimit), s)
    else (Ok(()), s.(browserCalls := s.browserCalls - 1))
  }

  function ReleaseBrowserOf(s: Snapshot, max: Limits): Snapshot {
    s.(browserCalls := Min(Saturating(s.browserCalls), max.browserCalls))
  }

  function ReserveSubqueryOf(s: Snapshot, cost: nat): (Result<(), Cause>, Snapshot) {
    if s.subqueries == 0 then (Err(SubqueryLimit), s)
    else if cost > s.cost then (Err(CostLimit), s)
    else (Ok(()), s.(subqueries := s.subqueries - 1, cost := s.cost - cost))
  }

  /** A refund undoes the reservation exactly; it never creates budget. */
  lemma RefundUndoesReservation(s: Snapshot, max: Limits)
    requires Within(s, max)
    ensures var (r, after) := ReserveFetchOf(s); r.Ok? ==> ReleaseFetchOf(after, max) == s
    ensures var (r, after) := ReserveBrowserOf(s); r.Ok? ==> ReleaseBrowserOf(after, max) == s
    ensures Within(ReleaseFetchOf(s, max), max) && Within(ReleaseBrowserOf(s, max), max)
  {}

  /** A charge no larger than the limits read off the same snapshot is always accepted. */
  lemma ChargeWithinLimitsSucceeds(s: Snapshot, perFetchBytes: nat, maxRedirects: nat, bytes: nat, redirects: nat)
    requires bytes <= Min(s.bytes, perFetchBytes) && redirects <= Min(s.redirects, maxRedirects)
    ensures ConsumeFetchOf(s, bytes, redirects).0.Ok?
  {}

  class DeepBudget {
    var snapshot: Snapshot
    const max: Limits

    /** Never above the initial limits, and never more than the two subqueries any run may send. */
    ghost predicate Valid() reads this { Within(snapshot, max) && snapshot.subqueries <= MAX_SUBQUERIES }

    constructor (fetches: nat, bytes: nat, redirects: nat, browserCalls: nat, crawlUrls: nat, subqueries: nat, cost: nat)
      requires fetches <= U32_MAX && browserCalls <= U32_MAX && crawlUrls <= U32_MAX
      ensures Valid() && max == Limits(fetches, browserCalls, crawlUrls)
      ensures snapshot == Snapshot(fetches, bytes, redirects, browserCalls, crawlUrls, Min(subqueries, MAX_SUBQUERIES), cost)
    {
      snapshot := Snapshot(fetches, bytes, redirects, browserCalls, crawlUrls, Min(subqueries, MAX_SUBQUERIES), cost);
      max := Limits(fetches, browserCalls, crawlUrls);
    }

    method ReserveFetch() returns (r: Result<nat, Cause>)
      requires Valid()
      modifies this`snapshot
      ensures Valid() && (r, snapshot) == ReserveFetchOf(old(snapshot))
    {
      if snapshot.fetches == 0 { return Err(FetchLimit); }
      if snapshot.crawlUrls == 0 { return Err(CrawlLimit); }
      if snapshot.bytes == 0 { return Err(ByteLimit); }
      snapshot := snapshot.(fetches := snapshot.fetches - 1);
      snapshot := snapshot.(crawlUrls := snapshot.crawlUrls - 1);
      return Ok(snapshot.bytes);
    }

    method ConsumeFetch(bytes: nat, redirects: nat) returns (r: Result<(), Cause>)
      requires Valid()
      modifies this`snapshot
      ensures Valid() && (r, snapshot) == ConsumeFetchOf(old(snapshot), bytes, redirects)
    {
      if bytes > snapshot.bytes { return Err(ByteLimit); }
      if redirects > snapshot.redirects { return Err(RedirectLimit); }
      snapshot := snapshot.(bytes := snapshot.bytes - bytes);
      snapshot := snapshot.(redirects := snapshot.redirects - redirects);
      return Ok(());
    }

    method ReleaseFetch()
      requires Valid()
      modifies this`snapshot
      ensures Valid() && snapshot == ReleaseFetchOf(old(snapshot), max)
    {
      snapshot := snapshot.(fetches := Min(Saturating(snapshot.fetches), max.fetches));
      snapshot := snapshot.(crawlUrls := Min(Saturating(snapshot.crawlUrls), max.crawlUrls));
    }

    method ReserveBrowser() returns (r: Result<(), Cause>)
      requires Valid()
      modifies this`snapshot
      ensures Valid() && (r, snapshot) == ReserveBrowserOf(old(snapshot))
    {
      if snapshot.browserCalls == 0 { return Err(BrowserLimit); }
      snapshot := snapshot.(browserCalls := snapshot.browserCalls - 1);
      return Ok(());
    }

    method ReleaseBrowser()
      requires Valid()
      modifies this`snapshot
      ensures Valid() && snapshot == ReleaseBrowserOf(old(snapshot), max)
    {
      snapshot := snapshot.(browserCalls := Min(Saturating(snapshot.browserCalls), max.browserCalls));
    }

    method ReserveSubquery(cost: nat) returns (r: Result<(), Cause>)
      requires Valid()
      modifies this`snapshot
      ensures Valid() && (r, snapshot) == ReserveSubqueryOf(old(snapshot), cost)
    {
      if snapshot.subqueries == 0 { return Err(SubqueryLimit); }
      if cost > snapshot.cost { return Err(CostLimit); }
      snapshot := snapshot.(subqueries := snapshot.subqueries - 1);
      snapshot := snapshot.(cost := snapshot.cost - cost);
      return Ok(());
    }
  }
}
