module DeepProperties {
  // What every crawl keeps: balanced books, links enqueued once and breadth first, no rejected charge.

  import opened Budgets
  import opened Fetching
  import opened Deep

  lemma RenderBalances(max: Limits, t: Turn, s: Snapshot)
    requires Within(s, max)
    ensures var e := RenderAgainOf(max, t, s);
      && Balanced(s, e.snapshot, e.charges) && Within(e.snapshot, max) && Spent(e.charges).fetches == 0
      && (forall d :: d in e.degradations ==> !d.FetchOverBudget?) && e.documents == []
  {
    hide Balanced, Spent;
    NothingBalances(s);
    ReservationBalances(s);
    RefundUndoesReservation(s, max);
    SpentOne(BrowserCall);
    assert Spent([]) == NOTHING by { SpentNothing(); }
    var s1 := ReserveBrowserOf(s).1;
    if ReserveBrowserOf(s).0.Ok? && t.rendering.Rendered? {
      var bytes := t.rendering.bytes;
      ConsumptionBalances(s1, bytes, 0);
      SpentOne(Transfer(bytes, 0));
      SpentJoins([BrowserCall], [Transfer(bytes, 0)]);
      assert [BrowserCall] + [Transfer(bytes, 0)] == [BrowserCall, Transfer(bytes, 0)];
      if ConsumeFetchOf(s1, bytes, 0).0.Ok? {
        BalancesChain(s, s1, ConsumeFetchOf(s1, bytes, 0).1, [BrowserCall], [Transfer(bytes, 0)]);
      }
    }
  }

  lemma SpentNothing()
    ensures Spent([]) == NOTHING
  {}

  lemma AcquireBalances(cfg: Settings, max: Limits, t: Turn, c: Candidate, status: nat, s: Snapshot)
    requires Within(s, max)
    ensures var e := AcquireOf(cfg, max, t, c, status, s);
      && Balanced(s, e.snapshot, e.charges) && Within(e.snapshot, max) && Spent(e.charges).fetches == 0
      && (forall d :: d in e.degradations ==> !d.FetchOverBudget?) && |e.documents| <= 1
  {
    hide Balanced, RenderAgainOf;
    NothingBalances(s);
    RenderBalances(max, t, s);
  }

  /** A fetch that comes back within the limits it was given is never refused by the budget afterwards. */
  lemma FetchIsAlwaysAffordable(s: Snapshot, cfg: Settings, hops: nat -> Hop, url: string)
    ensures var (reserved, s1) := ReserveFetchOf(s);
      reserved.Ok? ==>
        var fetch := FetchFrom(hops, url, [], Min(reserved.value, cfg.perFetchBytes), Min(s1.redirects, cfg.maxRedirects));
        fetch.Ok? ==> ConsumeFetchOf(s1, |fetch.value.body|, |fetch.value.redirectChain|).0.Ok?
  {
    var (reserved, s1) := ReserveFetchOf(s);
    if reserved.Ok? {
      FetchedWithinLimits(hops, url, [], Min(reserved.value, cfg.perFetchBytes), Min(s1.redirects, cfg.maxRedirects));
    }
  }

  lemma VisitBalances(cfg: Settings, max: Limits, t: Turn, c: Candidate, s: Snapshot)
    requires Within(s, max)
    ensures var e := VisitOf(cfg, max, t, c, s);
      && Balanced(s, e.snapshot, e.charges) && Within(e.snapshot, max)
      && (forall d :: d in e.degradations ==> !d.FetchOverBudget?)
      && |e.documents| <= Spent(e.charges).fetches
  {
    hide Balanced, AcquireOf, FetchFrom, Spent;
    NothingBalances(s);
    ReservationBalances(s);
    RefundUndoesReservation(s, max);
    FetchIsAlwaysAffordable(s, cfg, t.hops, c.url);
    SpentNothing();
    SpentOne(FetchCall);
    var (reserved, s1) := ReserveFetchOf(s);
    if reserved.Ok? {
      var fetch := FetchFrom(t.hops, c.url, [], Min(reserved.value, cfg.perFetchBytes), Min(s1.redirects, cfg.maxRedirects));
      if fetch.Ok? {
        var transfer := Transfer(|fetch.value.body|, |fetch.value.redirectChain|);
        var s2 := ConsumeFetchOf(s1, |fetch.value.body|, |fetch.value.redirectChain|).1;
        var page := AcquireOf(cfg, max, t, c, fetch.value.status, s2);
        assert [FetchCall, transfer] == [FetchCall] + [transfer];
        ConsumptionBalances(s1, |fetch.value.body|, |fetch.value.redirectChain|);
        BalancesChain(s, s1, s2, [FetchCall], [transfer]);
        AcquireBalances(cfg, max, t, c, fetch.value.status, s2);
        BalancesChain(s, s2, page.snapshot, [FetchCall, transfer], page.charges);
        SpentOne(transfer);
        SpentJoins([FetchCall], [transfer]);
        SpentJoins([FetchCall, transfer], page.charges);
      }
    }
  }

  // ---- Invariants of the queue ----

  function Keys(found: seq<Candidate>): set<string> { set c | c in found :: c.url }

  function Urls(roots: seq<Candidate>): set<string> { set c | c in roots :: c.url }

  /** What is fetched for the links found. */
  function Fetchable(found: seq<Candidate>): seq<Candidate> {
    seq(|found|, i requires 0 <= i < |found| => Candidate(DropFragment(found[i].url), found[i].depth))
  }

  /** Everything ever enqueued, in order. */
  function History(roots: seq<Candidate>, found: seq<Candidate>): seq<Candidate> { roots + Fetchable(found) }

  /** Every link is enqueued once, is none of the starting points, and lies within the depth limit. */
  ghost predicate LinksOnce(roots: seq<Candidate>, maxDepth: nat, crawl: Crawl) {
    && crawl.visited == Urls(roots) + Keys(crawl.found)
    && (forall i, j :: 0 <= i < j < |crawl.found| ==> crawl.found[i].url != crawl.found[j].url)
    && (forall c :: c in crawl.found ==> c.url !in Urls(roots) && 1 <= c.depth <= maxDepth)
  }

  /** The queue is what has been enqueued and not yet visited; depths never decrease along it. */
  ghost predicate BreadthFirst(roots: seq<Candidate>, crawl: Crawl) {
    var all := History(roots, crawl.found);
    && crawl.turn <= |all| && crawl.queue == all[crawl.turn..]
    && (forall i, j :: 0 <= i < j < |all| ==> all[i].depth <= all[j].depth)
    && (forall i :: 0 <= i < |all| ==> all[i].depth <= if crawl.turn == 0 then 0 else all[crawl.turn - 1].depth + 1)
  }

  ghost predicate BooksKept(max: Limits, start: Snapshot, crawl: Crawl) {
    && Balanced(start, crawl.snapshot, crawl.charges) && Within(crawl.snapshot, max)
    && (forall d :: d in crawl.degradations ==> !d.FetchOverBudget?)
    && |crawl.documents| <= Spent(crawl.charges).fetches
  }

  ghost predicate QueueKept(cfg: Settings, roots: seq<Candidate>, crawl: Crawl) {
    LinksOnce(roots, cfg.maxDepth, crawl) && BreadthFirst(roots, crawl)
  }

  lemma KeysGrow(found: seq<Candidate>, c: Candidate)
    ensures Keys(found + [c]) == Keys(found) + {c.url}
    ensures Fetchable(found + [c]) == Fetchable(found) + [Candidate(DropFragment(c.url), c.depth)]
    ensures forall d :: d in found ==> d.url in Keys(found)
  {}

  lemma LinkAddedOnce(roots: seq<Candidate>, maxDepth: nat, crawl: Crawl, next: Crawl, link: string, depth: nat)
    requires LinksOnce(roots, maxDepth, crawl) && link !in crawl.visited && 1 <= depth <= maxDepth
    requires next.visited == crawl.visited + {link} && next.found == crawl.found + [Candidate(link, depth)]
    ensures LinksOnce(roots, maxDepth, next)
  {
    KeysGrow(crawl.found, Candidate(link, depth));
    forall i | 0 <= i < |crawl.found| ensures crawl.found[i].url != link {
      assert crawl.found[i] in crawl.found;
    }
  }

  lemma LinkAddedLast(roots: seq<Candidate>, crawl: Crawl, next: Crawl, link: string, depth: nat)
    requires BreadthFirst(roots, crawl) && 0 < crawl.turn && depth == History(roots, crawl.found)[crawl.turn - 1].depth + 1
    requires next.turn == crawl.turn && next.found == crawl.found + [Candidate(link, depth)]
    requires next.queue == crawl.queue + [Candidate(DropFragment(link), depth)]
    ensures BreadthFirst(roots, next)
  {
    var all, more := History(roots, crawl.found), History(roots, next.found);
    assert more == all + [Candidate(DropFragment(link), depth)] by {
      KeysGrow(crawl.found, Candidate(link, depth));
    }
    assert more[crawl.turn..] == all[crawl.turn..] + [Candidate(DropFragment(link), depth)];
  }

  lemma LinkAdded(cfg: Settings, roots: seq<Candidate>, crawl: Crawl, link: string, depth: nat)
    requires QueueKept(cfg, roots, crawl) && link !in crawl.visited && 1 <= depth <= cfg.maxDepth
    requires 0 < crawl.turn <= |History(roots, crawl.found)|
    requires depth == History(roots, crawl.found)[crawl.turn - 1].depth + 1
    ensures QueueKept(cfg, roots, crawl.(
      visited := crawl.visited + {link}, found := crawl.found + [Candidate(link, depth)],
      queue := crawl.queue + [Candidate(DropFragment(link), depth)]))
  {
    hide LinksOnce, BreadthFirst;
    var next := crawl.(
      visited := crawl.visited + {link}, found := crawl.found + [Candidate(link, depth)],
      queue := crawl.queue + [Candidate(DropFragment(link), depth)]);
    LinkAddedOnce(roots, cfg.maxDepth, crawl, next, link, depth);
    LinkAddedLast(roots, crawl, next, link, depth);
  }

  lemma {:induction false} EnqueueKeepsQueue(cfg: Settings, roots: seq<Candidate>, crawl: Crawl, links: seq<string>, depth: nat)
    requires QueueKept(cfg, roots, crawl) && 1 <= depth <= cfg.maxDepth
    requires 0 < crawl.turn <= |History(roots, crawl.found)|
    requires depth == History(roots, crawl.found)[crawl.turn - 1].depth + 1
    ensures var e := Enqueue(links, depth, crawl);
      && QueueKept(cfg, roots, e) && e.turn == crawl.turn && crawl.turn <= |History(roots, e.found)|
      && depth == History(roots, e.found)[e.turn - 1].depth + 1
  {
    hide QueueKept;
    if links != [] {
      var front, link := links[..|links| - 1], links[|links| - 1];
      EnqueueKeepsQueue(cfg, roots, crawl, front, depth);
      var before := Enqueue(front, depth, crawl);
      if link !in before.visited {
        LinkAdded(cfg, roots, before, link, depth);
        KeysGrow(before.found, Candidate(link, depth));
      }
    }
  }

  lemma PoppingKeepsQueue(cfg: Settings, roots: seq<Candidate>, crawl: Crawl, e: Effect<Outcome>)
    requires QueueKept(cfg, roots, crawl) && crawl.queue != []
    ensures QueueKept(cfg, roots, Popped(crawl, e))
    ensures crawl.turn < |History(roots, crawl.found)| && History(roots, crawl.found)[crawl.turn] == crawl.queue[0]
  {
    var all, next := History(roots, crawl.found), Popped(crawl, e);
    assert all[crawl.turn..][1..] == all[crawl.turn + 1..];
    assert all[crawl.turn] == crawl.queue[0];
    if crawl.turn > 0 { assert all[crawl.turn - 1].depth <= all[crawl.turn].depth; }
  }

  lemma TurnKeepsQueue(cfg: Settings, max: Limits, turns: nat -> Turn, roots: seq<Candidate>, crawl: Crawl)
    requires QueueKept(cfg, roots, crawl) && crawl.queue != []
    ensures QueueKept(cfg, roots, AfterTurn(cfg, max, turns, crawl))
  {
    hide VisitOf, QueueKept;
    var c := crawl.queue[0];
    var e := VisitOf(cfg, max, TurnAt(turns, crawl.turn), c, crawl.snapshot);
    VisitSpendsForLinks(cfg, max, TurnAt(turns, crawl.turn), c, crawl.snapshot);
    PoppingKeepsQueue(cfg, roots, crawl, e);
    if e.value.GoOn? && e.value.links != [] {
      EnqueueKeepsQueue(cfg, roots, Popped(crawl, e), e.value.links, c.depth + 1);
    }
  }

  lemma TurnKeepsBooks(cfg: Settings, max: Limits, turns: nat -> Turn, start: Snapshot, crawl: Crawl)
    requires BooksKept(max, start, crawl) && crawl.queue != []
    ensures BooksKept(max, start, AfterTurn(cfg, max, turns, crawl))
  {
    hide VisitOf, Spent, Balanced;
    var c := crawl.queue[0];
    var e := VisitOf(cfg, max, TurnAt(turns, crawl.turn), c, crawl.snapshot);
    VisitBalances(cfg, max, TurnAt(turns, crawl.turn), c, crawl.snapshot);
    BalancesChain(start, crawl.snapshot, e.snapshot, crawl.charges, e.charges);
    SpentJoins(crawl.charges, e.charges);
    if e.value.GoOn? { EnqueueKeeps(e.value.links, c.depth + 1, Popped(crawl, e)); }
  }

  lemma {:induction false} CrawlKeeps(cfg: Settings, max: Limits, turns: nat -> Turn, roots: seq<Candidate>, start: Snapshot, crawl: Crawl)
    requires QueueKept(cfg, roots, crawl) && BooksKept(max, start, crawl)
    ensures var last := Crawled(cfg, max, turns, crawl);
      QueueKept(cfg, roots, last) && BooksKept(max, start, last) && (last.queue == [] || last.stopped)
    decreases crawl.snapshot.fetches, |crawl.queue|
  {
    hide AfterTurn, QueueKept, BooksKept;
    CrawledUnfolds(cfg, max, turns, crawl);
    if crawl.queue != [] && !crawl.stopped {
      TurnDecreases(cfg, max, turns, crawl);
      TurnKeepsQueue(cfg, max, turns, roots, crawl);
      TurnKeepsBooks(cfg, max, turns, start, crawl);
      CrawlKeeps(cfg, max, turns, roots, start, AfterTurn(cfg, max, turns, crawl));
    }
  }

  /**
   Every crawl: spending plus what is left equals the initial budget, no fetch is refused after the
   fact, there is at most one document per paid fetch, links are enqueued once and visited breadth
   first within the depth limit, and the crawl ends with the queue worked off or a stop.
   */
  lemma EveryCrawl(cfg: Settings, max: Limits, turns: nat -> Turn, candidates: seq<string>, start: Snapshot)
    requires Within(start, max)
    ensures var last := Crawled(cfg, max, turns, Begin(candidates, cfg.topK, start));
      && QueueKept(cfg, Roots(candidates[..Min(|candidates|, cfg.topK)]), last)
      && BooksKept(max, start, last) && (last.queue == [] || last.stopped)
  {
    var roots := candidates[..Min(|candidates|, cfg.topK)];
    var crawl := Begin(candidates, cfg.topK, start);
    NothingBalances(start);
    assert Urls(Roots(roots)) == set url | url in roots by {
      forall url | url in roots ensures url in Urls(Roots(roots)) {
        var i :| 0 <= i < |roots| && roots[i] == url;
        assert Roots(roots)[i] in Roots(roots);
      }
    }
    assert History(Roots(roots), []) == Roots(roots);
    CrawlKeeps(cfg, max, turns, Roots(roots), start, crawl);
  }

  /** No resource is ever overdrawn. */
  lemma BalancedIsWithinBudget(start: Snapshot, left: Snapshot, charges: seq<Charge>)
    requires Balanced(start, left, charges)
    ensures var spent := Spent(charges);
      && spent.fetches <= start.fetches && spent.bytes <= start.bytes && spent.redirects <= start.redirects
      && spent.browserCalls <= start.browserCalls && spent.crawlUrls <= start.crawlUrls
      && spent.subqueries <= start.subqueries && spent.cost <= start.cost
  {}
}
