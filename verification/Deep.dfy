module Deep {
  // The deep crawl (deep.rs).
  //
  // A queue that grows while it is worked off, under a budget of fetches, bytes, redirects,
  // browser calls, subqueries and cost.

  import opened Budgets
  import opened Fetching

  // ---- Spending ----

  /** What a run has paid for and not got back. */
  datatype Charge = FetchCall | Transfer(bytes: nat, redirects: nat) | BrowserCall | SubqueryCall(cost: nat)

  const NOTHING := Snapshot(0, 0, 0, 0, 0, 0, 0)

  function Plus(a: Snapshot, b: Snapshot): Snapshot {
    Snapshot(a.fetches + b.fetches, a.bytes + b.bytes, a.redirects + b.redirects, a.browserCalls + b.browserCalls,
             a.crawlUrls + b.crawlUrls, a.subqueries + b.subqueries, a.cost + b.cost)
  }

  function Price(c: Charge): Snapshot {
    match c
    case FetchCall => NOTHING.(fetches := 1, crawlUrls := 1)
    case Transfer(bytes, redirects) => NOTHING.(bytes := bytes, redirects := redirects)
    case BrowserCall => NOTHING.(browserCalls := 1)
    case SubqueryCall(cost) => NOTHING.(subqueries := 1, cost := cost)
  }

  function Spent(charges: seq<Charge>): Snapshot {
    if charges == [] then NOTHING else Plus(Spent(charges[..|charges| - 1]), Price(charges[|charges| - 1]))
  }

  lemma PlusIsAssociative(a: Snapshot, b: Snapshot, c: Snapshot)
    ensures Plus(a, Plus(b, c)) == Plus(Plus(a, b), c) && Plus(b, c) == Plus(c, b) && Plus(a, NOTHING) == a
  {}

  lemma {:induction false} SpentJoins(a: seq<Charge>, b: seq<Charge>)
    ensures Spent(a + b) == Plus(Spent(a), Spent(b))
  {
    hide Plus, Price;
    if b == [] {
      assert a + b == a;
      PlusIsAssociative(Spent(a), NOTHING, NOTHING);
    } else {
      var front, last := b[..|b| - 1], b[|b| - 1];
      assert (a + b)[..|a + b| - 1] == a + front && (a + b)[|a + b| - 1] == last;
      SpentJoins(a, front);
      PlusIsAssociative(Spent(a), Spent(front), Price(last));
    }
  }

  /** What was there before is what is left plus what was paid for. */
  ghost predicate Balanced(before: Snapshot, after: Snapshot, charges: seq<Charge>) {
    before == Plus(after, Spent(charges))
  }

  lemma BalancesChain(a: Snapshot, b: Snapshot, c: Snapshot, first: seq<Charge>, second: seq<Charge>)
    requires Balanced(a, b, first) && Balanced(b, c, second)
    ensures Balanced(a, c, first + second)
  {
    hide Plus, Spent;
    SpentJoins(first, second);
    PlusIsAssociative(c, Spent(second), Spent(first));
  }

  lemma NothingBalances(s: Snapshot)
    ensures Balanced(s, s, [])
  {}

  lemma ReservationBalances(s: Snapshot)
    ensures var (r, after) := ReserveFetchOf(s); if r.Ok? then Balanced(s, after, [FetchCall]) else after == s
    ensures var (r, after) := ReserveBrowserOf(s); if r.Ok? then Balanced(s, after, [BrowserCall]) else after == s
  {
    SpentOne(FetchCall);
    SpentOne(BrowserCall);
  }

  lemma ConsumptionBalances(s: Snapshot, bytes: nat, redirects: nat)
    ensures var (r, after) := ConsumeFetchOf(s, bytes, redirects);
      if r.Ok? then Balanced(s, after, [Transfer(bytes, redirects)]) else after == s
  {
    SpentOne(Transfer(bytes, redirects));
  }

  lemma SubqueryBalances(s: Snapshot, cost: nat)
    ensures var (r, after) := ReserveSubqueryOf(s, cost);
      if r.Ok? then Balanced(s, after, [SubqueryCall(cost)]) else after == s
  {
    SpentOne(SubqueryCall(cost));
  }

  lemma SpentOne(c: Charge)
    ensures Spent([c]) == Price(c)
  {
    assert [c][..0] == [];
  }

  // ---- The world around one crawl ----

  datatype Robots = Allowed(delayFits: bool) | RobotsRefused

  datatype Rendering = Rendered(bytes: nat, extracts: bool) | RenderFailed(unavailable: bool)

  /** What happens at the n-th turn of the queue. */
  datatype Turn = Turn(
    expired: bool, robots: Robots, hops: nat -> Hop, cachedDocument: bool, cacheHit: bool,
    extracts: bool, rendering: Rendering, links: seq<string>)

  datatype Settings = Settings(
    perFetchBytes: nat, maxRedirects: nat, topK: nat, maxDepth: nat, robots: bool, renderer: bool)

  datatype Candidate = Candidate(url: string, depth: nat)

  datatype Document = Cached(url: string) | Enriched(url: string, rendered: bool) | Superficial(url: string)

  datatype Degradation = TimeExhausted | RobotsSkipped | BudgetExhausted(cause: Cause) | FetchFailed(error: FetchError)
                       | FetchOverBudget(cause: Cause) | UnexpectedNotModified | RenderOverBudget
                       | RendererFailed | BrowserExhausted | ExtractionFailed

  function TurnAt(turns: nat -> Turn, n: nat): Turn { turns(n) }

  /** Refused before anything left the process: the reserved fetch is given back. */
  predicate Refunded(error: FetchError) {
    error.EgressDenied? || error.BlockedUrl? || error.AddressBlocked? || error.HeaderBlocked?
  }

  function DropFragment(link: string): string {
    if link == [] then [] else if link[0] == '#' then [] else [link[0]] + DropFragment(link[1..])
  }

  // ---- One turn, as a function ----

  /** How a turn of the queue ends: the run stops, or goes on with the links found. */
  datatype Outcome = Stop | GoOn(links: seq<string>)

  /** What a piece of work leaves behind. */
  datatype Effect<+T> = Effect(value: T, snapshot: Snapshot, documents: seq<Document>, degradations: seq<Degradation>, charges: seq<Charge>)

  /** Extraction retried on the rendered page: whether it succeeded, and whether a page was rendered. */
  function RenderAgainOf(max: Limits, t: Turn, s: Snapshot): Effect<(bool, bool)> {
    var (reserved, s1) := ReserveBrowserOf(s);
    if reserved.Err? then Effect((false, false), s1, [], [BrowserExhausted], [])
    else
      match t.rendering
      case Rendered(bytes, extracts) =>
        var (paid, s2) := ConsumeFetchOf(s1, bytes, 0);
        if paid.Ok? then Effect((extracts, true), s2, [], [], [BrowserCall, Transfer(bytes, 0)])
        else Effect((false, false), s2, [], [RenderOverBudget], [BrowserCall])
      case RenderFailed(unavailable) =>
        if unavailable then Effect((false, false), ReleaseBrowserOf(s1, max), [], [RendererFailed], [])
        else Effect((false, false), s1, [], [RendererFailed], [BrowserCall])
  }

  /** A fetched page becomes a document and the links to follow. */
  function AcquireOf(cfg: Settings, max: Limits, t: Turn, c: Candidate, status: nat, s: Snapshot): Effect<seq<string>> {
    if status == 304 then
      if t.cachedDocument then Effect([], s, [Cached(c.url)], [], [])
      else Effect([], s, [], [UnexpectedNotModified], [])
    else if t.cacheHit then Effect([], s, [Cached(c.url)], [], [])
    else
      var again :=
        if t.extracts || !cfg.renderer then Effect((t.extracts, false), s, [], [], []) else RenderAgainOf(max, t, s);
      var (extracted, rendered) := again.value;
      Effect(if c.depth < cfg.maxDepth then t.links else [], again.snapshot,
             [if extracted then Enriched(c.url, rendered) else Superficial(c.url)],
             again.degradations + (if extracted then [] else [ExtractionFailed]), again.charges)
  }

  function VisitOf(cfg: Settings, max: Limits, t: Turn, c: Candidate, s: Snapshot): Effect<Outcome> {
    if t.expired then Effect(Stop, s, [], [TimeExhausted], [])
    else if c.depth > 0 && cfg.robots && t.robots != Allowed(true) then Effect(GoOn([]), s, [], [RobotsSkipped], [])
    else
      var (reserved, s1) := ReserveFetchOf(s);
      if reserved.Err? then Effect(Stop, s1, [], [BudgetExhausted(reserved.error)], [])
      else
        var fetch := FetchFrom(t.hops, c.url, [], Min(reserved.value, cfg.perFetchBytes), Min(s1.redirects, cfg.maxRedirects));
        match fetch
        case Err(error) =>
          if Refunded(error) then Effect(GoOn([]), ReleaseFetchOf(s1, max), [], [FetchFailed(error)], [])
          else Effect(GoOn([]), s1, [], [FetchFailed(error)], [FetchCall])
        case Ok(f) =>
          var (paid, s2) := ConsumeFetchOf(s1, |f.body|, |f.redirectChain|);
          if paid.Err? then Effect(GoOn([]), s2, [], [FetchOverBudget(paid.error)], [FetchCall])
          else
            var page := AcquireOf(cfg, max, t, c, f.status, s2);
            Effect(GoOn(page.value), page.snapshot, page.documents, page.degradations,
                   [FetchCall, Transfer(|f.body|, |f.redirectChain|)] + page.charges)
  }

  // ---- The crawl, as a function ----

  datatype Crawl = Crawl(
    queue: seq<Candidate>, visited: set<string>, found: seq<Candidate>, turn: nat, stopped: bool,
    snapshot: Snapshot, documents: seq<Document>, degradations: seq<Degradation>, charges: seq<Charge>)

  /** Links not seen before are remembered with their fragment, and fetched without it. */
  function Enqueue(links: seq<string>, depth: nat, crawl: Crawl): Crawl {
    if links == [] then crawl
    else
      var before := Enqueue(links[..|links| - 1], depth, crawl);
      var link := links[|links| - 1];
      if link in before.visited then before
      else before.(visited := before.visited + {link}, found := before.found + [Candidate(link, depth)],
                   queue := before.queue + [Candidate(DropFragment(link), depth)])
  }

  /** The head of the queue taken off and its visit recorded. */
  function Popped(crawl: Crawl, e: Effect<Outcome>): Crawl
    requires crawl.queue != []
  {
    crawl.(queue := crawl.queue[1..], turn := crawl.turn + 1, stopped := e.value.Stop?, snapshot := e.snapshot,
           documents := crawl.documents + e.documents, degradations := crawl.degradations + e.degradations,
           charges := crawl.charges + e.charges)
  }

  function AfterTurn(cfg: Settings, max: Limits, turns: nat -> Turn, crawl: Crawl): Crawl
    requires crawl.queue != []
  {
    var c := crawl.queue[0];
    var e := VisitOf(cfg, max, TurnAt(turns, crawl.turn), c, crawl.snapshot);
    if e.value.Stop? then Popped(crawl, e) else Enqueue(e.value.links, c.depth + 1, Popped(crawl, e))
  }

  /** The whole crawl.  Links only come with a spent fetch, so fetches left, then queue length, decrease. */
  function Crawled(cfg: Settings, max: Limits, turns: nat -> Turn, crawl: Crawl): Crawl
    decreases crawl.snapshot.fetches, |crawl.queue|
  {
    if crawl.queue == [] || crawl.stopped then crawl
    else
      TurnDecreases(cfg, max, turns, crawl);
      Crawled(cfg, max, turns, AfterTurn(cfg, max, turns, crawl))
  }

  lemma {:induction false} EnqueueKeeps(links: seq<string>, depth: nat, crawl: Crawl)
    ensures var e := Enqueue(links, depth, crawl);
      e.snapshot == crawl.snapshot && e.turn == crawl.turn && (links == [] ==> e.queue == crawl.queue) && e.stopped == crawl.stopped
      && e.documents == crawl.documents && e.degradations == crawl.degradations && e.charges == crawl.charges
  {
    if links != [] { EnqueueKeeps(links[..|links| - 1], depth, crawl); }
  }

  lemma VisitSpendsForLinks(cfg: Settings, max: Limits, t: Turn, c: Candidate, s: Snapshot)
    ensures var e := VisitOf(cfg, max, t, c, s);
      && e.snapshot.fetches <= s.fetches
      && (e.value.GoOn? && e.value.links != [] ==> e.snapshot.fetches < s.fetches && c.depth < cfg.maxDepth)
  {
    hide FetchFrom;
  }

  lemma TurnDecreases(cfg: Settings, max: Limits, turns: nat -> Turn, crawl: Crawl)
    requires crawl.queue != []
    ensures var next := AfterTurn(cfg, max, turns, crawl);
      next.snapshot.fetches < crawl.snapshot.fetches
      || (next.snapshot.fetches == crawl.snapshot.fetches && |next.queue| < |crawl.queue|)
  {
    hide VisitOf;
    var c := crawl.queue[0];
    var e := VisitOf(cfg, max, TurnAt(turns, crawl.turn), c, crawl.snapshot);
    VisitSpendsForLinks(cfg, max, TurnAt(turns, crawl.turn), c, crawl.snapshot);
    if e.value.GoOn? { EnqueueKeeps(e.value.links, c.depth + 1, Popped(crawl, e)); }
  }

  lemma CrawledUnfolds(cfg: Settings, max: Limits, turns: nat -> Turn, crawl: Crawl)
    ensures crawl.queue == [] || crawl.stopped ==> Crawled(cfg, max, turns, crawl) == crawl
    ensures crawl.queue != [] && !crawl.stopped ==>
      Crawled(cfg, max, turns, crawl) == Crawled(cfg, max, turns, AfterTurn(cfg, max, turns, crawl))
  {
    hide AfterTurn;
  }

  // ---- The algorithm ----

  class DeepOrchestrator {
    const budget: DeepBudget
    const cfg: Settings
    var documents: seq<Document>
    var degradations: seq<Degradation>

    constructor (budget: DeepBudget, cfg: Settings)
      ensures this.budget == budget && this.cfg == cfg && documents == [] && degradations == []
    {
      this.budget := budget;
      this.cfg := cfg;
      documents, degradations := [], [];
    }

    method Degrade(d: Degradation)
      modifies this`degradations
      ensures degradations == old(degradations) + [d]
    {
      degradations := degradations + [d];
    }

    /** The budget, the documents and the degradations change as `e` says. */
    twostate predicate Applied<T>(e: Effect<T>)
      reads this, budget
    {
      && budget.snapshot == e.snapshot
      && documents == old(documents) + e.documents
      && degradations == old(degradations) + e.degradations
    }

    method RenderAgain(t: Turn) returns (extracted: bool, rendered: bool)
      requires budget.Valid()
      modifies this`degradations, budget`snapshot
      ensures budget.Valid() && Applied(RenderAgainOf(budget.max, t, old(budget.snapshot)))
      ensures (extracted, rendered) == RenderAgainOf(budget.max, t, old(budget.snapshot)).value
    {
      extracted, rendered := false, false;
      var reserved := budget.ReserveBrowser();
      if reserved.Err? { Degrade(BrowserExhausted); return; }
      match t.rendering {
        case Rendered(bytes, extracts) =>
          var paid := budget.ConsumeFetch(bytes, 0);
          if paid.Ok? { extracted, rendered := extracts, true; } else { Degrade(RenderOverBudget); }
        case RenderFailed(unavailable) =>
          if unavailable { budget.ReleaseBrowser(); }
          Degrade(RendererFailed);
      }
    }

    method Acquire(t: Turn, c: Candidate, status: nat) returns (links: seq<string>)
      requires budget.Valid()
      modifies this, budget`snapshot
      ensures budget.Valid() && Applied(AcquireOf(cfg, budget.max, t, c, status, old(budget.snapshot)))
      ensures links == AcquireOf(cfg, budget.max, t, c, status, old(budget.snapshot)).value
    {
      hide RenderAgainOf;
      links := [];
      if status == 304 {
        if t.cachedDocument { documents := documents + [Cached(c.url)]; } else { Degrade(UnexpectedNotModified); }
        return;
      }
      if t.cacheHit {
        documents := documents + [Cached(c.url)];
        return;
      }
      var extracted, rendered := t.extracts, false;
      if !extracted && cfg.renderer { extracted, rendered := RenderAgain(t); }
      if !extracted { Degrade(ExtractionFailed); }
      if c.depth < cfg.maxDepth { links := t.links; }
      documents := documents + [if extracted then Enriched(c.url, rendered) else Superficial(c.url)];
    }

    method Visit(t: Turn, c: Candidate) returns (outcome: Outcome)
      requires budget.Valid()
      modifies this, budget`snapshot
      ensures budget.Valid() && Applied(VisitOf(cfg, budget.max, t, c, old(budget.snapshot)))
      ensures outcome == VisitOf(cfg, budget.max, t, c, old(budget.snapshot)).value
    {
      hide AcquireOf, FetchFrom;
      if t.expired { Degrade(TimeExhausted); return Stop; }
      if c.depth > 0 && cfg.robots && t.robots != Allowed(true) { Degrade(RobotsSkipped); return GoOn([]); }
      var reserved := budget.ReserveFetch();
      if reserved.Err? { Degrade(BudgetExhausted(reserved.error)); return Stop; }
      var byteLimit := Min(reserved.value, cfg.perFetchBytes);
      var redirectLimit := Min(budget.snapshot.redirects, cfg.maxRedirects);
      var fetch := Fetch(t.hops, c.url, byteLimit, redirectLimit);
      if fetch.Err? {
        if Refunded(fetch.error) { budget.ReleaseFetch(); }
        Degrade(FetchFailed(fetch.error));
        return GoOn([]);
      }
      var paid := budget.ConsumeFetch(|fetch.value.body|, |fetch.value.redirectChain|);
      if paid.Err? { Degrade(FetchOverBudget(paid.error)); return GoOn([]); }
      var links := Acquire(t, c, fetch.value.status);
      return GoOn(links);
    }

    /** Takes one candidate off the queue, visits it and enqueues what it links to. */
    method TakeTurn(turns: nat -> Turn, queue: seq<Candidate>, visited: set<string>, turn: nat, ghost now: Crawl)
      returns (queue': seq<Candidate>, visited': set<string>, stopped: bool)
      requires budget.Valid() && queue != []
      requires now.queue == queue && now.visited == visited && now.turn == turn && now.snapshot == budget.snapshot
      requires now.documents == documents && now.degradations == degradations
      modifies this, budget`snapshot
      ensures budget.Valid()
      ensures var next := AfterTurn(cfg, budget.max, turns, now);
        && next.queue == queue' && next.visited == visited' && next.turn == turn + 1 && next.stopped == stopped
        && next.snapshot == budget.snapshot && next.documents == documents && next.degradations == degradations
    {
      hide VisitOf, Enqueue;
      ghost var e := VisitOf(cfg, budget.max, TurnAt(turns, turn), queue[0], budget.snapshot);
      var c := queue[0];
      queue', visited' := queue[1..], visited;
      var outcome := Visit(TurnAt(turns, turn), c);
      stopped := outcome == Stop;
      if outcome.GoOn? {
        EnqueueKeeps(outcome.links, c.depth + 1, Popped(now, e));
        queue', visited' := EnqueueLinks(outcome.links, c.depth + 1, queue', visited', Popped(now, e));
      }
    }

    /** The queue is worked off until it is empty, the deadline passes, or the budget is gone. */
    method Run(turns: nat -> Turn, candidates: seq<string>) returns (ghost last: Crawl)
      requires budget.Valid()
      modifies this, budget`snapshot
      ensures budget.Valid()
      ensures last == Crawled(cfg, budget.max, turns, Begin(candidates, cfg.topK, old(budget.snapshot)))
      ensures budget.snapshot == last.snapshot && documents == last.documents && degradations == last.degradations
    {
      hide AfterTurn, Crawled;
      documents, degradations := [], [];
      var roots := candidates[..Min(|candidates|, cfg.topK)];
      var queue := Roots(roots);
      var visited := set url | url in roots;
      var turn, stopped := 0, false;
      ghost var now := Begin(candidates, cfg.topK, budget.snapshot);
      ghost var whole := Crawled(cfg, budget.max, turns, now);
      while |queue| > 0 && !stopped
        invariant budget.Valid() && now.stopped == stopped
        invariant now.queue == queue && now.visited == visited && now.turn == turn && now.snapshot == budget.snapshot
        invariant now.documents == documents && now.degradations == degradations
        invariant Crawled(cfg, budget.max, turns, now) == whole
        decreases budget.snapshot.fetches, |queue|
      {
        CrawledUnfolds(cfg, budget.max, turns, now);
        TurnDecreases(cfg, budget.max, turns, now);
        queue, visited, stopped := TakeTurn(turns, queue, visited, turn, now);
        turn := turn + 1;
        now := AfterTurn(cfg, budget.max, turns, now);
      }
      CrawledUnfolds(cfg, budget.max, turns, now);
      last := now;
    }
  }

  method EnqueueLinks(links: seq<string>, depth: nat, queue: seq<Candidate>, visited: set<string>, ghost crawl: Crawl)
    returns (queue': seq<Candidate>, visited': set<string>)
    requires crawl.queue == queue && crawl.visited == visited
    ensures queue' == Enqueue(links, depth, crawl).queue && visited' == Enqueue(links, depth, crawl).visited
  {
    queue', visited' := queue, visited;
    for i := 0 to |links|
      invariant queue' == Enqueue(links[..i], depth, crawl).queue && visited' == Enqueue(links[..i], depth, crawl).visited
    {
      assert links[..i + 1][..i] == links[..i];
      if links[i] !in visited' {
        visited' := visited' + {links[i]};
        queue' := queue' + [Candidate(DropFragment(links[i]), depth)];
      }
    }
    assert links[..|links|] == links;
  }

  function Roots(urls: seq<string>): seq<Candidate> {
    seq(|urls|, i requires 0 <= i < |urls| => Candidate(urls[i], 0))
  }

  function Begin(candidates: seq<string>, topK: nat, snapshot: Snapshot): Crawl {
    var roots := candidates[..Min(|candidates|, topK)];
    Crawl(Roots(roots), set url | url in roots, [], 0, false, snapshot, [], [], [])
  }
}
