module VisitProperties {
  // What one visit of a crawl does and when, and what follows for every turn of a run (deep.rs).

  import opened Wrappers
  import opened Budgets
  import opened Counting
  import opened Fetching
  import opened Deep
  import opened DeepProperties

  // ---- One visit ----

  /** The visit gets as far as sending its fetch. */
  predicate Fetches(cfg: Settings, t: Turn, c: Candidate, s: Snapshot) {
    && !t.expired
    && (c.depth == 0 || !cfg.robots || t.robots == Allowed(true))
    && s.fetches > 0 && s.crawlUrls > 0 && s.bytes > 0
  }

  function FetchOf(cfg: Settings, t: Turn, c: Candidate, s: Snapshot): Result<Fetched, FetchError> {
    FetchFrom(t.hops, c.url, [], Min(s.bytes, cfg.perFetchBytes), Min(s.redirects, cfg.maxRedirects))
  }

  /** The fetch came back. */
  predicate Delivered(cfg: Settings, t: Turn, c: Candidate, s: Snapshot) {
    Fetches(cfg, t, c, s) && FetchOf(cfg, t, c, s).Ok?
  }

  /** A page is left out because of robots rules exactly when they apply and do not allow it; then nothing else happens. */
  lemma RobotsAreObeyed(cfg: Settings, max: Limits, t: Turn, c: Candidate, s: Snapshot)
    ensures !t.expired && c.depth > 0 && cfg.robots && t.robots != Allowed(true) ==>
      VisitOf(cfg, max, t, c, s) == Effect(GoOn([]), s, [], [RobotsSkipped], [])
    ensures RobotsSkipped in VisitOf(cfg, max, t, c, s).degradations ==>
      !t.expired && c.depth > 0 && cfg.robots && t.robots != Allowed(true)
  {
    hide FetchFrom;
  }

  /** The run stops at a visit exactly when the deadline has passed or a fetch can no longer be paid for; nothing is spent. */
  lemma StopsIff(cfg: Settings, max: Limits, t: Turn, c: Candidate, s: Snapshot)
    ensures var e := VisitOf(cfg, max, t, c, s);
      && (e.value.Stop? <==>
          t.expired ||
          ((c.depth == 0 || !cfg.robots || t.robots == Allowed(true)) && (s.fetches == 0 || s.crawlUrls == 0 || s.bytes == 0)))
      && (e.value.Stop? ==> e.snapshot == s && e.documents == [] && e.charges == [])
      && (TimeExhausted in e.degradations <==> t.expired)
  {
    hide FetchFrom;
  }

  /** A fetch is charged unless it was refused before anything left the process; then the budget is as before. */
  lemma FailedFetch(cfg: Settings, max: Limits, t: Turn, c: Candidate, s: Snapshot)
    requires Within(s, max) && Fetches(cfg, t, c, s) && FetchOf(cfg, t, c, s).Err?
    ensures var e, error := VisitOf(cfg, max, t, c, s), FetchOf(cfg, t, c, s).error;
      && e.value == GoOn([]) && e.documents == [] && e.degradations == [FetchFailed(error)]
      && if error in {EgressDenied, BlockedUrl, AddressBlocked, HeaderBlocked} then e.snapshot == s && e.charges == []
         else e.snapshot == s.(fetches := s.fetches - 1, crawlUrls := s.crawlUrls - 1) && e.charges == [FetchCall]
  {
    hide FetchFrom;
    RefundUndoesReservation(s, max);
  }

  lemma DeliveredIsPaid(cfg: Settings, t: Turn, c: Candidate, s: Snapshot)
    requires Delivered(cfg, t, c, s)
    ensures var f := FetchOf(cfg, t, c, s).value;
      && |f.body| <= s.bytes && |f.redirectChain| <= s.redirects
  {
    hide FetchFrom;
    FetchedWithinLimits(t.hops, c.url, [], Min(s.bytes, cfg.perFetchBytes), Min(s.redirects, cfg.maxRedirects));
  }

  /** What a browser does after extraction failed on a page of `size` bytes. */
  predicate RenderedWell(t: Turn, s: Snapshot, size: nat) {
    s.browserCalls > 0 && t.rendering.Rendered? && t.rendering.extracts && size + t.rendering.bytes <= s.bytes
  }

  /**
   Which document a visit yields.  There is one exactly when the fetch came back with a page, or with
   "not modified" for a page still held.  It comes from the cache if its content is known; otherwise it
   is enriched exactly when extraction succeeds on the page, or on what a browser renders of it.
   */
  lemma DocumentIs(cfg: Settings, max: Limits, t: Turn, c: Candidate, s: Snapshot)
    ensures var e := VisitOf(cfg, max, t, c, s);
      if !Delivered(cfg, t, c, s) then e.documents == []
      else
        var f := FetchOf(cfg, t, c, s).value;
        if f.status == 304 then e.documents == if t.cachedDocument then [Cached(c.url)] else []
        else if t.cacheHit then e.documents == [Cached(c.url)]
        else
          && |e.documents| == 1
          && (e.documents[0] == Enriched(c.url, false) <==> t.extracts)
          && (e.documents[0] == Enriched(c.url, true) <==> !t.extracts && cfg.renderer && RenderedWell(t, s, |f.body|))
          && (e.documents[0] == Superficial(c.url) <==> !t.extracts && !(cfg.renderer && RenderedWell(t, s, |f.body|)))
  {
    hide FetchFrom;
    if Delivered(cfg, t, c, s) { DeliveredIsPaid(cfg, t, c, s); }
  }

  /** Links are followed exactly from fresh pages above the depth limit, whether or not extraction succeeded. */
  lemma LinksAre(cfg: Settings, max: Limits, t: Turn, c: Candidate, s: Snapshot)
    ensures var e := VisitOf(cfg, max, t, c, s);
      var follows := Delivered(cfg, t, c, s) && FetchOf(cfg, t, c, s).value.status != 304 && !t.cacheHit && c.depth < cfg.maxDepth;
      e.value.GoOn? ==> e.value.links == if follows then t.links else []
  {
    hide FetchFrom, RenderAgainOf;
    if Delivered(cfg, t, c, s) { DeliveredIsPaid(cfg, t, c, s); }
  }

  lemma PageCharges(cfg: Settings, max: Limits, t: Turn, c: Candidate, status: nat, s: Snapshot)
    ensures var charges := AcquireOf(cfg, max, t, c, status, s).charges;
      var renders := status != 304 && !t.cacheHit && !t.extracts && cfg.renderer && s.browserCalls > 0;
      && (BrowserCall in charges <==> renders && t.rendering != RenderFailed(true))
      && (|charges| == 2 <==> renders && t.rendering.Rendered? && t.rendering.bytes <= s.bytes)
      && (|charges| == 2 ==> charges[1] == Transfer(t.rendering.bytes, 0))
  {}

  /** A browser is paid for exactly when extraction failed on a fresh page, a call was left, and the browser was there. */
  lemma ChargesAre(cfg: Settings, max: Limits, t: Turn, c: Candidate, s: Snapshot)
    ensures var e := VisitOf(cfg, max, t, c, s);
      && (!Fetches(cfg, t, c, s) ==> e.charges == [])
      && (Delivered(cfg, t, c, s) ==>
        var f := FetchOf(cfg, t, c, s).value;
        var renders := f.status != 304 && !t.cacheHit && !t.extracts && cfg.renderer && s.browserCalls > 0;
        && [FetchCall, Transfer(|f.body|, |f.redirectChain|)] <= e.charges
        && (BrowserCall in e.charges <==> renders && t.rendering != RenderFailed(true))
        && (|e.charges| == 4 <==> renders && t.rendering.Rendered? && |f.body| + t.rendering.bytes <= s.bytes)
        && (|e.charges| == 4 ==> e.charges[3] == Transfer(t.rendering.bytes, 0)))
  {
    hide FetchFrom, AcquireOf;
    if Delivered(cfg, t, c, s) {
      DeliveredIsPaid(cfg, t, c, s);
      var f, s1 := FetchOf(cfg, t, c, s).value, ReserveFetchOf(s).1;
      PageCharges(cfg, max, t, c, f.status, ConsumeFetchOf(s1, |f.body|, |f.redirectChain|).1);
    }
  }

  lemma PageDegradations(cfg: Settings, max: Limits, t: Turn, c: Candidate, status: nat, s: Snapshot)
    ensures var e := AcquireOf(cfg, max, t, c, status, s);
      var renders := status != 304 && !t.cacheHit && !t.extracts && cfg.renderer;
      && (UnexpectedNotModified in e.degradations <==> status == 304 && !t.cachedDocument)
      && (ExtractionFailed in e.degradations <==> Superficial(c.url) in e.documents)
      && (BrowserExhausted in e.degradations <==> renders && s.browserCalls == 0)
      && (RendererFailed in e.degradations <==> renders && s.browserCalls > 0 && t.rendering.RenderFailed?)
      && (RenderOverBudget in e.degradations <==>
          renders && s.browserCalls > 0 && t.rendering.Rendered? && t.rendering.bytes > s.bytes)
  {}

  /** What is reported when the fetch came back: every shortfall, and only what happened. */
  lemma DegradationsAre(cfg: Settings, max: Limits, t: Turn, c: Candidate, s: Snapshot)
    requires Delivered(cfg, t, c, s)
    ensures var e, f := VisitOf(cfg, max, t, c, s), FetchOf(cfg, t, c, s).value;
      var renders := f.status != 304 && !t.cacheHit && !t.extracts && cfg.renderer;
      && (UnexpectedNotModified in e.degradations <==> f.status == 304 && !t.cachedDocument)
      && (ExtractionFailed in e.degradations <==> Superficial(c.url) in e.documents)
      && (BrowserExhausted in e.degradations <==> renders && s.browserCalls == 0)
      && (RendererFailed in e.degradations <==> renders && s.browserCalls > 0 && t.rendering.RenderFailed?)
      && (RenderOverBudget in e.degradations <==>
          renders && s.browserCalls > 0 && t.rendering.Rendered? && |f.body| + t.rendering.bytes > s.bytes)
  {
    hide FetchFrom, AcquireOf;
    DeliveredIsPaid(cfg, t, c, s);
    var f, s1 := FetchOf(cfg, t, c, s).value, ReserveFetchOf(s).1;
    PageDegradations(cfg, max, t, c, f.status, ConsumeFetchOf(s1, |f.body|, |f.redirectChain|).1);
  }

  // ---- Every turn of a run ----

  /** The crawl after `n` more turns, or its end if that comes first. */
  function AfterTurns(cfg: Settings, max: Limits, turns: nat -> Turn, crawl: Crawl, n: nat): Crawl {
    if n == 0 then crawl
    else
      var before := AfterTurns(cfg, max, turns, crawl, n - 1);
      if before.queue == [] || before.stopped then before else AfterTurn(cfg, max, turns, before)
  }

  lemma TurnCounts(cfg: Settings, max: Limits, turns: nat -> Turn, crawl: Crawl)
    requires crawl.queue != []
    ensures AfterTurn(cfg, max, turns, crawl).turn == crawl.turn + 1
  {
    hide VisitOf;
    var c := crawl.queue[0];
    var e := VisitOf(cfg, max, TurnAt(turns, crawl.turn), c, crawl.snapshot);
    if e.value.GoOn? { EnqueueKeeps(e.value.links, c.depth + 1, Popped(crawl, e)); }
  }

  /** `found` are the links of `links` not visited before, each once, and each one level below a page at `depth`. */
  ghost predicate Discovers(visited: set<string>, links: seq<string>, depth: nat, found: seq<Candidate>) {
    && SetOf(Links(found)) == SetOf(links) - visited && AllDifferent(Links(found))
    && (forall c :: c in found ==> c.depth == depth + 1)
  }

  function Links(found: seq<Candidate>): seq<string> { seq(|found|, i requires 0 <= i < |found| => found[i].url) }

  lemma {:induction false} EnqueueDiscovers(links: seq<string>, depth: nat, crawl: Crawl)
    ensures var e := Enqueue(links, depth + 1, crawl);
      && crawl.found <= e.found && Discovers(crawl.visited, links, depth, e.found[|crawl.found|..])
      && e.queue == crawl.queue + Fetchable(e.found[|crawl.found|..])
      && e.visited == crawl.visited + SetOf(links)
  {
    hide DropFragment;
    if links == [] {
      assert SetOf(links) == {};
      assert crawl.found[|crawl.found|..] == [];
    } else {
      var front, link := links[..|links| - 1], links[|links| - 1];
      EnqueueDiscovers(front, depth, crawl);
      var before := Enqueue(front, depth + 1, crawl);
      assert links == front + [link];
      assert SetOf(links) == SetOf(front) + {link};
      if link !in before.visited {
        var found := before.found[|crawl.found|..];
        var all := (before.found + [Candidate(link, depth + 1)])[|crawl.found|..];
        assert all == found + [Candidate(link, depth + 1)];
        DiscoversMore(crawl.visited, front, depth, found, link);
      }
    }
  }

  lemma DiscoversMore(visited: set<string>, links: seq<string>, depth: nat, found: seq<Candidate>, link: string)
    requires Discovers(visited, links, depth, found) && link !in visited && link !in SetOf(links)
    ensures var all := found + [Candidate(link, depth + 1)];
      && Discovers(visited, links + [link], depth, all)
      && Fetchable(all) == Fetchable(found) + [Candidate(DropFragment(link), depth + 1)]
  {
    hide DropFragment;
    var all := found + [Candidate(link, depth + 1)];
    assert Links(all) == Links(found) + [link];
    assert SetOf(Links(all)) == SetOf(Links(found)) + {link};
    assert SetOf(links + [link]) == SetOf(links) + {link};
    assert link !in SetOf(Links(found));
  }

  /** What one turn adds to the queue: the page's links that are new, one level below it, behind all that waited. */
  lemma TurnFinds(cfg: Settings, max: Limits, turns: nat -> Turn, crawl: Crawl)
    requires crawl.queue != []
    ensures var next, c := AfterTurn(cfg, max, turns, crawl), crawl.queue[0];
      var outcome := VisitOf(cfg, max, TurnAt(turns, crawl.turn), c, crawl.snapshot).value;
      var links := if outcome.Stop? then [] else outcome.links;
      && crawl.found <= next.found && Discovers(crawl.visited, links, c.depth, next.found[|crawl.found|..])
      && next.queue == crawl.queue[1..] + Fetchable(next.found[|crawl.found|..])
      && next.visited == crawl.visited + SetOf(links)
  {
    hide VisitOf, Discovers, Fetchable, SetOf;
    var c := crawl.queue[0];
    var e := VisitOf(cfg, max, TurnAt(turns, crawl.turn), c, crawl.snapshot);
    var none: seq<string> := [];
    EnqueueDiscovers(none, c.depth, Popped(crawl, e));
    if e.value.GoOn? { EnqueueDiscovers(e.value.links, c.depth, Popped(crawl, e)); }
  }

  /** The turns of a run, one by one. */
  lemma {:induction false} TurnOfRun(cfg: Settings, max: Limits, turns: nat -> Turn, crawl: Crawl, n: nat)
    requires crawl.turn + n <= Crawled(cfg, max, turns, crawl).turn
    ensures var now := AfterTurns(cfg, max, turns, crawl, n);
      && now.turn == crawl.turn + n && Crawled(cfg, max, turns, now) == Crawled(cfg, max, turns, crawl)
      && (now.turn < Crawled(cfg, max, turns, crawl).turn ==> now.queue != [] && !now.stopped)
  {
    hide Crawled, AfterTurn;
    if n > 0 {
      var before := AfterTurns(cfg, max, turns, crawl, n - 1);
      TurnOfRun(cfg, max, turns, crawl, n - 1);
      CrawledUnfolds(cfg, max, turns, before);
      TurnCounts(cfg, max, turns, before);
    }
    CrawledUnfolds(cfg, max, turns, AfterTurns(cfg, max, turns, crawl, n));
  }

  /**
   Over every run: the `n`-th turn visits the head of the queue, and when robots rules apply to it and do
   not allow it, the turn spends nothing, charges nothing, yields no document and finds no link.
   */
  lemma RunObeysRobots(cfg: Settings, max: Limits, turns: nat -> Turn, candidates: seq<string>, start: Snapshot, n: nat)
    requires n < Crawled(cfg, max, turns, Begin(candidates, cfg.topK, start)).turn
    ensures var first := Begin(candidates, cfg.topK, start);
      var before, after := AfterTurns(cfg, max, turns, first, n), AfterTurns(cfg, max, turns, first, n + 1);
      && before.queue != []
      && (before.queue[0].depth > 0 && cfg.robots && TurnAt(turns, n).robots != Allowed(true) ==>
          && after.charges == before.charges && after.snapshot == before.snapshot
          && after.documents == before.documents && after.found == before.found)
  {
    hide Crawled, VisitOf;
    var first := Begin(candidates, cfg.topK, start);
    TurnOfRun(cfg, max, turns, first, n);
    var before := AfterTurns(cfg, max, turns, first, n);
    var c, t := before.queue[0], TurnAt(turns, n);
    RobotsAreObeyed(cfg, max, t, c, before.snapshot);
    StopsIff(cfg, max, t, c, before.snapshot);
  }

  /** In particular every turn below the starting pages that was charged for anything had been allowed. */
  lemma ChargedTurnsWereAllowed(cfg: Settings, max: Limits, turns: nat -> Turn, candidates: seq<string>, start: Snapshot, n: nat)
    requires cfg.robots && n < Crawled(cfg, max, turns, Begin(candidates, cfg.topK, start)).turn
    ensures var first := Begin(candidates, cfg.topK, start);
      var before, after := AfterTurns(cfg, max, turns, first, n), AfterTurns(cfg, max, turns, first, n + 1);
      && before.queue != []
      && (before.queue[0].depth > 0 && (after.charges != before.charges || after.documents != before.documents) ==>
          TurnAt(turns, n).robots == Allowed(true))
  {
    hide Crawled, AfterTurns;
    RunObeysRobots(cfg, max, turns, candidates, start, n);
  }
}
