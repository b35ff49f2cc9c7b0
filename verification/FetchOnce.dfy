module FetchOnce {
  // When a crawl fetches every address once (deep.rs): exactly when no two of the links it remembers,
  // fragments included, stand for the same address.

  import opened Wrappers
  import opened Budgets
  import opened Counting
  import opened Fetching
  import opened Deep
  import opened DeepProperties

  lemma {:induction false} DropFragmentTwice(link: string)
    ensures DropFragment(DropFragment(link)) == DropFragment(link)
  {
    if link != [] && link[0] != '#' {
      DropFragmentTwice(link[1..]);
      assert DropFragment(link)[1..] == DropFragment(link[1..]);
    }
  }

  /** What is fetched for each of the links. */
  function Addresses(links: seq<string>): seq<string> {
    seq(|links|, i requires 0 <= i < |links| => DropFragment(links[i]))
  }

  /** No two different links stand for the same address. */
  ghost predicate FragmentsApart(links: set<string>) {
    forall x, y :: x in links && y in links && DropFragment(x) == DropFragment(y) ==> x == y
  }

  /** Links stand for different addresses exactly when none is repeated and no two differ in their fragment only. */
  lemma AddressesDifferIff(links: seq<string>)
    ensures AllDifferent(Addresses(links)) <==> AllDifferent(links) && FragmentsApart(SetOf(links))
  {
    if AllDifferent(Addresses(links)) {
      forall i, j | 0 <= i < j < |links| ensures links[i] != links[j] {
        assert Addresses(links)[i] != Addresses(links)[j];
      }
      forall x, y | x in SetOf(links) && y in SetOf(links) && DropFragment(x) == DropFragment(y) ensures x == y {
        var i :| 0 <= i < |links| && links[i] == x;
        var j :| 0 <= j < |links| && links[j] == y;
        assert Addresses(links)[i] == Addresses(links)[j];
      }
    } else {
      var i, j :| 0 <= i < j < |links| && Addresses(links)[i] == Addresses(links)[j];
      assert links[i] in SetOf(links) && links[j] in SetOf(links);
    }
  }

  /** Everything a crawl has remembered, in the order in which it was enqueued. */
  function Remembered(roots: seq<string>, found: seq<Candidate>): seq<string> {
    roots + seq(|found|, i requires 0 <= i < |found| => found[i].url)
  }

  /** The addresses of everything enqueued, in order; the crawl visits them one per turn. */
  function Enqueued(roots: seq<string>, found: seq<Candidate>): seq<string> {
    var all := History(Roots(roots), found);
    seq(|all|, i requires 0 <= i < |all| => DropFragment(all[i].url))
  }

  lemma EnqueuedAreAddresses(roots: seq<string>, found: seq<Candidate>)
    ensures Enqueued(roots, found) == Addresses(Remembered(roots, found))
  {
    var all, links := History(Roots(roots), found), Remembered(roots, found);
    forall i | 0 <= i < |all| ensures DropFragment(all[i].url) == DropFragment(links[i]) {
      if i >= |roots| { DropFragmentTwice(links[i]); }
    }
  }

  lemma RootUrls(roots: seq<string>)
    ensures Urls(Roots(roots)) == SetOf(roots)
  {
    forall url | url in roots ensures url in Urls(Roots(roots)) {
      var i :| 0 <= i < |roots| && roots[i] == url;
      assert Roots(roots)[i] in Roots(roots);
    }
  }

  lemma RememberedIsVisited(roots: seq<string>, maxDepth: nat, crawl: Crawl)
    requires LinksOnce(Roots(roots), maxDepth, crawl)
    ensures SetOf(Remembered(roots, crawl.found)) == crawl.visited
    ensures AllDifferent(Remembered(roots, crawl.found)) <==> AllDifferent(roots)
  {
    RootUrls(roots);
    var links := Remembered(roots, crawl.found);
    forall c | c in crawl.found ensures c.url in links {
      var i :| 0 <= i < |crawl.found| && crawl.found[i] == c;
      assert links[|roots| + i] == c.url;
    }
    forall x | x in links ensures x in crawl.visited {
      var i :| 0 <= i < |links| && links[i] == x;
      if i >= |roots| { assert crawl.found[i - |roots|] in crawl.found; }
    }
    forall x | x in roots ensures x in links {
      var i :| 0 <= i < |roots| && roots[i] == x;
      assert links[i] == x;
    }
    if AllDifferent(roots) {
      forall i, j | 0 <= i < j < |links| ensures links[i] != links[j] {
        if i < |roots| <= j {
          assert crawl.found[j - |roots|] in crawl.found && links[i] in SetOf(roots);
        }
      }
    } else {
      var i, j :| 0 <= i < j < |roots| && roots[i] == roots[j];
      assert links[i] == links[j];
    }
  }

  /** Every address is enqueued once exactly when no candidate is repeated and no two remembered links share an address. */
  lemma EnqueuedOnceIff(roots: seq<string>, maxDepth: nat, crawl: Crawl)
    requires LinksOnce(Roots(roots), maxDepth, crawl)
    ensures AllDifferent(Enqueued(roots, crawl.found)) <==> AllDifferent(roots) && FragmentsApart(crawl.visited)
  {
    hide LinksOnce;
    EnqueuedAreAddresses(roots, crawl.found);
    AddressesDifferIff(Remembered(roots, crawl.found));
    RememberedIsVisited(roots, maxDepth, crawl);
  }

  lemma SetGrows(links: seq<string>, link: string)
    ensures SetOf(links + [link]) == SetOf(links) + {link}
  {}

  /** After a page's links are enqueued exactly they are remembered in addition. */
  lemma {:induction false} EnqueueRemembers(links: seq<string>, depth: nat, crawl: Crawl)
    ensures Enqueue(links, depth, crawl).visited == crawl.visited + SetOf(links)
  {
    if links == [] {
      assert SetOf(links) == {};
    } else {
      hide SetOf, DropFragment;
      var front, link := links[..|links| - 1], links[|links| - 1];
      EnqueueRemembers(front, depth, crawl);
      SetGrows(front, link);
      assert links == front + [link];
    }
  }

  /**
   One page: after its links are enqueued every address is enqueued once exactly when the links and
   what was remembered before stand for different addresses.
   */
  lemma LinksEnqueuedOnceIff(cfg: Settings, roots: seq<string>, crawl: Crawl, links: seq<string>, depth: nat)
    requires QueueKept(cfg, Roots(roots), crawl) && 1 <= depth <= cfg.maxDepth
    requires 0 < crawl.turn <= |History(Roots(roots), crawl.found)|
    requires depth == History(Roots(roots), crawl.found)[crawl.turn - 1].depth + 1
    ensures AllDifferent(Enqueued(roots, Enqueue(links, depth, crawl).found)) <==>
      AllDifferent(roots) && FragmentsApart(crawl.visited + SetOf(links))
  {
    hide LinksOnce, BreadthFirst, Enqueue;
    EnqueueKeepsQueue(cfg, Roots(roots), crawl, links, depth);
    EnqueueRemembers(links, depth, crawl);
    EnqueuedOnceIff(roots, cfg.maxDepth, Enqueue(links, depth, crawl));
  }

  /** The addresses visited so far, in order: each turn of the queue visits the next one enqueued. */
  function Visited(roots: seq<string>, crawl: Crawl): seq<string> {
    var all := Enqueued(roots, crawl.found);
    if crawl.turn <= |all| then all[..crawl.turn] else all
  }

  lemma PrefixOfAddresses(links: seq<string>, n: nat)
    requires n <= |links|
    ensures Addresses(links)[..n] == Addresses(links[..n])
  {}

  /**
   Every run: no address is visited twice exactly when the links visited are different and no two of
   them share an address; and in a run that works off its queue, exactly when no candidate was
   repeated and no two links remembered share an address.
   */
  lemma VisitedOnceIff(cfg: Settings, max: Limits, turns: nat -> Turn, candidates: seq<string>, start: Snapshot)
    requires Within(start, max)
    ensures var roots := candidates[..Min(|candidates|, cfg.topK)];
      var last := Crawled(cfg, max, turns, Begin(candidates, cfg.topK, start));
      var links := Remembered(roots, last.found);
      && last.turn <= |links|
      && (AllDifferent(Visited(roots, last)) <==>
          AllDifferent(links[..last.turn]) && FragmentsApart(SetOf(links[..last.turn])))
      && (AllDifferent(Enqueued(roots, last.found)) <==> AllDifferent(roots) && FragmentsApart(last.visited))
      && (last.queue == [] ==> Visited(roots, last) == Enqueued(roots, last.found))
  {
    hide Crawled, LinksOnce, BooksKept, Enqueued, Addresses, FragmentsApart;
    var roots := candidates[..Min(|candidates|, cfg.topK)];
    var last := Crawled(cfg, max, turns, Begin(candidates, cfg.topK, start));
    var links := Remembered(roots, last.found);
    EveryCrawl(cfg, max, turns, candidates, start);
    EnqueuedOnceIff(roots, cfg.maxDepth, last);
    EnqueuedAreAddresses(roots, last.found);
    TurnsMade(roots, last);
    PrefixOfAddresses(links, last.turn);
    AddressesDifferIff(links[..last.turn]);
    AddressesLength(links);
  }

  lemma AddressesLength(links: seq<string>)
    ensures |Addresses(links)| == |links|
  {}

  lemma TurnsMade(roots: seq<string>, crawl: Crawl)
    requires BreadthFirst(Roots(roots), crawl)
    ensures crawl.turn <= |Remembered(roots, crawl.found)|
    ensures crawl.queue == [] ==> crawl.turn == |Remembered(roots, crawl.found)|
  {}

  // ---- A condition on the inputs ----

  /** A link that a run can come across: a candidate, or a link of a page. */
  ghost predicate OnOffer(roots: seq<string>, turns: nat -> Turn, link: string) {
    link in roots || exists n :: link in TurnAt(turns, n).links
  }

  ghost predicate OnlyOffered(roots: seq<string>, turns: nat -> Turn, crawl: Crawl) {
    forall link :: link in crawl.visited ==> OnOffer(roots, turns, link)
  }

  lemma LinksComeFromPage(cfg: Settings, max: Limits, t: Turn, c: Candidate, s: Snapshot)
    ensures var e := VisitOf(cfg, max, t, c, s);
      e.value.GoOn? ==> e.value.links == [] || e.value.links == t.links
  {
    hide FetchFrom, RenderAgainOf;
  }

  lemma TurnKeepsOffered(cfg: Settings, max: Limits, turns: nat -> Turn, roots: seq<string>, crawl: Crawl)
    requires crawl.queue != [] && OnlyOffered(roots, turns, crawl)
    ensures OnlyOffered(roots, turns, AfterTurn(cfg, max, turns, crawl))
  {
    hide VisitOf, Enqueue;
    var c, t := crawl.queue[0], TurnAt(turns, crawl.turn);
    var e := VisitOf(cfg, max, t, c, crawl.snapshot);
    LinksComeFromPage(cfg, max, t, c, crawl.snapshot);
    if e.value.GoOn? { EnqueueRemembers(e.value.links, c.depth + 1, Popped(crawl, e)); }
  }

  lemma {:induction false} CrawlKeepsOffered(cfg: Settings, max: Limits, turns: nat -> Turn, roots: seq<string>, crawl: Crawl)
    requires OnlyOffered(roots, turns, crawl)
    ensures OnlyOffered(roots, turns, Crawled(cfg, max, turns, crawl))
    decreases crawl.snapshot.fetches, |crawl.queue|
  {
    hide AfterTurn, OnlyOffered;
    CrawledUnfolds(cfg, max, turns, crawl);
    if crawl.queue != [] && !crawl.stopped {
      TurnDecreases(cfg, max, turns, crawl);
      TurnKeepsOffered(cfg, max, turns, roots, crawl);
      CrawlKeepsOffered(cfg, max, turns, roots, AfterTurn(cfg, max, turns, crawl));
    }
  }

  /** Different candidates, and no two links on offer that share an address: no address is visited twice. */
  lemma ApartOffersAreVisitedOnce(cfg: Settings, max: Limits, turns: nat -> Turn, candidates: seq<string>, start: Snapshot)
    requires Within(start, max)
    requires var roots := candidates[..Min(|candidates|, cfg.topK)];
      && AllDifferent(roots)
      && forall x, y :: OnOffer(roots, turns, x) && OnOffer(roots, turns, y) && DropFragment(x) == DropFragment(y) ==> x == y
    ensures var roots := candidates[..Min(|candidates|, cfg.topK)];
      AllDifferent(Visited(roots, Crawled(cfg, max, turns, Begin(candidates, cfg.topK, start))))
  {
    hide Crawled, LinksOnce, BooksKept, Enqueued, OnOffer;
    var roots, first := candidates[..Min(|candidates|, cfg.topK)], Begin(candidates, cfg.topK, start);
    forall link | link in first.visited ensures OnOffer(roots, turns, link) { Offered(roots, turns, link); }
    CrawlKeepsOffered(cfg, max, turns, roots, first);
    EveryCrawl(cfg, max, turns, candidates, start);
    EnqueuedOnceIff(roots, cfg.maxDepth, Crawled(cfg, max, turns, first));
  }

  lemma Offered(roots: seq<string>, turns: nat -> Turn, link: string)
    requires link in roots
    ensures OnOffer(roots, turns, link)
  {}

  /** Different candidates and no fragment anywhere: no address is visited twice. */
  lemma PlainLinksAreVisitedOnce(cfg: Settings, max: Limits, turns: nat -> Turn, candidates: seq<string>, start: Snapshot)
    requires Within(start, max)
    requires var roots := candidates[..Min(|candidates|, cfg.topK)];
      && AllDifferent(roots)
      && forall link :: OnOffer(roots, turns, link) ==> '#' !in link
    ensures var roots := candidates[..Min(|candidates|, cfg.topK)];
      AllDifferent(Visited(roots, Crawled(cfg, max, turns, Begin(candidates, cfg.topK, start))))
  {
    var roots := candidates[..Min(|candidates|, cfg.topK)];
    forall x, y | OnOffer(roots, turns, x) && OnOffer(roots, turns, y) && DropFragment(x) == DropFragment(y) ensures x == y {
      DropsNothing(x);
      DropsNothing(y);
    }
    ApartOffersAreVisitedOnce(cfg, max, turns, candidates, start);
  }

  // ---- A page fetched twice ----

  /** A page that links to itself with a fragment: both turns answer at once, with an empty page. */
  function SelfLink(page: string): Turn {
    Turn(false, Allowed(true), _ => Answered(Response(200, Absent, [], false)), false, false, true, RenderFailed(true),
         [page + "#" + "a"])
  }

  lemma VisitSelfLink(cfg: Settings, max: Limits, page: string, c: Candidate, s: Snapshot)
    requires s.fetches > 0 && s.crawlUrls > 0 && s.bytes > 0
    ensures VisitOf(cfg, max, SelfLink(page), c, s) == Effect(
      GoOn(if c.depth < cfg.maxDepth then [page + "#" + "a"] else []),
      s.(fetches := s.fetches - 1, crawlUrls := s.crawlUrls - 1),
      [Enriched(c.url, false)], [], [FetchCall, Transfer(0, 0)])
  {
    var t := SelfLink(page);
    var fetched := FetchFrom(t.hops, c.url, [], Min(s.bytes, cfg.perFetchBytes), Min(s.redirects, cfg.maxRedirects));
    assert HopAt(t.hops, 0) == Answered(Response(200, Absent, [], false));
    assert fetched == Ok(Fetched(c.url, 200, [], []));
    var none: seq<Charge> := [];
    assert [FetchCall, Transfer(0, 0)] + none == [FetchCall, Transfer(0, 0)];
  }

  lemma {:induction false} DropsNothing(page: string)
    requires '#' !in page
    ensures DropFragment(page) == page
  {
    if page != [] { DropsNothing(page[1..]); }
  }

  /** The crawl of a page that links to itself with a fragment visits and pays for that page twice. */
  lemma FragmentTwinIsFetchedTwice(page: string) returns (cfg: Settings, start: Snapshot, turns: nat -> Turn)
    requires '#' !in page
    ensures var max := Limits(start.fetches, start.browserCalls, start.crawlUrls);
      var last := Crawled(cfg, max, turns, Begin([page], cfg.topK, start));
      && Within(start, max) && last.queue == [] && !last.stopped
      && Visited([page], last) == [page, page]
      && last.charges == [FetchCall, Transfer(0, 0)] + [FetchCall, Transfer(0, 0)]
  {
    hide VisitOf, Crawled, Enqueued;
    cfg, start := Settings(1, 0, 1, 1, true, false), Snapshot(2, 1, 0, 0, 2, 0, 0);
    turns := _ => SelfLink(page);
    var max, link := Limits(2, 0, 2), page + "#" + "a";
    var first := Begin([page], 1, start);
    var second := AfterFirst(page, cfg, max, turns, first);
    CrawledUnfolds(cfg, max, turns, first);
    CrawledUnfolds(cfg, max, turns, second);
    VisitSelfLink(cfg, max, page, second.queue[0], second.snapshot);
    assert TurnAt(turns, 1) == SelfLink(page);
    var last := AfterTurn(cfg, max, turns, second);
    CrawledUnfolds(cfg, max, turns, last);
    TwinAddresses(page, last.found);
  }

  /** The page is visited, and its own address with a fragment is enqueued. */
  lemma AfterFirst(page: string, cfg: Settings, max: Limits, turns: nat -> Turn, first: Crawl) returns (second: Crawl)
    requires '#' !in page && cfg.maxDepth == 1 && TurnAt(turns, 0) == SelfLink(page)
    requires first == Begin([page], 1, Snapshot(2, 1, 0, 0, 2, 0, 0))
    ensures first.queue != [] && second == AfterTurn(cfg, max, turns, first)
    ensures second.queue == [Candidate(page, 1)] && second.found == [Candidate(page + "#" + "a", 1)]
    ensures second.turn == 1 && !second.stopped && second.charges == [FetchCall, Transfer(0, 0)]
    ensures second.snapshot == Snapshot(1, 1, 0, 0, 1, 0, 0)
  {
    hide VisitOf;
    var link := page + "#" + "a";
    assert [page][..1] == [page];
    VisitSelfLink(cfg, max, page, Candidate(page, 0), first.snapshot);
    DropsFragment(page, "a");
    var e := VisitOf(cfg, max, SelfLink(page), Candidate(page, 0), first.snapshot);
    var links: seq<string>, none: seq<string> := [link], [];
    assert links[..0] == none && |link| > |page|;
    assert Enqueue(none, 1, Popped(first, e)) == Popped(first, e);
    second := AfterTurn(cfg, max, turns, first);
  }

  lemma TwinAddresses(page: string, found: seq<Candidate>)
    requires '#' !in page && found == [Candidate(page + "#" + "a", 1)]
    ensures Enqueued([page], found) == [page, page]
  {
    EnqueuedAreAddresses([page], found);
    DropsFragment(page, "a");
    DropsNothing(page);
  }

  /** Two links that differ only in their fragment are both enqueued, for the same address. */
  lemma FragmentTwinsAreEnqueuedTwice(page: string, crawl: Crawl, depth: nat)
    requires '#' !in page && page + "#" + "a" !in crawl.visited && page + "#" + "b" !in crawl.visited
    ensures Enqueue([page + "#" + "a", page + "#" + "b"], depth, crawl).queue ==
      crawl.queue + [Candidate(page, depth), Candidate(page, depth)]
  {
    var a, b := page + "#" + "a", page + "#" + "b";
    DropsFragment(page, "a");
    DropsFragment(page, "b");
    assert a[|page| + 1] != b[|page| + 1];
    var one: seq<string>, two: seq<string> := [a], [a, b];
    var none: seq<string> := [];
    assert one[..|one| - 1] == none && Enqueue(none, depth, crawl) == crawl;
    var first := Enqueue(one, depth, crawl);
    assert first.queue == crawl.queue + [Candidate(page, depth)] && first.visited == crawl.visited + {a};
    assert two[..|two| - 1] == one;
    assert Enqueue(two, depth, crawl).queue == first.queue + [Candidate(page, depth)];
    assert crawl.queue + [Candidate(page, depth)] + [Candidate(page, depth)] ==
      crawl.queue + [Candidate(page, depth), Candidate(page, depth)];
  }

  lemma {:induction false} DropsFragment(page: string, fragment: string)
    requires '#' !in page
    ensures DropFragment(page + "#" + fragment) == page
  {
    if page == [] {
      assert page + "#" + fragment == "#" + fragment;
    } else {
      assert (page + "#" + fragment)[1..] == page[1..] + "#" + fragment;
      DropsFragment(page[1..], fragment);
    }
  }
}
