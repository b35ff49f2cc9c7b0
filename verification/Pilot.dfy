/** The pilot's quota and contamination gate (supplemental_pilot_contract.py). */
module Pilot {
  import opened Wrappers
  import opened Counting

  datatype Stratum = S1 | S2 | S3

  datatype Query = Query(id: string, permitted: seq<nat>, stratum: Stratum)

  /** A result; `url` is its canonical form, none when it is missing or no web address. */
  datatype Candidate = Candidate(rank: nat, title: string, snippet: string, url: Option<string>)

  datatype Reason =
    | Accepted | OutsideFrozenUniverse | OutsideProviderContract | OutsideAllowedDepth | InvalidResult
    | DuplicateCurrentPilot | OverlapV1 | OverlapHistorical | QuotaFilled

  datatype Attempt = Attempt(queryId: string, rank: nat, reason: Reason, url: Option<string>, stratum: Option<Stratum>)

  const TARGET_PER_STRATUM := 60

  const TOTAL_TARGET := 180

  /** The contract's state: addresses and counts so far, and every attempt. */
  datatype Progress = Progress(current: set<string>, counts: map<Stratum, nat>, attempts: seq<Attempt>)

  function CountOf(counts: map<Stratum, nat>, s: Stratum): nat { if s in counts then counts[s] else 0 }

  function Total(counts: map<Stratum, nat>): nat { CountOf(counts, S1) + CountOf(counts, S2) + CountOf(counts, S3) }

  datatype Contract = Contract(queries: map<string, Query>, v1: set<string>, historical: set<string>)

  function Judge(c: Contract, p: Progress, id: string, fromSearxng: bool, r: Candidate): Reason {
    if id !in c.queries then OutsideFrozenUniverse
    else if !fromSearxng then OutsideProviderContract
    else if r.rank !in c.queries[id].permitted then OutsideAllowedDepth
    else if r.url.None? || r.title == "" || r.snippet == "" then InvalidResult
    else if r.url.value in p.current then DuplicateCurrentPilot
    else if r.url.value in c.v1 then OverlapV1
    else if r.url.value in c.historical then OverlapHistorical
    else if CountOf(p.counts, c.queries[id].stratum) >= TARGET_PER_STRATUM || Total(p.counts) >= TOTAL_TARGET then QuotaFilled
    else Accepted
  }

  function Recorded(c: Contract, p: Progress, id: string, fromSearxng: bool, r: Candidate): Progress {
    var reason := Judge(c, p, id, fromSearxng, r);
    if reason == Accepted && r.url.Some? && id in c.queries then
      var s := c.queries[id].stratum;
      Progress(p.current + {r.url.value}, p.counts[s := CountOf(p.counts, s) + 1],
        p.attempts + [Attempt(id, r.rank, Accepted, r.url, Some(s))])
    else p.(attempts := p.attempts + [Attempt(id, r.rank, reason, None, None)])
  }

  datatype Status = Complete | ExhaustedFrozenUniverse

  /** Every stratum has reached its quota. */
  predicate Filled(counts: map<Stratum, nat>) { forall s :: s in counts ==> counts[s] == TARGET_PER_STRATUM }

  const START := Progress({}, map[S1 := 0, S2 := 0, S3 := 0], [])

  class PilotAccumulator {
    const contract: Contract
    var current: set<string>
    var validCounts: map<Stratum, nat>
    var attempts: seq<Attempt>

    constructor (contract: Contract)
      ensures this.contract == contract && Snapshot() == START
    {
      this.contract := contract;
      current, validCounts, attempts := {}, map[S1 := 0, S2 := 0, S3 := 0], [];
    }

    function Snapshot(): Progress
      reads this
    {
      Progress(current, validCounts, attempts)
    }

    method AcceptOrReject(id: string, fromSearxng: bool, r: Candidate) returns (attempt: Attempt)
      modifies this
      ensures Snapshot() == Recorded(contract, old(Snapshot()), id, fromSearxng, r)
      ensures attempts == old(attempts) + [attempt]
    {
      var reason := Accepted;
      if id !in contract.queries {
        reason := OutsideFrozenUniverse;
      } else if !fromSearxng {
        reason := OutsideProviderContract;
      } else if r.rank !in contract.queries[id].permitted {
        reason := OutsideAllowedDepth;
      } else if r.url.None? || r.title == "" || r.snippet == "" {
        reason := InvalidResult;
      } else if r.url.value in current {
        reason := DuplicateCurrentPilot;
      } else if r.url.value in contract.v1 {
        reason := OverlapV1;
      } else if r.url.value in contract.historical {
        reason := OverlapHistorical;
      } else if CountOf(validCounts, contract.queries[id].stratum) >= TARGET_PER_STRATUM || Total(validCounts) >= TOTAL_TARGET {
        reason := QuotaFilled;
      }
      attempt := Attempt(id, r.rank, reason, None, None);
      if reason == Accepted {
        var s := contract.queries[id].stratum;
        current := current + {r.url.value};
        validCounts := validCounts[s := CountOf(validCounts, s) + 1];
        attempt := Attempt(id, r.rank, Accepted, r.url, Some(s));
      }
      attempts := attempts + [attempt];
    }

    method ExhaustedStatus() returns (status: Status)
      ensures status == Complete <==> Filled(validCounts)
    {
      status := if Filled(validCounts) then Complete else ExhaustedFrozenUniverse;
    }
  }

  // ---- Every run ----

  datatype Offer = Offer(id: string, fromSearxng: bool, candidate: Candidate)

  function Run(c: Contract, offers: seq<Offer>): Progress {
    if offers == [] then START
    else
      var o := offers[|offers| - 1];
      Recorded(c, Run(c, offers[..|offers| - 1]), o.id, o.fromSearxng, o.candidate)
  }

  function AcceptedIn(s: Stratum): Attempt -> bool { (a: Attempt) => a.stratum == Some(s) }

  function AcceptedUrls(attempts: seq<Attempt>): seq<string> {
    if attempts == [] then []
    else
      var a := attempts[|attempts| - 1];
      AcceptedUrls(attempts[..|attempts| - 1]) + if a.reason == Accepted && a.url.Some? then [a.url.value] else []
  }

  /** Quotas hold, counts match the attempts, and accepted addresses are new and pairwise different. */
  ghost predicate Sound(c: Contract, p: Progress) {
    && (forall s: Stratum :: s in p.counts)
    && (forall s :: CountOf(p.counts, s) <= TARGET_PER_STRATUM)
    && (forall s :: CountOf(p.counts, s) == Count(p.attempts, AcceptedIn(s)))
    && AllDifferent(AcceptedUrls(p.attempts)) && p.current == SetOf(AcceptedUrls(p.attempts))
    && p.current !! c.v1 && p.current !! c.historical
  }

  lemma RecordedKeepsSound(c: Contract, p: Progress, id: string, fromSearxng: bool, r: Candidate)
    requires Sound(c, p)
    ensures Sound(c, Recorded(c, p, id, fromSearxng, r))
  {
    hide Count;
    var q := Recorded(c, p, id, fromSearxng, r);
    var a := q.attempts[|p.attempts|];
    assert q.attempts == p.attempts + [a] && q.attempts[..|p.attempts|] == p.attempts;
    forall s ensures Count(q.attempts, AcceptedIn(s)) == Count(p.attempts, AcceptedIn(s)) + if a.stratum == Some(s) then 1 else 0 {
      CountAppended(p.attempts, a, AcceptedIn(s));
    }
    if Judge(c, p, id, fromSearxng, r) == Accepted {
      assert AcceptedUrls(q.attempts) == AcceptedUrls(p.attempts) + [r.url.value];
      forall s ensures CountOf(q.counts, s) == CountOf(p.counts, s) + if a.stratum == Some(s) then 1 else 0 {}
    } else {
      assert AcceptedUrls(q.attempts) == AcceptedUrls(p.attempts);
      forall s ensures CountOf(q.counts, s) == CountOf(p.counts, s) && a.stratum != Some(s) {}
    }
  }

  /**
   * Over every sequence of offers each stratum stays within its quota, accepted addresses are
   * pairwise distinct and outside both corpora, and every offer leaves one attempt.
   */
  lemma {:induction false} EveryRunIsSound(c: Contract, offers: seq<Offer>)
    ensures Sound(c, Run(c, offers)) && |Run(c, offers).attempts| == |offers|
  {
    hide Sound;
    if offers == [] {
      StartIsSound(c);
    } else {
      var o := offers[|offers| - 1];
      EveryRunIsSound(c, offers[..|offers| - 1]);
      RecordedKeepsSound(c, Run(c, offers[..|offers| - 1]), o.id, o.fromSearxng, o.candidate);
    }
  }

  lemma StartIsSound(c: Contract)
    ensures Sound(c, START)
  {
    forall s: Stratum ensures s in START.counts && START.counts[s] == 0 { Strata(s); }
  }

  lemma Strata(s: Stratum)
    ensures s == S1 || s == S2 || s == S3
  {}

  /** The overall quota never refuses a result that its stratum's quota would accept. */
  lemma TotalQuotaIsRedundant(c: Contract, p: Progress, s: Stratum)
    requires Sound(c, p)
    ensures Total(p.counts) >= TOTAL_TARGET ==> CountOf(p.counts, s) >= TARGET_PER_STRATUM
    ensures Filled(p.counts) <==> Total(p.counts) >= TOTAL_TARGET
  {
    hide Count, AcceptedUrls;
    assert CountOf(p.counts, S1) <= TARGET_PER_STRATUM && CountOf(p.counts, S2) <= TARGET_PER_STRATUM && CountOf(p.counts, S3) <= TARGET_PER_STRATUM;
    assert S1 in p.counts && S2 in p.counts && S3 in p.counts;
    forall x: Stratum ensures p.counts[x] == CountOf(p.counts, x) { Strata(x); }
    if Total(p.counts) >= TOTAL_TARGET {
      forall x | x in p.counts ensures p.counts[x] == TARGET_PER_STRATUM { Strata(x); }
    }
  }

  // ---- Which offers are accepted ----

  lemma {:induction false} AcceptedUrlsAre(attempts: seq<Attempt>, url: string)
    ensures url in AcceptedUrls(attempts) <==> exists a :: a in attempts && a.reason == Accepted && a.url == Some(url)
  {
    if attempts != [] {
      var n := |attempts| - 1;
      AcceptedUrlsAre(attempts[..n], url);
      assert attempts == attempts[..n] + [attempts[n]];
    }
  }

  /** An earlier offer of this address was accepted. */
  ghost predicate Taken(p: Progress, url: string) { exists a :: a in p.attempts && a.reason == Accepted && a.url == Some(url) }

  /** The offer shows a title, a snippet and an address at a permitted rank of a frozen query, from the permitted provider. */
  ghost predicate Presentable(c: Contract, id: string, fromSearxng: bool, r: Candidate) {
    id in c.queries && fromSearxng && r.rank in c.queries[id].permitted && r.url.Some? && |r.title| > 0 && |r.snippet| > 0
  }

  /** An offer is accepted exactly when it is presentable, new to this pilot and to both corpora, and its stratum has room. */
  lemma AcceptedIff(c: Contract, p: Progress, id: string, fromSearxng: bool, r: Candidate)
    requires Sound(c, p)
    ensures Judge(c, p, id, fromSearxng, r) == Accepted <==>
      && Presentable(c, id, fromSearxng, r)
      && !Taken(p, r.url.value) && r.url.value !in c.v1 && r.url.value !in c.historical
      && Count(p.attempts, AcceptedIn(c.queries[id].stratum)) < 60
  {
    hide Count;
    if Presentable(c, id, fromSearxng, r) {
      AcceptedUrlsAre(p.attempts, r.url.value);
      TotalQuotaIsRedundant(c, p, c.queries[id].stratum);
    }
  }

  /** Why an offer is rejected: for each reason, with those that come before it ruled out. */
  lemma RejectedBecause(c: Contract, p: Progress, id: string, fromSearxng: bool, r: Candidate)
    requires Sound(c, p)
    ensures var reason := Judge(c, p, id, fromSearxng, r);
      && (reason == OutsideFrozenUniverse <==> id !in c.queries)
      && (reason == OutsideProviderContract <==> id in c.queries && !fromSearxng)
      && (reason == OutsideAllowedDepth <==> id in c.queries && fromSearxng && r.rank !in c.queries[id].permitted)
      && (reason == InvalidResult <==>
          id in c.queries && fromSearxng && r.rank in c.queries[id].permitted && !Presentable(c, id, fromSearxng, r))
      && (Presentable(c, id, fromSearxng, r) ==>
          var taken := Taken(p, r.url.value);
          && (reason == DuplicateCurrentPilot <==> taken)
          && (reason == OverlapV1 <==> !taken && r.url.value in c.v1)
          && (reason == OverlapHistorical <==> !taken && r.url.value !in c.v1 && r.url.value in c.historical)
          && (reason == QuotaFilled <==>
              && !taken && r.url.value !in c.v1 && r.url.value !in c.historical
              && Count(p.attempts, AcceptedIn(c.queries[id].stratum)) >= 60))
  {
    hide Count;
    if Presentable(c, id, fromSearxng, r) {
      AcceptedUrlsAre(p.attempts, r.url.value);
      TotalQuotaIsRedundant(c, p, c.queries[id].stratum);
    }
  }

  /** Every offer is noted under its query and rank; an accepted one with its address and stratum. */
  lemma OfferIsNoted(c: Contract, p: Progress, id: string, fromSearxng: bool, r: Candidate)
    ensures var q, reason := Recorded(c, p, id, fromSearxng, r), Judge(c, p, id, fromSearxng, r);
      && |q.attempts| == |p.attempts| + 1 && p.attempts <= q.attempts
      && var a := q.attempts[|p.attempts|];
      && a.queryId == id && a.rank == r.rank && a.reason == reason
      && (reason == Accepted ==> id in c.queries && a.url == r.url && a.stratum == Some(c.queries[id].stratum))
      && (reason != Accepted ==> a.url == None && a.stratum == None && q.current == p.current && q.counts == p.counts)
  {}
}
