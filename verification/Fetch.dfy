/** Following redirects and reading bodies under a request's limits (fetch.rs). */
module Fetching {
  import opened Wrappers

  datatype FetchError = EgressDenied | BlockedUrl | Dns | AddressBlocked | HeaderBlocked
                      | RedirectLimit | InvalidRedirect | ByteLimit | Timeout | Network

  datatype Location = Absent | Rejected(error: FetchError) | To(url: string)

  /** An answered request: its body arrives in chunks and may break off after them. */
  datatype Response = Response(status: nat, location: Location, chunks: seq<seq<bv8>>, broken: bool)

  /** One hop: refused before an answer (policy, name resolution, transport, deadline), or answered. */
  datatype Hop = Refused(error: FetchError) | Answered(response: Response)

  datatype Fetched = Fetched(finalUrl: string, status: nat, body: seq<bv8>, redirectChain: seq<string>)

  predicate IsRedirect(status: nat) { status in {301, 302, 303, 307, 308} }

  function Concat(chunks: seq<seq<bv8>>): seq<bv8> {
    if chunks == [] then [] else Concat(chunks[..|chunks| - 1]) + chunks[|chunks| - 1]
  }

  lemma {:induction false} PrefixIsShorter(chunks: seq<seq<bv8>>, n: nat)
    requires n <= |chunks|
    ensures |Concat(chunks[..n])| <= |Concat(chunks)|
  {
    if n == |chunks| {
      assert chunks[..n] == chunks;
    } else {
      var front := chunks[..|chunks| - 1];
      assert chunks[..n] == front[..n];
      PrefixIsShorter(front, n);
    }
  }

  function BodyOf(response: Response, maxBytes: nat): Result<seq<bv8>, FetchError> {
    if IsRedirect(response.status) then Ok([])
    else if |Concat(response.chunks)| > maxBytes then Err(ByteLimit)
    else if response.broken then Err(Network)
    else Ok(Concat(response.chunks))
  }

  /** Reads a whole body, or fails as soon as it would outgrow `maxBytes`. */
  method ReadBody(response: Response, maxBytes: nat) returns (r: Result<seq<bv8>, FetchError>)
    ensures r == BodyOf(response, maxBytes)
  {
    if IsRedirect(response.status) { return Ok([]); }
    var body: seq<bv8> := [];
    var chunks := response.chunks;
    for i := 0 to |chunks|
      invariant body == Concat(chunks[..i]) && |body| <= maxBytes
    {
      assert chunks[..i + 1][..i] == chunks[..i];
      PrefixIsShorter(chunks, i + 1);
      if |body| + |chunks[i]| > maxBytes { return Err(ByteLimit); }
      body := body + chunks[i];
    }
    assert chunks[..|chunks|] == chunks;
    if response.broken { return Err(Network); }
    return Ok(body);
  }

  function HopAt(hops: nat -> Hop, k: nat): Hop { hops(k) }

  /** The fetch that has followed the redirects of `chain` and stands at `url`. */
  function FetchFrom(hops: nat -> Hop, url: string, chain: seq<string>, maxBytes: nat, maxRedirects: nat): Result<Fetched, FetchError>
    requires |chain| <= maxRedirects
    decreases maxRedirects - |chain|
  {
    match HopAt(hops, |chain|)
    case Refused(error) => Err(error)
    case Answered(response) =>
      match BodyOf(response, maxBytes)
      case Err(error) => Err(error)
      case Ok(body) =>
        if !IsRedirect(response.status) then Ok(Fetched(url, response.status, body, chain))
        else if |chain| >= maxRedirects then Err(RedirectLimit)
        else
          match response.location
          case Absent => Err(InvalidRedirect)
          case Rejected(error) => Err(error)
          case To(next) => FetchFrom(hops, next, chain + [url], maxBytes, maxRedirects)
  }

  /** The redirect loop.  It ends because every turn uses up one of the allowed redirects. */
  method Fetch(hops: nat -> Hop, url: string, maxBytes: nat, maxRedirects: nat) returns (r: Result<Fetched, FetchError>)
    ensures r == FetchFrom(hops, url, [], maxBytes, maxRedirects)
    ensures r.Ok? ==> |r.value.body| <= maxBytes && |r.value.redirectChain| <= maxRedirects
  {
    FetchedWithinLimits(hops, url, [], maxBytes, maxRedirects);
    var current := url;
    var chain: seq<string> := [];
    while true
      invariant |chain| <= maxRedirects
      invariant FetchFrom(hops, url, [], maxBytes, maxRedirects) == FetchFrom(hops, current, chain, maxBytes, maxRedirects)
      decreases maxRedirects - |chain|
    {
      match HopAt(hops, |chain|) {
        case Refused(error) => return Err(error);
        case Answered(response) =>
          var body := ReadBody(response, maxBytes);
          if body.Err? { return Err(body.error); }
          if !IsRedirect(response.status) { return Ok(Fetched(current, response.status, body.value, chain)); }
          if |chain| >= maxRedirects { return Err(RedirectLimit); }
          match response.location {
            case Absent => return Err(InvalidRedirect);
            case Rejected(error) => return Err(error);
            case To(next) => chain, current := chain + [current], next;
          }
      }
    }
  }

  /** A delivered body and its redirects never exceed what the request allowed. */
  lemma {:induction false} FetchedWithinLimits(hops: nat -> Hop, url: string, chain: seq<string>, maxBytes: nat, maxRedirects: nat)
    requires |chain| <= maxRedirects
    ensures var r := FetchFrom(hops, url, chain, maxBytes, maxRedirects);
      r.Ok? ==> |r.value.body| <= maxBytes && |r.value.redirectChain| <= maxRedirects
    decreases maxRedirects - |chain|
  {
    if Passes(hops, |chain|) && |chain| < maxRedirects {
      FetchedWithinLimits(hops, HopAt(hops, |chain|).response.location.url, chain + [url], maxBytes, maxRedirects);
    }
  }

  /** Hop `k` leads to another hop. */
  predicate Passes(hops: nat -> Hop, k: nat) {
    && HopAt(hops, k).Answered? && IsRedirect(HopAt(hops, k).response.status)
    && HopAt(hops, k).response.location.To?
  }

  predicate Delivers(hops: nat -> Hop, k: nat, maxBytes: nat) {
    && HopAt(hops, k).Answered?
    && var last := HopAt(hops, k).response;
    !IsRedirect(last.status) && !last.broken && |Concat(last.chunks)| <= maxBytes
  }

  /** A fetch succeeds exactly when some hop within the redirect limit delivers and all before it pass on. */
  lemma {:induction false} FetchSucceedsIff(hops: nat -> Hop, url: string, chain: seq<string>, maxBytes: nat, maxRedirects: nat)
    requires |chain| <= maxRedirects
    ensures FetchFrom(hops, url, chain, maxBytes, maxRedirects).Ok? <==>
      exists n :: |chain| <= n <= maxRedirects && Delivers(hops, n, maxBytes) && forall k :: |chain| <= k < n ==> Passes(hops, k)
    decreases maxRedirects - |chain|
  {
    var c := |chain|;
    if Passes(hops, c) && c < maxRedirects {
      FetchSucceedsIff(hops, HopAt(hops, c).response.location.url, chain + [url], maxBytes, maxRedirects);
    } else if FetchFrom(hops, url, chain, maxBytes, maxRedirects).Ok? {
      assert Delivers(hops, c, maxBytes);
    }
  }

  // ---- What comes back ----

  predicate LeadsOn(status: nat) { status == 301 || status == 302 || status == 303 || status == 307 || status == 308 }

  lemma RedirectsAre(status: nat)
    ensures IsRedirect(status) <==> LeadsOn(status)
  {}

  /** The address hop `k` of a fetch of `url` is sent to: where the hop before redirected. */
  function AddressOf(hops: nat -> Hop, url: string, k: nat): string {
    if k == 0 then url
    else
      match HopAt(hops, k - 1)
      case Answered(Response(_, To(next), _, _)) => next
      case _ => url
  }

  /** Hop `k` was sent to `address` and led on from there. */
  ghost predicate Hopped(hops: nat -> Hop, url: string, k: nat, address: string) {
    address == AddressOf(hops, url, k) && Passes(hops, k) && LeadsOn(HopAt(hops, k).response.status)
  }

  /** The fetch stands at hop `|chain|`: every hop before redirected, and `chain` are their addresses. */
  ghost predicate StandsAt(hops: nat -> Hop, url: string, current: string, chain: seq<string>) {
    && current == AddressOf(hops, url, |chain|)
    && (forall k :: 0 <= k < |chain| ==> Hopped(hops, url, k, chain[k]))
  }

  /** Hop `n` ends the fetch with `error`. */
  ghost predicate FailsAt(hops: nat -> Hop, n: nat, maxBytes: nat, maxRedirects: nat, error: FetchError) {
    match HopAt(hops, n)
    case Refused(refusal) => error == refusal
    case Answered(Response(status, location, chunks, broken)) =>
      if !LeadsOn(status) then
        || (error == ByteLimit && |Concat(chunks)| > maxBytes)
        || (error == Network && |Concat(chunks)| <= maxBytes && broken)
      else if n == maxRedirects then error == RedirectLimit
      else location == Rejected(error) || (location == Absent && error == InvalidRedirect)
  }

  ghost predicate FailsFirst(hops: nat -> Hop, n: nat, maxBytes: nat, maxRedirects: nat, error: FetchError) {
    n <= maxRedirects && FailsAt(hops, n, maxBytes, maxRedirects, error) && forall k :: 0 <= k < n ==> Passes(hops, k)
  }

  /** What a fetch that stands at hop `|chain|` and goes no further comes to. */
  lemma FetchEnds(hops: nat -> Hop, url: string, current: string, chain: seq<string>, maxBytes: nat, maxRedirects: nat)
    requires |chain| <= maxRedirects && StandsAt(hops, url, current, chain) && !(Passes(hops, |chain|) && |chain| < maxRedirects)
    ensures var r := FetchFrom(hops, current, chain, maxBytes, maxRedirects);
      && (r.Ok? ==> IsDelivery(hops, url, maxBytes, r.value))
      && (r.Err? ==> FailsFirst(hops, |chain|, maxBytes, maxRedirects, r.error))
  {
    hide IsRedirect, LeadsOn, Concat;
    forall status ensures IsRedirect(status) <==> LeadsOn(status) { RedirectsAre(status); }
    forall k | 0 <= k < |chain| ensures Passes(hops, k) { assert Hopped(hops, url, k, chain[k]); }
  }

  lemma MovesOn(hops: nat -> Hop, url: string, current: string, chain: seq<string>)
    requires StandsAt(hops, url, current, chain) && Passes(hops, |chain|)
    ensures StandsAt(hops, url, HopAt(hops, |chain|).response.location.url, chain + [current])
  {
    hide IsRedirect, LeadsOn, Concat;
    RedirectsAre(HopAt(hops, |chain|).response.status);
  }

  lemma {:induction false} FetchGoesBy(hops: nat -> Hop, url: string, current: string, chain: seq<string>, maxBytes: nat, maxRedirects: nat)
    requires |chain| <= maxRedirects && StandsAt(hops, url, current, chain)
    ensures var r := FetchFrom(hops, current, chain, maxBytes, maxRedirects);
      && (r.Ok? ==> IsDelivery(hops, url, maxBytes, r.value))
      && (r.Err? ==> exists n: nat :: FailsFirst(hops, n, maxBytes, maxRedirects, r.error))
    decreases maxRedirects - |chain|
  {
    hide StandsAt, IsDelivery, FailsFirst;
    var c := |chain|;
    if Passes(hops, c) && c < maxRedirects {
      MovesOn(hops, url, current, chain);
      FetchGoesBy(hops, url, HopAt(hops, c).response.location.url, chain + [current], maxBytes, maxRedirects);
    } else {
      FetchEnds(hops, url, current, chain, maxBytes, maxRedirects);
    }
  }

  /**
   The result is what hop `n` sent, `n` being the length of the chain: its status and whole body, under
   the address that hop was sent to, with the addresses of the hops before it as the chain.
   */
  ghost predicate IsDelivery(hops: nat -> Hop, url: string, maxBytes: nat, f: Fetched) {
    var n := |f.redirectChain|;
    && HopAt(hops, n).Answered?
    && var last := HopAt(hops, n).response;
    && !LeadsOn(last.status) && !last.broken && |f.body| <= maxBytes
    && f.status == last.status && f.body == Concat(last.chunks)
    && StandsAt(hops, url, f.finalUrl, f.redirectChain)
  }

  /** A fetch delivers what the last hop sent, or fails with the error of the first hop that does not lead on. */
  lemma FetchDelivers(hops: nat -> Hop, url: string, maxBytes: nat, maxRedirects: nat)
    ensures var r := FetchFrom(hops, url, [], maxBytes, maxRedirects);
      && (r.Ok? ==> IsDelivery(hops, url, maxBytes, r.value))
      && (r.Err? ==> exists n: nat :: FailsFirst(hops, n, maxBytes, maxRedirects, r.error))
  {
    FetchGoesBy(hops, url, url, [], maxBytes, maxRedirects);
  }
}
