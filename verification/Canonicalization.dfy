/** Canonicalizing a parsed web address, and why doing it twice changes nothing (canonical.rs). */
module Canonicalization {
  import opened Wrappers
  import opened Canonical
  import opened CanonicalUrls

  datatype Transformation =
    | LowercaseScheme | LowercaseHost | IdnToPunycode | RemoveDefaultPort | AddRootPath
    | HexCase | RemoveTracking(key: string) | RemoveEmptyFragment

  // ---- What parsing already changed, seen from the raw text ----

  predicate SchemeRaised(raw: string) {
    var n := Until(raw, {':'});
    n < |raw| && Lower(raw[..n]) != raw[..n]
  }

  /** The host of an authority, without credentials and port; none when it is in brackets. */
  function HostOfAuthority(authority: string): Option<string> {
    var at := LastIndex(authority, '@');
    var hostPort := if at.None? then authority else authority[at.value + 1..];
    var colon := LastIndex(hostPort, ':');
    if hostPort != [] && hostPort[0] == '[' then None
    else if colon.None? then Some(hostPort)
    else Some(hostPort[..colon.value])
  }

  function RawHost(raw: string): Option<string> {
    var rest := AfterScheme(raw);
    if rest.None? then None else HostOfAuthority(AuthorityOf(rest.value))
  }

  predicate Ascii(s: string) { forall c :: c in s ==> c < 128 as char }

  function HostNote(raw: string, url: Url): seq<Transformation> {
    var host := RawHost(raw);
    if host.None? then []
    else if !Ascii(host.value) then [IdnToPunycode]
    else if host.value != url.host && Lower(host.value) == Lower(url.host) then [LowercaseHost]
    else []
  }

  predicate EndsWith(s: string, end: string) { |s| >= |end| && s[|s| - |end|..] == end }

  predicate HasDefaultPort(raw: string, scheme: string) {
    var rest := AfterScheme(raw);
    && rest.Some?
    && ((scheme == "http" && EndsWith(AuthorityOf(rest.value), ":80")) ||
        (scheme == "https" && EndsWith(AuthorityOf(rest.value), ":443")))
  }

  predicate HasEmptyPath(raw: string) { AfterScheme(raw).Some? && '/' !in AfterScheme(raw).value }

  function Structural(raw: string, url: Url): seq<Transformation> {
    (if SchemeRaised(raw) then [LowercaseScheme] else []) + HostNote(raw, url) +
    (if HasDefaultPort(raw, url.scheme) then [RemoveDefaultPort] else []) +
    (if HasEmptyPath(raw) then [AddRootPath] else [])
  }

  predicate Malformed(raw: string) {
    exists i :: 0 <= i < |raw| && raw[i] == '%' && !Escape(raw[i..])
  }

  // ---- The canonical address ----

  function HexPart(part: Option<string>): Option<string> { if part.Some? then Some(Hex(part.value)) else None }

  function HexParts(u: Url): Url {
    u.(path := Hex(u.path), query := HexPart(u.query), fragment := HexPart(u.fragment))
  }

  function FilteredQuery(query: Option<string>): Option<string> {
    if query.None? then None
    else
      var kept := KeptOf(Split(query.value));
      if kept == [] then None else Some(Join(kept))
  }

  function Kept(fragment: Option<string>): Option<string> { if fragment == Some("") then None else fragment }

  function CanonicalOf(u: Url): Url {
    var h := HexParts(u);
    h.(query := FilteredQuery(h.query), fragment := Kept(h.fragment))
  }

  function TrackingNotes(keys: seq<string>): seq<Transformation> {
    seq(|keys|, i requires 0 <= i < |keys| => RemoveTracking(keys[i]))
  }

  function QueryNotes(query: Option<string>): seq<Transformation> {
    if query.None? then [] else TrackingNotes(RemovedOf(Split(query.value)))
  }

  /** Every transformation recorded for `url`, parsed from `raw`. */
  function Notes(raw: string, url: Url): seq<Transformation> {
    Structural(raw, url) + (if HexParts(url) != url then [HexCase] else []) +
    QueryNotes(HexParts(url).query) + (if url.fragment == Some("") then [RemoveEmptyFragment] else [])
  }

  method Canonicalize(raw: string, url: Url) returns (canonical: Url, transformations: seq<Transformation>, complete: bool)
    requires WellFormed(url)
    ensures canonical == CanonicalOf(url)
    ensures transformations == Notes(raw, url)
    ensures complete <==> forall i :: 0 <= i < |raw| && raw[i] == '%' ==> EscapeAt(raw, i)
  {
    hide Structural, Hex, KeptOf, RemovedOf, Split, Join, WellFormed, TrackingNotes, Malformed, Serialize, Parse;
    canonical := url;
    transformations := Structural(raw, url);
    var normalized := NormalizePercentHex(Serialize(url));
    HexOfText(url);
    ParseUndoesSerialize(url);
    ParseUndoesSerialize(HexParts(url));
    HexOfNothing();
    if normalized != Serialize(url) {
      match Parse(normalized)
      case Some(parsed) =>
        canonical := parsed;
        transformations := transformations + [HexCase];
      case None =>
    }
    assert canonical == HexParts(url);
    if canonical.query.Some? {
      var kept, removed := FilterSegments(canonical.query.value);
      transformations := transformations + TrackingNotes(removed);
      canonical := canonical.(query := if kept == [] then None else Some(Join(kept)));
    }
    if canonical.fragment == Some("") {
      canonical := canonical.(fragment := None);
      transformations := transformations + [RemoveEmptyFragment];
    }
    complete := !Malformed(raw);
    WholeEscapes(raw);
  }

  lemma SuffixStarts(raw: string, i: nat)
    requires i < |raw|
    ensures Escape(raw[i..]) <==> EscapeAt(raw, i)
  {
    hide IsHex, HexDigit;
    EscapeFirst(raw[i..]);
  }

  lemma WholeEscapes(raw: string)
    ensures !Malformed(raw) <==> forall i :: 0 <= i < |raw| && raw[i] == '%' ==> EscapeAt(raw, i)
  {
    hide Escape, EscapeAt;
    forall i | 0 <= i < |raw| ensures Escape(raw[i..]) <==> EscapeAt(raw, i) { SuffixStarts(raw, i); }
    if Malformed(raw) {
      var i :| 0 <= i < |raw| && raw[i] == '%' && !Escape(raw[i..]);
      assert !EscapeAt(raw, i);
    }
  }

  lemma HexOfNothing()
    ensures forall s :: |Hex(s)| == |s|
  {
    forall s ensures |Hex(s)| == |s| { HexKeepsShape(s); }
  }

  lemma HexKeepsFree(s: string, stops: set<char>)
    requires Free(s, stops) && forall c :: c in stops ==> !IsHex(c)
    ensures Free(Hex(s), stops)
  {
    HexKeepsShape(s);
    forall c | c in Hex(s) ensures c !in stops {
      var k :| 0 <= k < |Hex(s)| && Hex(s)[k] == c;
      assert s[k] in s;
    }
  }

  lemma HexPartsWellFormed(u: Url)
    requires WellFormed(u)
    ensures WellFormed(HexParts(u))
  {
    HexKeepsFree(u.path, {'?', '#'});
    HexKeepsShape(u.path);
    if u.query.Some? { HexKeepsFree(u.query.value, {'#'}); }
  }

  lemma HexOfPart(mark: string, part: Option<string>)
    requires |mark| == 1 && mark[0] != '%'
    ensures Hex(Prefixed(mark, part)) == Prefixed(mark, HexPart(part))
  {
    if part.Some? {
      assert !Escape(mark + part.value);
      assert (mark + part.value)[1..] == part.value;
    }
  }

  lemma HexOfTail(u: Url)
    ensures Hex(Tail(u)) == Tail(HexParts(u))
  {
    HexOfPart("?", u.query);
    HexOfPart("#", u.fragment);
    HexOfConcat(Prefixed("?", u.query), Prefixed("#", u.fragment));
    HexOfConcat(u.path, QueryText(u));
  }

  lemma NoEscapesInFront(u: Url)
    requires WellFormed(u)
    ensures '%' !in u.scheme + "://" + Authority(u) && Tail(u)[0] == '/'
  {}

  /** Normalizing the text of an address normalizes its path, query and fragment. */
  lemma HexOfText(u: Url)
    requires WellFormed(u)
    ensures Hex(Serialize(u)) == Serialize(HexParts(u)) && WellFormed(HexParts(u))
  {
    HexPartsWellFormed(u);
    NoEscapesInFront(u);
    HexOfTail(u);
    hide Hex, Tail, WellFormed;
    HexWithoutEscapes(u.scheme + "://" + Authority(u));
    HexOfConcat(u.scheme + "://" + Authority(u), Tail(u));
  }
}
