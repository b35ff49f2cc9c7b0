module CanonicalProperties {
  // Canonicalization keeps what an address means and is idempotent (canonical.rs).

  import opened Wrappers
  import opened Canonical
  import opened CanonicalUrls
  import opened Canonicalization

  // ---- Hex case and query segments ----

  function HexAll(segments: seq<string>): seq<string> {
    if segments == [] then [] else HexAll(segments[..|segments| - 1]) + [Hex(segments[|segments| - 1])]
  }

  lemma {:induction false} HexAllPrepended(first: string, rest: seq<string>)
    ensures HexAll([first] + rest) == [Hex(first)] + HexAll(rest)
  {
    hide Hex;
    var s := [first] + rest;
    if rest == [] {
      assert s[..0] == [];
    } else {
      assert s[..|s| - 1] == [first] + rest[..|rest| - 1];
      HexAllPrepended(first, rest[..|rest| - 1]);
    }
  }

  lemma HexFixesMark(mark: char, s: string)
    requires mark != '%'
    ensures Hex([mark] + s) == [mark] + Hex(s)
  {
    assert ([mark] + s)[1..] == s;
  }

  /** Escapes never cross a segment boundary. */
  lemma {:induction false} HexOfSegments(s: string)
    ensures Split(Hex(s)) == HexAll(Split(s))
    decreases |s|
  {
    var n := Until(s, {'&'});
    HexKeepsFree(s[..n], {'&'});
    HexKeepsShape(s[..n]);
    if n == |s| {
      assert s[..n] == s;
      HexAllPrepended(s, []);
      UntilBoundary(Hex(s), [], {'&'});
      assert Hex(s) + [] == Hex(s) && [s] + [] == [s];
    } else {
      var first, rest := s[..n], s[n + 1..];
      assert s == first + ("&" + rest);
      HexOfConcat(first, "&" + rest);
      HexFixesMark('&', rest);
      HexOfSegments(rest);
      HexAllPrepended(first, Split(rest));
      SplitFirst(Hex(first), Hex(rest));
    }
  }

  lemma LowerOfUpper(c: char)
    ensures LowerChar(Upper(c)) == LowerChar(c)
  {}

  lemma LowerIgnoresHexCase(s: string)
    ensures Lower(Hex(s)) == Lower(s)
  {
    HexKeepsShape(s);
    forall k | 0 <= k < |s| ensures Lower(Hex(s))[k] == Lower(s)[k] { LowerOfUpper(s[k]); }
  }

  /** Hex case never decides whether a segment is a tracking parameter. */
  lemma TrackingIgnoresHexCase(segment: string)
    ensures Tracking(Hex(segment)) == Tracking(segment)
  {
    var n := Until(segment, {'='});
    var key, rest := segment[..n], segment[n..];
    assert segment == key + rest;
    HexOfConcat(key, rest);
    HexKeepsShape(key);
    HexKeepsShape(rest);
    HexKeepsFree(key, {'='});
    UntilBoundary(Hex(key), Hex(rest), {'='});
    assert KeyOf(Hex(segment)) == Hex(key);
    LowerIgnoresHexCase(key);
  }

  lemma {:induction false} KeptIgnoresHexCase(segments: seq<string>)
    ensures KeptOf(HexAll(segments)) == HexAll(KeptOf(segments))
  {
    hide Tracking, Hex;
    if segments != [] {
      var init, last := segments[..|segments| - 1], segments[|segments| - 1];
      KeptIgnoresHexCase(init);
      TrackingIgnoresHexCase(last);
      HexAllAppended(KeptOf(init), last);
      KeptAppended(HexAll(init), Hex(last));
      assert HexAll(segments) == HexAll(init) + [Hex(last)];
      if Tracking(last) {
        assert KeptOf(segments) == KeptOf(init);
        assert KeptOf(HexAll(segments)) == KeptOf(HexAll(init));
      }
    }
  }

  lemma HexAllAppended(init: seq<string>, last: string)
    ensures HexAll(init + [last]) == HexAll(init) + [Hex(last)]
  {
    assert (init + [last])[..|init|] == init;
  }

  lemma KeptAppended(init: seq<string>, last: string)
    ensures KeptOf(init + [last]) == KeptOf(init) + if Tracking(last) then [] else [last]
  {
    assert (init + [last])[..|init|] == init;
  }

  /**
   * The canonical query holds exactly the segments of the original that are no tracking
   * parameters, in order, with hex digits in upper case; without any it is dropped.
   */
  lemma CanonicalQuery(u: Url)
    ensures var c := CanonicalOf(u);
      && (c.query.None? <==> u.query.None? || KeptOf(Split(u.query.value)) == [])
      && (c.query.Some? ==> Split(c.query.value) == HexAll(KeptOf(Split(u.query.value))))
  {
    hide KeptOf, Tracking, Hex, Split, Join;
    if u.query.Some? {
      var kept := KeptOf(Split(Hex(u.query.value)));
      HexOfSegments(u.query.value);
      KeptIgnoresHexCase(Split(u.query.value));
      KeptMembers(Split(Hex(u.query.value)));
      SplitSegments(Hex(u.query.value));
      if kept != [] { SplitUndoesJoin(kept); }
    }
  }

  /** Canonicalization keeps the server, and the octets of path and fragment. */
  lemma CanonicalKeepsOctets(u: Url)
    ensures var c := CanonicalOf(u);
      && c.scheme == u.scheme && c.host == u.host && c.port == u.port
      && |c.path| == |u.path| && Decode(c.path) == Decode(u.path)
      && (c.fragment.Some? ==> u.fragment.Some? && Decode(c.fragment.value) == Decode(u.fragment.value))
      && (c.fragment.None? ==> u.fragment == None || u.fragment == Some(""))
  {
    hide Decode;
    HexKeepsOctets(u.path);
    HexKeepsShape(u.path);
    if u.fragment.Some? {
      HexKeepsOctets(u.fragment.value);
      HexKeepsShape(u.fragment.value);
    }
  }

  // ---- A second pass ----

  lemma {:induction false} HexAllIsIdempotent(segments: seq<string>)
    ensures HexAll(HexAll(segments)) == HexAll(segments)
  {
    hide Hex;
    if segments != [] {
      var n := |segments| - 1;
      HexAllIsIdempotent(segments[..n]);
      HexIsIdempotent(segments[n]);
      HexAllAppended(HexAll(segments[..n]), Hex(segments[n]));
    }
  }

  /** A canonical query is in hex normal form and has nothing left to remove. */
  lemma CanonicalQueryIsFixed(u: Url)
    requires CanonicalOf(u).query.Some?
    ensures var q := CanonicalOf(u).query.value;
      Hex(q) == q && RemovedOf(Split(q)) == [] && FilteredQuery(Some(q)) == Some(q)
  {
    hide KeptOf, RemovedOf, Hex, Split, Join, CanonicalOf, HexAll;
    var q := CanonicalOf(u).query.value;
    CanonicalQuery(u);
    var kept := KeptOf(Split(u.query.value));
    HexAllIsIdempotent(kept);
    HexOfSegments(q);
    JoinUndoesSplit(q);
    JoinUndoesSplit(Hex(q));
    KeptIgnoresHexCase(kept);
    FilterIsIdempotent(Split(u.query.value));
    KeepsAllIffClean(HexAll(kept));
  }

  lemma CanonicalPartsFixed(u: Url)
    ensures var c := CanonicalOf(u); HexParts(c) == c && CanonicalOf(c) == c && QueryNotes(c.query) == []
  {
    hide Hex, Split, Join, KeptOf, RemovedOf;
    var c := CanonicalOf(u);
    HexIsIdempotent(u.path);
    if u.fragment.Some? {
      HexIsIdempotent(u.fragment.value);
    }
    if c.query.Some? { CanonicalQueryIsFixed(u); }
  }

  lemma {:induction false} JoinKeepsFree(segments: seq<string>, stops: set<char>)
    requires segments != [] && '&' !in stops && forall x :: x in segments ==> Free(x, stops)
    ensures Free(Join(segments), stops)
  {
    assert segments[0] in segments;
    if |segments| > 1 { JoinKeepsFree(segments[1..], stops); }
  }

  lemma {:induction false} SplitKeepsFree(s: string, stops: set<char>)
    requires Free(s, stops)
    ensures forall x :: x in Split(s) ==> Free(x, stops)
    decreases |s|
  {
    var n := Until(s, {'&'});
    if n < |s| { SplitKeepsFree(s[n + 1..], stops); }
  }

  lemma CanonicalIsWellFormed(u: Url)
    requires WellFormed(u)
    ensures WellFormed(CanonicalOf(u))
  {
    hide Hex, Split, Join, KeptOf, Free, HostShape;
    HexPartsWellFormed(u);
    if u.query.Some? {
      var q := Hex(u.query.value);
      SplitKeepsFree(q, {'#'});
      KeptMembers(Split(q));
      if KeptOf(Split(q)) != [] { JoinKeepsFree(KeptOf(Split(q)), {'#'}); }
    }
  }

  lemma LowerFixed(s: string)
    requires forall c :: c in s ==> !('A' <= c <= 'Z')
    ensures Lower(s) == s
  {
    forall k | 0 <= k < |s| ensures Lower(s)[k] == s[k] { assert s[k] in s; }
  }

  lemma {:induction false} NoIndex(s: string, c: char)
    requires c !in s
    ensures LastIndex(s, c) == None
  {}

  lemma HostOfText(c: Url)
    requires WellFormed(c)
    ensures RawHost(Serialize(c)) == if c.host[0] == '[' then None else Some(c.host)
  {
    hide Serialize, AfterScheme, AuthorityOf, Tail;
    AuthorityIsFound(c);
    NoIndex(Authority(c), '@');
    if c.port.Some? {
      assert c.host + [':'] + c.port.value == Authority(c);
      LastIndexOfMark(c.host, ':', c.port.value);
    } else {
      assert Authority(c) == c.host;
      if c.host[0] != '[' { NoIndex(c.host, ':'); }
    }
  }

  lemma PortOfText(c: Url)
    requires WellFormed(c)
    ensures !HasDefaultPort(Serialize(c), c.scheme) && !HasEmptyPath(Serialize(c))
  {
    hide Serialize, AfterScheme, AuthorityOf, Tail, Authority, EndsWith, HostShape, Free;
    AuthorityIsFound(c);
    SlashFollows(c);
    assert ":" + "80" == ":80" && ":" + "443" == ":443";
    if c.scheme == "http" {
      if EndsWith(Authority(c), ":80") { PortShown(c, "80"); }
    } else {
      if EndsWith(Authority(c), ":443") { PortShown(c, "443"); }
    }
  }

  lemma SlashFollows(c: Url)
    requires WellFormed(c)
    ensures '/' in Authority(c) + Tail(c)
  {
    assert (Authority(c) + Tail(c))[|Authority(c)|] == '/';
  }

  lemma PortShown(c: Url, port: string)
    requires WellFormed(c) && EndsWith(Authority(c), ":" + port) && Digits(port)
    ensures c.port == Some(port)
  {
    hide HostShape, Free, DefaultPort, Prefixed;
    var a := Authority(c);
    var host := a[..|a| - |port| - 1];
    assert a == host + [':'] + port;
    LastIndexOfMark(host, ':', port);
    if c.port.Some? {
      OneColon(c);
      assert a[|host| + 1..] == port;
    } else {
      PortRead(c, port);
    }
  }

  lemma OneColon(c: Url)
    requires WellFormed(c) && c.port.Some?
    ensures LastIndex(Authority(c), ':') == Some(|c.host|) && Authority(c)[|c.host| + 1..] == c.port.value
  {
    LastIndexOfMark(c.host, ':', c.port.value);
    assert Authority(c) == c.host + [':'] + c.port.value;
  }

  lemma PortRead(c: Url, port: string)
    requires WellFormed(c) && c.port.None? && Digits(port)
    ensures !EndsWith(Authority(c), ":" + port)
  {
    assert Authority(c) == c.host;
    if EndsWith(c.host, ":" + port) { SuffixEnds(c.host, port); }
  }

  lemma SuffixEnds(a: string, port: string)
    requires EndsWith(a, ":" + port) && Digits(port)
    ensures ':' in a && '0' <= a[|a| - 1] <= '9'
  {
    var end := a[|a| - |port| - 1..];
    assert end[0] == a[|a| - |port| - 1] && end[|port|] == a[|a| - 1];
    assert port[|port| - 1] in port;
  }

  lemma SchemeIsLower(c: Url)
    requires WellFormed(c)
    ensures !SchemeRaised(Serialize(c)) && Ascii(c.host)
  {
    hide Lower, Until, Authority, Tail, HostShape;
    AuthorityIsFound(c);
    SchemeFirst(c);
    Slices(c.scheme, "://" + (Authority(c) + Tail(c)));
    LowerFixed(c.scheme);
    AsciiHost(c.host);
  }

  lemma AsciiHost(host: string)
    requires HostShape(host)
    ensures Ascii(host)
  {}

  lemma NothingStructural(c: Url)
    requires WellFormed(c)
    ensures Structural(Serialize(c), c) == []
  {
    hide Serialize, RawHost, HasDefaultPort, HasEmptyPath, Lower, Until;
    HostOfText(c);
    PortOfText(c);
    SchemeIsLower(c);
  }

  /**
   * Canonicalization is idempotent: the canonical address reads back from its own text, is its
   * own canonical form, and a second pass over that text records no transformation.
   */
  lemma SecondPassFindsNothing(u: Url)
    requires WellFormed(u)
    ensures var c := CanonicalOf(u);
      && WellFormed(c) && Parse(Serialize(c)) == Some(c)
      && CanonicalOf(c) == c && Notes(Serialize(c), c) == []
  {
    hide Serialize, Parse, WellFormed, Structural, QueryNotes;
    var c := CanonicalOf(u);
    CanonicalIsWellFormed(u);
    ParseUndoesSerialize(c);
    CanonicalPartsFixed(u);
    NothingStructural(c);
  }
}
