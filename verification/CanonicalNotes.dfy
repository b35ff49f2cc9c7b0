module CanonicalNotes {
  // What canonicalization changes and records, told from the raw text (canonical.rs).

  import opened Wrappers
  import opened Canonical
  import opened CanonicalUrls
  import opened Canonicalization

  // ---- Percent escapes ----

  /** A hex digit in upper case. */
  function Raised(c: char): char {
    match c
    case 'a' => 'A' case 'b' => 'B' case 'c' => 'C' case 'd' => 'D' case 'e' => 'E' case 'f' => 'F'
    case _ => c
  }

  lemma RaisedIs(c: char)
    requires HexDigit(c)
    ensures Upper(c) == Raised(c)
  {}

  /** Position `k` is one of the two digits of an escape. */
  predicate InEscape(s: string, k: nat) { EscapeAt(s, k - 1) || EscapeAt(s, k - 2) }

  lemma EscapesStay(s: string, n: nat, k: nat)
    requires n == (if Escape(s) then 3 else 1) && n <= k < |s|
    ensures InEscape(s, k) == InEscape(s[n..], k - n)
  {
    hide HexDigit, IsHex, Escape;
    EscapeFirst(s);
    NoDigit();
    EscapeStays(s, n, k - 1);
    EscapeStays(s, n, k - 2);
  }

  lemma EscapeStays(s: string, n: nat, i: int)
    requires n <= |s| && (n == 1 || (n == 3 && EscapeAt(s, 0))) && (n == 1 ==> !EscapeAt(s, 0))
    requires !HexDigit('%') && (n == 3 ==> i >= 1)
    ensures EscapeAt(s, i) == EscapeAt(s[n..], i - n)
  {
    hide HexDigit;
    if i >= n {
      assert forall m :: n <= m < |s| ==> s[n..][m - n] == s[m];
    }
  }

  /** The digits of every escape are in upper case afterwards, and nothing else is changed. */
  lemma {:induction false} HexRaisesEscapes(s: string, k: nat)
    requires k < |s|
    ensures |Hex(s)| == |s|
    ensures Hex(s)[k] == if InEscape(s, k) then Raised(s[k]) else s[k]
  {
    hide InEscape;
    HexKeepsShape(s);
    var n := if Escape(s) then 3 else 1;
    if k < n {
      FirstPiece(s, k);
    } else {
      HexKeepsShape(s[n..]);
      HexRaisesEscapes(s[n..], k - n);
      EscapesStay(s, n, k);
      assert Hex(s) == Hex(s)[..n] + Hex(s[n..]);
    }
  }

  lemma FirstPiece(s: string, k: nat)
    requires k < |s| && k < if Escape(s) then 3 else 1
    ensures |Hex(s)| > k && Hex(s)[k] == if InEscape(s, k) then Raised(s[k]) else s[k]
  {
    hide IsHex, HexDigit, Upper, Raised;
    EscapeFirst(s);
    HexDigitsAre(s[k]);
    NoDigit();
    if HexDigit(s[k]) { RaisedIs(s[k]); }
  }

  lemma NoDigit()
    ensures !HexDigit('%')
  {}

  // ---- Tracking parameters ----

  /** `key` spells `name`, in any letter case. */
  predicate Spells(key: string, name: string) {
    |key| == |name| && forall i :: 0 <= i < |name| ==> key[i] == name[i] || ('a' <= name[i] <= 'z' && key[i] == name[i] - 'a' + 'A')
  }

  predicate Lowercase(name: string) { forall i :: 0 <= i < |name| ==> !('A' <= name[i] <= 'Z') }

  lemma LowerSpells(key: string, name: string)
    requires Lowercase(name)
    ensures Lower(key) == name <==> Spells(key, name)
  {
    if Spells(key, name) {
      forall i | 0 <= i < |name| ensures Lower(key)[i] == name[i] {}
    } else if Lower(key) == name {
      forall i | 0 <= i < |name| ensures key[i] == name[i] || ('a' <= name[i] <= 'z' && key[i] == name[i] - 'a' + 'A') {
        assert Lower(key)[i] == LowerChar(key[i]);
      }
    }
  }

  /** A key that starts with "utm_" or is on the list, in any letter case. */
  predicate TracksVisitors(key: string) {
    || (|key| >= 4 && Spells(key[..4], "utm_"))
    || Spells(key, "fbclid") || Spells(key, "gclid") || Spells(key, "msclkid") || Spells(key, "yclid")
    || Spells(key, "_ga") || Spells(key, "_gl") || Spells(key, "mc_cid") || Spells(key, "mc_eid")
  }

  lemma TagSpells(key: string)
    ensures "utm_" <= Lower(key) <==> |key| >= 4 && Spells(key[..4], "utm_")
  {
    hide Spells;
    if |key| >= 4 {
      LowerSpells(key[..4], "utm_");
      assert Lower(key)[..4] == Lower(key[..4]);
    }
  }

  lemma KeyTracks(key: string)
    ensures "utm_" <= Lower(key) || Lower(key) in TRACKING_KEYS <==> TracksVisitors(key)
  {
    hide Spells;
    TagSpells(key);
    LowerSpells(key, "fbclid");
    LowerSpells(key, "gclid");
    LowerSpells(key, "msclkid");
    LowerSpells(key, "yclid");
    LowerSpells(key, "_ga");
    LowerSpells(key, "_gl");
    LowerSpells(key, "mc_cid");
    LowerSpells(key, "mc_eid");
  }

  /** Exactly these parameters are dropped, with or without a value. */
  lemma TrackingIff(key: string, value: string)
    requires '=' !in key
    ensures Tracking(key) <==> TracksVisitors(key)
    ensures Tracking(key + "=" + value) <==> TracksVisitors(key)
    ensures KeyOf(key) == key && KeyOf(key + "=" + value) == key
  {
    hide TracksVisitors;
    KeyTracks(key);
    UntilBoundary(key, [], {'='});
    UntilBoundary(key, "=" + value, {'='});
    assert key + [] == key && key + ("=" + value) == key + "=" + value;
  }

  /** The keys recorded are those of the segments dropped, one each. */
  lemma {:induction false} RemovedAre(segments: seq<string>)
    ensures forall key :: key in RemovedOf(segments) <==> exists x :: x in segments && Tracking(x) && KeyOf(x) == key
    ensures |RemovedOf(segments)| + |KeptOf(segments)| == |segments|
  {
    hide Tracking, KeyOf;
    if segments != [] {
      var n := |segments| - 1;
      RemovedAre(segments[..n]);
      assert segments == segments[..n] + [segments[n]];
    }
  }

  // ---- Structural notes ----

  /** A raw address taken apart: `rest` starts where the authority ends. */
  ghost predicate Shaped(raw: string, scheme: string, authority: string, rest: string) {
    && raw == scheme + "://" + authority + rest && ':' !in scheme
    && Free(authority, {'/', '?', '#'}) && (rest == [] || rest[0] in {'/', '?', '#'})
  }

  lemma ShapeIsRead(raw: string, scheme: string, authority: string, rest: string)
    requires Shaped(raw, scheme, authority, rest)
    ensures AfterScheme(raw) == Some(authority + rest) && AuthorityOf(authority + rest) == authority
    ensures Until(raw, {':'}) == |scheme| < |raw| && raw[..|scheme|] == scheme
  {
    hide Until, AfterScheme;
    assert raw == scheme + "://" + (authority + rest);
    SchemeEnds(scheme, authority + rest);
    assert raw == scheme + ("://" + (authority + rest));
    UntilBoundary(scheme, "://" + (authority + rest), {':'});
    UntilBoundary(authority, rest, {'/', '?', '#'});
    Slices(authority, rest);
  }

  lemma RaisedIff(scheme: string)
    ensures Lower(scheme) != scheme <==> exists i :: 0 <= i < |scheme| && 'A' <= scheme[i] <= 'Z'
  {
    if i :| 0 <= i < |scheme| && 'A' <= scheme[i] <= 'Z' {
      assert Lower(scheme)[i] != scheme[i];
    } else {
      forall i | 0 <= i < |scheme| ensures Lower(scheme)[i] == scheme[i] {}
    }
  }

  ghost predicate Ends(s: string, end: string) { exists front: string :: s == front + end }

  lemma EndsIff(s: string, end: string)
    ensures Ends(s, end) <==> EndsWith(s, end)
  {
    if EndsWith(s, end) { assert s == s[..|s| - |end|] + end; }
  }

  lemma NeverEnds(authority: string)
    requires '/' !in authority
    ensures !Ends(authority, "/")
  {
    forall front: string ensures authority != front + "/" { assert (front + "/")[|front|] == '/'; }
  }

  /**
   What is recorded before anything is rewritten, in this order: an upper-case letter in the scheme, a
   changed host, the scheme's default port spelled out, and no slash after the authority.
   */
  lemma StructuralNotesAre(raw: string, url: Url, scheme: string, authority: string, rest: string)
    requires Shaped(raw, scheme, authority, rest)
    ensures Structural(raw, url) ==
      (if exists i :: 0 <= i < |scheme| && 'A' <= scheme[i] <= 'Z' then [LowercaseScheme] else []) +
      HostNote(raw, url) +
      (if Ends(authority, if url.scheme == "http" then ":80" else if url.scheme == "https" then ":443" else "/")
       then [RemoveDefaultPort] else []) +
      (if '/' !in rest then [AddRootPath] else [])
  {
    hide HostNote, Until, AfterScheme, EndsWith, Lower, Ends;
    ShapeIsRead(raw, scheme, authority, rest);
    EndsIff(authority, ":80");
    EndsIff(authority, ":443");
    NeverEnds(authority);
    RaisedIff(scheme);
    assert '/' in authority + rest <==> '/' in rest;
  }

  /** The authority taken apart: credentials before the last '@', host, port after a colon. */
  ghost predicate HasHost(authority: string, user: string, host: string, port: string) {
    && authority == user + host + port && (user == [] || user[|user| - 1] == '@')
    && '@' !in host && '@' !in port && ':' !in host
    && (port == [] || (port[0] == ':' && ':' !in port[1..]))
  }

  lemma {:induction false} LastIndexAbsent(s: string, c: char)
    requires c !in s
    ensures LastIndex(s, c) == None
  {}

  lemma AfterUser(user: string, hostPort: string)
    requires (user == [] || user[|user| - 1] == '@') && '@' !in hostPort
    ensures var at := LastIndex(user + hostPort, '@');
      if user == [] then at.None? else at.Some? && (user + hostPort)[at.value + 1..] == hostPort
  {
    if user == [] {
      LastIndexAbsent(hostPort, '@');
      assert user + hostPort == hostPort;
    } else {
      var n := |user| - 1;
      assert user + hostPort == user[..n] + ['@'] + hostPort;
      LastIndexOfMark(user[..n], '@', hostPort);
    }
  }

  lemma BeforePort(host: string, port: string)
    requires ':' !in host && (port == [] || (port[0] == ':' && ':' !in port[1..]))
    ensures var colon := LastIndex(host + port, ':');
      if port == [] then colon.None? else colon.Some? && (host + port)[..colon.value] == host
  {
    if port == [] {
      LastIndexAbsent(host, ':');
      assert host + port == host;
    } else {
      assert host + port == host + [':'] + port[1..];
      LastIndexOfMark(host, ':', port[1..]);
    }
  }

  lemma HostIsRead(authority: string, user: string, host: string, port: string)
    requires HasHost(authority, user, host, port)
    ensures HostOfAuthority(authority) == if host != [] && host[0] == '[' then None else Some(host)
  {
    hide LastIndex;
    AfterUser(user, host + port);
    BeforePort(host, port);
    assert user == [] ==> authority == host + port;
    assert authority == user + (host + port);
    assert port == [] ==> host + port == host;
  }

  /** A host with a character outside ASCII was turned into its ASCII form; otherwise only its letter case can have changed. */
  lemma HostNoteIs(raw: string, url: Url, scheme: string, authority: string, rest: string, user: string, host: string, port: string)
    requires Shaped(raw, scheme, authority, rest) && HasHost(authority, user, host, port) && (host == [] || host[0] != '[')
    ensures HostNote(raw, url) ==
      if exists i :: 0 <= i < |host| && host[i] >= 128 as char then [IdnToPunycode]
      else if host != url.host && |host| == |url.host| &&
        (forall i :: 0 <= i < |host| ==> LowerChar(host[i]) == LowerChar(url.host[i])) then [LowercaseHost]
      else []
  {
    hide HostOfAuthority, Shaped;
    ShapeIsRead(raw, scheme, authority, rest);
    HostIsRead(authority, user, host, port);
    if i :| 0 <= i < |host| && host[i] >= 128 as char { assert host[i] in host && !Ascii(host); }
    if |host| == |url.host| && forall i :: 0 <= i < |host| ==> LowerChar(host[i]) == LowerChar(url.host[i]) {
      assert Lower(host) == Lower(url.host);
    }
  }

  /** A numeric host in brackets is never noted. */
  lemma BracketedHostIsKept(raw: string, url: Url, scheme: string, user: string, host: string, rest: string)
    requires Shaped(raw, scheme, user + host, rest) && (user == [] || user[|user| - 1] == '@')
    requires host != [] && host[0] == '[' && '@' !in host
    ensures HostNote(raw, url) == []
  {
    hide Shaped, AfterScheme, AuthorityOf, LastIndex;
    ShapeIsRead(raw, scheme, user + host, rest);
    AfterUser(user, host);
    assert user == [] ==> user + host == host;
  }

  lemma {:induction false} NoColonNoScheme(raw: string)
    requires ':' !in raw
    ensures AfterScheme(raw) == None
  {
    if |raw| >= 3 {
      assert raw[..3][0] == raw[0] && raw[0] in raw && "://"[0] == ':';
      NoColonNoScheme(raw[1..]);
    }
  }

  /** A text without a colon shows none of this. */
  lemma NoColonNoNotes(raw: string, url: Url)
    requires ':' !in raw
    ensures Structural(raw, url) == []
  {
    hide Lower;
    NoColonNoScheme(raw);
  }

  // ---- All notes ----

  /** Some escape has a lower-case digit. */
  predicate Uneven(s: string) { exists k: nat :: k < |s| && InEscape(s, k) && 'a' <= s[k] <= 'f' }

  lemma HexChangesIff(s: string)
    ensures Hex(s) != s <==> Uneven(s)
  {
    hide Hex, InEscape, Raised, HexDigit;
    forall k: nat | k < |s| ensures |Hex(s)| == |s| && Hex(s)[k] == if InEscape(s, k) then Raised(s[k]) else s[k] {
      HexRaisesEscapes(s, k);
    }
    HexKeepsShape(s);
    forall k: nat | k < |s| && InEscape(s, k) ensures Raised(s[k]) != s[k] <==> 'a' <= s[k] <= 'f' { EscapeDigit(s, k); }
    if Hex(s) != s {
      var k :| 0 <= k < |s| && Hex(s)[k] != s[k];
    }
  }

  lemma EscapeDigit(s: string, k: nat)
    requires k < |s| && InEscape(s, k)
    ensures HexDigit(s[k]) && (Raised(s[k]) != s[k] <==> 'a' <= s[k] <= 'f')
  {}

  lemma HexPartIff(part: Option<string>)
    ensures HexPart(part) != part <==> part.Some? && Uneven(part.value)
  {
    if part.Some? { HexChangesIff(part.value); }
  }

  lemma TrackingNotesAre(keys: seq<string>)
    ensures forall note :: note in TrackingNotes(keys) <==> note.RemoveTracking? && note.key in keys
  {
    forall key | key in keys ensures RemoveTracking(key) in TrackingNotes(keys) {
      var i :| 0 <= i < |keys| && keys[i] == key;
      assert TrackingNotes(keys)[i] == RemoveTracking(key);
    }
  }

  /** The notes on rewriting, after the structural ones. */
  function RewriteNotes(url: Url): seq<Transformation> {
    (if HexParts(url) != url then [HexCase] else []) + QueryNotes(HexParts(url).query) +
    (if url.fragment == Some("") then [RemoveEmptyFragment] else [])
  }

  lemma NotesSplit(raw: string, url: Url)
    ensures Notes(raw, url) == Structural(raw, url) + RewriteNotes(url)
  {
    hide Structural, QueryNotes, HexParts;
  }

  lemma QueryNotesAre(query: Option<string>)
    ensures forall note :: note in QueryNotes(query) <==>
      note.RemoveTracking? && query.Some? && note.key in RemovedOf(Split(query.value))
  {
    hide RemovedOf, Split;
    if query.Some? { TrackingNotesAre(RemovedOf(Split(query.value))); }
  }

  /**
   What is recorded besides the structural notes: a changed letter case of an escape anywhere behind the
   authority, each tracking parameter dropped, and an empty fragment dropped.
   */
  lemma NotesAre(raw: string, url: Url)
    ensures Notes(raw, url) == Structural(raw, url) + RewriteNotes(url)
    ensures HexCase in RewriteNotes(url) <==>
      || Uneven(url.path) || (url.query.Some? && Uneven(url.query.value))
      || (url.fragment.Some? && Uneven(url.fragment.value))
    ensures forall key :: RemoveTracking(key) in RewriteNotes(url) <==>
      url.query.Some? && key in RemovedOf(Split(Hex(url.query.value)))
    ensures RemoveEmptyFragment in RewriteNotes(url) <==> url.fragment == Some("")
  {
    hide Notes, Structural, Hex, RemovedOf, Split, Uneven, QueryNotes;
    NotesSplit(raw, url);
    HexChangesIff(url.path);
    HexPartIff(url.query);
    HexPartIff(url.fragment);
    QueryNotesAre(HexParts(url).query);
  }
}
