// The text form of a parsed web address (canonical.rs).
//
// Serializing and parsing are the URL library's; the model needs them only on its own output.
module CanonicalUrls {
  import opened Wrappers
  import opened Canonical

  datatype Url = Url(
    scheme: string, host: string, port: Option<string>, path: string,
    query: Option<string>, fragment: Option<string>)

  predicate Bracketed(host: string) { |host| >= 2 && host[0] == '[' && host[|host| - 1] == ']' }

  predicate Digits(s: string) { s != [] && forall c :: c in s ==> '0' <= c <= '9' }

  predicate Free(s: string, stops: set<char>) { forall c :: c in s ==> c !in stops }

  function DefaultPort(scheme: string): string { if scheme == "http" then "80" else "443" }

  predicate HostShape(host: string) {
    host != [] && Free(host, {'/', '?', '#', '@', '%'}) && (forall c :: c in host ==> c < 128 as char) &&
    (if host[0] == '[' then Bracketed(host) else ':' !in host)
  }

  /** What a parsed http(s) address without credentials looks like. */
  predicate WellFormed(u: Url) {
    && u.scheme in {"http", "https"}
    && HostShape(u.host)
    && (u.port.Some? ==> Digits(u.port.value) && u.port.value != DefaultPort(u.scheme))
    && "/" <= u.path && Free(u.path, {'?', '#'})
    && (u.query.Some? ==> Free(u.query.value, {'#'}))
  }

  // ---- Text form ----

  function Prefixed(mark: string, part: Option<string>): string {
    if part.Some? then mark + part.value else []
  }

  function Authority(u: Url): string { u.host + Prefixed(":", u.port) }

  function Tail(u: Url): string { u.path + QueryText(u) }

  function QueryText(u: Url): string { Prefixed("?", u.query) + Prefixed("#", u.fragment) }

  function Serialize(u: Url): string { u.scheme + "://" + Authority(u) + Tail(u) }

  /** What follows the first "://". */
  function AfterScheme(raw: string): Option<string> {
    if |raw| < 3 then None
    else if raw[..3] == "://" then Some(raw[3..])
    else AfterScheme(raw[1..])
  }

  function AuthorityOf(rest: string): string { rest[..Until(rest, {'/', '?', '#'})] }

  /** The index of the last `c`, or none. */
  function LastIndex(s: string, c: char): (r: Option<nat>)
    ensures r.Some? ==> r.value < |s| && s[r.value] == c
    ensures r.None? ==> c !in s
  {
    if s == [] then None
    else if s[|s| - 1] == c then Some(|s| - 1)
    else
      assert s == s[..|s| - 1] + [s[|s| - 1]];
      LastIndex(s[..|s| - 1], c)
  }

  function HostPort(authority: string): (string, Option<string>) {
    var colon := LastIndex(authority, ':');
    if colon.None? || authority[|authority| - 1] == ']' then (authority, None)
    else (authority[..colon.value], Some(authority[colon.value + 1..]))
  }

  function ParseQuery(text: string): (Option<string>, Option<string>) {
    var n := Until(text, {'#'});
    var fragment := if n < |text| then Some(text[n + 1..]) else None;
    (if n > 0 && text[0] == '?' then Some(text[1..n]) else None, fragment)
  }

  /** Reading back the text of a parsed address. */
  function Parse(text: string): Option<Url> {
    var rest := AfterScheme(text);
    if rest.None? then None
    else
      var authority := AuthorityOf(rest.value);
      var tail := rest.value[|authority|..];
      var n := Until(tail, {'?', '#'});
      var hp := HostPort(authority);
      var qf := ParseQuery(tail[n..]);
      Some(Url(text[..Until(text, {':'})], hp.0, hp.1, tail[..n], qf.0, qf.1))
  }

  lemma {:induction false} SchemeEnds(scheme: string, rest: string)
    requires ':' !in scheme
    ensures AfterScheme(scheme + "://" + rest) == Some(rest)
  {
    var text := scheme + "://" + rest;
    if scheme == [] {
      assert text[..3] == "://" && text[3..] == rest;
    } else {
      assert text[0] == scheme[0] && text[..3] != "://";
      assert text[1..] == scheme[1..] + "://" + rest;
      SchemeEnds(scheme[1..], rest);
    }
  }

  lemma {:induction false} LastIndexOfMark(a: string, c: char, b: string)
    requires c !in b
    ensures LastIndex(a + [c] + b, c) == Some(|a|)
  {
    var s := a + [c] + b;
    if b != [] {
      assert s[..|s| - 1] == a + [c] + b[..|b| - 1];
      LastIndexOfMark(a, c, b[..|b| - 1]);
    }
  }

  lemma HostPortOfAuthority(u: Url)
    requires WellFormed(u)
    ensures HostPort(Authority(u)) == (u.host, u.port)
  {
    if u.port.Some? {
      LastIndexOfMark(u.host, ':', u.port.value);
      var a := Authority(u);
      assert a == u.host + [':'] + u.port.value;
      assert a[|a| - 1] in u.port.value;
      assert a[..|u.host|] == u.host && a[|u.host| + 1..] == u.port.value;
    } else {
      assert Authority(u) == u.host;
    }
  }

  lemma QueryTextParses(u: Url)
    requires WellFormed(u)
    ensures ParseQuery(QueryText(u)) == (u.query, u.fragment)
  {
    var q, f := Prefixed("?", u.query), Prefixed("#", u.fragment);
    assert Free(q, {'#'});
    UntilBoundary(q, f, {'#'});
    assert (q + f)[|q|..] == f;
    if u.query.Some? { assert (q + f)[1..|q|] == u.query.value; }
    if u.fragment.Some? { assert (q + f)[|q| + 1..] == u.fragment.value; }
  }

  lemma AuthorityIsFound(u: Url)
    requires WellFormed(u)
    ensures AfterScheme(Serialize(u)) == Some(Authority(u) + Tail(u))
    ensures Until(Serialize(u), {':'}) == |u.scheme|
    ensures AuthorityOf(Authority(u) + Tail(u)) == Authority(u)
    ensures Until(Tail(u), {'?', '#'}) == |u.path|
  {
    hide Authority, QueryText, Tail, Serialize, AfterScheme, Until;
    var rest := Authority(u) + Tail(u);
    SchemeFirst(u);
    SchemeEnds(u.scheme, rest);
    assert u.scheme + "://" + rest == u.scheme + ("://" + rest);
    UntilBoundary(u.scheme, "://" + rest, {':'});
    Delimited(u);
    UntilBoundary(Authority(u), Tail(u), {'/', '?', '#'});
    UntilBoundary(u.path, QueryText(u), {'?', '#'});
    Slices(Authority(u), Tail(u));
  }

  lemma Delimited(u: Url)
    requires WellFormed(u)
    ensures Free(Authority(u), {'/', '?', '#'}) && Tail(u) != [] && Tail(u)[0] == '/'
    ensures QueryText(u) == [] || QueryText(u)[0] in {'?', '#'}
  {}

  /** The text of a parsed address parses to the same address. */
  lemma ParseUndoesSerialize(u: Url)
    requires WellFormed(u)
    ensures Parse(Serialize(u)) == Some(u)
  {
    hide Authority, QueryText, Tail, HostPort, ParseQuery, AfterScheme, AuthorityOf, WellFormed, Serialize, Until, Prefixed;
    AuthorityIsFound(u);
    HostPortOfAuthority(u);
    QueryTextParses(u);
    Slices(Authority(u), Tail(u));
    Slices(u.path, QueryText(u));
    Slices(u.scheme, "://" + (Authority(u) + Tail(u)));
    SchemeFirst(u);
  }

  lemma Slices(a: string, b: string)
    ensures (a + b)[..|a|] == a && (a + b)[|a|..] == b
  {}

  lemma SchemeFirst(u: Url)
    ensures Serialize(u) == u.scheme + ("://" + (Authority(u) + Tail(u))) && Tail(u) == u.path + QueryText(u)
  {}
}
