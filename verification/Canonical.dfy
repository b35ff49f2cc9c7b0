// Canonical web addresses (canonical.rs): hex-case and tracking-parameter rules.
//
// The percent-hex rule is that of section 6.2.2.1 of RFC 3986.
module Canonical {

  // ---- Hex digits of percent escapes (section 6.2.2.1 of RFC 3986) ----

  predicate IsHex(c: char) { '0' <= c <= '9' || 'a' <= c <= 'f' || 'A' <= c <= 'F' }

  function Upper(c: char): char { if 'a' <= c <= 'z' then c - 'a' + 'A' else c }

  function LowerChar(c: char): char { if 'A' <= c <= 'Z' then c - 'A' + 'a' else c }

  function Lower(s: string): (r: string)
    ensures |r| == |s| && forall i :: 0 <= i < |s| ==> r[i] == LowerChar(s[i])
  {
    seq(|s|, i requires 0 <= i < |s| => LowerChar(s[i]))
  }

  /** A percent escape starts at the front of `s`. */
  predicate Escape(s: string) { |s| >= 3 && s[0] == '%' && IsHex(s[1]) && IsHex(s[2]) }

  /** A percent sign and two hex digits at `i`. */
  predicate EscapeAt(s: string, i: int) { 0 <= i && i + 2 < |s| && s[i] == '%' && HexDigit(s[i + 1]) && HexDigit(s[i + 2]) }

  predicate HexDigit(c: char) { c in "0123456789abcdefABCDEF" }

  lemma HexDigitsAre(c: char)
    ensures IsHex(c) <==> HexDigit(c)
  {}

  lemma EscapeFirst(s: string)
    ensures Escape(s) == EscapeAt(s, 0)
  {
    hide IsHex, HexDigit;
    if |s| >= 3 {
      HexDigitsAre(s[1]);
      HexDigitsAre(s[2]);
    }
  }

  function Hex(s: string): string {
    if s == [] then []
    else if Escape(s) then ['%', Upper(s[1]), Upper(s[2])] + Hex(s[3..])
    else [s[0]] + Hex(s[1..])
  }

  function Digit(c: char): int {
    if 'a' <= c <= 'f' then c as int - 'a' as int + 10
    else if 'A' <= c <= 'F' then c as int - 'A' as int + 10
    else c as int - '0' as int
  }

  /** The octets a text stands for once its escapes are decoded. */
  function Decode(s: string): seq<int> {
    if s == [] then []
    else if Escape(s) then [16 * Digit(s[1]) + Digit(s[2])] + Decode(s[3..])
    else [s[0] as int] + Decode(s[1..])
  }

  method NormalizePercentHex(value: string) returns (output: string)
    ensures output == Hex(value)
  {
    output := [];
    var index := 0;
    while index < |value|
      invariant index <= |value|
      invariant output + Hex(value[index..]) == Hex(value)
    {
      if value[index] == '%' && index + 2 < |value| && IsHex(value[index + 1]) && IsHex(value[index + 2]) {
        assert value[index..][3..] == value[index + 3..];
        output := output + ['%'] + [Upper(value[index + 1])] + [Upper(value[index + 2])];
        index := index + 3;
      } else {
        assert value[index..][1..] == value[index + 1..];
        output := output + [value[index]];
        index := index + 1;
      }
    }
  }

  lemma {:induction false} HexKeepsShape(s: string)
    ensures |Hex(s)| == |s|
    ensures forall k :: 0 <= k < |s| ==> Hex(s)[k] == s[k] || (IsHex(s[k]) && Hex(s)[k] == Upper(s[k]))
  {
    if s != [] { HexKeepsShape(if Escape(s) then s[3..] else s[1..]); }
  }

  lemma {:induction false} HexKeepsOctets(s: string)
    ensures Decode(Hex(s)) == Decode(s)
  {
    if s == [] {
    } else if Escape(s) {
      HexKeepsOctets(s[3..]);
      assert Hex(s)[3..] == Hex(s[3..]);
    } else {
      HexKeepsOctets(s[1..]);
      HexKeepsShape(s[1..]);
      assert Hex(s)[1..] == Hex(s[1..]);
    }
  }

  lemma {:induction false} HexIsIdempotent(s: string)
    ensures Hex(Hex(s)) == Hex(s)
  {
    if s == [] {
    } else if Escape(s) {
      HexIsIdempotent(s[3..]);
      assert Hex(s)[3..] == Hex(s[3..]);
    } else {
      HexIsIdempotent(s[1..]);
      HexKeepsShape(s[1..]);
      assert Hex(s)[1..] == Hex(s[1..]);
    }
  }

  /** Escapes do not straddle a boundary before a character that is no hex digit. */
  lemma {:induction false} HexOfConcat(a: string, b: string)
    requires b == [] || !IsHex(b[0])
    ensures Hex(a + b) == Hex(a) + Hex(b)
  {
    if a == [] {
      assert a + b == b;
    } else if Escape(a + b) {
      assert |a| >= 3 && Escape(a);
      assert (a + b)[3..] == a[3..] + b;
      HexOfConcat(a[3..], b);
    } else {
      assert !Escape(a);
      assert (a + b)[1..] == a[1..] + b;
      HexOfConcat(a[1..], b);
    }
  }

  lemma {:induction false} HexWithoutEscapes(s: string)
    requires '%' !in s
    ensures Hex(s) == s
  {
    if s != [] {
      HexWithoutEscapes(s[1..]);
      assert s == [s[0]] + s[1..];
    }
  }

  // ---- Query segments ----

  /** The length of the part of `s` before any of `stops`. */
  function Until(s: string, stops: set<char>): (n: nat)
    ensures n <= |s|
    ensures forall k :: 0 <= k < n ==> s[k] !in stops
    ensures n < |s| ==> s[n] in stops
  {
    if s == [] || s[0] in stops then 0 else 1 + Until(s[1..], stops)
  }

  function Split(s: string): (r: seq<string>)
    ensures r != []
    decreases |s|
  {
    var n := Until(s, {'&'});
    if n == |s| then [s] else [s[..n]] + Split(s[n + 1..])
  }

  function Join(segments: seq<string>): string
    requires segments != []
  {
    if |segments| == 1 then segments[0] else segments[0] + "&" + Join(segments[1..])
  }

  lemma JoinPrepended(first: string, rest: seq<string>)
    requires rest != []
    ensures Join([first] + rest) == first + "&" + Join(rest)
  {
    assert ([first] + rest)[1..] == rest;
  }

  lemma {:induction false} JoinUndoesSplit(s: string)
    ensures Join(Split(s)) == s
    decreases |s|
  {
    hide Until;
    var n := Until(s, {'&'});
    if n < |s| {
      var rest := s[n + 1..];
      JoinUndoesSplit(rest);
      JoinPrepended(s[..n], Split(rest));
      assert s == s[..n] + "&" + rest;
    }
  }

  lemma {:induction false} SplitSegments(s: string)
    ensures forall x :: x in Split(s) ==> '&' !in x
    decreases |s|
  {
    var n := Until(s, {'&'});
    if n < |s| { SplitSegments(s[n + 1..]); }
  }

  lemma UntilBoundary(a: string, b: string, stops: set<char>)
    requires forall c :: c in a ==> c !in stops
    requires b == [] || b[0] in stops
    ensures Until(a + b, stops) == |a|
  {
    assert forall k :: 0 <= k < |a| ==> (a + b)[k] == a[k] && a[k] in a;
    if b != [] { assert (a + b)[|a|] == b[0]; }
  }

  lemma {:induction false} SplitUndoesJoin(segments: seq<string>)
    requires segments != [] && forall x :: x in segments ==> '&' !in x
    ensures Split(Join(segments)) == segments
  {
    hide Until;
    if |segments| == 1 {
      UntilBoundary(segments[0], [], {'&'});
      assert segments[0] + [] == segments[0];
    } else {
      var rest := Join(segments[1..]);
      SplitUndoesJoin(segments[1..]);
      SplitFirst(segments[0], rest);
      assert Join(segments) == segments[0] + ("&" + rest);
    }
  }

  lemma SplitFirst(first: string, rest: string)
    requires '&' !in first
    ensures Split(first + ("&" + rest)) == [first] + Split(rest)
  {
    hide Until;
    var all := first + ("&" + rest);
    UntilBoundary(first, "&" + rest, {'&'});
    assert all[..|first|] == first && all[|first| + 1..] == rest;
  }

  // ---- Tracking parameters ----

  const TRACKING_KEYS := {"fbclid", "gclid", "msclkid", "yclid", "_ga", "_gl", "mc_cid", "mc_eid"}

  function KeyOf(segment: string): string { segment[..Until(segment, {'='})] }

  predicate Tracking(segment: string) {
    var key := Lower(KeyOf(segment));
    "utm_" <= key || key in TRACKING_KEYS
  }

  function KeptOf(segments: seq<string>): seq<string> {
    if segments == [] then []
    else
      var n := |segments| - 1;
      KeptOf(segments[..n]) + if Tracking(segments[n]) then [] else [segments[n]]
  }

  function RemovedOf(segments: seq<string>): seq<string> {
    if segments == [] then []
    else
      var n := |segments| - 1;
      RemovedOf(segments[..n]) + if Tracking(segments[n]) then [KeyOf(segments[n])] else []
  }

  lemma {:induction false} KeptMembers(segments: seq<string>)
    ensures forall x :: x in KeptOf(segments) <==> x in segments && !Tracking(x)
  {
    if segments != [] {
      var n := |segments| - 1;
      KeptMembers(segments[..n]);
      assert segments == segments[..n] + [segments[n]];
    }
  }

  /** Without tracking segments the filter changes nothing, and only then. */
  lemma {:induction false} KeepsAllIffClean(segments: seq<string>)
    ensures |KeptOf(segments)| + |RemovedOf(segments)| == |segments|
    ensures (forall x :: x in segments ==> !Tracking(x)) <==> RemovedOf(segments) == []
    ensures RemovedOf(segments) == [] <==> KeptOf(segments) == segments
  {
    if segments != [] {
      var n := |segments| - 1;
      KeepsAllIffClean(segments[..n]);
      assert segments == segments[..n] + [segments[n]];
    }
  }

  lemma FilterIsIdempotent(segments: seq<string>)
    ensures KeptOf(KeptOf(segments)) == KeptOf(segments) && RemovedOf(KeptOf(segments)) == []
  {
    hide KeptOf, RemovedOf, Tracking;
    KeptMembers(segments);
    KeepsAllIffClean(KeptOf(segments));
  }

  method FilterSegments(query: string) returns (kept: seq<string>, removed: seq<string>)
    ensures kept == KeptOf(Split(query)) && removed == RemovedOf(Split(query))
  {
    hide Tracking, KeyOf, Split;
    kept, removed := [], [];
    var segments := Split(query);
    for i := 0 to |segments|
      invariant kept == KeptOf(segments[..i]) && removed == RemovedOf(segments[..i])
    {
      assert segments[..i + 1][..i] == segments[..i];
      if Tracking(segments[i]) {
        removed := removed + [KeyOf(segments[i])];
      } else {
        kept := kept + [segments[i]];
      }
    }
    assert segments[..|segments|] == segments;
  }
}
