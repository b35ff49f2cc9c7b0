module Citations {
  // Citation markers `[n]` in a generated answer (answer.rs): finding them, and stripping invented ones.

  import opened Wrappers
  import opened Numbering

  const USIZE_MAX := 0xFFFF_FFFF_FFFF_FFFF

  predicate IsDigit(c: char) { '0' <= c <= '9' }

  predicate AllDigits(s: string) { forall i :: 0 <= i < |s| ==> IsDigit(s[i]) }

  function Value(s: string): nat
    requires AllDigits(s)
  {
    if s == [] then 0 else 10 * Value(s[..|s| - 1]) + (s[|s| - 1] as int - '0' as int)
  }

  /** Decimal parsing of an unsigned machine word: an optional plus sign, at least one digit, no overflow. */
  function ParseUsize(s: string): Option<nat> {
    var digits := if s != [] && s[0] == '+' then s[1..] else s;
    if digits == [] || !AllDigits(digits) || Value(digits) > USIZE_MAX then None else Some(Value(digits))
  }

  // ---- Numbers and their texts ----

  lemma {:induction false} ValueIsNumber(s: string)
    requires AllDigits(s)
    ensures Value(s) == ValueOf(s)
  {
    if s != [] { ValueIsNumber(s[..|s| - 1]); }
  }

  lemma {:induction false} DigitsAreDigits(n: nat)
    ensures Digits(n) != [] && AllDigits(Digits(n))
  {
    if n >= 10 { DigitsAreDigits(n / 10); }
  }

  /** Every string of digits is the decimal text of its value after some zeros. */
  lemma {:induction false} TextOfValue(s: string) returns (k: nat)
    requires s != [] && AllDigits(s)
    ensures s == Zeros(k) + Digits(Value(s))
  {
    var front, last := s[..|s| - 1], s[|s| - 1];
    if front == [] {
      k := 0;
      assert Value(front) == 0;
    } else {
      k := TextOfValue(front);
      if Value(front) == 0 {
        ZerosGrow(k);
        k := k + 1;
      }
    }
    assert s == front + [last];
  }

  lemma {:induction false} ZerosGrow(k: nat)
    ensures Zeros(k) + "0" == Zeros(k + 1)
  {
    if k > 0 { ZerosGrow(k - 1); }
  }

  /** A number's decimal text after some zeros, with or without a plus sign. */
  function NumberText(n: nat, zeros: nat, plus: bool): string {
    (if plus then "+" else "") + (Zeros(zeros) + Digits(n))
  }

  lemma TextIsDigits(n: nat, k: nat)
    ensures var digits := Zeros(k) + Digits(n); digits != [] && AllDigits(digits) && Value(digits) == n
  {
    hide Value, Digits, Zeros;
    DigitsAreDigits(n);
    AllZeros(k);
    var digits := Zeros(k) + Digits(n);
    assert AllDigits(digits) by {
      forall i | 0 <= i < |digits| ensures IsDigit(digits[i]) {}
    }
    ValueIsNumber(digits);
    LeadingZeros(k, Digits(n));
    ValueOfDigits(n);
  }

  /** A decimal text, with leading zeros and a plus sign allowed, is read as its number unless that overflows. */
  lemma ParseUndoesText(n: nat, k: nat, plus: bool)
    ensures ParseUsize(NumberText(n, k, plus)) ==
      if n <= 18446744073709551615 then Some(n) else None
  {
    hide Value, Digits, Zeros;
    var digits := Zeros(k) + Digits(n);
    TextIsDigits(n, k);
    if plus { assert ("+" + digits)[1..] == digits; } else { assert "" + digits == digits; }
  }

  ghost predicate Spells(s: string, n: nat) { exists k: nat, plus: bool :: s == NumberText(n, k, plus) }

  /** Which texts stand for a number: its decimal text after any zeros and perhaps a plus sign, and nothing else. */
  lemma ParsedIff(s: string, n: nat)
    ensures ParseUsize(s) == Some(n) <==> n <= 18446744073709551615 && Spells(s, n)
  {
    hide Value, Digits, Zeros;
    if ParseUsize(s) == Some(n) {
      var plus := s != [] && s[0] == '+';
      var digits := if plus then s[1..] else s;
      var k := TextOfValue(digits);
      assert s == (if plus then "+" else "") + digits;
      assert s == NumberText(n, k, plus);
    }
    if Spells(s, n) {
      var k: nat, plus: bool :| s == NumberText(n, k, plus);
      ParseUndoesText(n, k, plus);
    }
  }

  // ---- What the scanners see ----

  /** Single characters, and bracket tokens up to the first closing bracket. */
  datatype Pieces = End | Plain(c: char, rest: Pieces) | Token(body: string, rest: Pieces)

  /** Where the first closing bracket is. */
  function Close(t: string): (r: Option<nat>)
    ensures r.Some? ==> r.value < |t| && t[r.value] == ']' && ']' !in t[..r.value]
    ensures r.None? ==> ']' !in t
  {
    if t == [] then None
    else if t[0] == ']' then Some(0)
    else
      match Close(t[1..])
      case None => None
      case Some(k) =>
        assert t[..k + 1] == [t[0]] + t[1..][..k];
        Some(k + 1)
  }

  function Scan(t: string): Pieces
    decreases |t|
  {
    if t == [] then End
    else if t[0] == '[' && Close(t[1..]).Some? then
      var end := Close(t[1..]).value;
      Token(t[1..][..end], Scan(t[end + 2..]))
    else Plain(t[0], Scan(t[1..]))
  }

  function Render(ps: Pieces): string {
    match ps
    case End => []
    case Plain(c, rest) => [c] + Render(rest)
    case Token(body, rest) => "[" + body + "]" + Render(rest)
  }

  /** A number that is no source. */
  predicate Fabricated(body: string, valid: set<nat>) {
    ParseUsize(body).Some? && ParseUsize(body).value !in valid
  }

  function Kept(ps: Pieces, valid: set<nat>): Pieces {
    match ps
    case End => End
    case Plain(c, rest) => Plain(c, Kept(rest, valid))
    case Token(body, rest) => if Fabricated(body, valid) then Kept(rest, valid) else Token(body, Kept(rest, valid))
  }

  /** Valid citations in order of first appearance, each once; `cited` were seen before. */
  function Cited(ps: Pieces, valid: set<nat>, cited: seq<nat>): seq<nat> {
    match ps
    case End => cited
    case Plain(_, rest) => Cited(rest, valid, cited)
    case Token(body, rest) => Cited(rest, valid, Citing(body, valid, cited))
  }

  function Citing(body: string, valid: set<nat>, cited: seq<nat>): seq<nat> {
    var v := ParseUsize(body);
    if v.Some? && v.value in valid && v.value !in cited then cited + [v.value] else cited
  }

  function Stripped(t: string, valid: set<nat>): string { Render(Kept(Scan(t), valid)) }

  /** The text of every bracket token. */
  function Bodies(ps: Pieces): set<string> {
    match ps
    case End => {}
    case Plain(_, rest) => Bodies(rest)
    case Token(body, rest) => {body} + Bodies(rest)
  }

  // ---- The two scanners ----

  method ExtractCitations(text: string, valid: set<nat>) returns (citations: seq<nat>)
    ensures citations == Cited(Scan(text), valid, [])
  {
    hide ParseUsize;
    var seen: set<nat> := {};
    citations := [];
    var index := 0;
    while index < |text|
      invariant index <= |text| && seen == set v | v in citations
      invariant Cited(Scan(text[index..]), valid, citations) == Cited(Scan(text), valid, [])
    {
      ghost var rest := text[index..];
      assert text[index + 1..] == rest[1..];
      if text[index] == '[' {
        var end := Close(text[index + 1..]);
        if end.Some? {
          assert text[index + end.value + 2..] == rest[end.value + 2..];
          var value := ParseUsize(text[index + 1..][..end.value]);
          if value.Some? && value.value in valid && value.value !in seen {
            seen := seen + {value.value};
            citations := citations + [value.value];
          }
          index := index + end.value + 2;
          continue;
        }
      }
      index := index + 1;
    }
  }

  /** Where the scanner goes on after the first piece of `t`, and what stays of that piece. */
  lemma StripStep(t: string, valid: set<nat>, before: string)
    requires t != []
    ensures var rest := before + Render(Kept(Scan(t), valid));
      if t[0] == '[' && Close(t[1..]).Some? then
        var end := Close(t[1..]).value;
        var body := t[1..][..end];
        rest == (if Fabricated(body, valid) then before else before + ("[" + body + "]")) + Stripped(t[end + 2..], valid)
      else rest == before + [t[0]] + Stripped(t[1..], valid)
  {
    hide Fabricated;
    if t[0] == '[' && Close(t[1..]).Some? {
      var end := Close(t[1..]).value;
      var tail := Stripped(t[end + 2..], valid);
      assert before + ("[" + t[1..][..end] + "]" + tail) == before + ("[" + t[1..][..end] + "]") + tail;
    } else {
      assert before + ([t[0]] + Stripped(t[1..], valid)) == before + [t[0]] + Stripped(t[1..], valid);
    }
  }

  method StripInvalidCitations(text: string, valid: set<nat>) returns (result: string)
    ensures result == Stripped(text, valid)
  {
    hide ParseUsize, Scan, Kept, Render;
    result := [];
    var index := 0;
    assert text[0..] == text;
    while index < |text|
      invariant index <= |text|
      invariant result + Stripped(text[index..], valid) == Stripped(text, valid)
    {
      ghost var rest := text[index..];
      StripStep(rest, valid, result);
      assert rest[0] == text[index] && text[index + 1..] == rest[1..];
      if text[index] == '[' && Close(text[index + 1..]).Some? {
        var end := Close(text[index + 1..]).value;
        var candidate := text[index + 1..][..end];
        assert text[index + end + 2..] == rest[end + 2..];
        var value := ParseUsize(candidate);
        if value.None? || value.value in valid { result := result + ("[" + candidate + "]"); }
        index := index + end + 2;
      } else {
        result := result + [text[index]];
        index := index + 1;
      }
    }
    EmptyStrips(valid);
    assert text[index..] == [];
  }

  lemma EmptyStrips(valid: set<nat>)
    ensures Stripped([], valid) == []
  {}

  // ---- Properties ----

  /** Pieces that a scan could have produced. */
  ghost predicate Scannable(ps: Pieces) {
    match ps
    case End => true
    case Plain(c, rest) => Scannable(rest) && (c == '[' ==> ']' !in Render(rest))
    case Token(body, rest) => Scannable(rest) && ']' !in body
  }

  lemma {:induction false} ScanIsScannable(t: string)
    ensures Render(Scan(t)) == t && Scannable(Scan(t))
    decreases |t|
  {
    if t != [] {
      if t[0] == '[' && Close(t[1..]).Some? {
        var end := Close(t[1..]).value;
        ScanIsScannable(t[end + 2..]);
        assert "[" + t[1..][..end] + "]" + t[end + 2..] == t;
      } else {
        ScanIsScannable(t[1..]);
        assert [t[0]] + t[1..] == t;
      }
    }
  }

  lemma {:induction false} CloseOfToken(body: string, rest: string)
    requires ']' !in body
    ensures Close(body + "]" + rest) == Some(|body|)
  {
    var t := body + "]" + rest;
    assert t[|body|] == ']';
    if body != [] {
      assert t[1..] == body[1..] + "]" + rest;
      CloseOfToken(body[1..], rest);
    }
  }

  /** Scanning undoes rendering. */
  lemma {:induction false} ScanUndoesRender(ps: Pieces)
    requires Scannable(ps)
    ensures Scan(Render(ps)) == ps
  {
    match ps
    case End =>
    case Plain(c, rest) =>
      ScanUndoesRender(rest);
      var t := [c] + Render(rest);
      assert t[0] == c && t[1..] == Render(rest);
    case Token(body, rest) =>
      ScanUndoesRender(rest);
      var t := "[" + body + "]" + Render(rest);
      assert t[0] == '[' && t[1..] == body + "]" + Render(rest);
      CloseOfToken(body, Render(rest));
      assert t[1..][..|body|] == body && t[|body| + 2..] == Render(rest);
  }

  lemma {:induction false} KeptIsScannable(ps: Pieces, valid: set<nat>)
    requires Scannable(ps)
    ensures Scannable(Kept(ps, valid))
    ensures forall c :: c in Render(Kept(ps, valid)) ==> c in Render(ps)
  {
    if !ps.End? { KeptIsScannable(ps.rest, valid); }
  }

  /** The pieces of the stripped text are exactly the pieces of the text that were not fabricated. */
  lemma StrippingKeepsTheRest(t: string, valid: set<nat>)
    ensures Scan(Stripped(t, valid)) == Kept(Scan(t), valid)
  {
    ScanIsScannable(t);
    KeptIsScannable(Scan(t), valid);
    ScanUndoesRender(Kept(Scan(t), valid));
  }

  lemma {:induction false} KeptKeepsCitations(ps: Pieces, valid: set<nat>, cited: seq<nat>)
    ensures Cited(Kept(ps, valid), valid, cited) == Cited(ps, valid, cited)
  {
    match ps
    case End =>
    case Plain(_, rest) => KeptKeepsCitations(rest, valid, cited);
    case Token(body, rest) => KeptKeepsCitations(rest, valid, Citing(body, valid, cited));
  }

  lemma {:induction false} KeptTwice(ps: Pieces, valid: set<nat>)
    ensures Kept(Kept(ps, valid), valid) == Kept(ps, valid)
    ensures Bodies(Kept(ps, valid)) == set b | b in Bodies(ps) && !Fabricated(b, valid)
  {
    if !ps.End? { KeptTwice(ps.rest, valid); }
  }

  /** Stripping changes no citation, is idempotent, and removes the fabricated markers and no others. */
  lemma StrippingIsSafe(t: string, valid: set<nat>)
    ensures Cited(Scan(Stripped(t, valid)), valid, []) == Cited(Scan(t), valid, [])
    ensures Stripped(Stripped(t, valid), valid) == Stripped(t, valid)
    ensures Bodies(Scan(Stripped(t, valid))) == set b | b in Bodies(Scan(t)) && !Fabricated(b, valid)
  {
    StrippingKeepsTheRest(t, valid);
    KeptKeepsCitations(Scan(t), valid, []);
    KeptTwice(Scan(t), valid);
  }

  /** Citations are the valid numbers among the tokens, each once. */
  lemma {:induction false} CitedAre(ps: Pieces, valid: set<nat>, cited: seq<nat>)
    requires forall i, j :: 0 <= i < j < |cited| ==> cited[i] != cited[j]
    ensures var r := Cited(ps, valid, cited);
      && cited <= r && (forall i, j :: 0 <= i < j < |r| ==> r[i] != r[j])
      && (forall v :: v in r <==> v in cited || (v in valid && exists b :: b in Bodies(ps) && ParseUsize(b) == Some(v)))
  {
    hide ParseUsize;
    match ps
    case End =>
    case Plain(_, rest) => CitedAre(rest, valid, cited);
    case Token(body, rest) => CitedAre(rest, valid, Citing(body, valid, cited));
  }

  // ---- What stripping leaves ----

  /** The text of every bracket token, in order. */
  function Tokens(ps: Pieces): seq<string> {
    match ps
    case End => []
    case Plain(_, rest) => Tokens(rest)
    case Token(body, rest) => [body] + Tokens(rest)
  }

  /** The text outside all bracket tokens. */
  function Outside(ps: Pieces): string {
    match ps
    case End => []
    case Plain(c, rest) => [c] + Outside(rest)
    case Token(_, rest) => Outside(rest)
  }

  /** The token stands for a number that is no source. */
  ghost predicate Invented(body: string, valid: set<nat>) {
    exists n: nat :: Spells(body, n) && n <= 18446744073709551615 && n !in valid
  }

  lemma FabricatedIff(body: string, valid: set<nat>)
    ensures Fabricated(body, valid) <==> Invented(body, valid)
  {
    hide ParseUsize, Spells;
    forall n: nat ensures ParseUsize(body) == Some(n) <==> n <= 18446744073709551615 && Spells(body, n) { ParsedIff(body, n); }
    if Fabricated(body, valid) { assert Spells(body, ParseUsize(body).value); }
  }

  ghost function Genuine(tokens: seq<string>, valid: set<nat>): seq<string> {
    if tokens == [] then [] else (if Invented(tokens[0], valid) then [] else [tokens[0]]) + Genuine(tokens[1..], valid)
  }

  lemma {:induction false} KeptLeaves(ps: Pieces, valid: set<nat>)
    ensures Outside(Kept(ps, valid)) == Outside(ps)
    ensures Tokens(Kept(ps, valid)) == Genuine(Tokens(ps), valid)
  {
    hide Fabricated, Invented;
    if !ps.End? { KeptLeaves(ps.rest, valid); }
    if ps.Token? {
      FabricatedIff(ps.body, valid);
      assert ([ps.body] + Tokens(ps.rest))[1..] == Tokens(ps.rest);
    }
  }

  /** Stripping keeps all text outside the tokens, and of the tokens, in order, all but the numbers that are no source. */
  lemma StrippingLeaves(t: string, valid: set<nat>)
    ensures var stripped := Scan(Stripped(t, valid));
      Outside(stripped) == Outside(Scan(t)) && Tokens(stripped) == Genuine(Tokens(Scan(t)), valid)
  {
    StrippingKeepsTheRest(t, valid);
    KeptLeaves(Scan(t), valid);
  }

  // ---- Order of citations ----

  /** Some token among the first `m` stands for the source `v`. */
  ghost predicate NamedBefore(tokens: seq<string>, m: nat, valid: set<nat>, v: nat) {
    v in valid && exists k :: 0 <= k < m && k < |tokens| && ParseUsize(tokens[k]) == Some(v)
  }

  /** `cited[j]` is first named by token `m`. */
  ghost predicate FirstNamed(tokens: seq<string>, valid: set<nat>, cited: seq<nat>, j: nat, m: nat) {
    && j < |cited| && m < |tokens| && ParseUsize(tokens[m]) == Some(cited[j]) && cited[j] in valid
    && (forall v :: v in cited[..j] <==> NamedBefore(tokens, m, valid, v))
  }

  ghost predicate IsNamed(tokens: seq<string>, valid: set<nat>, cited: seq<nat>, j: nat) {
    exists m: nat :: FirstNamed(tokens, valid, cited, j, m)
  }

  ghost predicate AllNamed(tokens: seq<string>, valid: set<nat>, cited: seq<nat>) {
    forall j: nat :: j < |cited| ==> IsNamed(tokens, valid, cited, j)
  }

  lemma {:induction false} CitedGrows(ps: Pieces, valid: set<nat>, before: seq<string>, cited: seq<nat>)
    requires forall v :: v in cited <==> NamedBefore(before, |before|, valid, v)
    requires AllNamed(before, valid, cited)
    ensures var r, tokens := Cited(ps, valid, cited), before + Tokens(ps);
      AllNamed(tokens, valid, r)
  {
    hide ParseUsize, AllNamed, NamedBefore;
    match ps
    case End => assert before + [] == before;
    case Plain(_, rest) =>
      CitedGrows(rest, valid, before, cited);
    case Token(body, rest) =>
      TokenCited(body, valid, before, cited);
      CitedGrows(rest, valid, before + [body], Citing(body, valid, cited));
      assert before + [body] + Tokens(rest) == before + ([body] + Tokens(rest));
  }

  lemma NamedStays(tokens: seq<string>, more: string, m: nat, valid: set<nat>)
    requires m <= |tokens|
    ensures forall v :: NamedBefore(tokens + [more], m, valid, v) <==> NamedBefore(tokens, m, valid, v)
  {
    hide ParseUsize;
    assert forall k :: 0 <= k < |tokens| ==> (tokens + [more])[k] == tokens[k];
  }

  lemma FirstNamedStays(tokens: seq<string>, more: string, valid: set<nat>, cited: seq<nat>, added: seq<nat>, j: nat, m: nat)
    requires FirstNamed(tokens, valid, cited, j, m) && cited <= added
    ensures FirstNamed(tokens + [more], valid, added, j, m)
  {
    hide ParseUsize;
    assert added[..j] == cited[..j];
    NamedStays(tokens, more, m, valid);
  }

  lemma TokenCited(body: string, valid: set<nat>, before: seq<string>, cited: seq<nat>)
    requires forall v :: v in cited <==> NamedBefore(before, |before|, valid, v)
    requires AllNamed(before, valid, cited)
    ensures var r, tokens := Citing(body, valid, cited), before + [body];
      && (forall v :: v in r <==> NamedBefore(tokens, |tokens|, valid, v))
      && AllNamed(tokens, valid, r)
  {
    hide ParseUsize, FirstNamed;
    var r, tokens := Citing(body, valid, cited), before + [body];
    forall v ensures v in r <==> NamedBefore(tokens, |tokens|, valid, v) { NamedGrows(body, valid, before, v); }
    forall j: nat | j < |r| ensures IsNamed(tokens, valid, r, j) {
      if j < |cited| {
        assert IsNamed(before, valid, cited, j);
        var m: nat :| FirstNamed(before, valid, cited, j, m);
        FirstNamedStays(before, body, valid, cited, r, j, m);
      } else {
        NewlyNamed(body, valid, before, cited);
      }
    }
  }

  lemma NamedGrows(body: string, valid: set<nat>, before: seq<string>, v: nat)
    ensures NamedBefore(before + [body], |before| + 1, valid, v) <==>
      NamedBefore(before, |before|, valid, v) || (v in valid && ParseUsize(body) == Some(v))
  {
    hide ParseUsize;
    var tokens := before + [body];
    assert tokens[|before|] == body;
    assert forall k :: 0 <= k < |before| ==> tokens[k] == before[k];
  }

  lemma NewlyNamed(body: string, valid: set<nat>, before: seq<string>, cited: seq<nat>)
    requires forall v :: v in cited <==> NamedBefore(before, |before|, valid, v)
    requires |Citing(body, valid, cited)| > |cited|
    ensures FirstNamed(before + [body], valid, Citing(body, valid, cited), |cited|, |before|)
  {
    hide ParseUsize;
    var tokens := before + [body];
    assert Citing(body, valid, cited)[..|cited|] == cited;
    NamedStays(before, body, |before|, valid);
  }

  /** Citations come in the order in which their sources are first named. */
  lemma CitedInOrder(t: string, valid: set<nat>)
    ensures var r, tokens := Cited(Scan(t), valid, []), Tokens(Scan(t));
      AllNamed(tokens, valid, r)
  {
    hide ParseUsize, Scan, IsNamed;
    assert forall v :: !NamedBefore([], 0, valid, v);
    CitedGrows(Scan(t), valid, [], []);
    assert [] + Tokens(Scan(t)) == Tokens(Scan(t));
  }

  // ---- Answers ----

  datatype AnswerError = NoSources | RequestFailed | Ungrounded

  datatype Answer = Answer(text: string, citations: seq<nat>)

  /** `sources` are the source numbers; `reply` is what the model answers, if it answers at all. */
  method Synthesize(sources: seq<nat>, reply: Option<string>) returns (r: Result<Answer, AnswerError>)
    ensures sources == [] ==> r == Err(NoSources)
    ensures sources != [] && reply.None? ==> r == Err(RequestFailed)
    ensures sources != [] && reply.Some? ==>
      var valid := set v | v in sources;
      if Cited(Scan(reply.value), valid, []) == [] then r == Err(Ungrounded)
      else
        && r.Ok? && r.value.text == Stripped(reply.value, valid)
        && r.value.citations == Cited(Scan(r.value.text), valid, []) != []
        && (forall b :: b in Bodies(Scan(r.value.text)) ==> !Fabricated(b, valid))
  {
    if sources == [] { return Err(NoSources); }
    if reply.None? { return Err(RequestFailed); }
    var valid := set v | v in sources;
    var citations := ExtractCitations(reply.value, valid);
    if citations == [] { return Err(Ungrounded); }
    var text := StripInvalidCitations(reply.value, valid);
    StrippingIsSafe(reply.value, valid);
    return Ok(Answer(text, citations));
  }
}
