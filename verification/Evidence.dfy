module Evidence {
  // Cutting a document into bounded fragments (evidence.rs).
  //
  // The algorithm moves byte cursors over UTF-8 text.  Its specification cuts the sequence of
  // characters; `Bytes` turns character ranges into byte ranges.

  import opened Utf8

  const FRAGMENT_BYTES := 512
  const MAX_FRAGMENTS := 8

  datatype Range = Range(start: nat, end: nat)

  predicate InText(s: string, r: Range) { r.start <= r.end <= |s| }

  function ByteRange(s: string, r: Range): Range
    requires InText(s, r)
  {
    Range(Offset(s, r.start), Offset(s, r.end))
  }

  function Bytes(s: string, ranges: seq<Range>): seq<Range>
    requires forall r :: r in ranges ==> InText(s, r)
  {
    if ranges == [] then [] else [ByteRange(s, ranges[0])] + Bytes(s, ranges[1..])
  }

  // ---- Specification, on characters ----

  function SkipLeft(s: string, i: nat, j: nat): (r: nat)
    requires i <= j <= |s|
    ensures i <= r <= j
    decreases j - i
  {
    if i < j && IsWhitespace(s[i]) then SkipLeft(s, i + 1, j) else i
  }

  function SkipRight(s: string, i: nat, j: nat): (r: nat)
    requires i <= j <= |s|
    ensures i <= r <= j
  {
    if i < j && IsWhitespace(s[j - 1]) then SkipRight(s, i, j - 1) else j
  }

  /** The range without the whitespace around it; none if nothing else is left. */
  function Trimmed(s: string, i: nat, j: nat): (r: seq<Range>)
    requires i <= j <= |s|
    ensures |r| <= 1
    ensures r != [] ==> i <= r[0].start < r[0].end <= j
  {
    var a := SkipLeft(s, i, j);
    var b := SkipRight(s, a, j);
    if a < b then [Range(a, b)] else []
  }

  /** The last position up to `k` that is at most `FRAGMENT_BYTES` bytes after `i`. */
  function Fit(s: string, i: nat, k: nat): (r: nat)
    requires i <= k <= |s|
    ensures i <= r <= k && Offset(s, r) - Offset(s, i) <= FRAGMENT_BYTES
  {
    if Offset(s, k) - Offset(s, i) <= FRAGMENT_BYTES then k else Fit(s, i, k - 1)
  }

  predicate IsSentenceEnd(c: char) { c == '.' || c == '!' || c == '?' }

  /** The last position in (i, k], not before byte `minimum`, that follows a sentence end. */
  function LastSentence(s: string, i: nat, k: nat, minimum: nat): (r: nat)
    requires i <= k <= |s|
    ensures r == 0 || i < r <= k
  {
    if i == k then 0
    else if Offset(s, k) >= minimum && IsSentenceEnd(s[k - 1]) then k
    else LastSentence(s, i, k - 1, minimum)
  }

  function LastSpace(s: string, i: nat, k: nat, minimum: nat): (r: nat)
    requires i <= k <= |s|
    ensures r == 0 || i < r <= k
  {
    if i == k then 0
    else if Offset(s, k) >= minimum && IsWhitespace(s[k - 1]) then k
    else LastSpace(s, i, k - 1, minimum)
  }

  /** Where to cut the text from `i`, when `k` is the last position that fits. */
  function Preferred(s: string, i: nat, k: nat): (r: nat)
    requires i < k <= |s|
    ensures i < r <= k
  {
    OffsetGrows(s, i, k);
    var minimum := Offset(s, i) + (Offset(s, k) - Offset(s, i)) / 2;
    if LastSentence(s, i, k, minimum) != 0 then LastSentence(s, i, k, minimum)
    else if LastSpace(s, i, k, minimum) != 0 then LastSpace(s, i, k, minimum)
    else k
  }

  lemma FitAdvances(s: string, i: nat, j: nat)
    requires i < j <= |s|
    ensures i < Fit(s, i, j)
  {
    OffsetGrows(s, i, i + 1);
    FitReaches(s, i, j, i + 1);
  }

  lemma {:induction false} FitReaches(s: string, i: nat, k: nat, m: nat)
    requires i <= m <= k <= |s| && Offset(s, m) - Offset(s, i) <= FRAGMENT_BYTES
    ensures m <= Fit(s, i, k)
  {
    if m < k && Offset(s, k) - Offset(s, i) > FRAGMENT_BYTES { FitReaches(s, i, k - 1, m); }
  }

  function Cut(s: string, i: nat, j: nat): (r: nat)
    requires i < j <= |s|
    ensures i < r <= j
  {
    FitAdvances(s, i, j);
    var k := Fit(s, i, j);
    if k < j then Preferred(s, i, k) else j
  }

  function Pieces(s: string, i: nat, j: nat): (r: seq<Range>)
    requires i <= j <= |s|
    ensures forall p :: p in r ==> i <= p.start < p.end <= j
    decreases j - i
  {
    if i == j then [] else Trimmed(s, i, Cut(s, i, j)) + Pieces(s, Cut(s, i, j), j)
  }

  function Paragraph(s: string, i: nat, j: nat): (r: seq<Range>)
    requires i <= j <= |s|
    ensures forall p :: p in r ==> i <= p.start < p.end <= j
  {
    var t := Trimmed(s, i, j);
    if t == [] then [] else Pieces(s, t[0].start, t[0].end)
  }

  /** The fragments of the first `n` characters that lie before the paragraph open at `n`, and where that starts. */
  function Closed(s: string, n: nat): (r: (seq<Range>, nat))
    requires n <= |s|
    ensures r.1 <= n && forall p :: p in r.0 ==> p.start < p.end <= r.1
  {
    if n == 0 then ([], 0)
    else
      var (before, open) := Closed(s, n - 1);
      if s[n - 1] == '\n' then (before + Paragraph(s, open, n - 1), n) else (before, open)
  }

  function Fragments(s: string): (r: seq<Range>)
    ensures forall p :: p in r ==> InText(s, p)
  {
    Closed(s, |s|).0 + Paragraph(s, Closed(s, |s|).1, |s|)
  }

  // ---- Properties ----

  ghost predicate Good(s: string, r: Range) {
    && r.start < r.end <= |s|
    && Offset(s, r.end) - Offset(s, r.start) <= 512
    && !IsWhitespace(s[r.start]) && !IsWhitespace(s[r.end - 1])
    && forall m :: r.start <= m < r.end ==> s[m] != '\n'
  }

  ghost predicate Ascending(ranges: seq<Range>) {
    forall a, b :: 0 <= a < b < |ranges| ==> ranges[a].end <= ranges[b].start
  }

  predicate Covers(ranges: seq<Range>, m: nat) {
    exists k :: 0 <= k < |ranges| && ranges[k].start <= m < ranges[k].end
  }

  /** Every character of [i, j) that is not whitespace lies in one of the ranges. */
  ghost predicate CoversAll(s: string, ranges: seq<Range>, i: nat, j: nat)
    requires j <= |s|
  {
    forall m :: i <= m < j && !IsWhitespace(s[m]) ==> Covers(ranges, m)
  }

  lemma {:induction false} SkipLeftTrims(s: string, i: nat, j: nat)
    requires i <= j <= |s|
    ensures var r := SkipLeft(s, i, j);
      (r < j ==> !IsWhitespace(s[r])) && forall m :: i <= m < r ==> IsWhitespace(s[m])
    decreases j - i
  {
    if i < j && IsWhitespace(s[i]) { SkipLeftTrims(s, i + 1, j); }
  }

  lemma {:induction false} SkipRightTrims(s: string, i: nat, j: nat)
    requires i <= j <= |s|
    ensures var r := SkipRight(s, i, j);
      (i < r ==> !IsWhitespace(s[r - 1])) && forall m :: r <= m < j ==> IsWhitespace(s[m])
  {
    if i < j && IsWhitespace(s[j - 1]) { SkipRightTrims(s, i, j - 1); }
  }

  lemma TrimmedIsTight(s: string, i: nat, j: nat)
    requires i <= j <= |s|
    ensures var r := Trimmed(s, i, j);
      && (r != [] ==> !IsWhitespace(s[r[0].start]) && !IsWhitespace(s[r[0].end - 1]))
      && CoversAll(s, r, i, j)
  {
    SkipLeftTrims(s, i, j);
    SkipRightTrims(s, SkipLeft(s, i, j), j);
    var r := Trimmed(s, i, j);
    forall m | i <= m < j && !IsWhitespace(s[m]) ensures Covers(r, m) {
      assert r[0].start <= m < r[0].end;
    }
  }

  lemma CutFits(s: string, i: nat, j: nat)
    requires i < j <= |s|
    ensures Offset(s, Cut(s, i, j)) - Offset(s, i) <= FRAGMENT_BYTES
  {
    FitAdvances(s, i, j);
    OffsetGrows(s, Cut(s, i, j), Fit(s, i, j));
  }

  lemma {:induction false} LastSentenceIsLast(s: string, i: nat, k: nat, minimum: nat)
    requires i <= k <= |s|
    ensures var r := LastSentence(s, i, k, minimum);
      && (r != 0 ==> Offset(s, r) >= minimum && IsSentenceEnd(s[r - 1]))
      && forall m :: i < m <= k && r < m && Offset(s, m) >= minimum ==> !IsSentenceEnd(s[m - 1])
  {
    if i < k { LastSentenceIsLast(s, i, k - 1, minimum); }
  }

  lemma {:induction false} LastSpaceIsLast(s: string, i: nat, k: nat, minimum: nat)
    requires i <= k <= |s|
    ensures var r := LastSpace(s, i, k, minimum);
      && (r != 0 ==> Offset(s, r) >= minimum && IsWhitespace(s[r - 1]))
      && forall m :: i < m <= k && r < m && Offset(s, m) >= minimum ==> !IsWhitespace(s[m - 1])
  {
    if i < k { LastSpaceIsLast(s, i, k - 1, minimum); }
  }

  /** Position `m` lies in the second half, in bytes, of the window from `i` to `k`. */
  ghost predicate SecondHalf(s: string, i: nat, m: nat, k: nat)
    requires i <= m <= k <= |s|
  {
    i < m && Offset(s, m) >= Offset(s, i) + (Offset(s, k) - Offset(s, i)) / 2
  }

  ghost predicate AfterSentence(s: string, m: nat) { 0 < m <= |s| && (s[m - 1] == '.' || s[m - 1] == '!' || s[m - 1] == '?') }

  ghost predicate AfterSpace(s: string, m: nat) { 0 < m <= |s| && IsWhitespace(s[m - 1]) }

  /** The cut follows the last sentence end in the second half of the window, else the last whitespace there, else fills the window. */
  lemma PreferredChoice(s: string, i: nat, k: nat)
    requires i < k <= |s|
    ensures var c := Preferred(s, i, k);
      && SecondHalf(s, i, c, k)
      && (AfterSentence(s, c) ==> forall m :: c < m <= k ==> !AfterSentence(s, m))
      && (!AfterSentence(s, c) ==> forall m :: i < m <= k && SecondHalf(s, i, m, k) ==> !AfterSentence(s, m))
      && (!AfterSentence(s, c) && AfterSpace(s, c) ==> forall m :: c < m <= k ==> !AfterSpace(s, m))
      && (!AfterSentence(s, c) && !AfterSpace(s, c) ==>
          c == k && forall m :: i < m <= k && SecondHalf(s, i, m, k) ==> !AfterSpace(s, m))
  {
    var c := Preferred(s, i, k);
    OffsetGrows(s, i, k);
    var minimum := Offset(s, i) + (Offset(s, k) - Offset(s, i)) / 2;
    LastSentenceIsLast(s, i, k, minimum);
    LastSpaceIsLast(s, i, k, minimum);
    forall m | c < m <= k
      ensures LastSentence(s, i, k, minimum) <= c ==> !AfterSentence(s, m)
      ensures LastSpace(s, i, k, minimum) <= c ==> !AfterSpace(s, m)
    {
      OffsetGrows(s, c, m);
      assert Offset(s, m) >= minimum;
    }
  }

  /** A rest that fits is not cut; otherwise the window ends at the last position that fits. */
  lemma CutChoice(s: string, i: nat, j: nat)
    requires i < j <= |s|
    ensures var k := Fit(s, i, j);
      if Offset(s, j) - Offset(s, i) <= FRAGMENT_BYTES then Cut(s, i, j) == j
      else i < k < j && Offset(s, k + 1) - Offset(s, i) > FRAGMENT_BYTES && Cut(s, i, j) == Preferred(s, i, k)
  {
    FitIsTight(s, i, j);
    FitAdvances(s, i, j);
  }

  lemma {:induction false} FitIsTight(s: string, i: nat, k: nat)
    requires i <= k <= |s|
    ensures Fit(s, i, k) < k ==> Offset(s, Fit(s, i, k) + 1) - Offset(s, i) > FRAGMENT_BYTES
    ensures Offset(s, k) - Offset(s, i) > FRAGMENT_BYTES ==> Fit(s, i, k) < k
  {
    if Offset(s, k) - Offset(s, i) > FRAGMENT_BYTES { FitIsTight(s, i, k - 1); }
  }

  lemma CoversJoin(s: string, xs: seq<Range>, ys: seq<Range>, i: nat, k: nat, j: nat)
    requires i <= k <= j <= |s| && CoversAll(s, xs, i, k) && CoversAll(s, ys, k, j)
    ensures CoversAll(s, xs + ys, i, j)
  {
    forall m | i <= m < j && !IsWhitespace(s[m]) ensures Covers(xs + ys, m) {
      if m < k {
        var a :| 0 <= a < |xs| && xs[a].start <= m < xs[a].end;
        assert (xs + ys)[a] == xs[a];
      } else {
        var b :| 0 <= b < |ys| && ys[b].start <= m < ys[b].end;
        assert (xs + ys)[|xs| + b] == ys[b];
      }
    }
  }

  lemma AscendingJoin(xs: seq<Range>, ys: seq<Range>, k: nat)
    requires Ascending(xs) && Ascending(ys)
    requires (forall p :: p in xs ==> p.end <= k) && (forall p :: p in ys ==> k <= p.start)
    ensures Ascending(xs + ys)
  {
    var all := xs + ys;
    forall a, b | 0 <= a < b < |all| ensures all[a].end <= all[b].start {
      if a < |xs| <= b { assert all[a] in xs && all[b] in ys; }
    }
  }

  lemma {:induction false} PiecesAreGood(s: string, i: nat, j: nat)
    requires i <= j <= |s| && forall m :: i <= m < j ==> s[m] != '\n'
    ensures var r := Pieces(s, i, j);
      Ascending(r) && CoversAll(s, r, i, j) && forall p :: p in r ==> Good(s, p)
    decreases j - i
  {
    if i < j {
      var c := Cut(s, i, j);
      var first, rest := Trimmed(s, i, c), Pieces(s, c, j);
      CutFits(s, i, j);
      TrimmedIsTight(s, i, c);
      PiecesAreGood(s, c, j);
      CoversJoin(s, first, rest, i, c, j);
      AscendingJoin(first, rest, c);
      if first != [] {
        OffsetGrows(s, i, first[0].start);
        OffsetGrows(s, first[0].end, c);
        assert Good(s, first[0]);
      }
    }
  }

  lemma ParagraphIsGood(s: string, i: nat, j: nat)
    requires i <= j <= |s| && forall m :: i <= m < j ==> s[m] != '\n'
    ensures var r := Paragraph(s, i, j);
      Ascending(r) && CoversAll(s, r, i, j) && forall p :: p in r ==> Good(s, p)
  {
    hide Pieces, Trimmed, Good;
    TrimmedIsTight(s, i, j);
    var t := Trimmed(s, i, j);
    if t != [] { PiecesAreGood(s, t[0].start, t[0].end); }
    forall m | i <= m < j && !IsWhitespace(s[m]) ensures Covers(Paragraph(s, i, j), m) {
      assert Covers(t, m);
      assert t[0].start <= m < t[0].end;
    }
  }

  lemma {:induction false} ClosedIsGood(s: string, n: nat)
    requires n <= |s|
    ensures var (r, open) := Closed(s, n);
      && Ascending(r) && CoversAll(s, r, 0, open) && (forall p :: p in r ==> Good(s, p))
      && forall m :: open <= m < n ==> s[m] != '\n'
  {
    hide Paragraph, Good, Covers;
    if n > 0 {
      ClosedIsGood(s, n - 1);
      var (before, open) := Closed(s, n - 1);
      if s[n - 1] == '\n' {
        var last := Paragraph(s, open, n - 1);
        ParagraphIsGood(s, open, n - 1);
        CoversJoin(s, before, last, 0, open, n - 1);
        AscendingJoin(before, last, open);
        assert Closed(s, n) == (before + last, n);
      }
    }
  }

  /**
   For every text: fragments are non-empty, at most 512 bytes, start and end with a visible character,
   never span a newline, ascend without overlap, and cover every character that is not whitespace.
   */
  lemma FragmentsAreGood(s: string)
    ensures var r := Fragments(s);
      && Ascending(r) && CoversAll(s, r, 0, |s|) && forall p :: p in r ==> Good(s, p)
  {
    ClosedIsGood(s, |s|);
    var (before, open) := Closed(s, |s|);
    var last := Paragraph(s, open, |s|);
    ParagraphIsGood(s, open, |s|);
    CoversJoin(s, before, last, 0, open, |s|);
    AscendingJoin(before, last, open);
  }

  // ---- Where every cut falls ----

  /** `k` is the last position at most 512 bytes after `i`, and the text to `j` goes on behind it. */
  ghost predicate WindowEnd(s: string, i: nat, k: nat, j: nat)
    requires j <= |s|
  {
    i < k < j && Offset(s, k) - Offset(s, i) <= 512 < Offset(s, k + 1) - Offset(s, i)
  }

  /** `c` follows the last sentence end in the second half of the window, else the last whitespace there, else ends the window. */
  ghost predicate BestCut(s: string, i: nat, k: nat, c: nat)
    requires i <= k <= |s|
  {
    && i < c <= k && SecondHalf(s, i, c, k)
    && if exists m :: i < m <= k && SecondHalf(s, i, m, k) && AfterSentence(s, m) then
         AfterSentence(s, c) && forall m :: c < m <= k ==> !AfterSentence(s, m)
       else if exists m :: i < m <= k && SecondHalf(s, i, m, k) && AfterSpace(s, m) then
         AfterSpace(s, c) && forall m :: c < m <= k ==> !AfterSpace(s, m)
       else c == k
  }

  /** The text from `i` is cut at `c`: at its end `j` if all of it fits, else in the window. */
  ghost predicate IsCut(s: string, i: nat, j: nat, c: nat)
    requires i < j <= |s|
  {
    if Offset(s, j) - Offset(s, i) <= 512 then c == j else exists k: nat :: WindowEnd(s, i, k, j) && BestCut(s, i, k, c)
  }

  lemma PreferredIsBest(s: string, i: nat, k: nat)
    requires i < k <= |s|
    ensures BestCut(s, i, k, Preferred(s, i, k))
  {
    hide Preferred, AfterSentence, AfterSpace;
    PreferredChoice(s, i, k);
  }

  lemma CutIsCut(s: string, i: nat, j: nat)
    requires i < j <= |s|
    ensures IsCut(s, i, j, Cut(s, i, j))
  {
    hide Cut, BestCut;
    CutChoice(s, i, j);
    var k := Fit(s, i, j);
    if Offset(s, j) - Offset(s, i) > 512 {
      PreferredIsBest(s, i, k);
      assert WindowEnd(s, i, k, j);
    }
  }

  /** `r` is the text from `i` to `j` without the whitespace around it, or nothing if there is only whitespace. */
  ghost predicate IsTrimmed(s: string, i: nat, j: nat, r: seq<Range>)
    requires i <= j <= |s|
  {
    if r == [] then forall m :: i <= m < j ==> IsWhitespace(s[m])
    else
      && |r| == 1 && i <= r[0].start < r[0].end <= j
      && !IsWhitespace(s[r[0].start]) && !IsWhitespace(s[r[0].end - 1])
      && forall m :: i <= m < r[0].start || r[0].end <= m < j ==> IsWhitespace(s[m])
  }

  lemma TrimmedIsTrimmed(s: string, i: nat, j: nat)
    requires i <= j <= |s|
    ensures IsTrimmed(s, i, j, Trimmed(s, i, j))
  {
    SkipLeftTrims(s, i, j);
    SkipRightTrims(s, SkipLeft(s, i, j), j);
  }

  /** `r` are the trimmed pieces of the text from `i` to `j`, cut where each window says. */
  ghost predicate IsCutUp(s: string, i: nat, j: nat, r: seq<Range>)
    requires i <= j <= |s|
    decreases j - i
  {
    if i == j then r == []
    else exists c, n :: i < c <= j && 0 <= n <= |r| && IsPiece(s, i, c, j, r[..n]) && IsCutUp(s, c, j, r[n..])
  }

  ghost predicate IsPiece(s: string, i: nat, c: nat, j: nat, piece: seq<Range>)
    requires i < c <= j <= |s|
  {
    IsCut(s, i, j, c) && IsTrimmed(s, i, c, piece)
  }

  lemma {:induction false} PiecesAreCutUp(s: string, i: nat, j: nat)
    requires i <= j <= |s|
    ensures IsCutUp(s, i, j, Pieces(s, i, j))
    decreases j - i
  {
    hide IsCut, IsTrimmed, Cut, Trimmed;
    if i < j {
      var c := Cut(s, i, j);
      var first, rest := Trimmed(s, i, c), Pieces(s, c, j);
      CutIsCut(s, i, j);
      TrimmedIsTrimmed(s, i, c);
      PiecesAreCutUp(s, c, j);
      var all := first + rest;
      assert all[..|first|] == first && all[|first|..] == rest;
      assert IsPiece(s, i, c, j, all[..|first|]);
    }
  }

  /** A paragraph is trimmed as a whole and then cut up. */
  ghost predicate IsParagraph(s: string, i: nat, j: nat, r: seq<Range>)
    requires i <= j <= |s|
  {
    exists t: seq<Range> :: IsTrimmed(s, i, j, t) && if t == [] then r == [] else IsCutUp(s, t[0].start, t[0].end, r)
  }

  lemma ParagraphIsParagraph(s: string, i: nat, j: nat)
    requires i <= j <= |s|
    ensures IsParagraph(s, i, j, Paragraph(s, i, j))
  {
    hide IsCutUp, Pieces;
    var t := Trimmed(s, i, j);
    TrimmedIsTrimmed(s, i, j);
    if t != [] { PiecesAreCutUp(s, t[0].start, t[0].end); }
    assert IsTrimmed(s, i, j, t);
  }

  /** The text between two newlines, or between a newline and an end of the text. */
  ghost predicate BetweenNewlines(s: string, i: nat, j: nat) {
    && i <= j <= |s| && (i == 0 || s[i - 1] == '\n') && (j == |s| || s[j] == '\n')
    && forall m :: i <= m < j ==> s[m] != '\n'
  }

  /** `all` holds the fragments of the paragraph from `i` to `j` side by side, those before it first, those after it last. */
  ghost predicate HoldsParagraph(s: string, all: seq<Range>, i: nat, j: nat)
    requires i <= j <= |s|
  {
    exists a, b :: 0 <= a <= b <= |all| && IsParagraph(s, i, j, all[a..b])
      && (forall k :: 0 <= k < a ==> all[k].end <= i) && (forall k :: b <= k < |all| ==> j <= all[k].start)
  }

  /** Once a newline closes it, or at the end of the text, a paragraph has its fragments. */
  lemma {:induction false} ClosedHolds(s: string, n: nat, i: nat, j: nat)
    requires n <= |s| && BetweenNewlines(s, i, j)
    ensures j < n ==> HoldsParagraph(s, Closed(s, n).0, i, j)
    ensures i <= n <= j ==> Closed(s, n).1 == i
  {
    hide IsParagraph, Paragraph;
    if n > 0 {
      ClosedHolds(s, n - 1, i, j);
      var (before, open) := Closed(s, n - 1);
      if s[n - 1] == '\n' && j < n {
        var last := Paragraph(s, open, n - 1);
        if j == n - 1 {
          ParagraphIsParagraph(s, i, j);
          HoldsLast(s, before, last, i, j);
        } else {
          OpenIsLater(s, n - 1, j);
          HoldsMore(s, before, last, i, j);
        }
      }
    }
  }

  lemma HoldsLast(s: string, before: seq<Range>, last: seq<Range>, i: nat, j: nat)
    requires i <= j <= |s| && IsParagraph(s, i, j, last) && forall p :: p in before ==> p.end <= i
    ensures HoldsParagraph(s, before + last, i, j)
  {
    hide IsParagraph;
    var all := before + last;
    assert all[|before|..|all|] == last;
    assert forall k :: 0 <= k < |before| ==> all[k] in before;
  }

  lemma HoldsMore(s: string, before: seq<Range>, last: seq<Range>, i: nat, j: nat)
    requires i <= j <= |s| && HoldsParagraph(s, before, i, j) && forall p :: p in last ==> j <= p.start
    ensures HoldsParagraph(s, before + last, i, j)
  {
    hide IsParagraph;
    var all := before + last;
    var a, b :| 0 <= a <= b <= |before| && IsParagraph(s, i, j, before[a..b])
      && (forall k :: 0 <= k < a ==> before[k].end <= i) && (forall k :: b <= k < |before| ==> j <= before[k].start);
    assert all[a..b] == before[a..b];
    forall k | b <= k < |all| ensures j <= all[k].start {
      if k >= |before| { assert all[k] in last; }
    }
  }

  /** For every text and every paragraph of it, the fragments are the pieces the windows prescribe, in order. */
  lemma EveryParagraphIsCutUp(s: string, i: nat, j: nat)
    requires BetweenNewlines(s, i, j)
    ensures HoldsParagraph(s, Fragments(s), i, j)
  {
    hide IsParagraph, Paragraph, HoldsParagraph;
    ClosedHolds(s, |s|, i, j);
    var (before, open) := Closed(s, |s|);
    var last := Paragraph(s, open, |s|);
    if j == |s| {
      ParagraphIsParagraph(s, i, j);
      HoldsLast(s, before, last, i, j);
    } else {
      OpenIsLater(s, |s|, j);
      HoldsMore(s, before, last, i, j);
    }
  }

  lemma {:induction false} OpenIsLater(s: string, n: nat, j: nat)
    requires j < n <= |s| && s[j] == '\n'
    ensures Closed(s, n).1 > j
  {
    hide Paragraph;
    if j < n - 1 { OpenIsLater(s, n - 1, j); }
  }
}
