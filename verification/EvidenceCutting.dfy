/** The cursor loops of evidence.rs, and the choice of the best fragments. */
module EvidenceCutting {
  import opened Wrappers
  import opened Utf8
  import opened Evidence

  /** Bytes `b` is where character `k` starts. */
  ghost predicate At(s: string, b: nat, k: nat) { k <= |s| && b == Offset(s, k) }

  method FloorCharBoundary(s: string, index: nat) returns (r: nat)
    ensures r <= index && IsCharBoundary(s, r)
    ensures forall b :: r < b <= index ==> !IsCharBoundary(s, b)
  {
    r := index;
    SeekOffset(s, 0);
    while r > 0 && !IsCharBoundary(s, r)
      invariant r <= index
      invariant forall b :: r < b <= index ==> !IsCharBoundary(s, b)
    {
      r := r - 1;
    }
  }

  lemma FloorIsFit(s: string, i: nat, j: nat, index: nat, r: nat)
    requires i <= j <= |s|
    requires index == if Offset(s, i) + FRAGMENT_BYTES <= Offset(s, j) then Offset(s, i) + FRAGMENT_BYTES else Offset(s, j)
    requires r <= index && IsCharBoundary(s, r) && forall b :: r < b <= index ==> !IsCharBoundary(s, b)
    ensures r == Offset(s, Fit(s, i, j))
  {
    var k, m := Fit(s, i, j), Seek(s, r, 0);
    SeekOffset(s, k);
    OffsetGrows(s, i, k);
    OffsetGrows(s, k, j);
    assert Offset(s, k) <= r;
    if m > j { OffsetGrows(s, j, m); }
    if m < k { OffsetGrows(s, m, k); } else { FitReaches(s, i, j, m); OffsetGrows(s, m, k); }
  }

  lemma SentenceEndIsVisible(c: char)
    ensures IsSentenceEnd(c) ==> !IsWhitespace(c)
  {}

  method PreferredSplit(s: string, start: nat, hardEnd: nat, ghost i: nat, ghost k: nat) returns (split: nat)
    requires i < k && At(s, start, i) && At(s, hardEnd, k)
    ensures split == Offset(s, Preferred(s, i, k))
  {
    hide Width, IsWhitespace, IsSentenceEnd;
    OffsetGrows(s, i, k);
    var minimum := start + (hardEnd - start) / 2;
    var sentence: Option<nat>, whitespace: Option<nat> := None, None;
    var position: nat := start;
    ghost var m: nat := i;
    while position < hardEnd
      invariant i <= m <= k && At(s, position, m)
      invariant sentence == if LastSentence(s, i, m, minimum) == 0 then None else Some(Offset(s, LastSentence(s, i, m, minimum)))
      invariant whitespace == if LastSpace(s, i, m, minimum) == 0 then None else Some(Offset(s, LastSpace(s, i, m, minimum)))
      decreases hardEnd - position
    {
      OffsetGrows(s, m, k);
      SeekOffset(s, m);
      var c := CharAfter(s, position);
      SentenceEndIsVisible(c);
      var after := position + Width(c);
      if after >= minimum {
        if IsSentenceEnd(c) { sentence := Some(after); }
        else if IsWhitespace(c) { whitespace := Some(after); }
      }
      position, m := after, m + 1;
      OffsetGrows(s, m, k);
    }
    OffsetGrows(s, m, k);
    if sentence.Some? { return sentence.value; }
    if whitespace.Some? { return whitespace.value; }
    return hardEnd;
  }

  method TrimRange(s: string, start: nat, end: nat, ghost i: nat, ghost j: nat) returns (r: Option<Range>)
    requires i <= j && At(s, start, i) && At(s, end, j)
    ensures r == if Trimmed(s, i, j) == [] then None else Some(ByteRange(s, Trimmed(s, i, j)[0]))
  {
    hide Width, IsWhitespace;
    var left: nat, right: nat := start, end;
    ghost var a: nat, b: nat := i, j;
    OffsetGrows(s, i, j);
    while left < right
      invariant i <= a <= j && At(s, left, a) && SkipLeft(s, i, j) == SkipLeft(s, a, j)
      decreases right - left
    {
      OffsetGrows(s, a, j);
      SeekOffset(s, a);
      var c := CharAfter(s, left);
      if !IsWhitespace(c) { break; }
      left, a := left + Width(c), a + 1;
      OffsetGrows(s, a, j);
    }
    OffsetGrows(s, a, j);
    assert a == SkipLeft(s, i, j);
    while left < right
      invariant a <= b <= j && At(s, right, b) && SkipRight(s, a, j) == SkipRight(s, a, b)
      decreases right
    {
      OffsetGrows(s, a, b);
      SeekOffset(s, b);
      var c := CharBefore(s, right);
      if !IsWhitespace(c) { break; }
      right, b := right - Width(c), b - 1;
    }
    OffsetGrows(s, a, b);
    return if left < right then Some(Range(left, right)) else None;
  }

  lemma {:induction false} BytesJoin(s: string, xs: seq<Range>, ys: seq<Range>)
    requires (forall r :: r in xs ==> InText(s, r)) && (forall r :: r in ys ==> InText(s, r))
    ensures Bytes(s, xs + ys) == Bytes(s, xs) + Bytes(s, ys)
  {
    if xs == [] {
      assert xs + ys == ys;
    } else {
      assert (xs + ys)[0] == xs[0] && (xs + ys)[1..] == xs[1..] + ys;
      BytesJoin(s, xs[1..], ys);
    }
  }

  /** Where to cut the text from `cursor` on, and what is left of the piece once trimmed. */
  method CutPiece(s: string, cursor: nat, stop: nat, ghost a: nat, ghost b: nat) returns (split: nat, piece: Option<Range>)
    requires a < b && At(s, cursor, a) && At(s, stop, b)
    ensures split == Offset(s, Cut(s, a, b)) && cursor < split <= stop
    ensures piece == if Trimmed(s, a, Cut(s, a, b)) == [] then None else Some(ByteRange(s, Trimmed(s, a, Cut(s, a, b))[0]))
  {
    hide Trimmed, Preferred;
    OffsetGrows(s, a, b);
    var limit := if cursor + FRAGMENT_BYTES <= stop then cursor + FRAGMENT_BYTES else stop;
    var hardEnd := FloorCharBoundary(s, limit);
    FloorIsFit(s, a, b, limit, hardEnd);
    FitAdvances(s, a, b);
    OffsetGrows(s, Fit(s, a, b), b);
    split := stop;
    if hardEnd < stop { split := PreferredSplit(s, cursor, hardEnd, a, Fit(s, a, b)); }
    OffsetGrows(s, a, Cut(s, a, b));
    OffsetGrows(s, Cut(s, a, b), b);
    piece := TrimRange(s, cursor, split, a, Cut(s, a, b));
  }

  lemma PieceFirst(s: string, a: nat, b: nat, before: seq<Range>)
    requires a < b <= |s|
    ensures var t, rest := Trimmed(s, a, Cut(s, a, b)), Bytes(s, Pieces(s, Cut(s, a, b), b));
      before + Bytes(s, Pieces(s, a, b)) == (if t == [] then before else before + [ByteRange(s, t[0])]) + rest
  {
    hide Trimmed, Cut, ByteRange;
    var t, rest := Trimmed(s, a, Cut(s, a, b)), Pieces(s, Cut(s, a, b), b);
    if t == [] {
      assert t + rest == rest;
    } else {
      assert (t + rest)[0] == t[0] && (t + rest)[1..] == rest;
      assert before + ([ByteRange(s, t[0])] + Bytes(s, rest)) == before + [ByteRange(s, t[0])] + Bytes(s, rest);
    }
  }

  function Max(a: nat, b: nat): nat { if a >= b then a else b }

  method NextCharBoundary(s: string, from: nat, stop: nat) returns (r: nat)
    ensures from <= r && (IsCharBoundary(s, from) ==> r == from)
  {
    r := from;
    while r < stop && !IsCharBoundary(s, r)
      invariant from <= r && (IsCharBoundary(s, from) ==> r == from)
    {
      r := r + 1;
    }
  }

  /** The cursor always lands on `split`: the one-byte fallback and the boundary search after it are never needed. */
  method AppendBoundedRange(s: string, start: nat, end: nat, ranges: seq<Range>, ghost i: nat, ghost j: nat)
    returns (ranges': seq<Range>)
    requires i <= j && At(s, start, i) && At(s, end, j)
    ensures ranges' == ranges + Bytes(s, Paragraph(s, i, j))
  {
    hide Trimmed, Cut;
    ranges' := ranges;
    var trimmed := TrimRange(s, start, end, i, j);
    if trimmed.None? { return; }
    var cursor: nat, stop: nat := trimmed.value.start, trimmed.value.end;
    ghost var a: nat, b: nat := Trimmed(s, i, j)[0].start, Trimmed(s, i, j)[0].end;
    ghost var whole := ranges + Bytes(s, Pieces(s, a, b));
    OffsetGrows(s, a, b);
    while cursor < stop
      invariant a <= b && At(s, cursor, a) && At(s, stop, b)
      invariant ranges' + Bytes(s, Pieces(s, a, b)) == whole
      decreases stop - cursor
    {
      OffsetGrows(s, a, b);
      var split, piece := CutPiece(s, cursor, stop, a, b);
      ghost var cut := Cut(s, a, b);
      ghost var rest := Pieces(s, cut, b);
      PieceFirst(s, a, b, ranges');
      if piece.Some? { ranges' := ranges' + [piece.value]; }
      cursor := Max(split, cursor + 1);
      SeekOffset(s, cut);
      cursor := NextCharBoundary(s, cursor, stop);
      assert cursor == split;
      a := cut;
    }
    OffsetGrows(s, a, b);
  }

  method BoundedContentRanges(s: string) returns (ranges: seq<Range>)
    ensures ranges == Bytes(s, Fragments(s))
  {
    ranges := [];
    hide Width, Paragraph;
    var paragraphStart: nat, index: nat := 0, 0;
    ghost var n: nat := 0;
    while index < ByteLength(s)
      invariant n <= |s| && At(s, index, n) && At(s, paragraphStart, Closed(s, n).1)
      invariant ranges == Bytes(s, Closed(s, n).0)
      decreases ByteLength(s) - index
    {
      OffsetGrows(s, n, |s|);
      SeekOffset(s, n);
      var c := CharAfter(s, index);
      if c == '\n' {
        ghost var (before, open) := Closed(s, n);
        BytesJoin(s, before, Paragraph(s, open, n));
        ranges := AppendBoundedRange(s, paragraphStart, index, ranges, open, n);
        paragraphStart := index + Width(c);
      }
      index, n := index + Width(c), n + 1;
      OffsetGrows(s, n, |s|);
    }
    OffsetGrows(s, n, |s|);
    ghost var (before, open) := Closed(s, |s|);
    BytesJoin(s, before, Paragraph(s, open, |s|));
    ranges := AppendBoundedRange(s, paragraphStart, ByteLength(s), ranges, open, |s|);
  }
}
