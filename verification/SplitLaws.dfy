/** What the splitter of `crates/notes-ai/src/chunking.rs` does, said of the characters of the text alone: where a turn
    cuts, and what each chunk is sent as. */
module SplitLaws {
  import opened SplitText
  import opened Splitter

  // ----- lines by their characters

  /** A line of the text, with its line feed. */
  predicate LineSpan(value: string, p: nat, k: nat) {
    && p < k <= |value| && (p == 0 || value[p - 1] == '\n') && (k < |value| ==> value[k - 1] == '\n')
    && forall i :: p <= i < k - 1 ==> value[i] != '\n'
  }

  /** Three backticks or three tildes, behind white space at most. */
  ghost predicate FenceMark(line: string) { exists i :: FenceMarkAt(line, i) }

  predicate FenceMarkAt(line: string, i: int) {
    && 0 <= i <= |line| - 3 && AllBlank(line[..i]) && line[i] == line[i + 1] == line[i + 2]
    && (line[i] == '`' || line[i] == '~')
  }

  ghost predicate TwoBars(line: string) { exists i, j :: 0 <= i < j < |line| && line[i] == '|' && line[j] == '|' }

  /** The kind of a line, from its characters and from whether a fence is open where it starts. */
  ghost predicate IsKind(line: string, open: bool, kind: Kind) {
    match kind
    case BlankLine => AllBlank(line) && !open
    case StructuredLine => open || FenceMark(line) || TwoBars(line)
    case PlainLine => !open && !AllBlank(line) && !FenceMark(line) && !TwoBars(line)
  }

  /** A line of this kind ends at `k`; the fence lines before it open and close fences in turn. */
  ghost predicate EndsLine(value: string, fence: bool, k: nat, kind: Kind) {
    exists p :: 0 <= p < k && LineSpan(value, p, k) && IsKind(value[p..k], fence != Odd(Fences(value[..p])), kind)
  }

  lemma FenceLineExactly(line: string)
    ensures IsFence(line) <==> FenceMark(line)
  {
    hide Blank;
    var k := LeadBlanks(line);
    var t := line[k..];
    var e := EndOf(t);
    if IsFence(line) {
      assert Trim(line)[..3] == t[..3] && forall i :: 0 <= i < 3 ==> t[..3][i] == line[k + i];
      assert FenceMarkAt(line, k);
    }
    if i :| FenceMarkAt(line, i) {
      assert !Blank(line[i]) by { BackticksShow(line[i]); }
      LeadIs(line, i);
      assert t[0] == line[i] && t[1] == line[i + 1] && t[2] == line[i + 2];
      BackticksShow(t[2]);
      VisibleKept(t, 2);
      assert Trim(line)[..3] == [line[i], line[i], line[i]];
    }
  }

  /** What is visible is not trimmed. */
  lemma VisibleKept(t: string, i: nat)
    requires i < |t| && !Blank(t[i])
    ensures EndOf(t) > i
  {
    hide Blank;
    var e := EndOf(t);
    assert forall j :: e <= j < |t| ==> t[j] == t[e..][j - e];
  }

  lemma BackticksShow(c: char)
    requires c == '`' || c == '~' || c == '|'
    ensures !Blank(c)
  {
  }

  lemma {:induction false} PipesAppend(a: string, b: string)
    ensures Pipes(a + b) == Pipes(a) + Pipes(b)
  {
    if b == [] {
      assert a + b == a;
    } else {
      PipesAppend(a, b[..|b| - 1]);
      assert (a + b)[..|a + b| - 1] == a + b[..|b| - 1];
    }
  }

  lemma {:induction false} NoPipes(s: string)
    ensures Pipes(s) == 0 <==> forall i :: 0 <= i < |s| ==> s[i] != '|'
  {
    if s != [] {
      NoPipes(s[..|s| - 1]);
      assert forall i :: 0 <= i < |s| - 1 ==> s[i] == s[..|s| - 1][i];
    }
  }

  lemma {:induction false} BarsExactly(s: string)
    ensures Pipes(s) >= 2 <==> TwoBars(s)
  {
    if s != [] {
      var front := s[..|s| - 1];
      NoPipes(front);
      BarsExactly(front);
      assert forall i :: 0 <= i < |front| ==> s[i] == front[i];
      if Pipes(front) == 1 && s[|s| - 1] == '|' {
        var i :| 0 <= i < |front| && front[i] == '|';
        assert s[i] == '|' && i < |s| - 1;
      }
    }
  }

  /** Trimming takes no bar away. */
  lemma TrimmedBars(line: string)
    ensures Pipes(Trim(line)) >= 2 <==> TwoBars(line)
  {
    hide Blank, TwoBars;
    var front, back := TrimSplits(line);
    BlankHasNoBar(front);
    BlankHasNoBar(back);
    PipesAppend(front, Trim(line));
    PipesAppend(front + Trim(line), back);
    BarsExactly(line);
  }

  lemma BlankHasNoBar(w: string)
    requires AllBlank(w)
    ensures Pipes(w) == 0
  {
    hide Blank;
    BackticksShow('|');
    NoPipes(w);
  }

  lemma KindExactly(line: string, open: bool, kind: Kind)
    ensures KindOf(line, open) == kind <==> IsKind(line, open, kind)
  {
    hide IsFence, FenceMark, TwoBars, Trim, AllBlank;
    FenceLineExactly(line);
    TrimmedBars(line);
    TrimEdges(line);
    if AllBlank(line) {
      BlankIsNoFence(line);
      assert Pipes([]) == 0;
    }
  }

  // ----- the boundaries

  lemma SpanAt(value: string, at: nat)
    requires at < |value| && Aligned(value[..at])
    ensures LineSpan(value, at, at + |LineAt(value, at)|) && value[at..at + |LineAt(value, at)|] == LineAt(value, at)
  {
    var rest, line := value[at..], LineAt(value, at);
    assert forall i :: 0 <= i < |line| ==> line[i] == rest[i] == value[at + i];
    assert at > 0 ==> value[..at][at - 1] == value[at - 1];
  }

  /** Every boundary ends a line of its kind. */
  lemma {:induction false} BoundaryKinds(value: string, at: nat, byteIndex: nat, max: nat, fence: bool, now: bool)
    requires at <= |value| && (at < |value| ==> Aligned(value[..at])) && now == (fence != Odd(Fences(value[..at])))
    ensures forall b :: b in BoundariesFrom(value, at, byteIndex, max, now) ==> b.charIndex > at && EndsLine(value, fence, b.charIndex, b.kind)
    decreases |value| - at
  {
    hide IsFence, Bytes, KindOf, Fences, LineAt, Aligned, IsKind, LineSpan;
    if at < |value| {
      LineAppended(value, at);
      SpanAt(value, at);
      var line := LineAt(value, at);
      if at + |line| <= max {
        KindExactly(line, now, KindOf(line, now));
        assert EndsLine(value, fence, at + |line|, KindOf(line, now));
        BoundaryKinds(value, at + |line|, byteIndex + Bytes(line), max, fence, if IsFence(line) then !now else now);
      }
    }
  }

  /** A line is determined by where it ends, and so is its kind. */
  lemma OneKind(value: string, fence: bool, k: nat, a: Kind, b: Kind)
    requires EndsLine(value, fence, k, a) && EndsLine(value, fence, k, b)
    ensures a == b
  {
    hide FenceMark, TwoBars, Fences, AllBlank;
    var p :| 0 <= p < k && LineSpan(value, p, k) && IsKind(value[p..k], fence != Odd(Fences(value[..p])), a);
    var q :| 0 <= q < k && LineSpan(value, q, k) && IsKind(value[q..k], fence != Odd(Fences(value[..q])), b);
    assert p == q;
    KindExactly(value[p..k], fence != Odd(Fences(value[..p])), a);
    KindExactly(value[p..k], fence != Odd(Fences(value[..p])), b);
  }

  lemma EndsLineFeed(value: string, fence: bool, k: nat, kind: Kind)
    requires EndsLine(value, fence, k, kind)
    ensures 0 < k <= |value| && (k < |value| ==> value[k - 1] == '\n')
  {
    hide IsKind, Fences;
  }

  /** The boundaries are the ends of lines within the limit, each with its kind. */
  lemma BoundariesExactly(value: string, max: nat, fence: bool, k: nat, kind: Kind)
    requires |value| > max
    ensures EndsLine(value, fence, k, kind) && k <= max <==>
              exists b :: b in BoundariesFrom(value, 0, 0, max, fence) && b.charIndex == k && b.kind == kind
  {
    hide Bytes, Fences, BoundariesFrom, Marks, EndsLine;
    NothingBefore(value);
    BoundaryKinds(value, 0, 0, max, fence, fence);
    var bs := BoundariesFrom(value, 0, 0, max, fence);
    if EndsLine(value, fence, k, kind) && k <= max {
      EndsLineFeed(value, fence, k, kind);
      EveryLineEnd(value, 0, 0, max, fence, k);
      var b :| b in bs && b.charIndex == k;
      OneKind(value, fence, k, b.kind, kind);
    }
    if b :| b in bs && b.charIndex == k && b.kind == kind {
      BoundariesMark(value, 0, max, fence, fence);
      MarksWithin(value, max, fence, b);
    }
  }

  lemma MarksWithin(value: string, max: nat, fence: bool, b: Boundary)
    requires Marks(value, max, fence, b)
    ensures b.charIndex <= max
  {
  }

  ghost predicate Ascending(bs: seq<Boundary>) { forall i, j :: 0 <= i < j < |bs| ==> bs[i].charIndex < bs[j].charIndex }

  lemma AscendCons(b: Boundary, rest: seq<Boundary>)
    requires Ascending(rest) && forall c :: c in rest ==> b.charIndex < c.charIndex
    ensures Ascending([b] + rest)
  {
    var all := [b] + rest;
    forall i, j | 0 <= i < j < |all|
      ensures all[i].charIndex < all[j].charIndex
    {
      assert all[j] == rest[j - 1] && all[j] in rest;
      assert i > 0 ==> all[i] == rest[i - 1];
    }
  }

  lemma AscendFront(bs: seq<Boundary>)
    requires Ascending(bs) && bs != []
    ensures Ascending(bs[..|bs| - 1]) && forall c :: c in bs[..|bs| - 1] ==> c.charIndex < bs[|bs| - 1].charIndex
  {
  }

  lemma {:induction false} BoundariesAscend(value: string, at: nat, byteIndex: nat, max: nat, fence: bool)
    requires at <= |value|
    ensures Ascending(BoundariesFrom(value, at, byteIndex, max, fence))
    ensures forall b :: b in BoundariesFrom(value, at, byteIndex, max, fence) ==> at < b.charIndex <= max
    decreases |value| - at
  {
    hide IsFence, Bytes, KindOf, LineAt, Ascending;
    NoneAscend();
    if at < |value| {
      var line := LineAt(value, at);
      if at + |line| <= max {
        var after := if IsFence(line) then !fence else fence;
        BoundariesAscend(value, at + |line|, byteIndex + Bytes(line), max, after);
        AscendCons(Boundary(byteIndex + Bytes(line), at + |line|, KindOf(line, fence), after),
                   BoundariesFrom(value, at + |line|, byteIndex + Bytes(line), max, after));
      }
    }
  }

  lemma NoneAscend()
    ensures Ascending([])
  {
  }

  /** Of two equally near boundaries the first is kept. */
  ghost predicate FirstOfNearest(bs: seq<Boundary>, kind: Kind, lo: nat, target: nat, hi: nat, best: Boundary) {
    forall c :: c in bs && c.kind == kind && InWindow(c, lo, hi) && Distance(c.charIndex, target) == Distance(best.charIndex, target)
                ==> best.charIndex <= c.charIndex
  }

  lemma {:induction false} NearestFirst(bs: seq<Boundary>, kind: Kind, lo: nat, target: nat, hi: nat)
    requires Ascending(bs)
    ensures var best := Nearest(bs, kind, lo, target, hi); best.Some? ==> FirstOfNearest(bs, kind, lo, target, hi, best.value)
  {
    hide Ascending, InWindow, Distance;
    if bs != [] {
      var n := |bs| - 1;
      AscendFront(bs);
      NearestFirst(bs[..n], kind, lo, target, hi);
      NearestIs(bs[..n], kind, lo, target, hi);
      assert bs == bs[..n] + [bs[n]];
      assert forall c :: c in bs <==> c in bs[..n] || c == bs[n];
    }
  }

  // ----- where a turn cuts

  /** Some line of this kind ends in the preferred window. */
  ghost predicate Offers(value: string, fence: bool, min: nat, max: nat, kind: Kind) {
    exists k :: min <= k <= max && EndsLine(value, fence, k, kind)
  }

  /** The end of a line of this kind in the window, nearest to the target, the earlier of two equally near. */
  ghost predicate Best(value: string, fence: bool, min: nat, target: nat, max: nat, kind: Kind, k: nat) {
    && min <= k <= max && EndsLine(value, fence, k, kind)
    && forall j :: min <= j <= max && EndsLine(value, fence, j, kind) ==>
         Nearer(target, k, j)
  }

  predicate Nearer(target: nat, k: nat, j: nat) {
    Distance(k, target) <= Distance(j, target) && (Distance(k, target) == Distance(j, target) ==> k <= j)
  }

  /** Ends a line at least `lo` into the text. */
  predicate LineEnd(value: string, lo: nat, max: nat, k: nat) { 0 < k <= |value| && lo <= k <= max && value[k - 1] == '\n' }

  /** A blank line outside a fence wins, then a line of a table or of a fence, then any line; of its kind the nearest to
      the target. With no line end in the window the last one that leaves no fragment is taken, and without one the text
      is cut at the limit. */
  lemma CutExactly(remaining: string, fence: bool, min: nat, target: nat, max: nat)
    requires |remaining| > max > 0
    ensures var k := CutAt(remaining, fence, min, target, max).0;
      if Offers(remaining, fence, min, max, BlankLine) then Best(remaining, fence, min, target, max, BlankLine, k)
      else if Offers(remaining, fence, min, max, StructuredLine) then Best(remaining, fence, min, target, max, StructuredLine, k)
      else if Offers(remaining, fence, min, max, PlainLine) then Best(remaining, fence, min, target, max, PlainLine, k)
      else if exists j: nat :: LineEnd(remaining, FALLBACK_MIN_CHUNK_CHARS, max, j) then
        LineEnd(remaining, FALLBACK_MIN_CHUNK_CHARS, max, k) && forall j: nat :: LineEnd(remaining, FALLBACK_MIN_CHUNK_CHARS, max, j) ==> j <= k
      else k == max
  {
    hide EndsLine, BoundariesFrom, Nearest, Furthest, Fences, Bytes, Marks, LineEnd, Offers, Best;
    NearestBest(remaining, fence, min, target, max, BlankLine);
    NearestBest(remaining, fence, min, target, max, StructuredLine);
    NearestBest(remaining, fence, min, target, max, PlainLine);
    FurthestEnd(remaining, fence, max);
    SelectedBound(remaining, fence, min, target, max);
  }

  lemma NearestBest(value: string, fence: bool, min: nat, target: nat, max: nat, kind: Kind)
    requires |value| > max
    ensures match Nearest(BoundariesFrom(value, 0, 0, max, fence), kind, min, target, max)
            case Some(b) => Offers(value, fence, min, max, kind) && Best(value, fence, min, target, max, kind, b.charIndex)
            case None => !Offers(value, fence, min, max, kind)
  {
    hide EndsLine, BoundariesFrom, Nearest, Ascending, Distance;
    var bs := BoundariesFrom(value, 0, 0, max, fence);
    BoundariesAscend(value, 0, 0, max, fence);
    NearestIs(bs, kind, min, target, max);
    NearestFirst(bs, kind, min, target, max);
    var best := Nearest(bs, kind, min, target, max);
    forall k: nat | min <= k <= max && EndsLine(value, fence, k, kind)
      ensures best.Some? && Nearer(target, best.value.charIndex, k)
    {
      BoundariesExactly(value, max, fence, k, kind);
      var b :| b in bs && b.charIndex == k && b.kind == kind;
    }
    if best.Some? {
      BoundariesExactly(value, max, fence, best.value.charIndex, kind);
    }
  }

  lemma FurthestEnd(value: string, fence: bool, max: nat)
    requires |value| > max
    ensures match Furthest(BoundariesFrom(value, 0, 0, max, fence), FALLBACK_MIN_CHUNK_CHARS, max)
            case Some(b) => LineEnd(value, FALLBACK_MIN_CHUNK_CHARS, max, b.charIndex)
              && forall j: nat :: LineEnd(value, FALLBACK_MIN_CHUNK_CHARS, max, j) ==> j <= b.charIndex
            case None => forall j: nat :: !LineEnd(value, FALLBACK_MIN_CHUNK_CHARS, max, j)
  {
    hide BoundariesFrom, Furthest, Bytes, Fences;
    var bs := BoundariesFrom(value, 0, 0, max, fence);
    NothingBefore(value);
    BoundariesMark(value, 0, max, fence, fence);
    FurthestIs(bs, FALLBACK_MIN_CHUNK_CHARS, max);
    forall j: nat | LineEnd(value, FALLBACK_MIN_CHUNK_CHARS, max, j)
      ensures exists b :: b in bs && b.charIndex == j
    {
      EveryLineEnd(value, 0, 0, max, fence, j);
    }
  }

  // ----- the header

  /** The header is taken off exactly when it is the first line of a longer text. */
  lemma HeaderTakenOff(header: string, rest: string)
    requires header != ""
    ensures BodyOf(header + "\n" + rest, header) == rest
  {
    var full := header + "\n" + rest;
    assert full[..|header|] == header && full[|header| + 1..] == rest;
  }

  lemma HeaderLeft(full: string, header: string)
    requires header == "" || !(header + "\n" <= full)
    ensures BodyOf(full, header) == full
  {
    assert header <= full && |full| > |header| && full[|header|] == '\n' ==> full[..|header| + 1] == header + "\n";
  }

  /** A long text under its header becomes the pieces of the text below the header, each sent under the header again. */
  lemma ChunksUnderHeader(header: string, rest: string)
    requires header != "" && |header + "\n" + rest| > SINGLE_VECTOR_MAX_CHARS
    ensures var chunks, pieces := SplitOf(header + "\n" + rest, header), PiecesFor(rest);
      |chunks| == |pieces| && forall i :: 0 <= i < |chunks| ==> SentAs(chunks[i], i, header + "\n" + pieces[i])
  {
    hide PiecesFor, CapProviderInput, BodyOf;
    HeaderTakenOff(header, rest);
  }

  /** A long text with another first line, or without a header, becomes its own pieces. */
  lemma ChunksWithoutHeader(full: string, header: string)
    requires |full| > SINGLE_VECTOR_MAX_CHARS && (header == "" || !(header + "\n" <= full))
    ensures var chunks, pieces := SplitOf(full, header), PiecesFor(full);
      |chunks| == |pieces| && forall i :: 0 <= i < |chunks| ==>
        SentAs(chunks[i], i, if header == "" then pieces[i] else header + "\n" + pieces[i])
  {
    hide PiecesFor, CapProviderInput, BodyOf;
    HeaderLeft(full, header);
  }

  /** The chunk number `i` with this text, or with what fits of it and the marker. */
  predicate SentAs(chunk: TextChunk, i: nat, text: string) {
    && chunk.index == i % 0x1_0000_0000
    && (|text| <= 8_000 ==> chunk.text == text)
    && (|text| > 8_000 ==> |chunk.text| <= 8_000 && |chunk.text| >= 28 && chunk.text[|chunk.text| - 28..] == "\n[tangleaf: input truncated]"
                           && chunk.text[..|chunk.text| - 28] <= text)
  }
}
