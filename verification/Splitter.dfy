/** The text splitter of `crates/notes-ai/src/chunking.rs`. */
module Splitter {
  import opened Results
  import opened SplitText

  const SINGLE_VECTOR_MAX_CHARS: nat := 2_000
  const CHUNK_BODY_MIN_CHARS: nat := 1_200
  const CHUNK_BODY_TARGET_CHARS: nat := 1_400
  const CHUNK_BODY_MAX_CHARS: nat := 1_600
  const FALLBACK_MIN_CHUNK_CHARS: nat := 64
  const MAX_PROVIDER_INPUT_CHARS: nat := 8_000
  const PROVIDER_TRUNCATION_MARKER: string := "\n[tangleaf: input truncated]"

  // ----- natural boundaries

  datatype Kind = BlankLine | StructuredLine | PlainLine

  datatype Boundary = Boundary(byteIndex: nat, charIndex: nat, kind: Kind, fenceAfter: bool)

  function KindOf(line: string, fence: bool): Kind {
    if fence || IsFence(line) || Pipes(Trim(line)) >= 2 then StructuredLine
    else if Trim(line) == [] then BlankLine
    else PlainLine
  }

  predicate Odd(n: nat) { n % 2 == 1 }

  function LineAt(value: string, at: nat): (line: string)
    requires at < |value|
    ensures 0 < |line| <= |value| - at
  {
    Line(value[at..])
  }

  /** The ends of the whole lines that fit, from position `at` on. */
  function BoundariesFrom(value: string, at: nat, byteIndex: nat, max: nat, fence: bool): seq<Boundary>
    requires at <= |value|
    decreases |value| - at
  {
    if at == |value| then []
    else
      var line := LineAt(value, at);
      if at + |line| > max then []
      else
        var after := if IsFence(line) then !fence else fence;
        [Boundary(byteIndex + Bytes(line), at + |line|, KindOf(line, fence), after)]
        + BoundariesFrom(value, at + |line|, byteIndex + Bytes(line), max, after)
  }

  /** `natural_boundaries`. */
  method NaturalBoundaries(value: string, max: nat, inCodeFence: bool) returns (boundaries: seq<Boundary>)
    ensures boundaries == BoundariesFrom(value, 0, 0, max, inCodeFence)
  {
    hide IsFence, KindOf, Bytes, LineAt;
    boundaries := [];
    var byteIndex: nat, charIndex: nat, fence := 0, 0, inCodeFence;
    while charIndex < |value|
      invariant charIndex <= |value|
      invariant boundaries + BoundariesFrom(value, charIndex, byteIndex, max, fence) == BoundariesFrom(value, 0, 0, max, inCodeFence)
    {
      var line := LineAt(value, charIndex);
      if charIndex + |line| > max {
        assert boundaries + [] == boundaries;
        return;
      }
      byteIndex := byteIndex + Bytes(line);
      charIndex := charIndex + |line|;
      var kind := KindOf(line, fence);
      if IsFence(line) {
        fence := !fence;
      }
      var b := Boundary(byteIndex, charIndex, kind, fence);
      Regrouped(boundaries, b, BoundariesFrom(value, charIndex, byteIndex, max, fence));
      boundaries := boundaries + [b];
    }
    assert boundaries + [] == boundaries;
  }

  lemma Regrouped(bs: seq<Boundary>, b: Boundary, rest: seq<Boundary>)
    ensures bs + ([b] + rest) == bs + [b] + rest
  {
  }

  /** What a boundary of `value` is: the end of a line within the limit, its byte position, and the fence
      state there. */
  ghost predicate Marks(value: string, max: nat, fence: bool, b: Boundary) {
    && 0 < b.charIndex <= |value| && b.charIndex <= max
    && (b.charIndex < |value| ==> value[b.charIndex - 1] == '\n')
    && b.byteIndex == Bytes(value[..b.charIndex])
    && b.fenceAfter == (fence != Odd(Fences(value[..b.charIndex])))
  }

  lemma LineAppended(value: string, at: nat)
    requires at < |value| && Aligned(value[..at])
    ensures var line := LineAt(value, at);
      && Bytes(value[..at + |line|]) == Bytes(value[..at]) + Bytes(line)
      && Fences(value[..at + |line|]) == Fences(value[..at]) + (if IsFence(line) then 1 else 0)
      && (at + |line| < |value| ==> value[at + |line| - 1] == '\n' && Aligned(value[..at + |line|]))
  {
    hide IsFence, Bytes, LineLen, Fences, Aligned, LineAt;
    var line := LineAt(value, at);
    LineTaken(value, at);
    BytesAppend(value[..at], line);
    FencesAppend(value[..at], line);
    SingleLine(line);
  }

  lemma LineTaken(value: string, at: nat)
    requires at < |value|
    ensures var line := LineAt(value, at);
      && line != [] && LineLen(line) == |line| && value[..at + |line|] == value[..at] + line
      && (at + |line| < |value| ==> value[at + |line| - 1] == '\n' && Aligned(value[..at + |line|]))
  {
    hide LineLen;
    var rest := value[at..];
    var line := LineAt(value, at);
    var n := |line|;
    assert forall i :: 0 <= i < n ==> line[i] == rest[i] == value[at + i];
    LineLenIs(line, n);
    assert at + n < |value| ==> value[..at + n][at + n - 1] == value[at + n - 1];
  }

  lemma SingleLine(line: string)
    requires line != [] && LineLen(line) == |line|
    ensures Fences(line) == if IsFence(line) then 1 else 0
  {
    hide IsFence, LineLen;
    assert line[..|line|] == line && line[|line|..] == [];
  }

  lemma {:induction false} BoundariesMark(value: string, at: nat, max: nat, fence: bool, now: bool)
    requires at <= |value| && (at < |value| ==> Aligned(value[..at]))
    requires now == (fence != Odd(Fences(value[..at])))
    ensures forall b :: b in BoundariesFrom(value, at, Bytes(value[..at]), max, now) ==>
              Marks(value, max, fence, b) && b.charIndex > at
    decreases |value| - at
  {
    hide IsFence, Bytes, KindOf, Fences, LineAt, Aligned;
    if at < |value| {
      LineAppended(value, at);
      var line := LineAt(value, at);
      if at + |line| <= max {
        BoundariesMark(value, at + |line|, max, fence, if IsFence(line) then !now else now);
      }
    }
  }

  lemma LineEndsBy(value: string, at: nat, k: nat)
    requires at < k <= |value| && value[k - 1] == '\n'
    ensures at + |LineAt(value, at)| <= k
  {
    assert value[at..][k - 1 - at] == '\n';
  }

  /** Every line that ends within the limit has its boundary. */
  lemma {:induction false} EveryLineEnd(value: string, at: nat, byteIndex: nat, max: nat, fence: bool, k: nat)
    requires at < k <= |value| && k <= max && value[k - 1] == '\n'
    ensures exists b :: b in BoundariesFrom(value, at, byteIndex, max, fence) && b.charIndex == k
    decreases |value| - at
  {
    hide IsFence, Bytes, KindOf, LineAt;
    LineEndsBy(value, at, k);
    var line := LineAt(value, at);
    var bs := BoundariesFrom(value, at, byteIndex, max, fence);
    if at + |line| == k {
      assert bs[0] in bs;
    } else {
      var after := if IsFence(line) then !fence else fence;
      EveryLineEnd(value, at + |line|, byteIndex + Bytes(line), max, after, k);
      var b :| b in BoundariesFrom(value, at + |line|, byteIndex + Bytes(line), max, after) && b.charIndex == k;
      assert b in bs;
    }
  }

  // ----- selection

  predicate InWindow(b: Boundary, lo: nat, hi: nat) { lo <= b.charIndex <= hi }

  function Distance(a: nat, b: nat): nat { if a < b then b - a else a - b }

  /** `min_by_key`: the first boundary of a kind in the window with the least distance. */
  function Nearest(bs: seq<Boundary>, kind: Kind, lo: nat, target: nat, hi: nat): Option<Boundary> {
    if bs == [] then None
    else
      var best, b := Nearest(bs[..|bs| - 1], kind, lo, target, hi), bs[|bs| - 1];
      if b.kind == kind && InWindow(b, lo, hi)
         && (best.None? || Distance(b.charIndex, target) < Distance(best.value.charIndex, target))
      then Some(b)
      else best
  }

  /** `max_by_key`: the last of the furthest boundaries in the window. */
  function Furthest(bs: seq<Boundary>, lo: nat, hi: nat): Option<Boundary> {
    if bs == [] then None
    else
      var best, b := Furthest(bs[..|bs| - 1], lo, hi), bs[|bs| - 1];
      if InWindow(b, lo, hi) && (best.None? || b.charIndex >= best.value.charIndex) then Some(b) else best
  }

  function Select(bs: seq<Boundary>, min: nat, target: nat, max: nat): Option<Boundary> {
    var blank := Nearest(bs, BlankLine, min, target, max);
    var structured := Nearest(bs, StructuredLine, min, target, max);
    var line := Nearest(bs, PlainLine, min, target, max);
    if blank.Some? then blank else if structured.Some? then structured else if line.Some? then line
    else Furthest(bs, FALLBACK_MIN_CHUNK_CHARS, max)
  }

  lemma {:induction false} NearestIs(bs: seq<Boundary>, kind: Kind, lo: nat, target: nat, hi: nat)
    ensures match Nearest(bs, kind, lo, target, hi)
            case Some(b) => b in bs && b.kind == kind && InWindow(b, lo, hi)
              && forall c :: c in bs && c.kind == kind && InWindow(c, lo, hi) ==> Distance(b.charIndex, target) <= Distance(c.charIndex, target)
            case None => forall c :: c in bs && c.kind == kind ==> !InWindow(c, lo, hi)
  {
    if bs != [] {
      var n := |bs| - 1;
      NearestIs(bs[..n], kind, lo, target, hi);
      assert bs == bs[..n] + [bs[n]];
    }
  }

  lemma {:induction false} FurthestIs(bs: seq<Boundary>, lo: nat, hi: nat)
    ensures match Furthest(bs, lo, hi)
            case Some(b) => b in bs && InWindow(b, lo, hi) && forall c :: c in bs && InWindow(c, lo, hi) ==> c.charIndex <= b.charIndex
            case None => forall c :: c in bs ==> !InWindow(c, lo, hi)
  {
    if bs != [] {
      var n := |bs| - 1;
      FurthestIs(bs[..n], lo, hi);
      assert bs == bs[..n] + [bs[n]];
    }
  }

  predicate Better(a: Kind, b: Kind) { (a.BlankLine? && !b.BlankLine?) || (a.StructuredLine? && b.PlainLine?) }

  /** Best kind in the window, and nearest to the target among its kind. */
  ghost predicate Preferred(bs: seq<Boundary>, min: nat, target: nat, max: nat, b: Boundary) {
    && b in bs && InWindow(b, min, max)
    && (forall c :: c in bs && InWindow(c, min, max) ==> !Better(c.kind, b.kind))
    && (forall c :: c in bs && InWindow(c, min, max) && c.kind == b.kind ==> Distance(b.charIndex, target) <= Distance(c.charIndex, target))
  }

  /** With no boundary in the window, the furthest one that leaves no fragment. */
  ghost predicate Fallback(bs: seq<Boundary>, min: nat, max: nat, b: Boundary) {
    && b in bs && InWindow(b, FALLBACK_MIN_CHUNK_CHARS, max)
    && (forall c :: c in bs ==> !InWindow(c, min, max))
    && (forall c :: c in bs && InWindow(c, FALLBACK_MIN_CHUNK_CHARS, max) ==> c.charIndex <= b.charIndex)
  }

  lemma SelectIs(bs: seq<Boundary>, min: nat, target: nat, max: nat)
    ensures match Select(bs, min, target, max)
            case Some(b) => Preferred(bs, min, target, max, b) || Fallback(bs, min, max, b)
            case None => forall c :: c in bs ==> !InWindow(c, min, max) && !InWindow(c, FALLBACK_MIN_CHUNK_CHARS, max)
  {
    hide Nearest, Furthest;
    NearestIs(bs, BlankLine, min, target, max);
    NearestIs(bs, StructuredLine, min, target, max);
    NearestIs(bs, PlainLine, min, target, max);
    FurthestIs(bs, FALLBACK_MIN_CHUNK_CHARS, max);
  }

  // ----- the split

  datatype Span = Span(lo: nat, hi: nat)

  function EndOfLast(spans: seq<Span>): nat { if spans == [] then 0 else spans[|spans| - 1].hi }

  /** The chunks are the spans of the body, in order and without overlap, and everything else up to `p` is
      white space. */
  ghost predicate Covers(body: string, chunks: seq<string>, spans: seq<Span>, p: nat) {
    && |spans| == |chunks| && EndOfLast(spans) <= p <= |body|
    && (forall i :: 0 <= i < |spans| ==>
          EndOfLast(spans[..i]) <= spans[i].lo < spans[i].hi <= |body|
          && chunks[i] == body[spans[i].lo..spans[i].hi] && AllBlank(body[EndOfLast(spans[..i])..spans[i].lo]))
    && AllBlank(body[EndOfLast(spans)..p])
  }

  predicate Sound(chunk: string, max: nat) { 0 < |chunk| <= max && Trimmed(chunk) }

  /** A turn of the loop: where it starts and where it cuts, the fence state it starts with, and whether it cuts a
      line. */
  datatype Turn = Turn(at: nat, cut: nat, fence: bool, hard: bool)

  predicate NoHardCut(turns: seq<Turn>) { forall t :: t in turns ==> !t.hard }

  /** Until the first hard cut, the carried state is the parity of the fence lines consumed. */
  ghost predicate Parity(body: string, start: nat, turns: seq<Turn>) {
    forall i :: 0 <= i < |turns| && NoHardCut(turns[..i]) ==>
      start <= turns[i].at <= |body| && turns[i].fence == Odd(Fences(body[start..turns[i].at]))
  }

  /** Each turn cuts a line exactly when no natural boundary can be selected where it stands. */
  ghost predicate Honest(body: string, end: nat, min: nat, target: nat, max: nat, turns: seq<Turn>)
    requires max > 0
  {
    forall i :: 0 <= i < |turns| ==> HonestTurn(body, end, min, target, max, turns[i])
  }

  predicate HonestTurn(body: string, end: nat, min: nat, target: nat, max: nat, t: Turn)
    requires max > 0
  {
    && t.at <= end <= |body| && end - t.at > max
    && t.hard == CutAt(body[t.at..end], t.fence, min, target, max).2
  }

  /** Whole lines, then white space only. */
  ghost predicate LinesThenBlank(s: string) { exists q :: 0 <= q <= |s| && Aligned(s[..q]) && AllBlank(s[q..]) }

  lemma CoversMore(body: string, chunks: seq<string>, spans: seq<Span>, p: nat, hi: nat, next: nat)
    requires Covers(body, chunks, spans, p) && p < hi <= next <= |body| && AllBlank(body[hi..next])
    ensures Covers(body, chunks + [body[p..hi]], spans + [Span(p, hi)], next)
  {
    hide AllBlank;
    var more := spans + [Span(p, hi)];
    forall i | 0 <= i < |more|
      ensures more[..i] == if i < |spans| then spans[..i] else spans
    {
    }
  }

  lemma ParityMore(body: string, start: nat, turns: seq<Turn>, t: Turn)
    requires Parity(body, start, turns)
    requires NoHardCut(turns) ==> start <= t.at <= |body| && t.fence == Odd(Fences(body[start..t.at]))
    ensures Parity(body, start, turns + [t])
  {
    hide NoHardCut, Fences;
    var more := turns + [t];
    forall i | 0 <= i < |more|
      ensures more[..i] == turns[..i]
    {
    }
    assert turns[..|turns|] == turns;
  }

  lemma BlankEnd(a: string, w: string)
    requires Aligned(a) && AllBlank(w)
    ensures Fences(a + w) == Fences(a) && LinesThenBlank(a + w)
  {
    hide IsFence, Blank, AllBlank;
    FencesAppend(a, w);
    FencesAfterBlanks(w, []);
    assert w + [] == w;
    assert (a + w)[..|a|] == a && (a + w)[|a|..] == w;
  }

  lemma BlankMiddle(a: string, w: string, b: string)
    requires Aligned(a) && AllBlank(w)
    ensures Fences(a + w + b) == Fences(a) + Fences(b)
  {
    hide IsFence, Blank, Fences, AllBlank;
    assert a + w + b == a + (w + b);
    FencesAppend(a, w + b);
    FencesAfterBlanks(w, b);
  }

  lemma AlignedEnd(done: string, more: string)
    requires Aligned(more) && more != []
    ensures Aligned(done + more)
  {
  }

  /** Fences of the consumed text after a line boundary and the trimmed blanks behind it. */
  lemma FencesConsumed(done: string, more: string, blanks: string)
    requires LinesThenBlank(done) && Aligned(more) && more != [] && AllBlank(blanks)
    ensures Fences(done + more + blanks) == Fences(done) + Fences(more)
    ensures LinesThenBlank(done + more + blanks)
  {
    hide IsFence, Blank, Fences, AllBlank, Aligned;
    var q :| 0 <= q <= |done| && Aligned(done[..q]) && AllBlank(done[q..]);
    assert done == done[..q] + done[q..];
    BlankEnd(done[..q], done[q..]);
    BlankMiddle(done[..q], done[q..], more);
    AlignedEnd(done, more);
    BlankEnd(done + more, blanks);
  }

  /** Trimming the text up to a cut: it starts with a visible character, so only its end is trimmed. */
  lemma ChunkOf(s: string, k: nat)
    requires 0 < k <= |s| && !Blank(s[0])
    ensures EndOf(s[..k]) <= k && Trim(s[..k]) == s[..EndOf(s[..k])] && EndOf(s[..k]) > 0 && AllBlank(s[EndOf(s[..k])..k])
  {
    hide Blank;
    var t := s[..k];
    assert t[..0] == [];
    LeadIs(t, 0);
    assert t[0..] == t;
    var e := EndOf(t);
    assert t[e..] == s[e..k];
    assert t[0] == s[0];
  }

  /** The next stretch of text starts visibly, because the whole text ends visibly. */
  lemma RestStartsVisibly(s: string, k: nat)
    requires k < |s| && !Blank(s[|s| - 1])
    ensures var tail := s[k..]; LeadBlanks(tail) < |tail| && !Blank(tail[LeadBlanks(tail)])
  {
    hide Blank;
    var tail := s[k..];
    assert tail[|tail| - 1] == s[|s| - 1];
    assert LeadBlanks(tail) == |tail| ==> tail[..LeadBlanks(tail)] == tail;
  }

  lemma SelectedBound(remaining: string, fence: bool, min: nat, target: nat, max: nat)
    requires |remaining| > max
    ensures var selected := Select(BoundariesFrom(remaining, 0, 0, max, fence), min, target, max);
            selected.Some? ==>
              (Marks(remaining, max, fence, selected.value)
               && (selected.value.charIndex >= min || selected.value.charIndex >= FALLBACK_MIN_CHUNK_CHARS))
  {
    hide Bytes, Fences, Select, BoundariesFrom, Marks;
    NothingBefore(remaining);
    BoundariesMark(remaining, 0, max, fence, fence);
    SelectIs(BoundariesFrom(remaining, 0, 0, max, fence), min, target, max);
  }

  /** Where to cut the remaining text, the fence state after it, and whether that cuts a line. */
  function CutAt(remaining: string, fence: bool, min: nat, target: nat, max: nat): (r: (nat, bool, bool))
    requires |remaining| > max > 0
    ensures 0 < r.0 <= max
  {
    SelectedBound(remaining, fence, min, target, max);
    match Select(BoundariesFrom(remaining, 0, 0, max, fence), min, target, max)
    case Some(b) => (b.charIndex, b.fenceAfter, false)
    case None => (max, fence, true)
  }

  /** The chunks of a text without surrounding white space. */
  function Chunks(remaining: string, fence: bool, min: nat, target: nat, max: nat): seq<string>
    requires max > 0
    decreases |remaining|
  {
    if |remaining| <= max then [Trim(remaining)]
    else
      var (k, after, _) := CutAt(remaining, fence, min, target, max);
      [Trim(remaining[..k])] + Chunks(TrimStart(remaining[k..]), after, min, target, max)
  }

  /** `CutAt` by byte position, as the loop finds it. */
  method Cut(remaining: string, fence: bool, min: nat, target: nat, max: nat) returns (k: nat, after: bool, hard: bool)
    requires |remaining| > max > 0
    ensures (k, after, hard) == CutAt(remaining, fence, min, target, max)
    ensures 0 < k <= max && (k >= min || k >= FALLBACK_MIN_CHUNK_CHARS || k == max)
    ensures !hard ==> remaining[k - 1] == '\n' && after == (fence != Odd(Fences(remaining[..k])))
  {
    hide Bytes, Fences, Select, BoundariesFrom;
    var boundaries := NaturalBoundaries(remaining, max, fence);
    var selected := Select(boundaries, min, target, max);
    SelectedBound(remaining, fence, min, target, max);
    var byteIndex: nat;
    if selected.None? {
      byteIndex, after, hard := ByteIndexAtChar(remaining, max), fence, true;
      ByteIndexIsChar(remaining, max);
    } else {
      var b := selected.value;
      byteIndex, after, hard := b.byteIndex, b.fenceAfter, false;
      CharsBeforeBytes(remaining, b.charIndex);
    }
    k := CharsBefore(remaining, byteIndex).value;
  }

  /** The carried state takes up the fence lines of a turn that cuts at a line end, and of no other. */
  lemma FlagAfter(remaining: string, fence: bool, min: nat, target: nat, max: nat)
    requires |remaining| > max > 0
    ensures var (k, after, hard) := CutAt(remaining, fence, min, target, max);
            after == (fence != (!hard && Odd(Fences(remaining[..k]))))
  {
    hide Bytes, Fences, Select, BoundariesFrom;
    SelectedBound(remaining, fence, min, target, max);
  }

  /** Does a line end at `j`, where a cut is acceptable? */
  predicate LineEndIn(remaining: string, min: nat, max: nat, j: nat) {
    0 < j <= |remaining| && (min <= j <= max || FALLBACK_MIN_CHUNK_CHARS <= j <= max) && remaining[j - 1] == '\n'
  }

  /** A turn cuts a line exactly when no line ends where a cut is acceptable; otherwise it cuts at such a place. */
  lemma HardCutExactly(remaining: string, fence: bool, min: nat, target: nat, max: nat)
    requires |remaining| > max > 0
    ensures var (k, _, hard) := CutAt(remaining, fence, min, target, max);
            && (hard <==> forall j: nat :: !LineEndIn(remaining, min, max, j))
            && (if hard then k == max else LineEndIn(remaining, min, max, k))
  {
    hide Bytes, Fences, Select, BoundariesFrom;
    SelectedBound(remaining, fence, min, target, max);
    var bs := BoundariesFrom(remaining, 0, 0, max, fence);
    SelectIs(bs, min, target, max);
    if Select(bs, min, target, max).None? {
      forall j: nat
        ensures !LineEndIn(remaining, min, max, j)
      {
        if LineEndIn(remaining, min, max, j) {
          EveryLineEnd(remaining, 0, 0, max, fence, j);
        }
      }
    } else {
      assert LineEndIn(remaining, min, max, Select(bs, min, target, max).value.charIndex);
    }
  }

  /** The turns of the loop on the text between `p` and `end`. */
  function Turns(body: string, p: nat, end: nat, fence: bool, min: nat, target: nat, max: nat): seq<Turn>
    requires max > 0 && p <= end <= |body|
    decreases end - p
  {
    var s := body[p..end];
    if |s| <= max then []
    else
      var (k, after, hard) := CutAt(s, fence, min, target, max);
      [Turn(p, p + k, fence, hard)] + Turns(body, p + k + LeadBlanks(s[k..]), end, after, min, target, max)
  }

  /** Where the trimmed body ends. */
  function BodyEnd(body: string): (end: nat)
    ensures LeadBlanks(body) <= end <= |body|
  {
    LeadBlanks(body) + |Trim(body)|
  }

  /** The turns of the loop on a whole body. */
  function BodyTurns(body: string, min: nat, target: nat, max: nat): seq<Turn>
    requires max > 0
  {
    Turns(body, LeadBlanks(body), BodyEnd(body), false, min, target, max)
  }

  lemma TurnsStep(done: seq<Turn>, body: string, p: nat, end: nat, fence: bool, min: nat, target: nat, max: nat)
    requires max > 0 && p <= end <= |body| && end - p > max
    ensures var s := body[p..end];
            var (k, after, hard) := CutAt(s, fence, min, target, max);
            done + Turns(body, p, end, fence, min, target, max)
            == done + [Turn(p, p + k, fence, hard)] + Turns(body, p + k + LeadBlanks(s[k..]), end, after, min, target, max)
  {
    hide CutAt, LeadBlanks;
  }

  lemma NothingBefore(s: string)
    ensures Bytes(s[..0]) == 0 && Fences(s[..0]) == 0 && Aligned(s[..0])
  {
    assert s[..0] == [];
  }

  /** One turn on the text between `p` and `end`, cut after `k` characters. */
  lemma TurnAround(body: string, p: nat, end: nat, k: nat)
    requires p < end <= |body| && 0 < k < end - p && !Blank(body[p]) && !Blank(body[end - 1])
    ensures var s := body[p..end];
            var hi, next := p + EndOf(s[..k]), p + k + LeadBlanks(s[k..]);
      && p < hi <= p + k <= next < end && Trim(s[..k]) == body[p..hi]
      && Sound(body[p..hi], k) && AllBlank(body[hi..next]) && AllBlank(body[p + k..next])
      && TrimStart(s[k..]) == body[next..end] && !Blank(body[next])
  {
    hide Blank, AllBlank, EndOf, LeadBlanks;
    var s := body[p..end];
    assert s[0] == body[p] && s[|s| - 1] == body[end - 1];
    ChunkOf(s, k);
    TrimEdges(s[..k]);
    RestStartsVisibly(s, k);
    Pieces(body, p, end, k, EndOf(s[..k]), LeadBlanks(s[k..]));
  }

  /** Where the loop stands: everything before `p` is dealt with, the rest up to `end` remains. */
  ghost predicate Progress(body: string, start: nat, end: nat, min: nat, target: nat, max: nat, p: nat, fence: bool,
                           chunks: seq<string>, spans: seq<Span>, turns: seq<Turn>)
    requires max > 0
  {
    && start <= p < end <= |body| && !Blank(body[p]) && !Blank(body[end - 1])
    && (forall c :: c in chunks ==> Sound(c, max))
    && Covers(body, chunks, spans, p) && |turns| == |chunks|
    && (FALLBACK_MIN_CHUNK_CHARS <= min <= max ==> |chunks| * FALLBACK_MIN_CHUNK_CHARS <= p)
    && Parity(body, start, turns) && Honest(body, end, min, target, max, turns)
    && (NoHardCut(turns) ==> fence == Odd(Fences(body[start..p])) && LinesThenBlank(body[start..p]))
  }

  lemma Advance(body: string, start: nat, end: nat, min: nat, target: nat, max: nat, p: nat, fence: bool, chunks: seq<string>,
                spans: seq<Span>, turns: seq<Turn>, k: nat, after: bool, hard: bool)
    requires max > 0 && Progress(body, start, end, min, target, max, p, fence, chunks, spans, turns)
    requires 0 < k <= max < end - p && (k >= min || k >= FALLBACK_MIN_CHUNK_CHARS || k == max)
    requires hard == CutAt(body[p..end], fence, min, target, max).2
    requires !hard ==> body[p + k - 1] == '\n' && after == (fence != Odd(Fences(body[p..p + k])))
    ensures var s := body[p..end];
            var hi, next := p + EndOf(s[..k]), p + k + LeadBlanks(s[k..]);
      && p < hi <= next < end && TrimStart(s[k..]) == body[next..end]
      && Progress(body, start, end, min, target, max, next, after, chunks + [Trim(s[..k])], spans + [Span(p, hi)],
                  turns + [Turn(p, p + k, fence, hard)])
  {
    hide Blank, Fences, Covers, Parity, NoHardCut, AllBlank, EndOf, LeadBlanks, Trimmed, LinesThenBlank, Trim, TrimStart, CutAt;
    var s := body[p..end];
    TurnAround(body, p, end, k);
    var hi, next := p + EndOf(s[..k]), p + k + LeadBlanks(s[k..]);
    CoversMore(body, chunks, spans, p, hi, next);
    ParityMore(body, start, turns, Turn(p, p + k, fence, hard));
    FenceStep(body, start, p, k, next, turns, Turn(p, p + k, fence, hard), after);
  }

  /** `split_body_with_limits`. */
  method SplitBody(body: string, min: nat, target: nat, max: nat)
    returns (chunks: seq<string>, ghost spans: seq<Span>, ghost turns: seq<Turn>)
    requires max > 0
    ensures AllBlank(body) ==> chunks == [""]
    ensures !AllBlank(body) ==> chunks != [] && (forall c :: c in chunks ==> Sound(c, max)) && Covers(body, chunks, spans, |body|)
    ensures !AllBlank(body) && FALLBACK_MIN_CHUNK_CHARS <= min <= max ==> |chunks| <= |body| / FALLBACK_MIN_CHUNK_CHARS + 1
    ensures Parity(body, LeadBlanks(body), turns)
    ensures !AllBlank(body) ==> chunks == Chunks(Trim(body), false, min, target, max)
    ensures !AllBlank(body) ==> |turns| == |chunks| - 1 && Honest(body, BodyEnd(body), min, target, max, turns)
    ensures !AllBlank(body) ==> turns == BodyTurns(body, min, target, max)
  {
    hide CutAt, Chunks, Turns, Honest, Blank, Fences, Progress, Parity, Covers, Select, BoundariesFrom, AllBlank, EndOf, LeadBlanks, Sound, Trim, TrimStart,
         Odd, Trimmed;
    chunks, spans, turns := [], [], [];
    NoTurns(body);
    TrimEdges(body);
    if Trim(body) == [] {
      return [""], [], [];
    }
    ghost var start := LeadBlanks(body);
    var remaining := Trim(body);
    ghost var end := start + |remaining|;
    var fence := false;
    ghost var p := start;
    TrimPlace(body);
    Begin(body, start, end, min, target, max);
    while |remaining| > max
      invariant start <= p < end <= |body| && remaining == body[p..end]
      invariant Progress(body, start, end, min, target, max, p, fence, chunks, spans, turns)
      invariant chunks + Chunks(remaining, fence, min, target, max) == Chunks(Trim(body), false, min, target, max)
      invariant turns + Turns(body, p, end, fence, min, target, max) == Turns(body, start, end, false, min, target, max)
      decreases |remaining|
    {
      var k, after, hard := Cut(remaining, fence, min, target, max);
      var chunk, tail := remaining[..k], remaining[k..];
      FrontOf(body, p, end, k);
      ChunksStep(chunks, remaining, fence, min, target, max);
      TurnsStep(turns, body, p, end, fence, min, target, max);
      Advance(body, start, end, min, target, max, p, fence, chunks, spans, turns, k, after, hard);
      chunks := chunks + [Trim(chunk)];
      spans := spans + [Span(p, p + EndOf(chunk))];
      turns := turns + [Turn(p, p + k, fence, hard)];
      p := p + k + LeadBlanks(tail);
      remaining := TrimStart(tail);
      fence := after;
    }
    Finish(body, start, end, min, target, max, p, fence, chunks, spans, turns);
    LastStep(remaining, fence, min, target, max);
    NoTurn(body, p, end, fence, min, target, max);
    chunks := chunks + [Trim(remaining)];
    spans := spans + [Span(p, end)];
  }

  lemma ChunksStep(done: seq<string>, remaining: string, fence: bool, min: nat, target: nat, max: nat)
    requires |remaining| > max > 0
    ensures var (k, after, _) := CutAt(remaining, fence, min, target, max);
            done + Chunks(remaining, fence, min, target, max)
            == done + [Trim(remaining[..k])] + Chunks(TrimStart(remaining[k..]), after, min, target, max)
  {
    hide CutAt;
  }

  lemma LastStep(remaining: string, fence: bool, min: nat, target: nat, max: nat)
    requires |remaining| <= max && max > 0
    ensures Chunks(remaining, fence, min, target, max) == [Trim(remaining)]
  {
  }

  lemma NoTurn(body: string, p: nat, end: nat, fence: bool, min: nat, target: nat, max: nat)
    requires max > 0 && p <= end <= |body| && end - p <= max
    ensures Turns(body, p, end, fence, min, target, max) == []
  {
  }

  lemma FrontOf(body: string, p: nat, end: nat, k: nat)
    requires p < end <= |body| && 0 < k <= end - p
    ensures body[p..end][..k] == body[p..p + k] && body[p..end][k - 1] == body[p + k - 1]
  {
  }

  lemma Begin(body: string, start: nat, end: nat, min: nat, target: nat, max: nat)
    requires max > 0 && start < end <= |body| && AllBlank(body[..start]) && !Blank(body[start]) && !Blank(body[end - 1])
    ensures Progress(body, start, end, min, target, max, start, false, [], [], [])
  {
    hide Blank, Fences, Covers, AllBlank, LinesThenBlank;
    NoCover(body, start);
    NoFences(body, start);
  }

  lemma Finish(body: string, start: nat, end: nat, min: nat, target: nat, max: nat, p: nat, fence: bool, chunks: seq<string>,
               spans: seq<Span>, turns: seq<Turn>)
    requires max > 0 && Progress(body, start, end, min, target, max, p, fence, chunks, spans, turns)
    requires end - p <= max && AllBlank(body[end..|body|])
    ensures var all := chunks + [Trim(body[p..end])];
      && (forall c :: c in all ==> Sound(c, max)) && Covers(body, all, spans + [Span(p, end)], |body|)
      && (FALLBACK_MIN_CHUNK_CHARS <= min <= max ==> |all| <= |body| / FALLBACK_MIN_CHUNK_CHARS + 1)
      && Parity(body, start, turns) && Honest(body, end, min, target, max, turns) && |turns| == |all| - 1
  {
    hide CutAt, Blank, Fences, Covers, AllBlank, LinesThenBlank, Parity, NoHardCut, Trim;
    LastChunk(body, p, end, max);
    CoversMore(body, chunks, spans, p, end, |body|);
  }

  lemma LastChunk(body: string, p: nat, end: nat, max: nat)
    requires p < end <= |body| && end - p <= max && !Blank(body[p]) && !Blank(body[end - 1])
    ensures Trim(body[p..end]) == body[p..end] && Sound(body[p..end], max)
  {
    hide Blank;
    var s := body[p..end];
    assert s[0] == body[p] && s[|s| - 1] == body[end - 1];
    AlreadyTrimmed(s);
  }

  lemma NoTurns(body: string)
    ensures Parity(body, LeadBlanks(body), [])
  {
  }

  lemma TrimPlace(body: string)
    requires Trim(body) != []
    ensures var start := LeadBlanks(body);
            var end := start + |Trim(body)|;
            start < end <= |body| && Trim(body) == body[start..end] && AllBlank(body[..start]) && AllBlank(body[end..|body|])
            && !Blank(body[start]) && !Blank(body[end - 1])
  {
    hide Blank, AllBlank, LeadBlanks, EndOf;
    var start := LeadBlanks(body);
    var t := body[start..];
    var e := EndOf(t);
    SliceOfSlice(body, start, |body|, 0, e);
    SliceOfSlice(body, start, |body|, e, |t|);
    assert t == body[start..|body|] && t[..e] == t[0..e] && t[e..] == t[e..|t|];
    assert t[e - 1] == body[start + e - 1];
  }

  lemma NoCover(body: string, start: nat)
    requires start <= |body| && AllBlank(body[..start])
    ensures Covers(body, [], [], start)
  {
  }

  lemma NoFences(body: string, start: nat)
    requires start <= |body|
    ensures Fences(body[start..start]) == 0 && LinesThenBlank(body[start..start]) && NoHardCut([])
  {
    var s := body[start..start];
    assert s == [] && s[..0] == [] && s[0..] == [];
  }

  lemma AlreadyTrimmed(s: string)
    requires s != [] && !Blank(s[0]) && !Blank(s[|s| - 1])
    ensures Trim(s) == s
  {
    hide Blank;
    assert s[..0] == [];
    LeadIs(s, 0);
    assert s[0..] == s;
    assert s[|s|..] == [] && s[..|s|] == s;
    EndIs(s, |s|);
  }

  lemma Pieces(body: string, p: nat, end: nat, k: nat, e: nat, skip: nat)
    requires p < end <= |body|
    requires var s := body[p..end]; e <= k <= |s| && k + skip <= |s| && AllBlank(s[e..k]) && AllBlank(s[k..][..skip])
    ensures body[p..end][..e] == body[p..p + e]
    ensures AllBlank(body[p + e..p + k + skip]) && AllBlank(body[p + k..p + k + skip])
    ensures body[p..end][k..][skip..] == body[p + k + skip..end]
  {
    hide Blank, AllBlank;
    var s := body[p..end];
    var x, y := body[p + e..p + k], body[p + k..p + k + skip];
    SliceOfSlice(body, p, end, e, k);
    SliceOfSlice(body, p, end, k, k + skip);
    assert s[k..][..skip] == s[k..k + skip];
    assert body[p + e..p + k + skip] == x + y;
    BothBlank(x, y);
  }

  lemma SliceOfSlice(s: string, p: nat, end: nat, i: nat, j: nat)
    requires p <= end <= |s| && i <= j <= end - p
    ensures s[p..end][i..j] == s[p + i..p + j]
  {
    var a, b := s[p..end][i..j], s[p + i..p + j];
    assert |a| == |b| && forall n :: 0 <= n < |a| ==> a[n] == s[p + i + n] == b[n];
  }

  lemma BothBlank(x: string, y: string)
    requires AllBlank(x) && AllBlank(y)
    ensures AllBlank(x + y)
  {
    hide Blank;
  }

  lemma FenceStep(body: string, start: nat, p: nat, k: nat, next: nat, turns: seq<Turn>, t: Turn, after: bool)
    requires start <= p < p + k <= next <= |body| && AllBlank(body[p + k..next])
    requires NoHardCut(turns) ==> t.fence == Odd(Fences(body[start..p])) && LinesThenBlank(body[start..p])
    requires !t.hard ==> body[p + k - 1] == '\n' && after == (t.fence != Odd(Fences(body[p..p + k])))
    ensures NoHardCut(turns + [t]) ==> after == Odd(Fences(body[start..next])) && LinesThenBlank(body[start..next])
  {
    hide Fences, LinesThenBlank, Blank;
    if NoHardCut(turns + [t]) {
      assert t in turns + [t] && forall u :: u in turns ==> u in turns + [t];
      var done, more, blanks := body[start..p], body[p..p + k], body[p + k..next];
      FencesConsumed(done, more, blanks);
      assert body[start..next] == done + more + blanks;
    }
  }

  // ----- provider input

  /** `cap_provider_input`: never longer than the limit; a longer input keeps what fits before the marker, less the
      white space at its end. */
  function CapProviderInput(input: string): (r: string)
    ensures |r| <= MAX_PROVIDER_INPUT_CHARS
    ensures |input| <= MAX_PROVIDER_INPUT_CHARS ==> r == input
    ensures |input| > MAX_PROVIDER_INPUT_CHARS ==>
              exists k: nat :: Kept(input, MAX_PROVIDER_INPUT_CHARS - |PROVIDER_TRUNCATION_MARKER|, k)
                               && r == input[..k] + PROVIDER_TRUNCATION_MARKER
  {
    if |input| <= MAX_PROVIDER_INPUT_CHARS then input
    else
      var content := MAX_PROVIDER_INPUT_CHARS - |PROVIDER_TRUNCATION_MARKER|;
      ByteIndexIsChar(input, content);
      var front := input[..CharsBefore(input, ByteIndexAtChar(input, content)).value];
      assert front[EndOf(front)..] == input[EndOf(front)..content];
      assert Kept(input, content, EndOf(front)) && TrimEnd(front) == input[..EndOf(front)];
      TrimEnd(front) + PROVIDER_TRUNCATION_MARKER
  }

  /** The first `k` characters are the first `n` without the white space at their end. */
  predicate Kept(input: string, n: nat, k: nat) {
    k <= n <= |input| && AllBlank(input[k..n]) && (k > 0 ==> !Blank(input[k - 1]))
  }

  datatype TextChunk = TextChunk(index: nat, text: string)

  /** The text under its header, when the header really is its first line. */
  function BodyOf(full: string, header: string): string {
    if header == "" then full
    else if header <= full && |full| > |header| && full[|header|] == '\n' then full[|header| + 1..]
    else full
  }

  function WithHeader(header: string, piece: string): string {
    if header == "" then piece else header + "\n" + piece
  }

  const U32: nat := 0x1_0000_0000

  /** One chunk for each piece, numbered in 32 bits. */
  predicate Packed(header: string, pieces: seq<string>, chunks: seq<TextChunk>) {
    |chunks| == |pieces| &&
    forall i :: 0 <= i < |chunks| ==> chunks[i] == TextChunk(i % U32, CapProviderInput(WithHeader(header, pieces[i])))
  }

  method PackPieces(header: string, pieces: seq<string>) returns (chunks: seq<TextChunk>)
    ensures Packed(header, pieces, chunks)
  {
    hide CapProviderInput, WithHeader;
    chunks := [];
    for i := 0 to |pieces|
      invariant |chunks| == i
      invariant forall j :: 0 <= j < i ==> chunks[j] == TextChunk(j % U32, CapProviderInput(WithHeader(header, pieces[j])))
    {
      chunks := chunks + [TextChunk(i % U32, CapProviderInput(WithHeader(header, pieces[i])))];
    }
  }

  /** The chunks are the visible pieces of the body, in order, under the header. */
  ghost predicate PiecesOf(body: string, header: string, chunks: seq<TextChunk>) {
    exists pieces, spans ::
      && Covers(body, pieces, spans, |body|) && (forall p :: p in pieces ==> Sound(p, CHUNK_BODY_MAX_CHARS))
      && pieces == Chunks(Trim(body), false, CHUNK_BODY_MIN_CHARS, CHUNK_BODY_TARGET_CHARS, CHUNK_BODY_MAX_CHARS)
      && Packed(header, pieces, chunks)
  }

  /** The pieces a body is split into. */
  function PiecesFor(body: string): seq<string> {
    if AllBlank(body) then [""]
    else Chunks(Trim(body), false, CHUNK_BODY_MIN_CHARS, CHUNK_BODY_TARGET_CHARS, CHUNK_BODY_MAX_CHARS)
  }

  function PackedPieces(header: string, pieces: seq<string>): (chunks: seq<TextChunk>)
    ensures Packed(header, pieces, chunks)
  {
    seq(|pieces|, i requires 0 <= i < |pieces| => TextChunk(i % U32, CapProviderInput(WithHeader(header, pieces[i]))))
  }

  function SplitOf(full: string, header: string): seq<TextChunk> {
    if |full| <= SINGLE_VECTOR_MAX_CHARS then [TextChunk(0, full)]
    else PackedPieces(header, PiecesFor(BodyOf(full, header)))
  }

  /** `split_for_embedding`: at least one chunk, numbered from zero in 32 bits, each within the provider's
      limit; short text stays whole, long text becomes the pieces of its body under the header. */
  method SplitForEmbedding(full: string, header: string) returns (chunks: seq<TextChunk>)
    ensures chunks == SplitOf(full, header)
    ensures chunks != [] && |chunks| <= |full| / FALLBACK_MIN_CHUNK_CHARS + 1
    ensures forall i :: 0 <= i < |chunks| ==> chunks[i].index == i % U32 && |chunks[i].text| <= MAX_PROVIDER_INPUT_CHARS
    ensures |full| <= SINGLE_VECTOR_MAX_CHARS ==> chunks == [TextChunk(0, full)]
    ensures |full| > SINGLE_VECTOR_MAX_CHARS && !AllBlank(BodyOf(full, header)) ==> PiecesOf(BodyOf(full, header), header, chunks)
  {
    hide Covers, AllBlank, Sound, Parity, CapProviderInput, Blank, WithHeader, PiecesOf, Chunks, Trim, Honest, PackedPieces;
    if |full| <= SINGLE_VECTOR_MAX_CHARS {
      return [TextChunk(0, CapProviderInput(full))];
    }
    var body := BodyOf(full, header);
    var pieces, spans, turns := SplitBody(body, CHUNK_BODY_MIN_CHARS, CHUNK_BODY_TARGET_CHARS, CHUNK_BODY_MAX_CHARS);
    chunks := PackPieces(header, pieces);
    NoLonger(|body|, |full|);
    PackedOneWay(header, pieces, chunks, PackedPieces(header, pieces));
    if !AllBlank(body) {
      ArePieces(body, header, pieces, spans, chunks);
    }
  }

  lemma PackedOneWay(header: string, pieces: seq<string>, a: seq<TextChunk>, b: seq<TextChunk>)
    requires Packed(header, pieces, a) && Packed(header, pieces, b)
    ensures a == b
  {
    hide CapProviderInput, WithHeader;
  }

  lemma ArePieces(body: string, header: string, pieces: seq<string>, spans: seq<Span>, chunks: seq<TextChunk>)
    requires Covers(body, pieces, spans, |body|) && (forall p :: p in pieces ==> Sound(p, CHUNK_BODY_MAX_CHARS))
    requires pieces == Chunks(Trim(body), false, CHUNK_BODY_MIN_CHARS, CHUNK_BODY_TARGET_CHARS, CHUNK_BODY_MAX_CHARS)
    requires Packed(header, pieces, chunks)
    ensures PiecesOf(body, header, chunks)
  {
    hide Covers, Sound, Packed, Chunks, Trim;
  }

  lemma NoLonger(a: nat, b: nat)
    requires a <= b
    ensures a / FALLBACK_MIN_CHUNK_CHARS <= b / FALLBACK_MIN_CHUNK_CHARS
  {
  }
}
