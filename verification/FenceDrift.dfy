/** When the fence state that `split_body_with_limits` in `crates/notes-ai/src/chunking.rs` carries agrees with the
    fence lines of the body. */
module FenceDrift {
  import opened SplitText
  import opened Splitter

  // ----- fence lines of two pieces of text

  /** The text after the last line feed. */
  function LastLine(s: string): string {
    if s == [] || s[|s| - 1] == '\n' then [] else LastLine(s[..|s| - 1]) + [s[|s| - 1]]
  }

  lemma {:induction false} LastLineSplits(s: string) returns (lines: string)
    ensures s == lines + LastLine(s) && Aligned(lines) && forall i :: 0 <= i < |LastLine(s)| ==> LastLine(s)[i] != '\n'
  {
    if s == [] || s[|s| - 1] == '\n' {
      lines := s;
    } else {
      lines := LastLineSplits(s[..|s| - 1]);
      assert s == s[..|s| - 1] + [s[|s| - 1]];
    }
  }

  function Count(b: bool): nat { if b then 1 else 0 }

  lemma OneLineFences(h: string)
    requires forall i :: 0 <= i < |h| ==> h[i] != '\n'
    ensures Fences(h) == Count(IsFence(h))
  {
    hide IsFence;
    if h == [] {
      assert AllBlank(h);
      BlankIsNoFence(h);
    } else {
      OneLine(h);
      SingleLine(h);
    }
  }

  /** Joining two pieces: the fence lines add up, except that the line across the seam counts once, as it is. */
  lemma FencesJoin(a: string, r: string)
    requires r != []
    ensures var h, first := LastLine(a), Line(r);
            Fences(a + r) + Count(IsFence(h)) + Count(IsFence(first)) == Fences(a) + Fences(r) + Count(IsFence(h + first))
  {
    hide IsFence, Fences, LineLen;
    var h := LastLine(a);
    var lines := LastLineSplits(a);
    FencesAppend(lines, h);
    FencesAppend(lines, h + r);
    assert a + r == lines + (h + r);
    OneLineFences(h);
    FirstLineFences(h, r);
  }

  lemma FirstLineFences(h: string, r: string)
    requires r != [] && forall i :: 0 <= i < |h| ==> h[i] != '\n'
    ensures Fences(h + r) + Count(IsFence(Line(r))) == Fences(r) + Count(IsFence(h + Line(r)))
  {
    hide IsFence, LineLen;
    var n := LineLen(r);
    var t := h + r;
    assert forall i :: 0 <= i < |h| + n - 1 ==> t[i] == if i < |h| then h[i] else r[i - |h|];
    assert |h| + n < |t| ==> t[|h| + n - 1] == r[n - 1];
    LineLenIs(t, |h| + n);
    assert t[..|h| + n] == h + r[..n] && t[|h| + n..] == r[n..];
  }

  lemma EndAppend(s: string, w: string)
    requires AllBlank(w)
    ensures EndOf(s + w) == EndOf(s)
  {
    hide Blank;
    var k, t := EndOf(s), s + w;
    assert t[k..] == s[k..] + w;
    assert k > 0 ==> t[k - 1] == s[k - 1];
    EndIs(t, k);
  }

  lemma LeadWithin(s: string)
    requires !AllBlank(s)
    ensures LeadBlanks(s) < |s| && !Blank(s[LeadBlanks(s)])
  {
    hide Blank;
    assert s[..|s|] == s;
  }

  /** White space at its end makes a line no more and no less of a fence. */
  lemma FenceBeforeBlanks(s: string, w: string)
    requires AllBlank(w)
    ensures IsFence(s + w) == IsFence(s)
  {
    hide Blank, EndOf, LeadBlanks;
    if AllBlank(s) {
      BlankIsNoFence(s);
      BothBlank(s, w);
      BlankIsNoFence(s + w);
    } else {
      var k, t := LeadBlanks(s), s + w;
      LeadWithin(s);
      assert t[..k] == s[..k] && t[k] == s[k];
      LeadIs(t, k);
      assert t[k..] == s[k..] + w;
      EndAppend(s[k..], w);
      assert (s[k..] + w)[..EndOf(s[k..])] == s[k..][..EndOf(s[k..])];
    }
  }

  lemma FencesBeforeBlanks(a: string, w: string)
    requires AllBlank(w)
    ensures Fences(a + w) == Fences(a)
  {
    hide IsFence, Fences, Blank, LineLen;
    if w == [] {
      assert a + w == a;
    } else {
      FencesJoin(a, w);
      FencesAfterBlanks(w, []);
      assert w + [] == w;
      NoFence();
      BlankIsNoFence(Line(w));
      FenceBeforeBlanks(LastLine(a), Line(w));
    }
  }

  lemma NoFence()
    ensures Fences([]) == 0
  {
  }

  // ----- what puts the carried state out of step

  /** Taking up text behind `before` miscounts the line across the seam: the line as a whole, the part already counted
      and the part now counted do not agree. */
  predicate Seam(before: string, taken: string)
    requires taken != []
  {
    var h, first := LastLine(before), Line(taken);
    (IsFence(h + first) != IsFence(h)) != IsFence(first)
  }

  predicate Within(body: string, start: nat, t: Turn) { start <= t.at < t.cut <= |body| }

  /** A turn slips when it cuts a line and drops an odd number of fence lines, or when the line across its start is
      miscounted, but not when both happen. */
  predicate Slips(body: string, start: nat, t: Turn)
    requires Within(body, start, t)
  {
    var taken := body[t.at..t.cut];
    (t.hard && Odd(Fences(taken))) != Seam(body[start..t.at], taken)
  }

  predicate InStep(body: string, start: nat, at: nat, fence: bool)
    requires start <= at <= |body|
  {
    fence == Odd(Fences(body[start..at]))
  }

  /** One turn changes whether the state is in step exactly when it slips. */
  lemma TurnKeepsStep(body: string, start: nat, t: Turn, next: nat, after: bool)
    requires Within(body, start, t) && t.cut <= next <= |body| && AllBlank(body[t.cut..next])
    requires after == (t.fence != (!t.hard && Odd(Fences(body[t.at..t.cut]))))
    ensures InStep(body, start, next, after) <==> (InStep(body, start, t.at, t.fence) != Slips(body, start, t))
  {
    hide Fences, IsFence, LastLine, LineLen, AllBlank, Blank;
    var before, taken, blanks := body[start..t.at], body[t.at..t.cut], body[t.cut..next];
    assert body[start..next] == before + taken + blanks;
    FencesBeforeBlanks(before + taken, blanks);
    FencesJoin(before, taken);
  }

  function SlipCount(body: string, start: nat, turns: seq<Turn>): nat
    requires forall t :: t in turns ==> Within(body, start, t)
  {
    if turns == [] then 0 else Count(Slips(body, start, turns[0])) + SlipCount(body, start, turns[1..])
  }

  lemma {:induction false} TurnsWithin(body: string, start: nat, p: nat, end: nat, fence: bool, min: nat, target: nat, max: nat)
    requires max > 0 && start <= p <= end <= |body|
    ensures forall t :: t in Turns(body, p, end, fence, min, target, max) ==> Within(body, start, t)
    decreases end - p
  {
    hide CutAt, LeadBlanks;
    var s := body[p..end];
    if |s| > max {
      var (k, after, hard) := CutAt(s, fence, min, target, max);
      TurnsWithin(body, start, p + k + LeadBlanks(s[k..]), end, after, min, target, max);
    }
  }

  /** The first turn, and the loop after it. */
  lemma FirstTurn(body: string, start: nat, p: nat, end: nat, fence: bool, min: nat, target: nat, max: nat) returns (next: nat, after: bool)
    requires max > 0 && start <= p <= end <= |body| && end - p > max
    ensures p < next <= end
    ensures var turns := Turns(body, p, end, fence, min, target, max);
      && turns != [] && turns[0].at == p && turns[0].fence == fence && Within(body, start, turns[0])
      && turns[1..] == Turns(body, next, end, after, min, target, max)
      && (InStep(body, start, next, after) <==> (InStep(body, start, p, fence) != Slips(body, start, turns[0])))
  {
    hide CutAt, LeadBlanks, InStep, Slips, AllBlank, Fences;
    var s := body[p..end];
    var (k, cut, hard) := CutAt(s, fence, min, target, max);
    next, after := p + k + LeadBlanks(s[k..]), cut;
    FlagAfter(s, fence, min, target, max);
    assert s[..k] == body[p..p + k] && s[k..][..LeadBlanks(s[k..])] == body[p + k..next];
    TurnKeepsStep(body, start, Turn(p, p + k, fence, hard), next, after);
  }

  /** Where the state starts in step, it is in step at a later turn exactly when the turns before that one slipped an
      even number of times; where it starts out of step, the other way round. */
  lemma {:induction false} DriftExactly(body: string, start: nat, p: nat, end: nat, fence: bool, min: nat, target: nat, max: nat, i: nat)
    requires max > 0 && start <= p <= end <= |body| && i < |Turns(body, p, end, fence, min, target, max)|
    ensures var turns := Turns(body, p, end, fence, min, target, max);
      && (forall t :: t in turns ==> Within(body, start, t)) && Within(body, start, turns[i])
      && (InStep(body, start, turns[i].at, turns[i].fence)
          <==> (InStep(body, start, p, fence) != Odd(SlipCount(body, start, turns[..i]))))
    decreases end - p
  {
    hide Turns, InStep, Slips, SlipCount, Within;
    TurnsWithin(body, start, p, end, fence, min, target, max);
    SomeTurn(body, p, end, fence, min, target, max);
    var turns := Turns(body, p, end, fence, min, target, max);
    var next, after := FirstTurn(body, start, p, end, fence, min, target, max);
    if i > 0 {
      DriftExactly(body, start, next, end, after, min, target, max, i - 1);
      assert turns[..i] == [turns[0]] + turns[1..][..i - 1];
      SlipsMore(body, start, turns[0], turns[1..][..i - 1]);
    } else {
      assert turns[..0] == [];
      NoSlips(body, start);
    }
  }

  lemma NoSlips(body: string, start: nat)
    ensures SlipCount(body, start, []) == 0
  {
  }

  lemma SomeTurn(body: string, p: nat, end: nat, fence: bool, min: nat, target: nat, max: nat)
    requires max > 0 && p <= end <= |body|
    ensures Turns(body, p, end, fence, min, target, max) != [] <==> end - p > max
  {
    hide CutAt, LeadBlanks;
  }

  lemma SlipsMore(body: string, start: nat, t: Turn, rest: seq<Turn>)
    requires Within(body, start, t) && forall u :: u in rest ==> Within(body, start, u)
    ensures (forall u :: u in [t] + rest ==> Within(body, start, u))
    ensures SlipCount(body, start, [t] + rest) == Count(Slips(body, start, t)) + SlipCount(body, start, rest)
  {
    hide Slips;
    assert ([t] + rest)[1..] == rest;
  }

  /** Over the whole split of a body: at every turn the carried state is the parity of the fence lines consumed exactly
      when the turns before it slipped an even number of times. */
  lemma InStepExactly(body: string, min: nat, target: nat, max: nat, i: nat)
    requires max > 0 && i < |BodyTurns(body, min, target, max)|
    ensures var start, turns := LeadBlanks(body), BodyTurns(body, min, target, max);
            && (forall t :: t in turns ==> Within(body, start, t)) && Within(body, start, turns[i])
            && (turns[i].fence == Odd(Fences(body[start..turns[i].at])) <==> !Odd(SlipCount(body, start, turns[..i])))
  {
    hide Turns, LeadBlanks, BodyEnd, Slips, Fences;
    var start := LeadBlanks(body);
    DriftExactly(body, start, start, BodyEnd(body), false, min, target, max, i);
    assert body[start..start] == [];
    NoFence();
  }

  // ----- the cases of a slip

  lemma {:induction false} LastLineAfter(lines: string, h: string)
    requires Aligned(lines) && forall i :: 0 <= i < |h| ==> h[i] != '\n'
    ensures LastLine(lines + h) == h
  {
    var t := lines + h;
    if h == [] {
      assert t == lines;
    } else {
      assert t[|t| - 1] == h[|h| - 1] && t[..|t| - 1] == lines + h[..|h| - 1];
      LastLineAfter(lines, h[..|h| - 1]);
    }
  }

  /** A turn that starts at the beginning of a line, after white space perhaps, slips exactly when it cuts a line and
      drops an odd number of fence lines. */
  lemma SlipAtLineStart(body: string, start: nat, t: Turn)
    requires Within(body, start, t) && AllBlank(LastLine(body[start..t.at]))
    ensures Slips(body, start, t) <==> t.hard && Odd(Fences(body[t.at..t.cut]))
  {
    hide Fences, IsFence, LastLine, LineLen, Blank, AllBlank;
    var h := LastLine(body[start..t.at]);
    BlankIsNoFence(h);
    IndentedFence(h, Line(body[t.at..t.cut]));
  }

  /** Behind a split line of which three visible characters have been seen, the seam is miscounted exactly when the rest
      of the line looks like a fence of its own. */
  lemma SeamInsideLine(before: string, taken: string)
    requires taken != [] && |Trim(LastLine(before))| >= 3
    ensures Seam(before, taken) <==> IsFence(Line(taken))
  {
    hide LastLine, LineLen;
    SameBeginning(LastLine(before), Line(taken));
  }

  lemma SameBeginning(h: string, more: string)
    requires |Trim(h)| >= 3
    ensures IsFence(h + more) == IsFence(h)
  {
    hide Blank, EndOf, LeadBlanks;
    var k, t := LeadBlanks(h), h + more;
    assert k < |h|;
    assert t[..k] == h[..k] && t[k] == h[k];
    LeadIs(t, k);
    var e := EndOf(h[k..]);
    assert t[k..] == h[k..] + more;
    EndBeyond(h[k..], more);
    assert (h[k..] + more)[..3] == h[k..][..3];
  }

  lemma {:induction false} EndBehind(t: string, i: nat)
    requires i < |t| && !Blank(t[i])
    ensures EndOf(t) > i
  {
    hide Blank;
    if Blank(t[|t| - 1]) {
      EndBehind(t[..|t| - 1], i);
    }
  }

  lemma EndBeyond(s: string, more: string)
    ensures EndOf(s + more) >= EndOf(s)
  {
    hide Blank;
    var e, t := EndOf(s), s + more;
    if e > 0 {
      assert t[e - 1] == s[e - 1];
      EndBehind(t, e - 1);
    }
  }

  lemma {:induction false} BlankLastLine(lines: string, w: string)
    requires Aligned(lines) && AllBlank(w)
    ensures AllBlank(LastLine(lines + w))
  {
    hide Blank;
    var t := lines + w;
    if w == [] {
      assert t == lines;
    } else {
      assert t[|t| - 1] == w[|w| - 1] && t[..|t| - 1] == lines + w[..|w| - 1];
      BlankLastLine(lines, w[..|w| - 1]);
    }
  }

  /** While no line has been cut, every turn starts a line, white space aside. */
  lemma {:induction false} SoftTurnsStartLines(body: string, start: nat, p: nat, end: nat, fence: bool, min: nat, target: nat, max: nat, i: nat)
    requires max > 0 && start <= p <= end <= |body| && i < |Turns(body, p, end, fence, min, target, max)|
    requires AllBlank(LastLine(body[start..p])) && NoHardCut(Turns(body, p, end, fence, min, target, max)[..i])
    ensures var t := Turns(body, p, end, fence, min, target, max)[i];
            Within(body, start, t) && AllBlank(LastLine(body[start..t.at]))
    decreases end - p
  {
    hide CutAt, LeadBlanks, Blank, LastLine, AllBlank, Turns;
    SomeTurn(body, p, end, fence, min, target, max);
    OneTurn(body, p, end, fence, min, target, max);
    var turns := Turns(body, p, end, fence, min, target, max);
    if i > 0 {
      var s := body[p..end];
      var (k, after, hard) := CutAt(s, fence, min, target, max);
      var next := p + k + LeadBlanks(s[k..]);
      assert turns[0] == Turn(p, p + k, fence, hard) && turns[0] in turns[..i];
      HardCutExactly(s, fence, min, target, max);
      assert body[start..p + k][p + k - start - 1] == s[k - 1];
      assert body[start..next] == body[start..p + k] + s[k..][..LeadBlanks(s[k..])];
      BlankLastLine(body[start..p + k], s[k..][..LeadBlanks(s[k..])]);
      var rest := Turns(body, next, end, after, min, target, max);
      assert turns == [turns[0]] + rest && rest[..i - 1] == turns[..i][1..];
      SoftTurnsStartLines(body, start, next, end, after, min, target, max, i - 1);
    }
  }

  lemma OneTurn(body: string, p: nat, end: nat, fence: bool, min: nat, target: nat, max: nat)
    requires max > 0 && p <= end <= |body| && end - p > max
    ensures var s := body[p..end];
            var (k, after, hard) := CutAt(s, fence, min, target, max);
            && Turns(body, p, end, fence, min, target, max)
               == [Turn(p, p + k, fence, hard)] + Turns(body, p + k + LeadBlanks(s[k..]), end, after, min, target, max)
            && p + k <= p + k + LeadBlanks(s[k..]) <= end
  {
    hide CutAt, LeadBlanks;
  }

  /** So at the first hard cut of a body the state falls out of step exactly when the text it takes holds an odd number
      of fence lines. */
  lemma FirstHardCut(body: string, min: nat, target: nat, max: nat, i: nat)
    requires max > 0 && i < |BodyTurns(body, min, target, max)| && NoHardCut(BodyTurns(body, min, target, max)[..i])
    ensures var start, t := LeadBlanks(body), BodyTurns(body, min, target, max)[i];
            Within(body, start, t) && (Slips(body, start, t) <==> t.hard && Odd(Fences(body[t.at..t.cut])))
  {
    hide Turns, LeadBlanks, BodyEnd, Slips, Fences, NoHardCut;
    var start := LeadBlanks(body);
    assert body[start..start] == [];
    assert AllBlank(LastLine([]));
    SoftTurnsStartLines(body, start, start, BodyEnd(body), false, min, target, max, i);
    SlipAtLineStart(body, start, BodyTurns(body, min, target, max)[i]);
  }

  // ----- both kinds of slip happen, at the limits the code uses

  const MIN := CHUNK_BODY_MIN_CHARS
  const TARGET := CHUNK_BODY_TARGET_CHARS
  const MAX := CHUNK_BODY_MAX_CHARS

  function Word(n: nat): (s: string)
    ensures |s| == n && forall i :: 0 <= i < n ==> s[i] == 'a'
  {
    seq(n, _ => 'a')
  }

  /** A turn on a text without line ends in reach: it cuts at the limit and keeps the state. */
  lemma HardTurn(body: string, p: nat, end: nat, fence: bool)
    requires p <= end <= |body| && end - p > MAX && !Blank(body[p + MAX])
    requires forall j :: p <= j < p + MAX ==> body[j] != '\n'
    ensures Turns(body, p, end, fence, MIN, TARGET, MAX)
            == [Turn(p, p + MAX, fence, true)] + Turns(body, p + MAX, end, fence, MIN, TARGET, MAX)
  {
    hide CutAt, Turns, LeadBlanks, Blank, Fences;
    var s := body[p..end];
    assert forall i :: 0 <= i < MAX ==> s[i] == body[p + i] && s[i] != '\n';
    HardCutExactly(s, fence, MIN, TARGET, MAX);
    FlagAfter(s, fence, MIN, TARGET, MAX);
    assert s[MAX..][0] == body[p + MAX] && s[MAX..][..0] == [];
    LeadIs(s[MAX..], 0);
    OneTurn(body, p, end, fence, MIN, TARGET, MAX);
  }

  /** A turn on a text with one line end in reach: it cuts there and takes up the fence lines before it. */
  lemma SoftTurn(body: string, p: nat, end: nat, fence: bool, k: nat)
    requires p <= end <= |body| && end - p > MAX && MIN <= k <= MAX && !Blank(body[p + k])
    requires forall j :: p + FALLBACK_MIN_CHUNK_CHARS - 1 <= j < p + MAX ==> (body[j] == '\n' <==> j == p + k - 1)
    ensures Turns(body, p, end, fence, MIN, TARGET, MAX)
            == [Turn(p, p + k, fence, false)]
               + Turns(body, p + k, end, fence != Odd(Fences(body[p..p + k])), MIN, TARGET, MAX)
  {
    hide CutAt, Turns, LeadBlanks, Blank, Fences;
    var s := body[p..end];
    HardCutExactly(s, fence, MIN, TARGET, MAX);
    assert forall j: nat :: LineEndIn(s, MIN, MAX, j) ==> s[j - 1] == body[p + j - 1] == '\n';
    assert s[k - 1] == body[p + k - 1] == '\n';
    assert LineEndIn(s, MIN, MAX, k);
    FlagAfter(s, fence, MIN, TARGET, MAX);
    assert s[..k] == body[p..p + k];
    assert s[k..][0] == body[p + k] && s[k..][..0] == [];
    LeadIs(s[k..], 0);
    OneTurn(body, p, end, fence, MIN, TARGET, MAX);
  }

  lemma WholeBody(body: string)
    requires body != [] && !Blank(body[0]) && !Blank(body[|body| - 1])
    ensures LeadBlanks(body) == 0 && BodyEnd(body) == |body|
  {
    hide Blank;
    assert body[..0] == [];
    LeadIs(body, 0);
    AlreadyTrimmed(body);
  }

  lemma OpeningFence(line: string)
    requires |line| >= 3 && line[..3] == "```"
    ensures IsFence(line)
  {
    assert line[0] == line[..3][0] == '`' && line[2] == line[..3][2] == '`';
    assert line[..0] == [];
    LeadIs(line, 0);
    assert line[0..] == line;
    EndBehind(line, 2);
  }

  lemma NoOpeningFence(line: string)
    requires line == [] || (!Blank(line[0]) && line[0] != '`' && line[0] != '~')
    ensures !IsFence(line)
  {
    hide Blank;
    if line != [] {
      assert line[..0] == [];
      LeadIs(line, 0);
      assert line[0..] == line;
    }
  }

  /** An opening fence on a line longer than the limit is dropped: the next turn starts as if no fence were open. */
  lemma LongFenceLineSlips()
    ensures var body := "```" + Word(3200);
            var turns := BodyTurns(body, MIN, TARGET, MAX);
            && |turns| > 1 && turns[0].hard && turns[1].at == MAX && LeadBlanks(body) == 0
            && !turns[1].fence && Odd(Fences(body[..turns[1].at]))
  {
    hide Turns, LeadBlanks, BodyEnd, Fences, IsFence, Word;
    var body := "```" + Word(3200);
    WholeBody(body);
    HardTurn(body, 0, |body|, false);
    SomeTurn(body, MAX, |body|, false, MIN, TARGET, MAX);
    StartsAt(body, MAX, |body|, false);
    var line := body[..MAX];
    assert line[..3] == "```";
    OpeningFence(line);
    OneLineFences(line);
  }

  lemma StartsAt(body: string, p: nat, end: nat, fence: bool)
    requires p <= end <= |body| && end - p > MAX
    ensures var turns := Turns(body, p, end, fence, MIN, TARGET, MAX); turns != [] && turns[0].at == p && turns[0].fence == fence
  {
    hide CutAt, LeadBlanks;
  }

  /** A long line that ends in backticks, cut just before them: the rest looks like an opening fence, and the turn after
      it starts as if one were open. */
  lemma TailThatLooksLikeAFenceSlips()
    ensures var body := Word(MAX) + "```\n" + Word(1300) + "\n" + Word(1700);
            var turns := BodyTurns(body, MIN, TARGET, MAX);
            && |turns| > 2 && turns[0].hard && !turns[1].hard && turns[2].at == MAX + 1305 && LeadBlanks(body) == 0
            && turns[2].fence && Fences(body[..turns[2].at]) == 0
  {
    hide Turns, LeadBlanks, BodyEnd, Fences, IsFence, LineLen, Word;
    var body := Word(MAX) + "```\n" + Word(1300) + "\n" + Word(1700);
    assert forall j :: 0 <= j < |body| ==> body[j] == (if MAX <= j < MAX + 3 then '`' else if j == MAX + 3 || j == MAX + 1304 then '\n' else 'a');
    WholeBody(body);
    HardTurn(body, 0, |body|, false);
    SoftTurn(body, MAX, |body|, false, 1305);
    var second := Word(1300) + "\n";
    assert |second| == 1301 && |"```\n" + second| == 1305;
    assert body == Word(MAX) + ("```\n" + second) + Word(1700);
    assert body[MAX..MAX + 1305] == "```\n" + second;
    assert body[..MAX + 1305] == (Word(MAX) + "```\n") + second;
    OneFence("```\n", second);
    OneFence(Word(MAX) + "```\n", second);
    OpeningFence("```\n");
    NoOpeningFence(Word(MAX) + "```\n");
    NoOpeningFence(second);
    StartsAt(body, MAX + 1305, |body|, true);
  }

  lemma OneFence(first: string, second: string)
    requires LineOf(first) && LineOf(second)
    ensures Fences(first + second) == Count(IsFence(first)) + Count(IsFence(second))
  {
    hide IsFence, Fences;
    FencesAppend(first, second);
    LineLenIs(first, |first|);
    LineLenIs(second, |second|);
    SingleLine(first);
    SingleLine(second);
  }

  /** One whole line. */
  predicate LineOf(s: string) { s != [] && s[|s| - 1] == '\n' && forall i :: 0 <= i < |s| - 1 ==> s[i] != '\n' }
}
