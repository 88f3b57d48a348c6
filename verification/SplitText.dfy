/** Text as `crates/notes-ai/src/chunking.rs` sees it: white space, lines, fences, and positions counted both in
    characters and in UTF-8 bytes. */
module SplitText {
  import opened Results

  // ----- white space

  /** The characters with the Unicode property White_Space. */
  predicate Blank(c: char) {
    var n := c as int;
    || 0x9 <= n <= 0xD || n == 0x20 || n == 0x85 || n == 0xA0 || n == 0x1680 || 0x2000 <= n <= 0x200A
    || n == 0x2028 || n == 0x2029 || n == 0x202F || n == 0x205F || n == 0x3000
  }

  predicate AllBlank(s: string) { forall i :: 0 <= i < |s| ==> Blank(s[i]) }

  function LeadBlanks(s: string): (k: nat)
    ensures k <= |s| && AllBlank(s[..k]) && (k < |s| ==> !Blank(s[k]))
  {
    if s != [] && Blank(s[0]) then
      var k := LeadBlanks(s[1..]);
      assert s[..k + 1] == [s[0]] + s[1..][..k];
      k + 1
    else 0
  }

  function EndOf(s: string): (k: nat)
    ensures k <= |s| && AllBlank(s[k..]) && (k > 0 ==> !Blank(s[k - 1]))
  {
    if s != [] && Blank(s[|s| - 1]) then
      var k := EndOf(s[..|s| - 1]);
      assert s[k..] == s[..|s| - 1][k..] + [s[|s| - 1]];
      k
    else |s|
  }

  lemma {:induction false} LeadIs(s: string, k: nat)
    requires k <= |s| && AllBlank(s[..k]) && (k < |s| ==> !Blank(s[k]))
    ensures LeadBlanks(s) == k
  {
    hide Blank;
    if k > 0 {
      assert s[..k][0] == s[0];
      var front := s[1..][..k - 1];
      assert forall i :: 0 <= i < |front| ==> front[i] == s[..k][i + 1];
      LeadIs(s[1..], k - 1);
    }
  }

  lemma {:induction false} EndIs(s: string, k: nat)
    requires k <= |s| && AllBlank(s[k..]) && (k > 0 ==> !Blank(s[k - 1]))
    ensures EndOf(s) == k
  {
    hide Blank;
    if k < |s| {
      var n := |s| - 1;
      assert s[k..][n - k] == s[n];
      var front := s[..n];
      assert forall i :: 0 <= i < |front[k..]| ==> front[k..][i] == s[k..][i];
      EndIs(front, k);
    }
  }

  function TrimStart(s: string): string { s[LeadBlanks(s)..] }
  function TrimEnd(s: string): string { s[..EndOf(s)] }
  function Trim(s: string): string { TrimEnd(TrimStart(s)) }

  /** No white space at either end. */
  predicate Trimmed(s: string) { s != [] ==> !Blank(s[0]) && !Blank(s[|s| - 1]) }

  lemma Regroup(a: string, b: string, c: string)
    ensures a + (b + c) == a + b + c
  {
  }

  lemma TrimEdges(s: string)
    ensures Trimmed(Trim(s)) && (Trim(s) == [] <==> AllBlank(s))
  {
    hide Blank;
    var k := LeadBlanks(s);
    var t := s[k..];
    var e := EndOf(t);
    if k < |s| {
      assert t[0] == s[k];
      assert t[0..] == t;
    } else {
      assert s[..k] == s;
    }
  }

  /** Trimming takes blanks off both ends and leaves nothing more to take. */
  lemma TrimSplits(s: string) returns (front: string, back: string)
    ensures s == front + Trim(s) + back && AllBlank(front) && AllBlank(back)
    ensures Trimmed(Trim(s)) && (Trim(s) == [] <==> AllBlank(s))
  {
    hide Blank, Trimmed, AllBlank;
    var k := LeadBlanks(s);
    var t := s[k..];
    var e := EndOf(t);
    front, back := s[..k], t[e..];
    assert s == front + t && t == t[..e] + back;
    Regroup(front, t[..e], back);
    TrimEdges(s);
  }

  // ----- bytes

  function Width(c: char): (w: nat)
    ensures 1 <= w <= 4
  {
    var n := c as int;
    if n < 0x80 then 1 else if n < 0x800 then 2 else if n < 0x10000 then 3 else 4
  }

  /** `str::len`. */
  function Bytes(s: string): (n: nat)
    ensures n >= |s|
  {
    if s == [] then 0 else Bytes(s[..|s| - 1]) + Width(s[|s| - 1])
  }

  lemma {:induction false} BytesAppend(a: string, b: string)
    ensures Bytes(a + b) == Bytes(a) + Bytes(b)
  {
    if b == [] {
      assert a + b == a;
    } else {
      BytesAppend(a, b[..|b| - 1]);
      assert (a + b)[..|a + b| - 1] == a + b[..|b| - 1];
    }
  }

  /** The number of characters before a byte position; none inside a character or past the end. */
  function CharsBefore(s: string, at: nat): Option<nat> {
    if at == Bytes(s) then Some(|s|) else if s == [] then None else CharsBefore(s[..|s| - 1], at)
  }

  lemma {:induction false} CharsBeforeBytes(s: string, k: nat)
    requires k <= |s|
    ensures CharsBefore(s, Bytes(s[..k])) == Some(k)
    ensures k < |s| ==> Bytes(s[..k]) < Bytes(s)
  {
    if k == |s| {
      assert s[..k] == s;
    } else {
      var front := s[..|s| - 1];
      assert front[..k] == s[..k];
      CharsBeforeBytes(front, k);
    }
  }

  /** `byte_index_at_char`: the byte position of a character, or the end. */
  function ByteIndexAtChar(s: string, k: nat): nat { if k < |s| then Bytes(s[..k]) else Bytes(s) }

  lemma ByteIndexIsChar(s: string, k: nat)
    ensures CharsBefore(s, ByteIndexAtChar(s, k)) == Some(if k < |s| then k else |s|)
  {
    CharsBeforeBytes(s, if k < |s| then k else |s|);
    assert s[..|s|] == s;
  }

  // ----- lines

  /** The length of the first line, with its line feed (`split_inclusive`). */
  function LineLen(s: string): (n: nat)
    requires s != []
    ensures 1 <= n <= |s| && (n < |s| ==> s[n - 1] == '\n')
    ensures forall i :: 0 <= i < n - 1 ==> s[i] != '\n'
  {
    if s[0] == '\n' || |s| == 1 then 1 else 1 + LineLen(s[1..])
  }

  lemma {:induction false} LineLenIs(s: string, n: nat)
    requires 1 <= n <= |s| && (n < |s| ==> s[n - 1] == '\n') && forall i :: 0 <= i < n - 1 ==> s[i] != '\n'
    ensures LineLen(s) == n
  {
    if n > 1 {
      assert s[0] != '\n';
      LineLenIs(s[1..], n - 1);
    }
  }

  function Line(s: string): string
    requires s != []
  {
    s[..LineLen(s)]
  }

  predicate IsFence(line: string) {
    var t := Trim(line);
    |t| >= 3 && (t[..3] == "```" || t[..3] == "~~~")
  }

  function Pipes(s: string): nat {
    if s == [] then 0 else Pipes(s[..|s| - 1]) + (if s[|s| - 1] == '|' then 1 else 0)
  }

  /** The number of fence lines. */
  function Fences(s: string): nat
    decreases |s|
  {
    if s == [] then 0 else (if IsFence(Line(s)) then 1 else 0) + Fences(s[LineLen(s)..])
  }

  predicate Aligned(s: string) { s == [] || s[|s| - 1] == '\n' }

  lemma FirstLine(a: string, b: string)
    requires a != [] && (LineLen(a) < |a| || Aligned(a))
    ensures LineLen(a + b) == LineLen(a)
  {
    LineLenIs(a + b, LineLen(a));
  }

  lemma SplitAfter(a: string, b: string, n: nat)
    requires n <= |a|
    ensures (a + b)[..n] == a[..n] && (a + b)[n..] == a[n..] + b
    ensures Aligned(a) ==> Aligned(a[n..])
  {
    assert n < |a| ==> a[n..][|a[n..]| - 1] == a[|a| - 1];
  }

  /** Whole lines before a text add their fences to it. */
  lemma {:induction false} FencesAppend(a: string, b: string)
    requires Aligned(a)
    ensures Fences(a + b) == Fences(a) + Fences(b)
    decreases |a|
  {
    hide IsFence, LineLen, Aligned;
    if a == [] {
      assert a + b == b;
    } else {
      var n := LineLen(a);
      FirstLine(a, b);
      SplitAfter(a, b, n);
      FencesAppend(a[n..], b);
    }
  }

  lemma LeadAppend(w: string, s: string)
    requires AllBlank(w)
    ensures TrimStart(w + s) == TrimStart(s)
  {
    hide Blank;
    var j := LeadBlanks(s);
    var t := w + s;
    assert t[..|w| + j] == w + s[..j] && t[|w| + j..] == s[j..];
    assert j < |s| ==> t[|w| + j] == s[j];
    LeadIs(t, |w| + j);
  }

  /** Blanks before a text hold no fence and hide none. */
  lemma {:induction false} FencesAfterBlanks(w: string, s: string)
    requires AllBlank(w)
    ensures Fences(w + s) == Fences(s)
    decreases |w|
  {
    if w == [] {
      assert w + s == s;
    } else if exists i :: 0 <= i < |w| && w[i] == '\n' {
      var n := LineLen(w);
      assert w[n - 1] == '\n';
      FirstLineWithin(w, s);
      assert (w + s)[..n] == w[..n] && (w + s)[n..] == w[n..] + s;
      BlankIsNoFence(w[..n]);
      FencesAfterBlanks(w[n..], s);
    } else if s == [] {
      assert w + s == w;
      OneLine(w);
      BlankIsNoFence(w);
    } else {
      Indented(w, s);
    }
  }

  lemma OneLine(w: string)
    requires w != [] && forall i :: 0 <= i < |w| ==> w[i] != '\n'
    ensures LineLen(w) == |w| && Line(w) == w && w[LineLen(w)..] == []
  {
  }

  lemma FirstLineWithin(w: string, s: string)
    requires w != [] && w[LineLen(w) - 1] == '\n'
    ensures LineLen(w + s) == LineLen(w)
  {
    LineLenIs(w + s, LineLen(w));
  }

  lemma BlankIsNoFence(w: string)
    requires AllBlank(w)
    ensures !IsFence(w)
  {
    var front, back := TrimSplits(w);
  }

  /** Indentation changes neither the length of the rest of the line nor whether it is a fence. */
  lemma Indented(w: string, s: string)
    requires AllBlank(w) && (forall i :: 0 <= i < |w| ==> w[i] != '\n') && s != [] && w != []
    ensures Fences(w + s) == Fences(s)
  {
    hide IsFence, LineLen;
    var n := LineLen(s);
    var t := w + s;
    LineLenIs(t, |w| + n);
    assert t[..|w| + n] == w + s[..n] && t[|w| + n..] == s[n..];
    IndentedFence(w, s[..n]);
  }

  lemma IndentedFence(w: string, s: string)
    requires AllBlank(w)
    ensures IsFence(w + s) == IsFence(s)
  {
    LeadAppend(w, s);
  }
}
