/** What the embedding tick of `crates/notes-ai/src/embed.rs` makes of each answer of the provider. */
module TickLaws {
  import opened AiIndex
  import opened EmbedTick
  import A = AiStore
  import S = Splitter

  /** How many chunks are sent before those of job `j`. */
  function SentBefore(jobs: seq<A.Taken>, j: nat): nat
    requires j <= |jobs|
  {
    if j == 0 then 0 else |S.SplitOf(jobs[0].text, jobs[0].header)| + SentBefore(jobs[1..], j - 1)
  }

  lemma {:induction false} SentMore(jobs: seq<A.Taken>, j: nat)
    requires j < |jobs|
    ensures SentBefore(jobs, j + 1) == SentBefore(jobs, j) + |S.SplitOf(jobs[j].text, jobs[j].header)|
  {
    hide S.SplitOf;
    if j > 0 {
      SentMore(jobs[1..], j - 1);
    }
  }

  lemma {:induction false} SentIsOffset(jobs: seq<A.Taken>, j: nat)
    requires j <= |jobs|
    ensures Offset(SplitsOf(jobs), j) == SentBefore(jobs, j)
  {
    hide S.SplitOf;
    if j > 0 {
      SentIsOffset(jobs, j - 1);
      SentMore(jobs, j - 1);
    }
  }

  /** A document of job `j` with all its chunks. */
  ghost predicate DocumentOf(jobs: seq<A.Taken>, j: nat, d: Embedded)
    requires j < |jobs|
  {
    var chunks := S.SplitOf(jobs[j].text, jobs[j].header);
    && d.content == jobs[j].content && d.hash == jobs[j].hash && |d.chunks| == |chunks|
    && forall k :: 0 <= k < |chunks| ==> d.chunks[k].index == chunks[k].index && d.chunks[k].text == chunks[k].text
  }

  /** Its vectors are those of the batch from `at` on. */
  predicate BatchVectors(d: Embedded, batch: Answer, at: nat) {
    batch.Answered? && forall k :: 0 <= k < |d.chunks| ==> at + k < |batch.embeddings| && d.chunks[k].embedding == batch.embeddings[at + k]
  }

  /** A call for one chunk that came back with its vector. */
  predicate Good(a: Answer, dimensions: nat) { a.Answered? && |a.embeddings| == 1 && |a.embeddings[0]| == dimensions }

  predicate GoodAt(each: nat -> Answer, dimensions: nat, at: nat, k: nat) { Good(each(at + k), dimensions) }

  /** Its vectors are those of its own calls. */
  predicate OwnVectors(d: Embedded, each: nat -> Answer, dimensions: nat, at: nat) {
    forall k :: 0 <= k < |d.chunks| ==> OwnVector(d, each, dimensions, at, k)
  }

  predicate OwnVector(d: Embedded, each: nat -> Answer, dimensions: nat, at: nat, k: nat) {
    GoodAt(each, dimensions, at, k) && k < |d.chunks| && d.chunks[k].embedding == each(at + k).embeddings[0]
  }

  /** One vector for each chunk sent, of the right length. */
  predicate OneEach(batch: Answer, total: nat, dimensions: nat) {
    batch.Answered? && |batch.embeddings| == total && forall e :: e in batch.embeddings ==> |e| == dimensions
  }

  lemma BatchedIs(batch: Answer, total: nat, dimensions: nat)
    ensures Batched(batch, total, dimensions) <==> OneEach(batch, total, dimensions)
  {
    if Batched(batch, total, dimensions) {
      forall e | e in batch.embeddings
        ensures |e| == dimensions
      {
        var i :| 0 <= i < |batch.embeddings| && batch.embeddings[i] == e;
      }
    }
  }

  lemma LastIsLargest(s: seq<nat>, i: nat)
    requires Rising(s) && i < |s|
    ensures if i == |s| - 1 then s[i] == s[|s| - 1] else s[i] < s[|s| - 1]
  {
  }

  /** The rising list of all numbers below `n`. */
  lemma {:induction false} Filled(s: seq<nat>, n: nat)
    requires Rising(s) && (forall j: nat :: j < n ==> j in s) && forall k :: 0 <= k < |s| ==> s[k] < n
    ensures |s| == n && forall i :: 0 <= i < n ==> s[i] == i
  {
    if n > 0 {
      assert n - 1 in s;
      var m := |s| - 1;
      var i :| 0 <= i < |s| && s[i] == n - 1;
      LastIsLargest(s, i);
      var front := s[..m];
      forall j: nat | j < n - 1
        ensures j in front
      {
        assert j in s;
        var k :| 0 <= k < |s| && s[k] == j;
        assert front[k] == j;
      }
      Filled(front, n - 1);
      assert forall k :: 0 <= k < m ==> s[k] == front[k];
    } else {
      NoneOf(s, 0);
    }
  }

  /** When the provider answers for the whole batch, every job becomes its document, in order. */
  lemma {:induction false} BatchTick(jobs: seq<A.Taken>, batch: Answer, each: nat -> Answer, dimensions: nat, documents: seq<Embedded>, failures: seq<Failure>)
    requires Settled(jobs, batch, each, dimensions, documents, failures) && OneEach(batch, SentBefore(jobs, |jobs|), dimensions)
    ensures failures == [] && |documents| == |jobs|
    ensures forall j :: 0 <= j < |jobs| ==> DocumentOf(jobs, j, documents[j]) && BatchVectors(documents[j], batch, SentBefore(jobs, j))
  {
    hide S.SplitOf, OneEach, Offset, Batched, Fails, IsDocument;
    SentIsOffset(jobs, |jobs|);
    BatchedIs(batch, SentBefore(jobs, |jobs|), dimensions);
    var splits := SplitsOf(jobs);
    var order :| FailuresFor(jobs, batch, each, dimensions, failures, order);
    var origin :| DocumentsFor(jobs, batch, each, dimensions, documents, origin);
    forall j: nat | j < |jobs|
      ensures !Fails(splits, batch, each, dimensions, j)
    {
      NoFailure(splits, batch, each, dimensions, j);
    }
    NoneOf(order, |jobs|);
    Filled(origin, |jobs|);
    forall j | 0 <= j < |jobs|
      ensures DocumentOf(jobs, j, documents[j]) && BatchVectors(documents[j], batch, SentBefore(jobs, j))
    {
      assert IsDocument(jobs, batch, each, dimensions, j, documents[j]);
      FromBatch(jobs, batch, each, dimensions, j, documents[j]);
    }
  }

  lemma NoneOf(s: seq<nat>, n: nat)
    requires (forall j: nat :: j < n ==> j !in s) && forall i :: 0 <= i < |s| ==> s[i] < n
    ensures s == []
  {
    FirstIn(s);
  }

  lemma FirstIn(s: seq<nat>)
    ensures s != [] ==> exists j: nat :: j in s && j == s[0]
  {
    assert s != [] ==> s[0] in s;
  }

  lemma NoFailure(splits: Splits, batch: Answer, each: nat -> Answer, dimensions: nat, j: nat)
    requires j < |splits| && Batched(batch, Offset(splits, |splits|), dimensions)
    ensures !Fails(splits, batch, each, dimensions, j)
  {
    hide Offset;
  }

  lemma {:induction false} FromBatch(jobs: seq<A.Taken>, batch: Answer, each: nat -> Answer, dimensions: nat, j: nat, d: Embedded)
    requires j < |jobs| && IsDocument(jobs, batch, each, dimensions, j, d) && OneEach(batch, SentBefore(jobs, |jobs|), dimensions)
    ensures DocumentOf(jobs, j, d) && BatchVectors(d, batch, SentBefore(jobs, j))
  {
    hide S.SplitOf, Offset, Batched;
    SentIsOffset(jobs, |jobs|);
    SentIsOffset(jobs, j);
    SentMore(jobs, j);
    SentRises(jobs, j + 1, |jobs|);
    BatchedIs(batch, SentBefore(jobs, |jobs|), dimensions);
  }

  lemma {:induction false} SentRises(jobs: seq<A.Taken>, i: nat, j: nat)
    requires i <= j <= |jobs|
    ensures SentBefore(jobs, i) <= SentBefore(jobs, j)
  {
    hide S.SplitOf;
    if i < j {
      SentRises(jobs, i, j - 1);
      SentMore(jobs, j - 1);
    }
  }

  /** When the whole batch is refused for now, every job fails and may be tried again. */
  lemma DeferredTick(jobs: seq<A.Taken>, batch: Answer, each: nat -> Answer, dimensions: nat, documents: seq<Embedded>, failures: seq<Failure>)
    requires Settled(jobs, batch, each, dimensions, documents, failures) && batch == Refused(false)
    ensures documents == []
    ensures forall j: nat :: j < |jobs| ==> Failure(jobs[j].content, jobs[j].hash, false) in failures
    ensures forall f :: f in failures ==> !f.terminal && exists j: nat :: j < |jobs| && f.content == jobs[j].content && f.hash == jobs[j].hash
  {
    hide S.SplitOf, Offset;
    var splits := SplitsOf(jobs);
    var order :| FailuresFor(jobs, batch, each, dimensions, failures, order);
    var origin :| DocumentsFor(jobs, batch, each, dimensions, documents, origin);
    assert forall j: nat :: j < |jobs| ==> Fails(splits, batch, each, dimensions, j);
    NoneOf(origin, |jobs|);
    forall j: nat | j < |jobs|
      ensures Failure(jobs[j].content, jobs[j].hash, false) in failures
    {
      assert j in order;
      var i :| 0 <= i < |order| && order[i] == j;
      assert failures[i] == Failure(jobs[j].content, jobs[j].hash, false);
    }
  }

  lemma GoodIsUsable(a: Answer, dimensions: nat)
    ensures Usable(a, dimensions) <==> Good(a, dimensions)
  {
  }

  /** Call `k` of the job is the first that did not come back. */
  ghost predicate FirstLost(each: nat -> Answer, dimensions: nat, at: nat, n: nat, k: nat) {
    k < n && !GoodAt(each, dimensions, at, k) && forall i: nat :: i < k ==> GoodAt(each, dimensions, at, i)
  }

  /** When each chunk is sent alone, a job whose every call came back becomes its document; any other fails, for good
      unless the first of its calls that did not come back was refused for now. */
  lemma {:induction false} EachTick(jobs: seq<A.Taken>, batch: Answer, each: nat -> Answer, dimensions: nat, documents: seq<Embedded>, failures: seq<Failure>, j: nat)
    requires Settled(jobs, batch, each, dimensions, documents, failures) && j < |jobs|
    requires !OneEach(batch, SentBefore(jobs, |jobs|), dimensions) && batch != Refused(false)
    ensures var at, n := SentBefore(jobs, j), |S.SplitOf(jobs[j].text, jobs[j].header)|;
      || ((forall k: nat :: k < n ==> GoodAt(each, dimensions, at, k))
          && exists d :: d in documents && DocumentOf(jobs, j, d) && OwnVectors(d, each, dimensions, at))
      || (exists k: nat ::
            FirstLost(each, dimensions, at, n, k) && Failure(jobs[j].content, jobs[j].hash, each(at + k) != Refused(false)) in failures)
  {
    hide S.SplitOf, OneEach, Fails, GoodAt, DocumentOf, OwnVectors, FirstLost, SentBefore, FailuresFor, DocumentsFor;
    var splits, at := SplitsOf(jobs), SentBefore(jobs, j);
    var order :| FailuresFor(jobs, batch, each, dimensions, failures, order);
    var origin :| DocumentsFor(jobs, batch, each, dimensions, documents, origin);
    if Fails(splits, batch, each, dimensions, j) {
      var f := FailureIn(jobs, batch, each, dimensions, failures, order, j);
      var k := LostCall(jobs, batch, each, dimensions, j, f.terminal);
      assert f == Failure(jobs[j].content, jobs[j].hash, each(at + k) != Refused(false));
    } else {
      var d := DocumentIn(jobs, batch, each, dimensions, documents, origin, j);
      OwnCalls(jobs, batch, each, dimensions, j, d);
    }
  }

  lemma FailureIn(jobs: seq<A.Taken>, batch: Answer, each: nat -> Answer, dimensions: nat, failures: seq<Failure>, order: seq<nat>, j: nat)
    returns (f: Failure)
    requires FailuresFor(jobs, batch, each, dimensions, failures, order) && j < |jobs| && Fails(SplitsOf(jobs), batch, each, dimensions, j)
    ensures f in failures && f.content == jobs[j].content && f.hash == jobs[j].hash
    ensures FailsAs(SplitsOf(jobs), batch, each, dimensions, j, f.terminal)
  {
    hide S.SplitOf, Fails, FailsAs;
    assert j in order;
    var i :| 0 <= i < |order| && order[i] == j;
    f := failures[i];
  }

  lemma DocumentIn(jobs: seq<A.Taken>, batch: Answer, each: nat -> Answer, dimensions: nat, documents: seq<Embedded>, origin: seq<nat>, j: nat)
    returns (d: Embedded)
    requires DocumentsFor(jobs, batch, each, dimensions, documents, origin) && j < |jobs| && !Fails(SplitsOf(jobs), batch, each, dimensions, j)
    ensures d in documents && IsDocument(jobs, batch, each, dimensions, j, d)
  {
    hide S.SplitOf, Fails, IsDocument;
    assert j in origin;
    var i :| 0 <= i < |origin| && origin[i] == j;
    d := documents[i];
  }

  lemma {:induction false} LostCall(jobs: seq<A.Taken>, batch: Answer, each: nat -> Answer, dimensions: nat, j: nat, terminal: bool) returns (k: nat)
    requires j < |jobs| && batch != Refused(false) && FailsAs(SplitsOf(jobs), batch, each, dimensions, j, terminal)
    ensures FirstLost(each, dimensions, SentBefore(jobs, j), |S.SplitOf(jobs[j].text, jobs[j].header)|, k)
    ensures terminal <==> each(SentBefore(jobs, j) + k) != Refused(false)
  {
    hide S.SplitOf, Offset, Usable, Good;
    var splits, at := SplitsOf(jobs), SentBefore(jobs, j);
    SentIsOffset(jobs, j);
    k :| FirstBadChunk(splits, each, dimensions, j, k) && terminal == Final(each(at + k));
    GoodIsUsable(each(at + k), dimensions);
    forall i: nat | i < k
      ensures GoodAt(each, dimensions, at, i)
    {
      GoodIsUsable(each(at + i), dimensions);
      assert !BadChunk(splits, each, dimensions, j, i);
    }
  }

  lemma {:induction false} OwnCalls(jobs: seq<A.Taken>, batch: Answer, each: nat -> Answer, dimensions: nat, j: nat, d: Embedded)
    requires j < |jobs| && !OneEach(batch, SentBefore(jobs, |jobs|), dimensions)
    requires IsDocument(jobs, batch, each, dimensions, j, d) && !Fails(SplitsOf(jobs), batch, each, dimensions, j)
    ensures forall k: nat :: k < |S.SplitOf(jobs[j].text, jobs[j].header)| ==> GoodAt(each, dimensions, SentBefore(jobs, j), k)
    ensures DocumentOf(jobs, j, d) && OwnVectors(d, each, dimensions, SentBefore(jobs, j))
  {
    hide S.SplitOf, OneEach, Fails, OwnVector, GoodAt;
    forall k: nat | k < |S.SplitOf(jobs[j].text, jobs[j].header)|
      ensures GoodAt(each, dimensions, SentBefore(jobs, j), k)
      ensures OwnVector(d, each, dimensions, SentBefore(jobs, j), k)
    {
      OwnCall(jobs, batch, each, dimensions, j, d, k);
    }
  }

  lemma {:induction false} OwnCall(jobs: seq<A.Taken>, batch: Answer, each: nat -> Answer, dimensions: nat, j: nat, d: Embedded, k: nat)
    requires j < |jobs| && !OneEach(batch, SentBefore(jobs, |jobs|), dimensions)
    requires IsDocument(jobs, batch, each, dimensions, j, d) && !Fails(SplitsOf(jobs), batch, each, dimensions, j)
    requires k < |S.SplitOf(jobs[j].text, jobs[j].header)|
    ensures GoodAt(each, dimensions, SentBefore(jobs, j), k) && OwnVector(d, each, dimensions, SentBefore(jobs, j), k)
  {
    hide S.SplitOf, Offset, Usable, Good, Batched, OneEach;
    var splits := SplitsOf(jobs);
    SentIsOffset(jobs, j);
    SentIsOffset(jobs, |jobs|);
    BatchedIs(batch, SentBefore(jobs, |jobs|), dimensions);
    GoodIsUsable(each(SentBefore(jobs, j) + k), dimensions);
    assert !BadChunk(splits, each, dimensions, j, k);
  }
}
