/** The embedding tick of `crates/notes-ai/src/embed.rs`: taken jobs become embedded documents or failures. */
module EmbedTick {
  import opened AiIndex
  import A = AiStore
  import S = Splitter

  type Splits = seq<seq<S.TextChunk>>

  /** A chunk of a job on its way to the provider. */
  datatype Prepared = Prepared(job: nat, chunk: S.TextChunk)

  /** What one provider call came to. */
  datatype Answer = Answered(embeddings: seq<Embedding>) | Refused(terminal: bool)

  /** A job for `record_failure`, and whether it must not be retried. */
  datatype Failure = Failure(content: Uuid, hash: string, terminal: bool)

  // ----- preparing

  /** Where the chunks of job `j` start among all prepared chunks. */
  function Offset(splits: Splits, j: nat): nat
    requires j <= |splits|
  {
    if j == 0 then 0 else Offset(splits, j - 1) + |splits[j - 1]|
  }

  /** If prepared chunk `i` falls to job `j`, it is the chunk of that job at that place. */
  predicate Holds(splits: Splits, prepared: seq<Prepared>, j: nat, i: nat)
    requires j < |splits|
  {
    Offset(splits, j) <= i < Offset(splits, j) + |splits[j]| ==>
      i < |prepared| && prepared[i] == Prepared(j, splits[j][i - Offset(splits, j)])
  }

  /** The chunks of all jobs, job after job. */
  ghost predicate Flattened(splits: Splits, prepared: seq<Prepared>) {
    |prepared| == Offset(splits, |splits|) && forall j: nat, i: nat :: j < |splits| ==> Holds(splits, prepared, j, i)
  }

  lemma {:induction false} OffsetOfFront(splits: Splits, more: seq<S.TextChunk>, j: nat)
    requires j <= |splits|
    ensures Offset(splits + [more], j) == Offset(splits, j)
  {
    if j > 0 {
      OffsetOfFront(splits, more, j - 1);
    }
  }

  lemma {:induction false} OffsetsRise(splits: Splits, i: nat, j: nat)
    requires i <= j <= |splits|
    ensures Offset(splits, i) <= Offset(splits, j)
  {
    if i < j {
      OffsetsRise(splits, i, j - 1);
    }
  }

  method Tag(job: nat, chunks: seq<S.TextChunk>) returns (tagged: seq<Prepared>)
    ensures |tagged| == |chunks| && forall k :: 0 <= k < |chunks| ==> tagged[k] == Prepared(job, chunks[k])
  {
    tagged := [];
    for k := 0 to |chunks|
      invariant |tagged| == k && forall i :: 0 <= i < k ==> tagged[i] == Prepared(job, chunks[i])
    {
      tagged := tagged + [Prepared(job, chunks[k])];
    }
  }

  lemma HoldsFront(splits: Splits, prepared: seq<Prepared>, chunks: seq<S.TextChunk>, tagged: seq<Prepared>, j: nat, i: nat)
    requires Flattened(splits, prepared) && j < |splits|
    ensures Holds(splits + [chunks], prepared + tagged, j, i)
  {
    hide Offset;
    OffsetOfFront(splits, chunks, j);
    OffsetStep(splits, j);
    OffsetsRise(splits, j + 1, |splits|);
    assert Holds(splits, prepared, j, i);
  }

  lemma HoldsBack(splits: Splits, prepared: seq<Prepared>, chunks: seq<S.TextChunk>, tagged: seq<Prepared>, i: nat)
    requires |prepared| == Offset(splits, |splits|) && |tagged| == |chunks|
    requires forall k :: 0 <= k < |chunks| ==> tagged[k] == Prepared(|splits|, chunks[k])
    ensures Holds(splits + [chunks], prepared + tagged, |splits|, i)
  {
    hide Offset;
    OffsetOfFront(splits, chunks, |splits|);
    if |prepared| <= i < |prepared| + |chunks| {
      assert (prepared + tagged)[i] == tagged[i - |prepared|];
    }
  }

  lemma FlattenMore(splits: Splits, prepared: seq<Prepared>, chunks: seq<S.TextChunk>, tagged: seq<Prepared>)
    requires Flattened(splits, prepared) && |tagged| == |chunks|
    requires forall k :: 0 <= k < |chunks| ==> tagged[k] == Prepared(|splits|, chunks[k])
    ensures Flattened(splits + [chunks], prepared + tagged)
  {
    hide Offset;
    var more, all, n := splits + [chunks], prepared + tagged, |splits|;
    OffsetOfFront(splits, chunks, n);
    OffsetStep(more, n);
    assert more[n] == chunks && |more| == n + 1 && |all| == Offset(more, n) + |chunks|;
    forall j: nat, i: nat | j < |more|
      ensures Holds(more, all, j, i)
    {
      if j < n {
        HoldsFront(splits, prepared, chunks, tagged, j, i);
      } else {
        HoldsBack(splits, prepared, chunks, tagged, i);
      }
    }
  }

  /** The chunks of every job, as the splitter makes them. */
  function SplitsOf(jobs: seq<A.Taken>): (s: Splits)
    ensures |s| == |jobs| && forall j :: 0 <= j < |jobs| ==> s[j] == S.SplitOf(jobs[j].text, jobs[j].header)
  {
    seq(|jobs|, j requires 0 <= j < |jobs| => S.SplitOf(jobs[j].text, jobs[j].header))
  }

  /** Each job has at least one chunk, numbered from zero. */
  ghost predicate Split(jobs: seq<A.Taken>, splits: Splits) {
    |splits| == |jobs| &&
    forall j :: 0 <= j < |splits| ==> splits[j] != [] && forall k :: 0 <= k < |splits[j]| ==> splits[j][k].index == k
  }

  /** The text of a job fits the 32-bit numbering of its chunks. */
  predicate Indexable(j: A.Taken) { |j.text| / S.FALLBACK_MIN_CHUNK_CHARS + 1 <= S.U32 }

  method Prepare(jobs: seq<A.Taken>) returns (prepared: seq<Prepared>)
    requires forall j :: j in jobs ==> Indexable(j)
    ensures Split(jobs, SplitsOf(jobs)) && Flattened(SplitsOf(jobs), prepared)
  {
    hide Indexable, Offset, Flattened, S.SplitOf;
    prepared := [];
    ghost var splits: Splits := [];
    NothingFlat();
    for i := 0 to |jobs|
      invariant |splits| == i && Flattened(splits, prepared)
      invariant forall j :: 0 <= j < i ==> splits[j] == S.SplitOf(jobs[j].text, jobs[j].header)
      invariant forall j :: 0 <= j < i ==> splits[j] != [] && forall k :: 0 <= k < |splits[j]| ==> splits[j][k].index == k
    {
      var chunks := S.SplitForEmbedding(jobs[i].text, jobs[i].header);
      assert jobs[i] in jobs;
      SmallIndices(jobs[i], chunks);
      var tagged := Tag(i, chunks);
      FlattenMore(splits, prepared, chunks, tagged);
      splits := splits + [chunks];
      prepared := prepared + tagged;
    }
    assert splits == SplitsOf(jobs);
  }

  lemma NothingFlat()
    ensures Flattened([], [])
  {
  }

  lemma SmallIndices(j: A.Taken, chunks: seq<S.TextChunk>)
    requires Indexable(j) && |chunks| <= |j.text| / S.FALLBACK_MIN_CHUNK_CHARS + 1
    requires forall k :: 0 <= k < |chunks| ==> chunks[k].index == k % S.U32
    ensures forall k :: 0 <= k < |chunks| ==> chunks[k].index == k
  {
  }

  // ----- validating and assembling

  predicate ValidResponse(embeddings: seq<Embedding>, count: nat, dimensions: nat) {
    |embeddings| == count && forall i :: 0 <= i < |embeddings| ==> |embeddings[i]| == dimensions
  }

  /** The chunks of job `j` among the first `n` prepared, with their embeddings. */
  function Collected(prepared: seq<Prepared>, embeddings: seq<Embedding>, j: nat, n: nat): seq<Chunk>
    requires n <= |prepared| && |embeddings| == |prepared|
  {
    if n == 0 then []
    else
      var rest, p := Collected(prepared, embeddings, j, n - 1), prepared[n - 1];
      if p.job == j then rest + [Chunk(p.chunk.index, p.chunk.text, embeddings[n - 1])] else rest
  }

  /** The first `m` chunks of a job whose prepared chunks start at `at`. */
  predicate Carries(chunks: seq<Chunk>, split: seq<S.TextChunk>, embeddings: seq<Embedding>, at: nat, m: nat) {
    |chunks| == m <= |split| && at + m <= |embeddings| &&
    forall k :: 0 <= k < m ==> chunks[k] == Chunk(split[k].index, split[k].text, embeddings[at + k])
  }

  lemma CarriesMore(chunks: seq<Chunk>, split: seq<S.TextChunk>, embeddings: seq<Embedding>, at: nat, m: nat)
    requires Carries(chunks, split, embeddings, at, m) && m < |split| && at + m < |embeddings|
    ensures Carries(chunks + [Chunk(split[m].index, split[m].text, embeddings[at + m])], split, embeddings, at, m + 1)
  {
  }

  lemma CarriesNone(split: seq<S.TextChunk>, embeddings: seq<Embedding>, at: nat)
    requires at <= |embeddings|
    ensures Carries([], split, embeddings, at, 0)
  {
  }

  /** What is collected for job `j` among the first `n` prepared chunks. */
  ghost predicate CollectedTo(splits: Splits, prepared: seq<Prepared>, embeddings: seq<Embedding>, j: nat, i: nat, n: nat)
    requires n <= |prepared| && |embeddings| == |prepared| && i <= |splits| && j < |splits|
  {
    var chunks, at := Collected(prepared, embeddings, j, n), Offset(splits, j);
    && (i < j ==> chunks == [])
    && (i == j ==> n >= at && Carries(chunks, splits[j], embeddings, at, n - at))
    && (i > j ==> Carries(chunks, splits[j], embeddings, at, |splits[j]|))
  }

  lemma CollectStep(prepared: seq<Prepared>, embeddings: seq<Embedding>, j: nat, n: nat)
    requires n < |prepared| && |embeddings| == |prepared|
    ensures Collected(prepared, embeddings, j, n + 1) == Collected(prepared, embeddings, j, n)
              + (if prepared[n].job == j then [Chunk(prepared[n].chunk.index, prepared[n].chunk.text, embeddings[n])] else [])
  {
    assert Collected(prepared, embeddings, j, n) + [] == Collected(prepared, embeddings, j, n);
  }

  lemma OneMoreChunk(splits: Splits, prepared: seq<Prepared>, embeddings: seq<Embedding>, j: nat, i: nat, n: nat)
    requires n < |prepared| && |embeddings| == |prepared| && i < |splits| && j < |splits|
    requires CollectedTo(splits, prepared, embeddings, j, i, n)
    requires Offset(splits, i) <= n < Offset(splits, i) + |splits[i]| && prepared[n] == Prepared(i, splits[i][n - Offset(splits, i)])
    ensures CollectedTo(splits, prepared, embeddings, j, i, n + 1)
  {
    hide Collected, Offset, Carries;
    CollectStep(prepared, embeddings, j, n);
    if i == j {
      CarriesMore(Collected(prepared, embeddings, j, n), splits[j], embeddings, Offset(splits, j), n - Offset(splits, j));
    } else {
      assert Collected(prepared, embeddings, j, n) + [] == Collected(prepared, embeddings, j, n);
    }
  }

  lemma NextJob(splits: Splits, prepared: seq<Prepared>, embeddings: seq<Embedding>, j: nat, i: nat, n: nat)
    requires n <= |prepared| && |embeddings| == |prepared| && i < |splits| && j < |splits|
    requires CollectedTo(splits, prepared, embeddings, j, i, n) && n == Offset(splits, i + 1) == Offset(splits, i) + |splits[i]|
    ensures CollectedTo(splits, prepared, embeddings, j, i + 1, n)
  {
    hide Collected, Offset, Carries;
    if i + 1 == j {
      CarriesNone(splits[j], embeddings, n);
    }
  }

  lemma NoneCollected(splits: Splits, prepared: seq<Prepared>, embeddings: seq<Embedding>, j: nat)
    requires |embeddings| == |prepared| && j < |splits|
    ensures CollectedTo(splits, prepared, embeddings, j, 0, 0) && Offset(splits, 0) == 0
  {
  }

  /** Whatever the failures of other jobs, the chunks collected for a job are its own, all of them, in order,
      each with the vector of that very chunk. */
  lemma {:induction false} CollectedCarries(splits: Splits, prepared: seq<Prepared>, embeddings: seq<Embedding>, j: nat, i: nat, k: nat)
    requires Flattened(splits, prepared) && |embeddings| == |prepared| && j < |splits|
    requires (i < |splits| && k <= |splits[i]|) || (i == |splits| && k == 0)
    ensures Offset(splits, i) + k <= |prepared| && CollectedTo(splits, prepared, embeddings, j, i, Offset(splits, i) + k)
    decreases i, k
  {
    hide Carries, Collected, CollectedTo, Offset;
    if k > 0 {
      CollectedCarries(splits, prepared, embeddings, j, i, k - 1);
      OffsetStep(splits, i);
      OffsetsRise(splits, i + 1, |splits|);
      assert Holds(splits, prepared, i, Offset(splits, i) + (k - 1));
      OneMoreChunk(splits, prepared, embeddings, j, i, Offset(splits, i) + (k - 1));
    } else if i > 0 {
      OffsetStep(splits, i - 1);
      CollectedCarries(splits, prepared, embeddings, j, i - 1, |splits[i - 1]|);
      NextJob(splits, prepared, embeddings, j, i - 1, Offset(splits, i));
    } else {
      NoneCollected(splits, prepared, embeddings, j);
    }
  }

  lemma OffsetStep(splits: Splits, i: nat)
    requires i < |splits|
    ensures Offset(splits, i + 1) == Offset(splits, i) + |splits[i]|
  {
  }

  function Assembled(jobs: seq<A.Taken>, prepared: seq<Prepared>, embeddings: seq<Embedding>, j: nat): Embedded
    requires j < |jobs| && |embeddings| == |prepared|
  {
    Embedded(jobs[j].content, jobs[j].hash, Collected(prepared, embeddings, j, |prepared|))
  }

  /** `assemble_embedded_documents`. */
  method Assemble(jobs: seq<A.Taken>, prepared: seq<Prepared>, embeddings: seq<Embedding>, failed: set<nat>)
    returns (documents: seq<Embedded>, ghost origin: seq<nat>)
    requires |embeddings| == |prepared| && forall i :: 0 <= i < |prepared| ==> prepared[i].job < |jobs|
    ensures |origin| == |documents| && Rising(origin)
    ensures forall j :: 0 <= j < |jobs| ==> (j in origin <==> j !in failed)
    ensures forall i :: 0 <= i < |documents| ==> origin[i] < |jobs| && documents[i] == Assembled(jobs, prepared, embeddings, origin[i])
  {
    var chunks: seq<seq<Chunk>> := seq(|jobs|, _ => []);
    for i := 0 to |prepared|
      invariant |chunks| == |jobs|
      invariant forall j :: 0 <= j < |jobs| && j !in failed ==> chunks[j] == Collected(prepared, embeddings, j, i)
    {
      var p := prepared[i];
      if p.job !in failed {
        chunks := chunks[p.job := chunks[p.job] + [Chunk(p.chunk.index, p.chunk.text, embeddings[i])]];
      }
    }
    documents, origin := [], [];
    for j := 0 to |jobs|
      invariant |origin| == |documents| && forall a, b :: 0 <= a < b < |origin| ==> origin[a] < origin[b]
      invariant forall a :: 0 <= a < |origin| ==> origin[a] < j
      invariant forall x :: 0 <= x < j ==> (x in origin <==> x !in failed)
      invariant forall a :: 0 <= a < |documents| ==> documents[a] == Assembled(jobs, prepared, embeddings, origin[a])
    {
      if j !in failed {
        documents := documents + [Embedded(jobs[j].content, jobs[j].hash, chunks[j])];
        origin := origin + [j];
      }
    }
  }

  // ----- one item at a time

  /** Is the answer to a single chunk usable? */
  predicate Usable(a: Answer, dimensions: nat) { a.Answered? && ValidResponse(a.embeddings, 1, dimensions) }

  /** Must a job not be retried after this answer? A malformed answer is as final as a terminal refusal. */
  predicate Final(a: Answer) { a.Refused? ==> a.terminal }

  /** The first unusable answer for a chunk of job `j`. */
  predicate FirstBad(prepared: seq<Prepared>, each: nat -> Answer, dimensions: nat, j: nat, i: nat) {
    && i < |prepared| && prepared[i].job == j && !Usable(each(i), dimensions)
    && forall k :: 0 <= k < i && prepared[k].job == j ==> Usable(each(k), dimensions)
  }

  /** `embed_individually` up to the failures: a job fails with its first unusable chunk. */
  method AskEach(prepared: seq<Prepared>, each: nat -> Answer, dimensions: nat)
    returns (embeddings: seq<Embedding>, failures: map<nat, bool>)
    ensures |embeddings| == |prepared|
    ensures forall i :: 0 <= i < |prepared| && prepared[i].job !in failures ==>
              Usable(each(i), dimensions) && embeddings[i] == each(i).embeddings[0]
    ensures forall j :: j in failures ==> exists i :: FirstBad(prepared, each, dimensions, j, i) && failures[j] == Final(each(i))
  {
    hide Final;
    embeddings, failures := [], map[];
    for i := 0 to |prepared|
      invariant |embeddings| == i
      invariant forall k :: 0 <= k < i && prepared[k].job !in failures ==>
        Usable(each(k), dimensions) && embeddings[k] == each(k).embeddings[0]
      invariant forall j :: j in failures ==> exists k :: FirstBad(prepared, each, dimensions, j, k) && failures[j] == Final(each(k))
    {
      var job := prepared[i].job;
      if job in failures {
        embeddings := embeddings + [[]];
      } else if Usable(each(i), dimensions) {
        embeddings := embeddings + [each(i).embeddings[0]];
      } else {
        assert FirstBad(prepared, each, dimensions, job, i);
        failures := failures[job := Final(each(i))];
        embeddings := embeddings + [[]];
      }
    }
  }

  // ----- what a tick comes to

  /** The batch call answered with one vector for every chunk. */
  predicate Batched(batch: Answer, total: nat, dimensions: nat) {
    batch.Answered? && ValidResponse(batch.embeddings, total, dimensions)
  }

  /** The batch call was refused for now: everything waits. */
  predicate Passing(batch: Answer) { batch.Refused? && !batch.terminal }

  predicate BadChunk(splits: Splits, each: nat -> Answer, dimensions: nat, j: nat, k: nat)
    requires j < |splits|
  {
    k < |splits[j]| && !Usable(each(Offset(splits, j) + k), dimensions)
  }

  ghost predicate FirstBadChunk(splits: Splits, each: nat -> Answer, dimensions: nat, j: nat, k: nat)
    requires j < |splits|
  {
    BadChunk(splits, each, dimensions, j, k) && forall i: nat :: i < k ==> !BadChunk(splits, each, dimensions, j, i)
  }

  /** Job `j` fails: the whole batch waits, or one of its chunks has no usable answer of its own. */
  ghost predicate Fails(splits: Splits, batch: Answer, each: nat -> Answer, dimensions: nat, j: nat)
    requires j < |splits|
  {
    !Batched(batch, Offset(splits, |splits|), dimensions)
    && (Passing(batch) || exists k: nat :: BadChunk(splits, each, dimensions, j, k))
  }

  /** And is it final? Never when the batch waits, else as its first unusable answer says. */
  ghost predicate FailsAs(splits: Splits, batch: Answer, each: nat -> Answer, dimensions: nat, j: nat, terminal: bool)
    requires j < |splits|
  {
    if Passing(batch) then !terminal
    else exists k: nat :: FirstBadChunk(splits, each, dimensions, j, k) && terminal == Final(each(Offset(splits, j) + k))
  }

  /** The vector for the chunk at place `n`: from the batch if that worked, else from its own call. */
  function VectorOf(splits: Splits, batch: Answer, each: nat -> Answer, dimensions: nat, n: nat): Embedding {
    if Batched(batch, Offset(splits, |splits|), dimensions) then
      if n < |batch.embeddings| then batch.embeddings[n] else []
    else if Usable(each(n), dimensions) then each(n).embeddings[0] else []
  }

  /** The document of job `j`: all its chunks in order, each with its own vector. */
  predicate IsDocument(jobs: seq<A.Taken>, batch: Answer, each: nat -> Answer, dimensions: nat, j: nat, d: Embedded)
    requires j < |jobs|
  {
    var splits := SplitsOf(jobs);
    && d.content == jobs[j].content && d.hash == jobs[j].hash && |d.chunks| == |splits[j]|
    && forall k :: 0 <= k < |splits[j]| ==>
         d.chunks[k] == Chunk(splits[j][k].index, splits[j][k].text, VectorOf(splits, batch, each, dimensions, Offset(splits, j) + k))
  }

  predicate Rising(s: seq<nat>) { forall i, j :: 0 <= i < j < |s| ==> s[i] < s[j] }

  predicate NoRepeats(s: seq<nat>) { forall i, j :: 0 <= i < j < |s| ==> s[i] != s[j] }

  /** The documents are those of exactly the jobs that do not fail, in order. */
  ghost predicate DocumentsFor(jobs: seq<A.Taken>, batch: Answer, each: nat -> Answer, dimensions: nat,
                               documents: seq<Embedded>, origin: seq<nat>) {
    var splits := SplitsOf(jobs);
    && Rising(origin) && |origin| == |documents|
    && (forall j: nat :: j < |jobs| ==> (j in origin <==> !Fails(splits, batch, each, dimensions, j)))
    && (forall i :: 0 <= i < |origin| ==> origin[i] < |jobs| && IsDocument(jobs, batch, each, dimensions, origin[i], documents[i]))
  }

  predicate IsFailure(jobs: seq<A.Taken>, j: nat, f: Failure)
    requires j < |jobs|
  {
    f.content == jobs[j].content && f.hash == jobs[j].hash
  }

  /** The failures are those of exactly the jobs that fail, once each. */
  ghost predicate FailuresFor(jobs: seq<A.Taken>, batch: Answer, each: nat -> Answer, dimensions: nat,
                              failures: seq<Failure>, order: seq<nat>) {
    var splits := SplitsOf(jobs);
    && NoRepeats(order) && |order| == |failures|
    && (forall j: nat :: j < |jobs| ==> (j in order <==> Fails(splits, batch, each, dimensions, j)))
    && (forall i :: 0 <= i < |order| ==>
          order[i] < |jobs| && IsFailure(jobs, order[i], failures[i])
          && FailsAs(splits, batch, each, dimensions, order[i], failures[i].terminal))
  }

  ghost predicate Settled(jobs: seq<A.Taken>, batch: Answer, each: nat -> Answer, dimensions: nat,
                          documents: seq<Embedded>, failures: seq<Failure>) {
    && (exists origin :: DocumentsFor(jobs, batch, each, dimensions, documents, origin))
    && (exists order :: FailuresFor(jobs, batch, each, dimensions, failures, order))
  }

  predicate Carried(jobs: seq<A.Taken>, splits: Splits, embeddings: seq<Embedding>, d: Embedded, j: nat)
    requires |splits| == |jobs| && j < |jobs|
  {
    && d.content == jobs[j].content && d.hash == jobs[j].hash
    && Carries(d.chunks, splits[j], embeddings, Offset(splits, j), |splits[j]|)
  }

  lemma CarriedFits(split: seq<S.TextChunk>, chunks: seq<Chunk>, prepared: seq<Prepared>, embeddings: seq<Embedding>, at: nat,
                    j: nat, failed: set<nat>, dimensions: nat, d: Embedded)
    requires Carries(chunks, split, embeddings, at, |split|) && split != [] && d.chunks == chunks && j !in failed
    requires forall k :: 0 <= k < |split| ==> split[k].index == k
    requires |embeddings| == |prepared| && at + |split| <= |prepared|
    requires forall i :: at <= i < at + |split| ==> prepared[i].job == j
    requires forall i :: 0 <= i < |prepared| && prepared[i].job !in failed ==> |embeddings[i]| == dimensions
    ensures WellFormed(d, dimensions)
  {
    forall k | 0 <= k < |chunks|
      ensures chunks[k].index == k && |chunks[k].embedding| == dimensions
    {
      assert prepared[at + k].job == j;
    }
  }

  /** Documents assembled from usable vectors pass the checks. */
  lemma AssembledFits(jobs: seq<A.Taken>, splits: Splits, prepared: seq<Prepared>, embeddings: seq<Embedding>, failed: set<nat>,
                      dimensions: nat, j: nat)
    requires Split(jobs, splits) && Flattened(splits, prepared) && |embeddings| == |prepared| && j < |jobs| && j !in failed
    requires forall i :: 0 <= i < |prepared| && prepared[i].job !in failed ==> |embeddings[i]| == dimensions
    ensures var d := Assembled(jobs, prepared, embeddings, j); Carried(jobs, splits, embeddings, d, j) && WellFormed(d, dimensions)
  {
    hide Collected, Offset, Carries, WellFormed;
    CollectedCarries(splits, prepared, embeddings, j, |splits|, 0);
    JobOf(splits, prepared, j);
    CarriedFits(splits[j], Collected(prepared, embeddings, j, |prepared|), prepared, embeddings, Offset(splits, j), j, failed,
                dimensions, Assembled(jobs, prepared, embeddings, j));
  }

  lemma JobOf(splits: Splits, prepared: seq<Prepared>, j: nat)
    requires Flattened(splits, prepared) && j < |splits|
    ensures Offset(splits, j) + |splits[j]| <= |prepared|
    ensures forall i :: Offset(splits, j) <= i < Offset(splits, j) + |splits[j]| ==> prepared[i].job == j
  {
    OffsetsRise(splits, j + 1, |splits|);
    forall i: nat | Offset(splits, j) <= i < Offset(splits, j) + |splits[j]|
      ensures prepared[i].job == j
    {
      assert Holds(splits, prepared, j, i);
    }
  }

  ghost predicate Listed(jobs: seq<A.Taken>, failures: map<nat, bool>, out: seq<Failure>, order: seq<nat>) {
    && |order| == |out| && NoRepeats(order) && (forall j :: j in order <==> j in failures)
    && forall i :: 0 <= i < |order| ==>
         order[i] in failures && order[i] < |jobs|
         && out[i] == Failure(jobs[order[i]].content, jobs[order[i]].hash, failures[order[i]])
  }

  method ListFailures(jobs: seq<A.Taken>, failures: map<nat, bool>) returns (out: seq<Failure>, ghost order: seq<nat>)
    requires forall j :: j in failures ==> j < |jobs|
    ensures Listed(jobs, failures, out, order)
  {
    out, order := [], [];
    var todo := failures.Keys;
    while todo != {}
      invariant todo <= failures.Keys && |order| == |out| && NoRepeats(order)
      invariant forall j :: j in order <==> j in failures && j !in todo
      invariant forall i :: 0 <= i < |order| ==>
        order[i] in failures && order[i] < |jobs|
        && out[i] == Failure(jobs[order[i]].content, jobs[order[i]].hash, failures[order[i]])
    {
      var j :| j in todo;
      out := out + [Failure(jobs[j].content, jobs[j].hash, failures[j])];
      order := order + [j];
      todo := todo - {j};
    }
  }

  lemma {:induction false} Locate(splits: Splits, i: nat, n: nat) returns (j: nat, k: nat)
    requires n <= |splits| && i < Offset(splits, n)
    ensures j < n && k < |splits[j]| && i == Offset(splits, j) + k
  {
    if i < Offset(splits, n - 1) {
      j, k := Locate(splits, i, n - 1);
    } else {
      j, k := n - 1, i - Offset(splits, n - 1);
    }
  }

  lemma JobsBounded(splits: Splits, prepared: seq<Prepared>)
    requires Flattened(splits, prepared)
    ensures forall i :: 0 <= i < |prepared| ==> prepared[i].job < |splits|
  {
    forall i | 0 <= i < |prepared|
      ensures prepared[i].job < |splits|
    {
      var j, k := Locate(splits, i, |splits|);
      assert Holds(splits, prepared, j, i);
    }
  }

  function Deferred(n: nat): (m: map<nat, bool>)
    ensures forall j: nat :: j in m <==> j < n
    ensures forall j :: j in m ==> !m[j]
  {
    if n == 0 then map[] else Deferred(n - 1)[n - 1 := false]
  }

  /** How the answers turn into vectors and failing jobs. */
  ghost predicate Gathered(prepared: seq<Prepared>, jobCount: nat, batch: Answer, each: nat -> Answer, dimensions: nat,
                           all: seq<Embedding>, failing: map<nat, bool>) {
    |all| == |prepared| &&
    if Batched(batch, |prepared|, dimensions) then all == batch.embeddings && failing == map[]
    else if Passing(batch) then (forall j: nat :: j in failing <==> j < jobCount) && (forall j :: j in failing ==> !failing[j])
    else
      && (forall i :: 0 <= i < |prepared| && prepared[i].job !in failing ==> Usable(each(i), dimensions) && all[i] == each(i).embeddings[0])
      && (forall j :: j in failing ==> exists i :: FirstBad(prepared, each, dimensions, j, i) && failing[j] == Final(each(i)))
  }

  /** A prepared chunk belongs to the job whose chunks lie around it, and to no other. */
  lemma PlaceOf(splits: Splits, prepared: seq<Prepared>, j: nat, i: nat)
    requires Flattened(splits, prepared) && j < |splits| && i < |prepared|
    ensures prepared[i].job == j <==> Offset(splits, j) <= i < Offset(splits, j) + |splits[j]|
  {
    hide Offset;
    var m, k := Locate(splits, i, |splits|);
    assert Holds(splits, prepared, m, i);
    assert Holds(splits, prepared, j, i);
  }

  lemma FailingExactly(splits: Splits, prepared: seq<Prepared>, batch: Answer, each: nat -> Answer, dimensions: nat,
                       all: seq<Embedding>, failing: map<nat, bool>, j: nat)
    requires Flattened(splits, prepared) && Gathered(prepared, |splits|, batch, each, dimensions, all, failing) && j < |splits|
    ensures j in failing <==> Fails(splits, batch, each, dimensions, j)
    ensures j in failing ==> FailsAs(splits, batch, each, dimensions, j, failing[j])
  {
    hide Offset, Usable, Final, Flattened;
    PreparedCount(splits, prepared);
    JobOf(splits, prepared, j);
    if !Batched(batch, |prepared|, dimensions) && !Passing(batch) {
      var at := Offset(splits, j);
      if j in failing {
        var i :| FirstBad(prepared, each, dimensions, j, i) && failing[j] == Final(each(i));
        PlaceOf(splits, prepared, j, i);
        FirstOfJob(splits, prepared, each, dimensions, j, i);
      } else {
        forall k: nat
          ensures !BadChunk(splits, each, dimensions, j, k)
        {
          assert k < |splits[j]| ==> prepared[at + k].job == j;
        }
      }
    }
  }

  lemma FirstOfJob(splits: Splits, prepared: seq<Prepared>, each: nat -> Answer, dimensions: nat, j: nat, i: nat)
    requires Flattened(splits, prepared) && j < |splits| && FirstBad(prepared, each, dimensions, j, i)
    requires Offset(splits, j) <= i < Offset(splits, j) + |splits[j]|
    ensures FirstBadChunk(splits, each, dimensions, j, i - Offset(splits, j))
  {
    hide Offset, Usable, Flattened;
    JobOf(splits, prepared, j);
    var at := Offset(splits, j);
    forall k: nat | k < i - at
      ensures !BadChunk(splits, each, dimensions, j, k)
    {
      assert prepared[at + k].job == j;
    }
  }

  /** What is assembled for a job that does not fail is its document, and passes the checks of the store. */
  lemma DocumentIs(jobs: seq<A.Taken>, prepared: seq<Prepared>, batch: Answer, each: nat -> Answer, dimensions: nat,
                   all: seq<Embedding>, failing: map<nat, bool>, j: nat)
    requires Split(jobs, SplitsOf(jobs)) && Flattened(SplitsOf(jobs), prepared) && j < |jobs| && j !in failing
    requires Gathered(prepared, |jobs|, batch, each, dimensions, all, failing) && |all| == |prepared|
    ensures IsDocument(jobs, batch, each, dimensions, j, Assembled(jobs, prepared, all, j))
    ensures WellFormed(Assembled(jobs, prepared, all, j), dimensions)
  {
    hide Offset, Flattened, Split, WellFormed, Gathered, VectorOf, S.SplitOf, Assembled, IsDocument, Carried;
    var splits := SplitsOf(jobs);
    forall i | 0 <= i < |prepared| && prepared[i].job !in failing
      ensures |all[i]| == dimensions && all[i] == VectorOf(splits, batch, each, dimensions, i)
    {
      VectorIs(splits, prepared, batch, each, dimensions, all, failing, i);
    }
    AssembledFits(jobs, splits, prepared, all, failing.Keys, dimensions, j);
    JobOf(splits, prepared, j);
    CarriedIsDocument(jobs, batch, each, dimensions, all, j, Assembled(jobs, prepared, all, j));
  }

  lemma CarriedIsDocument(jobs: seq<A.Taken>, batch: Answer, each: nat -> Answer, dimensions: nat, all: seq<Embedding>, j: nat, d: Embedded)
    requires j < |jobs| && Carried(jobs, SplitsOf(jobs), all, d, j)
    requires var splits := SplitsOf(jobs);
      forall i :: Offset(splits, j) <= i < Offset(splits, j) + |splits[j]| ==>
        i < |all| && all[i] == VectorOf(splits, batch, each, dimensions, i)
    ensures IsDocument(jobs, batch, each, dimensions, j, d)
  {
    hide Offset, VectorOf, S.SplitOf;
  }

  lemma VectorIs(splits: Splits, prepared: seq<Prepared>, batch: Answer, each: nat -> Answer, dimensions: nat,
                 all: seq<Embedding>, failing: map<nat, bool>, i: nat)
    requires Flattened(splits, prepared) && Gathered(prepared, |splits|, batch, each, dimensions, all, failing)
    requires i < |prepared| && prepared[i].job !in failing
    ensures i < |all| && |all[i]| == dimensions && all[i] == VectorOf(splits, batch, each, dimensions, i)
  {
    hide Offset, Flattened;
    PreparedCount(splits, prepared);
    JobsBounded(splits, prepared);
  }

  /** The part of `tick` between taking jobs and writing: one batch call, or one call per chunk when the
      batch response is invalid or refused for good; a passing refusal defers every job. Every taken job ends
      as exactly one document or one failure. */
  method Embed(jobs: seq<A.Taken>, batch: Answer, each: nat -> Answer, dimensions: nat)
    returns (documents: seq<Embedded>, failures: seq<Failure>)
    requires forall j :: j in jobs ==> Indexable(j)
    ensures Settled(jobs, batch, each, dimensions, documents, failures)
    ensures AllWellFormed(documents, dimensions)
  {
    hide Offset, Flattened, Usable, Final, Indexable, Collected, Split, WellFormed, Assembled, IsDocument, Fails, FailsAs, S.SplitOf;
    var prepared := Prepare(jobs);
    ghost var splits := SplitsOf(jobs);
    JobsBounded(splits, prepared);
    var all: seq<Embedding>;
    var failing: map<nat, bool>;
    if Batched(batch, |prepared|, dimensions) {
      all, failing := batch.embeddings, map[];
    } else if Passing(batch) {
      all, failing := seq(|prepared|, _ => []), Deferred(|jobs|);
    } else {
      all, failing := AskEach(prepared, each, dimensions);
      FailingBounded(prepared, |jobs|, each, dimensions, failing);
    }
    ghost var order, origin;
    failures, order := ListFailures(jobs, failing);
    documents, origin := Assemble(jobs, prepared, all, failing.Keys);
    Settle(jobs, prepared, batch, each, dimensions, all, failing, documents, failures, origin, order);
  }

  lemma FailingBounded(prepared: seq<Prepared>, n: nat, each: nat -> Answer, dimensions: nat, failing: map<nat, bool>)
    requires forall i :: 0 <= i < |prepared| ==> prepared[i].job < n
    requires forall j :: j in failing ==> exists i :: FirstBad(prepared, each, dimensions, j, i) && failing[j] == Final(each(i))
    ensures forall j :: j in failing ==> j < n
  {
  }

  lemma Settle(jobs: seq<A.Taken>, prepared: seq<Prepared>, batch: Answer, each: nat -> Answer, dimensions: nat,
               all: seq<Embedding>, failing: map<nat, bool>, documents: seq<Embedded>, failures: seq<Failure>,
               origin: seq<nat>, order: seq<nat>)
    requires Split(jobs, SplitsOf(jobs)) && Flattened(SplitsOf(jobs), prepared)
    requires Gathered(prepared, |jobs|, batch, each, dimensions, all, failing) && |all| == |prepared|
    requires Listed(jobs, failing, failures, order)
    requires |origin| == |documents| && Rising(origin) && (forall j :: 0 <= j < |jobs| ==> (j in origin <==> j !in failing))
    requires forall i :: 0 <= i < |documents| ==> origin[i] < |jobs| && documents[i] == Assembled(jobs, prepared, all, origin[i])
    ensures Settled(jobs, batch, each, dimensions, documents, failures) && AllWellFormed(documents, dimensions)
  {
    hide Offset, Flattened, Split, WellFormed, Assembled, IsDocument, Fails, FailsAs, Gathered, S.SplitOf;
    forall j: nat | j < |jobs|
      ensures j in failing <==> Fails(SplitsOf(jobs), batch, each, dimensions, j)
      ensures j in failing ==> FailsAs(SplitsOf(jobs), batch, each, dimensions, j, failing[j])
    {
      FailingExactly(SplitsOf(jobs), prepared, batch, each, dimensions, all, failing, j);
    }
    forall i | 0 <= i < |documents|
      ensures IsDocument(jobs, batch, each, dimensions, origin[i], documents[i]) && WellFormed(documents[i], dimensions)
    {
      assert origin[i] in origin;
      DocumentIs(jobs, prepared, batch, each, dimensions, all, failing, origin[i]);
    }
    assert DocumentsFor(jobs, batch, each, dimensions, documents, origin);
    assert FailuresFor(jobs, batch, each, dimensions, failures, order);
  }

  lemma PreparedCount(splits: Splits, prepared: seq<Prepared>)
    requires Flattened(splits, prepared)
    ensures |prepared| == Offset(splits, |splits|)
  {
  }
}
