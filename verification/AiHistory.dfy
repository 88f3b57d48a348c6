/** What the index of `crates/notes-ai/src/store.rs` holds after any run: for each document the embedding that settled
    its job, and for each job the attempts made at its present input. */
module AiHistory {
  import opened Results
  import opened AiIndex
  import opened AiRuns
  import opened AiStore
  import opened Bytes

  // ----- the index as a list of what happened

  datatype Failure = Failure(error: string, terminal: bool, at: int)

  /** A document that waits for its embedding, and what went wrong since this input was queued. */
  datatype Waiting = Waiting(input: Document, seqno: int, since: int, failures: seq<Failure>)

  /** The embedding a document is indexed by. */
  datatype Held = Held(doc: Embedded, seqno: int)

  datatype Index = Index(dimensions: nat, held: map<Uuid, Held>, waiting: map<Uuid, Waiting>)

  /** Does a result answer what a document waits for? */
  predicate Answers(x: Index, d: Embedded) { d.content in x.waiting && x.waiting[d.content].input.hash == d.hash }

  function Take(x: Index, d: Embedded): Index {
    if Answers(x, d) then
      x.(held := x.held[d.content := Held(d, x.waiting[d.content].seqno)], waiting := x.waiting - {d.content})
    else x
  }

  function TakeAll(x: Index, ds: seq<Embedded>): Index {
    if ds == [] then x else Take(TakeAll(x, ds[..|ds| - 1]), ds[|ds| - 1])
  }

  /** The attempts that count for an input: those made since it was queued. */
  function FailuresOf(x: Index, c: Uuid, hash: string): seq<Failure> {
    if c in x.waiting && x.waiting[c].input.hash == hash then x.waiting[c].failures else []
  }

  function Compare(x: Index, docs: map<Uuid, Document>, seqno: int, now: int): Index {
    Index(x.dimensions, map c | c in x.held && c in docs :: x.held[c],
          map c | c in docs && (c in x.held ==> x.held[c].doc.hash != docs[c].hash) ::
            Waiting(docs[c], seqno, now, FailuresOf(x, c, docs[c].hash)))
  }

  function Missed(x: Index, c: Uuid, hash: string, f: Failure): Index {
    if c in x.waiting && x.waiting[c].input.hash == hash then
      x.(waiting := x.waiting[c := x.waiting[c].(failures := x.waiting[c].failures + [f])])
    else x
  }

  function MissedAll(x: Index, taken: seq<(Uuid, string)>, f: Failure): Index {
    if taken == [] then x
    else Missed(MissedAll(x, taken[..|taken| - 1], f), taken[|taken| - 1].0, taken[|taken| - 1].1, f)
  }

  function Next(h: map<Uuid, Index>, op: Op): map<Uuid, Index> {
    if op.OpenOp? then if op.id in h then h else h[op.id := Index(op.dimensions, map[], map[])]
    else if op.id !in h then h
    else
      var x := h[op.id];
      match op
      case ReconcileOp(id, docs, _, seqno, now) => h[id := Compare(x, docs, seqno, now)]
      case WriteOp(id, _, items) => if AllWellFormed(items, x.dimensions) then h[id := TakeAll(x, items)] else h
      case FailOp(id, taken, error, terminal, now) => h[id := MissedAll(x, taken, Failure(error, terminal, now))]
      case ResetOp(id) => h[id := Index(x.dimensions, map[], map[])]
      case OpenOp(_, _) => h
  }

  function Past(ops: seq<Op>): map<Uuid, Index> {
    if ops == [] then map[] else Next(Past(ops[..|ops| - 1]), ops[|ops| - 1])
  }

  // ----- the tables show it

  /** Row `(c, i)` and its vector are chunk `i` of this document. */
  ghost predicate ShowsChunk(rows: map<Key, Row>, vectors: map<nat, Embedding>, c: Uuid, i: nat, h: Held) {
    && (c, i) in rows && i < |h.doc.chunks|
    && rows[(c, i)].text == h.doc.chunks[i].text && rows[(c, i)].hash == h.doc.hash && rows[(c, i)].seqno == h.seqno
    && rows[(c, i)].rowid in vectors && vectors[rows[(c, i)].rowid] == h.doc.chunks[i].embedding
  }

  ghost predicate ShowsHeld(rows: map<Key, Row>, vectors: map<nat, Embedding>, held: map<Uuid, Held>) {
    && (forall c, i :: (c, i) in rows ==> c in held && ShowsChunk(rows, vectors, c, i, held[c]))
    && (forall c :: c in held ==> held[c].doc.chunks != [])
    && (forall c, i :: c in held && 0 <= i < |held[c].doc.chunks| ==> (c, i) in rows)
  }

  predicate ShowsJob(j: Job, w: Waiting) {
    && j.hash == w.input.hash && j.text == w.input.text && j.header == w.input.header
    && j.seqno == w.seqno && j.enqueued == w.since && j.retries == |w.failures|
    && if w.failures == [] then j.lastAttempt == None && j.lastError == None && !j.terminal
       else
         var last := w.failures[|w.failures| - 1];
         j.lastAttempt == Some(last.at) && j.lastError == Some(last.error) && j.terminal == last.terminal
  }

  ghost predicate ShowsJobs(jobs: map<Uuid, Job>, waiting: map<Uuid, Waiting>) {
    jobs.Keys == waiting.Keys && forall c :: c in jobs ==> ShowsJob(jobs[c], waiting[c])
  }

  ghost predicate Shows(g: Generation, x: Index) {
    g.dimensions == x.dimensions && ShowsHeld(g.rows, g.vectors, x.held) && ShowsJobs(g.jobs, x.waiting)
  }

  // ----- writing one document

  /** Every other document keeps its rows and their vectors. */
  ghost predicate OthersStay(g: Generation, h: Generation, c: Uuid) {
    && (forall k: Key :: k.0 != c ==> (k in h.rows <==> k in g.rows))
    && (forall k: Key :: k.0 != c && k in g.rows ==>
          h.rows[k] == g.rows[k] && g.rows[k].rowid in g.vectors && g.rows[k].rowid in h.vectors
          && h.vectors[g.rows[k].rowid] == g.vectors[g.rows[k].rowid])
  }

  lemma DeleteLeavesOthers(g: Generation, c: Uuid)
    requires Linked(g.rows, g.vectors)
    ensures OthersStay(g, DeleteDocument(g, c), c)
    ensures forall i :: (c, i) !in DeleteDocument(g, c).rows
  {
  }

  lemma {:induction false} AddedAre(g: Generation, c: Uuid, hash: string, seqno: int, chunks: seq<Chunk>)
    requires Consistent(g) && !Indexed(g.rows, c)
    requires forall i :: 0 <= i < |chunks| ==> chunks[i].index == i && |chunks[i].embedding| == g.dimensions
    ensures var h := AddChunks(g, c, hash, seqno, chunks);
      && Consistent(h) && h == g.(rows := h.rows, vectors := h.vectors) && OthersStay(g, h, c)
      && (forall i :: (c, i) in h.rows <==> 0 <= i < |chunks|)
      && forall i :: 0 <= i < |chunks| ==> ShowsChunk(h.rows, h.vectors, c, i, Held(Embedded(c, hash, chunks), seqno))
  {
    hide Linked, Numbered, NextRowid, ShowsChunk, OthersStay;
    AddedChunks(g, c, hash, seqno, chunks);
    if chunks == [] {
      NothingAdded(g, c);
    } else {
      var n := |chunks| - 1;
      var front := chunks[..n];
      AddedAre(g, c, hash, seqno, front);
      AddedChunks(g, c, hash, seqno, front);
      var mid := AddChunks(g, c, hash, seqno, front);
      NextRowidIsFresh(mid.rows, mid.vectors);
      assert chunks == front + [chunks[n]];
      OneAdded(g, mid, c, hash, seqno, front, chunks[n]);
    }
  }

  lemma NothingAdded(g: Generation, c: Uuid)
    requires Consistent(g) && !Indexed(g.rows, c)
    ensures OthersStay(g, g, c) && forall i :: (c, i) !in g.rows
  {
  }

  lemma OneAdded(g: Generation, mid: Generation, c: Uuid, hash: string, seqno: int, front: seq<Chunk>, last: Chunk)
    requires OthersStay(g, mid, c) && last.index == |front| && NextRowid(mid.rows) !in mid.vectors
    requires forall i :: (c, i) in mid.rows <==> 0 <= i < |front|
    requires forall i :: 0 <= i < |front| ==> ShowsChunk(mid.rows, mid.vectors, c, i, Held(Embedded(c, hash, front), seqno))
    ensures var h, all := AddChunk(mid, c, hash, seqno, last), front + [last];
      && OthersStay(g, h, c) && (forall i :: (c, i) in h.rows <==> 0 <= i < |all|)
      && forall i :: 0 <= i < |all| ==> ShowsChunk(h.rows, h.vectors, c, i, Held(Embedded(c, hash, all), seqno))
  {
    hide NextRowid;
    var h, all := AddChunk(mid, c, hash, seqno, last), front + [last];
    forall i | 0 <= i < |all|
      ensures ShowsChunk(h.rows, h.vectors, c, i, Held(Embedded(c, hash, all), seqno))
    {
      if i < |front| {
        assert ShowsChunk(mid.rows, mid.vectors, c, i, Held(Embedded(c, hash, front), seqno));
      }
    }
  }

  /** An accepted document is indexed by all its chunks, each with its own text and vector, under the sequence number of
      its job; its job is gone and nothing else changes. */
  lemma WrittenRows(g: Generation, d: Embedded)
    requires Consistent(g) && WellFormed(d, g.dimensions) && d.content in g.jobs && g.jobs[d.content].hash == d.hash
    ensures var h := WriteOne(g, d);
      && h == g.(rows := h.rows, vectors := h.vectors, jobs := g.jobs - {d.content}) && OthersStay(g, h, d.content)
      && (forall i :: (d.content, i) in h.rows <==> 0 <= i < |d.chunks|)
      && forall i :: 0 <= i < |d.chunks| ==> ShowsChunk(h.rows, h.vectors, d.content, i, Held(d, g.jobs[d.content].seqno))
  {
    hide Linked, Numbered, DeleteDocument, AddChunks, ShowsChunk, OthersStay;
    var c := d.content;
    var cleared := DeleteDocument(g, c);
    DeleteKeepsConsistent(g, c);
    DeletedOthers(g, c);
    DeleteLeavesOthers(g, c);
    AddedAre(cleared, c, d.hash, g.jobs[c].seqno, d.chunks);
    assert Embedded(c, d.hash, d.chunks) == d;
    OthersTwice(g, cleared, AddChunks(cleared, c, d.hash, g.jobs[c].seqno, d.chunks), WriteOne(g, d), c);
  }

  lemma OthersTwice(g: Generation, m: Generation, n: Generation, h: Generation, c: Uuid)
    requires OthersStay(g, m, c) && OthersStay(m, n, c) && h.rows == n.rows && h.vectors == n.vectors
    ensures OthersStay(g, h, c)
  {
  }

  lemma WriteShows(g: Generation, x: Index, d: Embedded)
    requires Consistent(g) && Shows(g, x) && WellFormed(d, g.dimensions)
    ensures Consistent(WriteOne(g, d)) && Shows(WriteOne(g, d), Take(x, d))
  {
    hide Consistent, WriteOne, ShowsHeld, ShowsJob;
    WrittenStays(g, d);
    JobHashes(g.jobs, x.waiting);
    if d.content in g.jobs && g.jobs[d.content].hash == d.hash {
      WrittenRows(g, d);
      HeldNow(g, WriteOne(g, d), d, g.jobs[d.content].seqno, x.held);
    } else {
      assert WriteOne(g, d) == g by { NotWritten(g, d); }
    }
  }

  lemma JobHashes(jobs: map<Uuid, Job>, waiting: map<Uuid, Waiting>)
    requires ShowsJobs(jobs, waiting)
    ensures forall c :: c in jobs ==> jobs[c].hash == waiting[c].input.hash && jobs[c].seqno == waiting[c].seqno
  {
  }

  lemma WrittenStays(g: Generation, d: Embedded)
    requires Consistent(g) && WellFormed(d, g.dimensions)
    ensures Consistent(WriteOne(g, d))
  {
    hide Linked, Numbered, DeleteDocument, AddChunks;
    if d.content in g.jobs && g.jobs[d.content].hash == d.hash {
      DeleteKeepsConsistent(g, d.content);
      DeletedOthers(g, d.content);
      AddedChunks(DeleteDocument(g, d.content), d.content, d.hash, g.jobs[d.content].seqno, d.chunks);
    }
  }

  lemma NotWritten(g: Generation, d: Embedded)
    requires !(d.content in g.jobs && g.jobs[d.content].hash == d.hash)
    ensures WriteOne(g, d) == g
  {
  }

  lemma HeldNow(g: Generation, h: Generation, d: Embedded, seqno: int, held: map<Uuid, Held>)
    requires ShowsHeld(g.rows, g.vectors, held) && OthersStay(g, h, d.content) && d.chunks != []
    requires forall i :: (d.content, i) in h.rows <==> 0 <= i < |d.chunks|
    requires forall i :: 0 <= i < |d.chunks| ==> ShowsChunk(h.rows, h.vectors, d.content, i, Held(d, seqno))
    ensures ShowsHeld(h.rows, h.vectors, held[d.content := Held(d, seqno)])
  {
    var now := held[d.content := Held(d, seqno)];
    forall c, i | (c, i) in h.rows
      ensures c in now && ShowsChunk(h.rows, h.vectors, c, i, now[c])
    {
      if c != d.content {
        assert (c, i).0 != d.content && (c, i) in g.rows && ShowsChunk(g.rows, g.vectors, c, i, held[c]);
      }
    }
    forall c, i | c in now && 0 <= i < |now[c].doc.chunks|
      ensures (c, i) in h.rows
    {
      if c != d.content {
        assert (c, i) in g.rows && (c, i).0 != d.content;
      }
    }
  }

  lemma {:induction false} WritesShow(g: Generation, x: Index, ds: seq<Embedded>)
    requires Consistent(g) && Shows(g, x) && AllWellFormed(ds, g.dimensions)
    ensures Consistent(WriteAll(g, ds)) && Shows(WriteAll(g, ds), TakeAll(x, ds)) && WriteAll(g, ds).dimensions == g.dimensions
    ensures TakeAll(x, ds).dimensions == x.dimensions
  {
    hide Consistent, ShowsHeld, ShowsJobs, WriteOne, WellFormed, Take;
    if ds != [] {
      var front, d := ds[..|ds| - 1], ds[|ds| - 1];
      WritesShow(g, x, front);
      assert d in ds;
      WriteShows(WriteAll(g, front), TakeAll(x, front), d);
      SameSizes(TakeAll(x, front), d);
    }
  }

  lemma SameSizes(x: Index, d: Embedded)
    ensures Take(x, d).dimensions == x.dimensions
  {
  }

  // ----- reconcile and failures

  lemma ReconcileShows(g: Generation, x: Index, docs: map<Uuid, Document>, token: string, seqno: int, now: int)
    requires Consistent(g) && Shows(g, x)
    ensures Shows(Reconciled(g, docs, token, seqno, now), Compare(x, docs, seqno, now))
  {
    hide Linked, Numbered, ShowsHeld, ShowsJobs, ReconciledRows, ReconciledVectors, ReconciledJobs;
    HeldStill(g, x.held, docs);
    forall c
      ensures HashOf(g.rows, c) == if c in x.held then Some(x.held[c].doc.hash) else None
    {
      HeldHash(g.rows, g.vectors, x.held, c);
    }
    JobsQueued(g, x, docs, seqno, now);
  }

  lemma HeldHash(rows: map<Key, Row>, vectors: map<nat, Embedding>, held: map<Uuid, Held>, c: Uuid)
    requires ShowsHeld(rows, vectors, held)
    ensures HashOf(rows, c) == if c in held then Some(held[c].doc.hash) else None
  {
    if c in held {
      assert (c, 0) in rows && ShowsChunk(rows, vectors, c, 0, held[c]);
    }
  }

  lemma HeldStill(g: Generation, held: map<Uuid, Held>, docs: map<Uuid, Document>)
    requires ShowsHeld(g.rows, g.vectors, held)
    ensures ShowsHeld(ReconciledRows(g.rows, docs), ReconciledVectors(g, docs), map c | c in held && c in docs :: held[c])
  {
    var rows, vectors := ReconciledRows(g.rows, docs), ReconciledVectors(g, docs);
    var left := map c | c in held && c in docs :: held[c];
    forall c, i | (c, i) in rows
      ensures c in left && ShowsChunk(rows, vectors, c, i, left[c])
    {
      assert (c, i) in g.rows && (c, i).0 in docs && ShowsChunk(g.rows, g.vectors, c, i, held[c]);
    }
    forall c, i | c in left && 0 <= i < |left[c].doc.chunks|
      ensures (c, i) in rows
    {
      assert (c, i) in g.rows && (c, i).0 in docs;
    }
  }

  lemma JobsQueued(g: Generation, x: Index, docs: map<Uuid, Document>, seqno: int, now: int)
    requires ShowsJobs(g.jobs, x.waiting)
    requires forall c :: HashOf(g.rows, c) == if c in x.held then Some(x.held[c].doc.hash) else None
    ensures ShowsJobs(ReconciledJobs(g, docs, seqno, now), Compare(x, docs, seqno, now).waiting)
  {
    hide HashOf, Upserted, ShowsJob, FailuresOf;
    var jobs, waiting := ReconciledJobs(g, docs, seqno, now), Compare(x, docs, seqno, now).waiting;
    assert jobs.Keys == waiting.Keys;
    forall c | c in jobs
      ensures ShowsJob(jobs[c], waiting[c])
    {
      JobQueued(g.jobs, x, c, docs[c], seqno, now);
    }
  }

  lemma JobQueued(jobs: map<Uuid, Job>, x: Index, c: Uuid, d: Document, seqno: int, now: int)
    requires ShowsJobs(jobs, x.waiting)
    ensures ShowsJob(Upserted(jobs, c, d, seqno, now), Waiting(d, seqno, now, FailuresOf(x, c, d.hash)))
  {
  }

  lemma {:induction false} FailuresShow(jobs: map<Uuid, Job>, x: Index, taken: seq<(Uuid, string)>, error: string, terminal: bool, now: int)
    requires ShowsJobs(jobs, x.waiting)
    ensures var y := MissedAll(x, taken, Failure(error, terminal, now));
      ShowsJobs(FailAll(jobs, taken, error, terminal, now), y.waiting) && y.held == x.held && y.dimensions == x.dimensions
  {
    hide FailOne, Missed, ShowsJobs;
    if taken != [] {
      var front := taken[..|taken| - 1];
      FailuresShow(jobs, x, front, error, terminal, now);
      FailureShows(FailAll(jobs, front, error, terminal, now), MissedAll(x, front, Failure(error, terminal, now)),
                   taken[|taken| - 1].0, taken[|taken| - 1].1, error, terminal, now);
    }
  }

  lemma FailureShows(jobs: map<Uuid, Job>, x: Index, c: Uuid, hash: string, error: string, terminal: bool, now: int)
    requires ShowsJobs(jobs, x.waiting)
    ensures var y := Missed(x, c, hash, Failure(error, terminal, now));
      ShowsJobs(FailOne(jobs, c, hash, error, terminal, now), y.waiting) && y.held == x.held && y.dimensions == x.dimensions
  {
  }

  // ----- runs

  ghost predicate AllShow(t: Tables, h: map<Uuid, Index>) {
    t.Keys == h.Keys && forall id :: id in t ==> Shows(t[id], h[id])
  }

  lemma EmptyShows(dimensions: nat, g: Generation)
    ensures Shows(Fresh(dimensions), Index(dimensions, map[], map[])) && Shows(Reset(g), Index(g.dimensions, map[], map[]))
  {
  }

  lemma ActivationShows(t: Tables, h: map<Uuid, Index>, id: Uuid, sources: nat)
    requires AllShow(t, h) && id in t && OneActive(t)
    ensures AllShow(Activated(t, id, sources), h)
  {
    hide Activated, OneActive, ShowsHeld, ShowsJobs;
    ActivationKeeps(t, id, sources);
    forall x | x in t
      ensures Shows(Activated(t, id, sources)[x], h[x])
    {
      assert t[x].(status := Activated(t, id, sources)[x].status).rows == t[x].rows;
    }
  }

  lemma OneShows(t: Tables, h: map<Uuid, Index>, id: Uuid, g: Generation, x: Index)
    requires AllShow(t, h) && Shows(g, x)
    ensures AllShow(t[id := g], h[id := x])
  {
    hide Shows;
  }

  lemma StepShows(s: State, h: map<Uuid, Index>, op: Op)
    requires Sound(s) && AllShow(s.tables, h)
    ensures AllShow(Step(s, op).tables, Next(h, op))
  {
    hide Consistent, Tracks, OneActive, Shows, Reconciled, Compare, WriteAll, TakeAll, FailAll, MissedAll, Activated, AllWellFormed;
    if op.OpenOp? {
      EmptyShows(op.dimensions, Fresh(0));
      OneShows(s.tables, h, op.id, Fresh(op.dimensions), Index(op.dimensions, map[], map[]));
    } else if op.id in s.tables {
      var g, x := s.tables[op.id], h[op.id];
      assert g.dimensions == x.dimensions by { SameDimensions(g, x); }
      match op
      case ReconcileOp(id, docs, token, seqno, now) =>
        ReconcileShows(g, x, docs, token, seqno, now);
        Settled(s, h, id, Reconciled(g, docs, token, seqno, now), Compare(x, docs, seqno, now), |docs|) by {
          SameStatus(g, docs, token, seqno, now);
        }
      case WriteOp(id, sources, items) =>
        if AllWellFormed(items, g.dimensions) {
          WritesShow(g, x, items);
          WriteAllKeeps(g, s.seen[id], items);
          Settled(s, h, id, WriteAll(g, items), TakeAll(x, items), sources);
        }
      case FailOp(id, taken, error, terminal, now) =>
        FailedShows(g, x, taken, error, terminal, now);
        OneShows(s.tables, h, id, g.(jobs := FailAll(g.jobs, taken, error, terminal, now)), MissedAll(x, taken, Failure(error, terminal, now)));
      case ResetOp(id) =>
        EmptyShows(0, g);
        OneShows(s.tables, h, id, Reset(g), Index(x.dimensions, map[], map[]));
    }
  }

  lemma SameDimensions(g: Generation, x: Index)
    requires Shows(g, x)
    ensures g.dimensions == x.dimensions
  {
  }

  lemma FailedShows(g: Generation, x: Index, taken: seq<(Uuid, string)>, error: string, terminal: bool, now: int)
    requires Shows(g, x)
    ensures Shows(g.(jobs := FailAll(g.jobs, taken, error, terminal, now)), MissedAll(x, taken, Failure(error, terminal, now)))
  {
    hide ShowsHeld, ShowsJobs, FailAll, MissedAll;
    FailuresShow(g.jobs, x, taken, error, terminal, now);
  }

  lemma Settled(s: State, h: map<Uuid, Index>, id: Uuid, g: Generation, x: Index, sources: nat)
    requires AllShow(s.tables, h) && id in s.tables && Shows(g, x) && OneActive(s.tables) && g.status == s.tables[id].status
    ensures AllShow(Activated(s.tables[id := g], id, sources), h[id := x])
  {
    hide Shows, Activated;
    OneShows(s.tables, h, id, g, x);
    ActivationShows(s.tables[id := g], h[id := x], id, sources);
  }

  /** Whatever the interleaving, the tables show exactly what happened: every indexed document by the chunks, texts and
      vectors of the result that settled its last job, every job with its input and the failures recorded against it. */
  lemma {:induction false} RunsShowHistory(ops: seq<Op>)
    ensures Sound(Run(ops)) && AllShow(Run(ops).tables, Past(ops))
  {
    hide Sound, Step, Next;
    RunsAreSound(ops);
    if ops == [] {
      NothingShown();
    } else {
      RunsShowHistory(ops[..|ops| - 1]);
      StepShows(Run(ops[..|ops| - 1]), Past(ops[..|ops| - 1]), ops[|ops| - 1]);
    }
  }

  lemma NothingShown()
    ensures AllShow(map[], map[])
  {
  }

  // ----- taking jobs

  /** The seconds a job waits after its first failures; after the eighth it is not tried again. */
  const DELAYS: seq<nat> := [10, 20, 40, 80, 160, 320, 640]

  /** When a job may be taken, from what went wrong with its present input. */
  lemma ReadyExactly(j: Job, w: Waiting, now: int)
    requires ShowsJob(j, w)
    ensures Ready(j, now) <==>
              w.failures == []
              || (var n := |w.failures|;
                  var last := w.failures[n - 1];
                  n < 8 && !last.terminal && now >= last.at + DELAYS[n - 1])
  {
    var n := |w.failures|;
    if 0 < n < 8 {
      Delays(n);
    }
  }

  lemma Delays(n: nat)
    requires 0 < n < 8
    ensures BACKOFF_BASE_SECS * Pow2(n) == DELAYS[n - 1]
  {
    if n > 1 {
      Delays(n - 1);
    }
  }

  /** Jobs are handed out as queued, the oldest first, and a ready job is left behind only for older ones. */
  lemma TakesOldestFirst(jobs: map<Uuid, Job>, now: int, limit: nat, taken: seq<Taken>)
    requires Takes(jobs, now, limit, taken)
    ensures forall t :: t in taken ==>
      t.content in jobs && Ready(jobs[t.content], now)
      && t == Taken(t.content, jobs[t.content].hash, jobs[t.content].text, jobs[t.content].header)
    ensures forall i, j :: 0 <= i < j < |taken| ==> Before(jobs, taken[i].content, taken[j].content)
    ensures forall c :: c in jobs && Ready(jobs[c], now) && (forall t :: t in taken ==> t.content != c) ==>
              |taken| == limit && forall t :: t in taken ==> Before(jobs, t.content, c)
  {
    hide Ready;
    forall c | c in jobs && Ready(jobs[c], now) && (forall t :: t in taken ==> t.content != c)
      ensures |taken| == limit && forall t :: t in taken ==> Before(jobs, t.content, c)
    {
      forall i | 0 <= i < |taken|
        ensures taken[i].content != c
      {
        assert taken[i] in taken;
      }
    }
  }

  /** Queued at an earlier moment, or at the same one with a smaller identifier. */
  predicate Before(jobs: map<Uuid, Job>, a: Uuid, b: Uuid) {
    a in jobs && b in jobs
    && (jobs[a].enqueued < jobs[b].enqueued || (jobs[a].enqueued == jobs[b].enqueued && a < b))
  }
}
