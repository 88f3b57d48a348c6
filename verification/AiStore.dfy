/** `AiStore` of `crates/notes-ai/src/store.rs`: its transactions as they run, each proved to be the step of
    the index it stands for. */
module AiStore {
  import opened Results
  import opened AiIndex
  import opened AiRuns
  import opened Bytes

  const MAX_ATTEMPTS: nat := 8
  const BACKOFF_BASE_SECS: nat := 5
  const MAX_ERROR_CHARS: nat := 2_000

  // ----- statements

  /** `delete_document_vectors`. */
  method DeleteVectors(g: Generation, c: Uuid) returns (h: Generation)
    ensures h == DeleteDocument(g, c)
  {
    var rowids := RowidsOf(g.rows, c);
    var vectors, todo := g.vectors, rowids;
    while todo != {}
      invariant todo <= rowids && vectors == g.vectors - (rowids - todo)
    {
      var r :| r in todo;
      vectors := vectors - {r};
      todo := todo - {r};
    }
    assert rowids - todo == rowids;
    h := g.(rows := RowsWithout(g.rows, c), vectors := vectors);
  }

  lemma LargestIs(s: set<nat>, m: nat)
    requires (forall x :: x in s ==> x <= m) && (m == 0 || m in s)
    ensures m == Largest(s)
  {
  }

  /** `next_vector_rowid`: one past the largest row identifier in use. */
  method NextVectorRowid(rows: map<Key, Row>) returns (r: nat)
    ensures r == NextRowid(rows)
  {
    var most: nat := 0;
    var todo := rows.Keys;
    while todo != {}
      invariant todo <= rows.Keys
      invariant forall k :: k in rows && k !in todo ==> rows[k].rowid <= most
      invariant most == 0 || most in AllRowids(rows)
    {
      var k :| k in todo;
      if rows[k].rowid > most {
        most := rows[k].rowid;
      }
      todo := todo - {k};
    }
    LargestIs(AllRowids(rows), most);
    r := most + 1;
  }

  /** The insertions for one document. No insertion meets a taken key: neither the vector table, nor the
      primary key, nor the unique row identifier of the mapping can be violated. */
  method InsertChunks(g: Generation, c: Uuid, hash: string, seqno: int, chunks: seq<Chunk>) returns (h: Generation)
    requires Consistent(g) && !Indexed(g.rows, c)
    requires forall i :: 0 <= i < |chunks| ==> chunks[i].index == i && |chunks[i].embedding| == g.dimensions
    ensures h == AddChunks(g, c, hash, seqno, chunks)
  {
    hide Linked, Numbered, NextRowid, Filled;
    h := g;
    for n := 0 to |chunks|
      invariant h == AddChunks(g, c, hash, seqno, chunks[..n])
    {
      AddedChunks(g, c, hash, seqno, chunks[..n]);
      var r := NextVectorRowid(h.rows);
      NextRowidIsFresh(h.rows, h.vectors);
      KeyFree(h.rows, c, hash, n);
      assert r !in h.vectors && (c, n) !in h.rows && forall k :: k in h.rows ==> h.rows[k].rowid != r;
      var vectors := h.vectors[r := chunks[n].embedding];
      var rows := h.rows[(c, chunks[n].index) := Row(chunks[n].text, r, hash, seqno)];
      assert chunks[..n + 1][..n] == chunks[..n];
      h := h.(rows := rows, vectors := vectors);
    }
    assert chunks[..|chunks|] == chunks;
  }

  /** The two updates of `activate_generation_if_complete`; the unique index on the active status holds
      after each. */
  method Activate(t: Tables, id: Uuid, sources: nat) returns (u: Tables)
    requires id in t && OneActive(t)
    ensures u == Activated(t, id, sources)
  {
    var pending := |t[id].jobs|;
    var indexed := |Contents(t[id].rows)|;
    if pending != 0 || indexed != sources {
      assert t[id].jobs == map[] ==> |t[id].jobs| == 0;
      return t;
    }
    assert t[id].jobs == map[];
    u := map x | x in t :: if t[x].status.Active? && x != id then t[x].(status := Retired) else t[x];
    assert forall x :: x in u && x != id ==> !u[x].status.Active?;
    u := u[id := u[id].(status := Active)];
  }

  // ----- reconcile

  function RowsIn(rows: map<Key, Row>, keep: set<Uuid>): map<Key, Row> { map k | k in rows && k.0 in keep :: rows[k] }

  ghost function VectorsIn(g: Generation, keep: set<Uuid>): map<nat, Embedding> {
    map r | r in g.vectors && exists k :: k in g.rows && k.0 in keep && g.rows[k].rowid == r :: g.vectors[r]
  }

  lemma AllKept(g: Generation, keep: set<Uuid>)
    requires Linked(g.rows, g.vectors) && Contents(g.rows) <= keep
    ensures RowsIn(g.rows, keep) == g.rows && VectorsIn(g, keep) == g.vectors
  {
    forall k | k in g.rows
      ensures k.0 in keep
    {
      assert k.0 in Contents(g.rows);
    }
  }

  lemma OneLessAt(g: Generation, keep: set<Uuid>, c: Uuid, r: nat)
    requires Linked(g.rows, g.vectors) && r in g.vectors
    ensures r in VectorsIn(g, keep - {c}) <==> r in VectorsIn(g, keep) && r !in RowidsOf(RowsIn(g.rows, keep), c)
  {
    var k :| k in g.rows && g.rows[k].rowid == r;
    var rows := RowsIn(g.rows, keep);
    assert r in RowidsOf(rows, c) <==> k.0 == c && c in keep by {
      if k.0 == c && c in keep {
        assert k in rows && rows[k].rowid == r;
      }
    }
  }

  lemma OneLess(g: Generation, keep: set<Uuid>, c: Uuid)
    requires Linked(g.rows, g.vectors) && c in keep
    ensures RowsWithout(RowsIn(g.rows, keep), c) == RowsIn(g.rows, keep - {c})
    ensures VectorsIn(g, keep) - RowidsOf(RowsIn(g.rows, keep), c) == VectorsIn(g, keep - {c})
  {
    hide Linked, RowidsOf;
    assert RowsWithout(RowsIn(g.rows, keep), c) == RowsIn(g.rows, keep - {c});
    var left, less := VectorsIn(g, keep) - RowidsOf(RowsIn(g.rows, keep), c), VectorsIn(g, keep - {c});
    forall r | r in g.vectors
      ensures r in less <==> r in left
    {
      OneLessAt(g, keep, c, r);
    }
    SameVectors(g.vectors, left, less);
  }

  lemma SameVectors(all: map<nat, Embedding>, a: map<nat, Embedding>, b: map<nat, Embedding>)
    requires (forall r :: r in a ==> r in all && a[r] == all[r]) && (forall r :: r in b ==> r in all && b[r] == all[r])
    requires forall r :: r in all ==> (r in a <==> r in b)
    ensures a == b
  {
  }

  lemma KeptAreReconciled(g: Generation, docs: map<Uuid, Document>)
    ensures RowsIn(g.rows, docs.Keys) == ReconciledRows(g.rows, docs)
    ensures VectorsIn(g, docs.Keys) == ReconciledVectors(g, docs)
  {
  }

  /** The current input hash of every indexed document. */
  method CurrentHashes(rows: map<Key, Row>) returns (current: map<Uuid, string>)
    requires Numbered(rows)
    ensures forall c :: if c in current then HashOf(rows, c) == Some(current[c]) else HashOf(rows, c) == None
  {
    current := map[];
    var todo := rows.Keys;
    while todo != {}
      invariant todo <= rows.Keys
      invariant forall c :: c in current ==> (c, 0) in rows && rows[(c, 0)].hash == current[c]
      invariant forall k :: k in rows && k !in todo ==> k.0 in current
    {
      var k :| k in todo;
      assert (k.0, k.1) in rows;
      current := current[k.0 := rows[k].hash];
      todo := todo - {k};
    }
    forall c | (c, 0) in rows
      ensures c in current
    {
      assert (c, 0).0 == c;
    }
  }

  /** The loop over the documents: settled ones lose their job, the others get one. */
  method EnqueueDocuments(g: Generation, docs: map<Uuid, Document>, seqno: int, now: int) returns (jobs: map<Uuid, Job>)
    requires Numbered(g.rows)
    ensures forall c :: c in docs ==> (c in jobs <==> HashOf(g.rows, c) != Some(docs[c].hash))
    ensures forall c :: c in docs && c in jobs ==> jobs[c] == Upserted(g.jobs, c, docs[c], seqno, now)
    ensures forall c :: c in jobs && c !in docs ==> c in g.jobs
  {
    hide Upserted, HashOf;
    var current := CurrentHashes(g.rows);
    jobs := g.jobs;
    var todo := docs.Keys;
    while todo != {}
      invariant todo <= docs.Keys
      invariant forall c :: c in docs && c !in todo ==> (c in jobs <==> HashOf(g.rows, c) != Some(docs[c].hash))
      invariant forall c :: c in docs && c !in todo && c in jobs ==> jobs[c] == Upserted(g.jobs, c, docs[c], seqno, now)
      invariant forall c :: c !in docs || c in todo ==> (c in jobs <==> c in g.jobs) && (c in jobs ==> jobs[c] == g.jobs[c])
    {
      var c :| c in todo;
      if c in current && current[c] == docs[c].hash {
        jobs := jobs - {c};
      } else {
        SameJob(jobs, g.jobs, c, docs[c], seqno, now);
        jobs := jobs[c := Upserted(jobs, c, docs[c], seqno, now)];
      }
      todo := todo - {c};
    }
  }

  lemma SameJob(a: map<Uuid, Job>, b: map<Uuid, Job>, c: Uuid, d: Document, seqno: int, now: int)
    requires (c in a <==> c in b) && (c in a ==> a[c] == b[c])
    ensures Upserted(a, c, d, seqno, now) == Upserted(b, c, d, seqno, now)
  {
  }

  /** Drops the vectors of every indexed document that is gone. */
  method DropStale(g: Generation, present: set<Uuid>) returns (h: Generation)
    requires Linked(g.rows, g.vectors)
    ensures h == g.(rows := RowsIn(g.rows, present), vectors := VectorsIn(g, present))
  {
    hide RowsIn, VectorsIn, RowsWithout, RowidsOf;
    var stale := Contents(g.rows) - present;
    var todo := stale;
    AllKept(g, present + todo);
    h := g;
    while todo != {}
      invariant todo <= stale && todo !! present
      invariant h == g.(rows := RowsIn(g.rows, present + todo), vectors := VectorsIn(g, present + todo))
    {
      var c :| c in todo;
      OneLess(g, present + todo, c);
      h := DeleteVectors(h, c);
      assert present + todo - {c} == present + (todo - {c});
      todo := todo - {c};
    }
    assert present + todo == present;
  }

  method DropStaleJobs(jobs: map<Uuid, Job>, present: set<Uuid>) returns (left: map<Uuid, Job>)
    ensures left == map c | c in jobs && c in present :: jobs[c]
  {
    left := jobs;
    var todo := jobs.Keys - present;
    while todo != {}
      invariant todo <= jobs.Keys - present
      invariant left == map c | c in jobs && (c in present || c in todo) :: jobs[c]
    {
      var c :| c in todo;
      left := left - {c};
      todo := todo - {c};
    }
  }

  // ----- take_jobs

  /** A job as it is handed to the embedder. */
  datatype Taken = Taken(content: Uuid, hash: string, text: string, header: string)

  /** Not given up, and past its back-off, which doubles with every attempt. */
  predicate Ready(j: Job, now: int) {
    && !j.terminal && j.retries < MAX_ATTEMPTS
    && (j.lastAttempt.Some? ==> now - j.lastAttempt.value >= BACKOFF_BASE_SECS * Pow2(j.retries))
  }

  predicate Earlier(jobs: map<Uuid, Job>, a: Uuid, b: Uuid)
    requires a in jobs && b in jobs
  {
    jobs[a].enqueued < jobs[b].enqueued || (jobs[a].enqueued == jobs[b].enqueued && a < b)
  }

  function TakenOf(jobs: map<Uuid, Job>, c: Uuid): Taken
    requires c in jobs
  {
    Taken(c, jobs[c].hash, jobs[c].text, jobs[c].header)
  }

  method Earliest(jobs: map<Uuid, Job>, todo: set<Uuid>) returns (c: Uuid)
    requires todo != {} && todo <= jobs.Keys
    ensures c in todo && forall d :: d in todo && d != c ==> Earlier(jobs, c, d)
  {
    c :| c in todo;
    var left := todo - {c};
    while left != {}
      invariant left <= todo && c in todo && c !in left
      invariant forall d :: d in todo && d !in left && d != c ==> Earlier(jobs, c, d)
    {
      var d :| d in left;
      if Earlier(jobs, d, c) {
        c := d;
      }
      left := left - {d};
    }
  }

  /** The earliest ready jobs, in order, as they stand in the table. */
  ghost predicate Takes(jobs: map<Uuid, Job>, now: int, limit: nat, taken: seq<Taken>) {
    && |taken| <= limit
    && (forall i :: 0 <= i < |taken| ==> taken[i].content in jobs && Ready(jobs[taken[i].content], now)
                                         && taken[i] == TakenOf(jobs, taken[i].content))
    && (forall i, j :: 0 <= i < j < |taken| ==> Earlier(jobs, taken[i].content, taken[j].content))
    && (forall c :: c in jobs && Ready(jobs[c], now) ==>
          (exists i :: 0 <= i < |taken| && taken[i].content == c)
          || (|taken| == limit && forall i :: 0 <= i < |taken| ==> Earlier(jobs, taken[i].content, c)))
  }

  method SelectJobs(jobs: map<Uuid, Job>, now: int, limit: nat) returns (taken: seq<Taken>)
    ensures Takes(jobs, now, limit, taken)
  {
    hide Ready;
    var ready := set c | c in jobs && Ready(jobs[c], now);
    var todo := ready;
    taken := [];
    while |taken| < limit && todo != {}
      invariant |taken| <= limit && todo <= ready
      invariant forall i :: 0 <= i < |taken| ==> taken[i].content in ready && taken[i] == TakenOf(jobs, taken[i].content)
      invariant forall i, c :: 0 <= i < |taken| && c in todo ==> Earlier(jobs, taken[i].content, c)
      invariant forall i, j :: 0 <= i < j < |taken| ==> Earlier(jobs, taken[i].content, taken[j].content)
      invariant forall c :: c in ready && c !in todo ==> exists i :: 0 <= i < |taken| && taken[i].content == c
      decreases |todo|
    {
      var c := Earliest(jobs, todo);
      ghost var before := taken;
      taken := taken + [TakenOf(jobs, c)];
      todo := todo - {c};
      forall d | d in ready && d !in todo
        ensures exists i :: 0 <= i < |taken| && taken[i].content == d
      {
        if d == c {
          assert taken[|before|].content == c;
        } else {
          var i :| 0 <= i < |before| && before[i].content == d;
          assert taken[i].content == d;
        }
      }
    }
    forall c | c in jobs && Ready(jobs[c], now) && c in todo
      ensures |taken| == limit && forall i :: 0 <= i < |taken| ==> Earlier(jobs, taken[i].content, c)
    {
    }
    forall c | c in jobs && Ready(jobs[c], now) && c !in todo
      ensures exists i :: 0 <= i < |taken| && taken[i].content == c
    {
      assert c in ready;
    }
  }

  // ----- write

  /** The checks on the chunks of one document. */
  method CheckChunks(d: Embedded, dimensions: nat) returns (ok: bool)
    ensures ok <==> WellFormed(d, dimensions)
  {
    if d.chunks == [] {
      return false;
    }
    for i := 0 to |d.chunks|
      invariant forall j :: 0 <= j < i ==> d.chunks[j].index == j && |d.chunks[j].embedding| == dimensions
    {
      if d.chunks[i].index != i || |d.chunks[i].embedding| != dimensions {
        return false;
      }
    }
    ok := true;
  }

  lemma WrittenConsistent(g: Generation, d: Embedded)
    requires Consistent(g) && WellFormed(d, g.dimensions)
    ensures Consistent(WriteOne(g, d)) && WriteOne(g, d).dimensions == g.dimensions
  {
    hide Linked, Numbered, DeleteDocument, AddChunks;
    if d.content in g.jobs && g.jobs[d.content].hash == d.hash {
      DeleteKeepsConsistent(g, d.content);
      KeepsDimensions(g, d.content);
      AddedChunks(DeleteDocument(g, d.content), d.content, d.hash, g.jobs[d.content].seqno, d.chunks);
    }
  }

  lemma KeepsDimensions(g: Generation, c: Uuid)
    ensures DeleteDocument(g, c).dimensions == g.dimensions && DeleteDocument(g, c).jobs == g.jobs
  {
  }

  /** One document of the loop in `write_embeddings`, after its checks. */
  method WriteDocument(g: Generation, d: Embedded) returns (h: Generation)
    requires Consistent(g) && WellFormed(d, g.dimensions)
    ensures h == WriteOne(g, d)
  {
    hide Consistent, DeleteDocument, AddChunks;
    if d.content !in g.jobs || g.jobs[d.content].hash != d.hash {
      return g;
    }
    var seqno := g.jobs[d.content].seqno;
    h := DeleteVectors(g, d.content);
    DeleteKeepsConsistent(g, d.content);
    KeepsDimensions(g, d.content);
    h := InsertChunks(h, d.content, d.hash, seqno, d.chunks);
    h := h.(jobs := g.jobs - {d.content});
  }

  /** The document loop; nothing when a document fails its checks. */
  method WriteDocuments(g: Generation, items: seq<Embedded>) returns (r: Option<Generation>)
    requires Consistent(g)
    ensures r == if AllWellFormed(items, g.dimensions) then Some(WriteAll(g, items)) else None
  {
    hide Consistent, WriteOne, WellFormed;
    var h := g;
    for i := 0 to |items|
      invariant AllWellFormed(items[..i], g.dimensions)
      invariant h == WriteAll(g, items[..i]) && Consistent(h) && h.dimensions == g.dimensions
    {
      var ok := CheckChunks(items[i], h.dimensions);
      if !ok {
        assert items[i] in items;
        return None;
      }
      assert items[..i + 1][..i] == items[..i];
      WrittenConsistent(h, items[i]);
      h := WriteDocument(h, items[i]);
    }
    assert items[..|items|] == items;
    r := Some(h);
  }

  /** The message, or its first 2,000 characters. */
  predicate Shortened(error: string, kept: string) { kept <= error && (kept == error || |kept| == MAX_ERROR_CHARS) && |kept| <= MAX_ERROR_CHARS }

  // ----- the store

  class Database {
    var tables: Tables
    ghost var seen: map<Uuid, Seen>

    constructor ()
      ensures Now() == State(map[], map[])
    {
      tables, seen := map[], map[];
    }

    ghost function Now(): State
      reads this
    {
      State(tables, seen)
    }
  }

  /** A handle on one generation; several handles may share a database. */
  class Store {
    const db: Database
    const id: Uuid

    ghost predicate Valid()
      reads db
    {
      id in db.tables && Sound(db.Now())
    }

    constructor (db: Database, id: Uuid)
      ensures this.db == db && this.id == id
    {
      this.db, this.id := db, id;
    }

    method ResetIndex()
      requires Valid()
      modifies db
      ensures Valid() && db.Now() == Step(old(db.Now()), ResetOp(id))
    {
      hide Consistent, Tracks, OneActive;
      var g := db.tables[id];
      g := g.(vectors := map[]);
      g := g.(rows := map[]);
      g := g.(jobs := map[]);
      g := g.(status := Building, cursor := None, sources := 0);
      StepKeeps(db.Now(), ResetOp(id));
      db.seen := db.seen[id := None];
      db.tables := db.tables[id := g];
    }

    /** The early return of `reconcile`: the recorded count, when the cursor has not moved. */
    method RecordedCount(token: string) returns (r: Option<nat>)
      requires Valid()
      ensures r == if db.tables[id].cursor == Some(token) then Some(db.tables[id].sources) else None
    {
      hide Consistent, Tracks, OneActive;
      r := if db.tables[id].cursor == Some(token) then Some(db.tables[id].sources) else None;
    }

    /** The transaction of `reconcile`. */
    method Reconcile(docs: map<Uuid, Document>, token: string, seqno: int, now: int)
      requires Valid()
      modifies db
      ensures Valid() && db.Now() == Step(old(db.Now()), ReconcileOp(id, docs, token, seqno, now))
    {
      hide Linked, Numbered, HashOf, Upserted, Activated, RowsIn, VectorsIn, ReconciledRows, ReconciledVectors, Tracks,
           OneActive;
      var g := db.tables[id];
      var enqueued := EnqueueDocuments(g, docs, seqno, now);
      var h := DropStale(g, docs.Keys);
      KeptAreReconciled(g, docs);
      var jobs := DropStaleJobs(enqueued, docs.Keys);
      assert jobs == ReconciledJobs(g, docs, seqno, now);
      h := h.(jobs := jobs);
      h := h.(cursor := Some(token), sources := |docs|);
      assert h == Reconciled(g, docs, token, seqno, now);
      var t := db.tables[id := h];
      SameStatuses(db.tables, id, h);
      t := Activate(t, id, |docs|);
      StepKeeps(db.Now(), ReconcileOp(id, docs, token, seqno, now));
      StillThere(db.tables, id, h, |docs|);
      db.seen := db.seen[id := Some(Hashes(docs))];
      db.tables := t;
    }

    /** `take_jobs`: reads only, so the same job may be taken again before its result arrives. */
    method TakeJobs(limit: nat, now: int) returns (taken: seq<Taken>)
      requires Valid()
      ensures Takes(db.tables[id].jobs, now, limit, taken)
    {
      taken := SelectJobs(db.tables[id].jobs, now, limit);
    }

    /** `record_failure`; of a long message the beginning is kept. */
    method RecordFailure(taken: seq<(Uuid, string)>, error: string, terminal: bool, now: int)
      requires Valid()
      modifies db
      ensures Valid() && exists kept :: Shortened(error, kept) && db.Now() == Step(old(db.Now()), FailOp(id, taken, kept, terminal, now))
    {
      hide Consistent, Tracks, OneActive;
      var kept := if |error| <= MAX_ERROR_CHARS then error else error[..MAX_ERROR_CHARS];
      var g := db.tables[id];
      var jobs := g.jobs;
      for i := 0 to |taken|
        invariant jobs == FailAll(g.jobs, taken[..i], kept, terminal, now)
      {
        assert taken[..i + 1][..i] == taken[..i];
        jobs := FailOne(jobs, taken[i].0, taken[i].1, kept, terminal, now);
      }
      assert taken[..|taken|] == taken;
      StepKeeps(db.Now(), FailOp(id, taken, kept, terminal, now));
      db.tables := db.tables[id := g.(jobs := jobs)];
      assert Shortened(error, kept);
    }

    /** `write_embeddings`: a failed check rolls the transaction back. */
    method WriteEmbeddings(sources: nat, items: seq<Embedded>) returns (ok: bool)
      requires Valid()
      modifies db
      ensures ok == AllWellFormed(items, old(db.tables)[id].dimensions)
      ensures Valid() && db.Now() == Step(old(db.Now()), WriteOp(id, sources, items))
      ensures !ok ==> db.tables == old(db.tables)
    {
      hide Consistent, Activated, AllWellFormed, Tracks, OneActive;
      var g := db.tables[id];
      var r := WriteDocuments(g, items);
      if r.None? {
        return false;
      }
      KeepsStatus(g, items);
      SameStatuses(db.tables, id, r.value);
      var t := Activate(db.tables[id := r.value], id, sources);
      StepKeeps(db.Now(), WriteOp(id, sources, items));
      StillThere(db.tables, id, r.value, sources);
      db.tables := t;
      ok := true;
    }
  }

  lemma StillThere(t: Tables, id: Uuid, g: Generation, sources: nat)
    ensures id in Activated(t[id := g], id, sources)
  {
    hide Complete;
  }

  lemma SameStatuses(t: Tables, id: Uuid, g: Generation)
    requires id in t && t[id].status == g.status
    ensures OneActive(t) ==> OneActive(t[id := g])
  {
  }

  lemma {:induction false} AddKeepsStatus(g: Generation, c: Uuid, hash: string, seqno: int, chunks: seq<Chunk>)
    ensures AddChunks(g, c, hash, seqno, chunks).status == g.status
  {
    if chunks != [] {
      AddKeepsStatus(g, c, hash, seqno, chunks[..|chunks| - 1]);
    }
  }

  lemma {:induction false} KeepsStatus(g: Generation, items: seq<Embedded>)
    ensures WriteAll(g, items).status == g.status
  {
    if items != [] {
      var before, d := WriteAll(g, items[..|items| - 1]), items[|items| - 1];
      KeepsStatus(g, items[..|items| - 1]);
      if d.content in before.jobs {
        AddKeepsStatus(DeleteDocument(before, d.content), d.content, d.hash, before.jobs[d.content].seqno, d.chunks);
      }
    }
  }
}
